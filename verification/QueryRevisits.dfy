/** The walk visits nested function calls first on their own and again among the arguments, to any depth.
  * When is that the same as visiting each call once, from the top down? */
module QueryRevisits {
  import opened Checkpoint
  import opened QueryTree
  import opened FunctionRemapper
  import opened QueryResolution

  // The trees on which it is

  predicate Settled(e: Expr) {
    !(e.FuncCall? && StampsTwice(e.call))
  }

  /** No argument of the rewritten call is one that is stamped twice, at any depth. */
  predicate StableCall(lookup: Lookup, c: Call)
    decreases SizeOfCall(c), 0, 0
  {
    var args := Rewritten(lookup, c).args;
    RewrittenIsSmaller(lookup, c);
    (forall i :: 0 <= i < |args| ==> Settled(args[i])) && StableAll(lookup, args)
  }

  predicate StableExpr(lookup: Lookup, e: Expr)
    decreases Size(e), 1, 0
  {
    match e
    case Operator(_, _, left, right) => StableOption(lookup, left) && StableOption(lookup, right)
    case Bool(_, args) => StableAll(lookup, args)
    case Case(_, branches) => StableAll(lookup, branches)
    case Coalesce(values) => StableSubLinks(lookup, values)
    case NullTest(arg) => StableExpr(lookup, arg)
    case TypeCast(value, _) => StableOption(lookup, value)
    case SubLink(_, query) => StableSelect(lookup, query)
    case FuncCall(call) => StableCall(lookup, call)
    case _ => true
  }

  predicate StableOption(lookup: Lookup, e: Option<Expr>)
    decreases SizeOfOption(e), 2, 0
  {
    match e
    case None => true
    case Some(value) => StableExpr(lookup, value)
  }

  predicate StableAll(lookup: Lookup, es: seq<Expr>)
    decreases SizeOfAll(es), 2, 0
  {
    forall i | 0 <= i < |es| :: SizeOfMember(es, i); StableExpr(lookup, es[i])
  }

  predicate StableSubLinks(lookup: Lookup, es: seq<Expr>)
    decreases SizeOfAll(es), 2, 0
  {
    forall i | 0 <= i < |es| && es[i].SubLink? :: SizeOfMember(es, i); StableExpr(lookup, es[i])
  }

  predicate StableFunctions(lookup: Lookup, es: seq<Expr>)
    decreases SizeOfAll(es), 2, 0
  {
    forall i | 0 <= i < |es| && es[i].FuncCall? :: SizeOfMember(es, i); StableExpr(lookup, es[i])
  }

  predicate StableTargets(lookup: Lookup, targets: seq<Option<Expr>>)
    decreases SizeOfTargets(targets), 3, 0
  {
    forall i | 0 <= i < |targets| :: SizeOfTarget(targets, i); StableOption(lookup, targets[i])
  }

  predicate StableFrom(lookup: Lookup, f: From)
    decreases SizeOfFrom(f), 1, 0
  {
    match f
    case Subselect(query) => StableSelect(lookup, query)
    case TableFunction(functions) => StableFunctions(lookup, functions)
    case Join(left, right, quals) => StableFrom(lookup, left) && StableFrom(lookup, right) && StableOption(lookup, quals)
    case _ => true
  }

  predicate StableFroms(lookup: Lookup, fs: seq<From>)
    decreases SizeOfFroms(fs), 2, 0
  {
    forall i | 0 <= i < |fs| :: SizeOfItem(fs, i); StableFrom(lookup, fs[i])
  }

  predicate StableCte(lookup: Lookup, cte: Cte)
    decreases SizeOfQuery(cte), 2, 0
  {
    match cte.query
    case None => true
    case Some(query) => StableSelect(lookup, query)
  }

  predicate StableCtes(lookup: Lookup, ctes: seq<Cte>)
    decreases SizeOfCtes(ctes), 3, 0
  {
    forall i | 0 <= i < |ctes| :: SizeOfCte(ctes, i); StableCte(lookup, ctes[i])
  }

  predicate StableSelect(lookup: Lookup, s: Select)
    decreases SizeOfSelect(s), 1, 0
  {
    && (match s.with case None => true case Some(with) => StableCtes(lookup, with.ctes))
    && (IsUnion(s) ==> StableSelect(lookup, s.larg.value) && StableSelect(lookup, s.rarg.value))
    && ((s.where.Some? && RemovesWhere(s.where.value)) || StableOption(lookup, s.where))
    && StableFroms(lookup, s.from)
    && StableAll(lookup, s.sort) && StableAll(lookup, s.group) && StableTargets(lookup, s.targets)
  }

  // Any number of first visits

  function Repeated(lookup: Lookup, k: nat, e: Expr): Expr {
    if k == 0 then e else Repeated(lookup, k - 1, NestedArgument(lookup, e))
  }

  function RepeatedAll(lookup: Lookup, k: nat, es: seq<Expr>): (repeated: seq<Expr>)
    ensures |repeated| == |es|
  {
    seq(|es|, i requires 0 <= i < |es| => Repeated(lookup, k, es[i]))
  }

  lemma {:induction false} OneMore(lookup: Lookup, k: nat, e: Expr)
    ensures NestedArgument(lookup, Repeated(lookup, k, e)) == Repeated(lookup, k + 1, e)
  {
    hide NestedArgument;
    if k > 0 {
      OneMore(lookup, k - 1, NestedArgument(lookup, e));
    }
  }

  lemma OneMoreOfAll(lookup: Lookup, k: nat, es: seq<Expr>)
    ensures NestedArguments(lookup, RepeatedAll(lookup, k, es)) == RepeatedAll(lookup, k + 1, es)
    ensures RepeatedAll(lookup, k, NestedArguments(lookup, es)) == RepeatedAll(lookup, k + 1, es)
    ensures RepeatedAll(lookup, 0, es) == es
  {
    hide NestedArgument;
    forall i | 0 <= i < |es|
      ensures NestedArguments(lookup, RepeatedAll(lookup, k, es))[i] == RepeatedAll(lookup, k + 1, es)[i]
    {
      OneMore(lookup, k, es[i]);
    }
  }

  lemma {:induction false} OnlyCallsChange(lookup: Lookup, k: nat, e: Expr)
    requires !e.FuncCall?
    ensures Repeated(lookup, k, e) == e
  {
    if k > 0 {
      OnlyCallsChange(lookup, k - 1, e);
    }
  }

  /** Whether a call is rewritten does not depend on what its arguments are. */
  lemma NotHandledByShape(lookup: Lookup, c: Call, args: seq<Expr>)
    requires !RemapFunctionCall(lookup, c).Handled? && |args| == |c.args|
    ensures RemapFunctionCall(lookup, c.(args := args)) == RemapFunctionCall(lookup, c)
  {
    hide SpecialOf, IsPgCatalogMacro, IsBuiltin, IsInformationSchemaMacro;
  }

  lemma {:induction false} RepeatNotHandled(lookup: Lookup, k: nat, c: Call)
    requires !RemapFunctionCall(lookup, c).Handled?
    ensures Repeated(lookup, k, FuncCall(c)) == FuncCall(c.(args := RepeatedAll(lookup, k, c.args)))
  {
    hide RemapFunctionCall, RepeatedAll, NestedArguments;
    if k == 0 {
      OneMoreOfAll(lookup, 0, c.args);
      assert c.(args := c.args) == c;
    } else {
      OneMoreOfAll(lookup, k - 1, c.args);
      assert NestedArgument(lookup, FuncCall(c)) == FuncCall(NestedCalls(lookup, c));
      var nested := NestedArguments(lookup, c.args);
      NotHandledByShape(lookup, c, nested);
      RepeatNotHandled(lookup, k - 1, c.(args := nested));
    }
  }

  lemma {:induction false} RepeatFixed(lookup: Lookup, k: nat, c: Call)
    requires RemapFunctionCall(lookup, c) == Handled(c)
    ensures Repeated(lookup, k, FuncCall(c)) == FuncCall(c)
  {
    hide RemapFunctionCall;
    if k > 0 {
      RepeatFixed(lookup, k - 1, c);
    }
  }

  lemma ResolvedCall(lookup: Lookup, visible: set<string>, c: Call)
    ensures ResolveExpr(lookup, visible, true, FuncCall(c)) ==
      FuncCall(Rewritten(lookup, c).(args := ResolveAll(lookup, visible, true, NestedArguments(lookup, Rewritten(lookup, c).args))))
    ensures ResolveExpr(lookup, visible, false, FuncCall(c)) ==
      FuncCall(Rewritten(lookup, c).(args := ResolveAll(lookup, visible, false, Rewritten(lookup, c).args)))
  {
    hide Rewritten, ResolveAll, NestedArguments;
  }

  /** Visited `k` times and then walked, a call ends up rewritten once, its arguments visited at least once more. */
  lemma CallPasses(lookup: Lookup, visible: set<string>, c: Call, k: nat) returns (j: nat)
    requires k > 0 ==> !StampsTwice(c)
    ensures j > 0
    ensures var r := Rewritten(lookup, c);
      ResolveExpr(lookup, visible, true, Repeated(lookup, k, FuncCall(c)))
      == FuncCall(r.(args := ResolveAll(lookup, visible, true, RepeatedAll(lookup, j, r.args))))
  {
    hide RemapFunctionCall, ResolveAll, RepeatedAll, NestedArguments, StampsTwice, ResolveExpr, NestedCalls;
    var r := Rewritten(lookup, c);
    OneMoreOfAll(lookup, 0, r.args);
    if k == 0 {
      ResolvedCall(lookup, visible, c);
      j := 1;
    } else if RemapFunctionCall(lookup, c).Handled? {
      SecondVisit(lookup, c);
      if RemapFunctionCall(lookup, r).Handled? {
        RepeatFixed(lookup, k - 1, r);
        ResolvedCall(lookup, visible, r);
        j := 1;
      } else {
        RepeatedThenResolved(lookup, visible, r, k - 1);
        j := k;
      }
    } else {
      RepeatedThenResolved(lookup, visible, c, k);
      j := k + 1;
    }
  }

  lemma RepeatedThenResolved(lookup: Lookup, visible: set<string>, c: Call, k: nat)
    requires !RemapFunctionCall(lookup, c).Handled?
    ensures ResolveExpr(lookup, visible, true, Repeated(lookup, k, FuncCall(c)))
      == FuncCall(c.(args := ResolveAll(lookup, visible, true, RepeatedAll(lookup, k + 1, c.args))))
  {
    hide RemapFunctionCall, ResolveAll, RepeatedAll, NestedArguments, ResolveExpr, Repeated;
    RepeatNotHandled(lookup, k, c);
    var d := c.(args := RepeatedAll(lookup, k, c.args));
    NotHandledByShape(lookup, c, d.args);
    ResolvedCall(lookup, visible, d);
    OneMoreOfAll(lookup, k, c.args);
  }

  lemma StampedTwice(lookup: Lookup, visible: set<string>, c: Call, k: nat)
    requires StampsTwice(c) && k > 0
    ensures ResolveExpr(lookup, visible, true, Repeated(lookup, k, FuncCall(c)))
         != ResolveExpr(lookup, visible, false, FuncCall(c))
  {
    hide RemapFunctionCall, ResolveAll, RepeatedAll, NestedArguments, ResolveExpr, NestedCalls, StampsTwice;
    SecondVisit(lookup, c);
    ResolvedCall(lookup, visible, c);
    var r := Rewritten(lookup, c);
    var w := Rewritten(lookup, r);
    StampsHandled(lookup, c);
    if k == 1 {
      ResolvedCall(lookup, visible, r);
    } else {
      ReplacementIsIgnored(lookup, w);
      RepeatedThenResolved(lookup, visible, w, k - 2);
    }
    var m, n := |r.name|, |w.name|;
  }

  lemma StampsHandled(lookup: Lookup, c: Call)
    requires StampsTwice(c)
    ensures RemapFunctionCall(lookup, c).Handled?
  {
    hide SpecialOf, IsMacro, ConstStringValue;
  }

  // The comparison

  /** Visited any number of times on its own and then walked, an expression becomes what a single pass makes
    * of it if and only if it is stable. */
  lemma {:induction false} ExprVisitedTwice(lookup: Lookup, visible: set<string>, e: Expr, k: nat)
    ensures ResolveExpr(lookup, visible, true, Repeated(lookup, k, e)) == ResolveExpr(lookup, visible, false, e)
      <==> StableExpr(lookup, e) && (k > 0 ==> Settled(e))
    decreases Size(e), 1, 0
  {
    if e.FuncCall? {
      CallVisitedTwice(lookup, visible, e.call, k);
    } else {
      hide Repeated, ResolveOption, ResolveAll, ResolveSubLinks, ResolveSelect, ResolveCall, StableOption, StableAll,
        StableSubLinks, StableSelect, StableCall, NestedCalls, Rewritten;
      OnlyCallsChange(lookup, k, e);
      match e
      case Operator(_, _, left, right) =>
        OptionVisitedTwice(lookup, visible, left);
        OptionVisitedTwice(lookup, visible, right);
      case Bool(_, args) =>
        AllVisitedTwice(lookup, visible, args);
      case Case(_, branches) =>
        AllVisitedTwice(lookup, visible, branches);
      case Coalesce(values) =>
        SubLinksVisitedTwice(lookup, visible, values);
      case NullTest(arg) =>
        ExprVisitedTwice(lookup, visible, arg, 0);
        assert Repeated(lookup, 0, arg) == arg by { NotRepeated(lookup, arg); }
      case TypeCast(value, _) =>
        OptionVisitedTwice(lookup, visible, value);
      case SubLink(_, query) =>
        SelectVisitedTwice(lookup, visible, query);
      case _ =>
    }
  }

  lemma NotRepeated(lookup: Lookup, e: Expr)
    ensures Repeated(lookup, 0, e) == e
  {
  }

  lemma {:induction false} CallVisitedTwice(lookup: Lookup, visible: set<string>, c: Call, k: nat)
    ensures ResolveExpr(lookup, visible, true, Repeated(lookup, k, FuncCall(c)))
         == ResolveExpr(lookup, visible, false, FuncCall(c))
      <==> StableCall(lookup, c) && (k > 0 ==> !StampsTwice(c))
    decreases SizeOfCall(c), 0, 0
  {
    hide Rewritten, ResolveAll, RepeatedAll, ResolveExpr, StampsTwice, Repeated, SizeOfAll;
    if k > 0 && StampsTwice(c) {
      StampedTwice(lookup, visible, c, k);
    } else {
      var j := CallPasses(lookup, visible, c, k);
      ResolvedCall(lookup, visible, c);
      RewrittenIsSmaller(lookup, c);
      ArgumentsVisitedTwice(lookup, visible, Rewritten(lookup, c).args, j);
    }
  }

  lemma {:induction false} ArgumentsVisitedTwice(lookup: Lookup, visible: set<string>, args: seq<Expr>, j: nat)
    requires j > 0
    ensures ResolveAll(lookup, visible, true, RepeatedAll(lookup, j, args)) == ResolveAll(lookup, visible, false, args)
      <==> (forall i :: 0 <= i < |args| ==> Settled(args[i])) && StableAll(lookup, args)
    decreases SizeOfAll(args), 2, 0
  {
    hide ResolveExpr, StableExpr, Settled, Repeated;
    var twice, once := ResolveAll(lookup, visible, true, RepeatedAll(lookup, j, args)), ResolveAll(lookup, visible, false, args);
    forall i | 0 <= i < |args| ensures twice[i] == once[i] <==> StableExpr(lookup, args[i]) && Settled(args[i]) {
      SizeOfMember(args, i);
      ExprVisitedTwice(lookup, visible, args[i], j);
    }
    assert twice == once <==> forall i :: 0 <= i < |args| ==> twice[i] == once[i];
  }

  lemma {:induction false} OptionVisitedTwice(lookup: Lookup, visible: set<string>, e: Option<Expr>)
    ensures ResolveOption(lookup, visible, true, e) == ResolveOption(lookup, visible, false, e) <==> StableOption(lookup, e)
    decreases SizeOfOption(e), 2, 0
  {
    hide ResolveExpr, StableExpr;
    if e.Some? {
      ExprVisitedTwice(lookup, visible, e.value, 0);
    }
  }

  lemma {:induction false} AllVisitedTwice(lookup: Lookup, visible: set<string>, es: seq<Expr>)
    ensures ResolveAll(lookup, visible, true, es) == ResolveAll(lookup, visible, false, es) <==> StableAll(lookup, es)
    decreases SizeOfAll(es), 2, 0
  {
    hide ResolveExpr, StableExpr;
    var twice, once := ResolveAll(lookup, visible, true, es), ResolveAll(lookup, visible, false, es);
    forall i | 0 <= i < |es| ensures twice[i] == once[i] <==> StableExpr(lookup, es[i]) {
      SizeOfMember(es, i);
      ExprVisitedTwice(lookup, visible, es[i], 0);
    }
    assert twice == once <==> forall i :: 0 <= i < |es| ==> twice[i] == once[i];
  }

  lemma {:induction false} SubLinksVisitedTwice(lookup: Lookup, visible: set<string>, es: seq<Expr>)
    ensures ResolveSubLinks(lookup, visible, true, es) == ResolveSubLinks(lookup, visible, false, es)
      <==> StableSubLinks(lookup, es)
    decreases SizeOfAll(es), 2, 0
  {
    hide ResolveExpr, StableExpr;
    var twice, once := ResolveSubLinks(lookup, visible, true, es), ResolveSubLinks(lookup, visible, false, es);
    forall i | 0 <= i < |es| ensures twice[i] == once[i] <==> (es[i].SubLink? ==> StableExpr(lookup, es[i])) {
      SizeOfMember(es, i);
      ExprVisitedTwice(lookup, visible, es[i], 0);
    }
    assert twice == once <==> forall i :: 0 <= i < |es| ==> twice[i] == once[i];
  }

  lemma {:induction false} FunctionsVisitedTwice(lookup: Lookup, visible: set<string>, es: seq<Expr>)
    ensures ResolveFunctions(lookup, visible, true, es) == ResolveFunctions(lookup, visible, false, es)
      <==> StableFunctions(lookup, es)
    decreases SizeOfAll(es), 2, 0
  {
    hide ResolveExpr, StableExpr;
    var twice, once := ResolveFunctions(lookup, visible, true, es), ResolveFunctions(lookup, visible, false, es);
    forall i | 0 <= i < |es| ensures twice[i] == once[i] <==> (es[i].FuncCall? ==> StableExpr(lookup, es[i])) {
      SizeOfMember(es, i);
      ExprVisitedTwice(lookup, visible, es[i], 0);
    }
    assert twice == once <==> forall i :: 0 <= i < |es| ==> twice[i] == once[i];
  }

  lemma {:induction false} TargetsVisitedTwice(lookup: Lookup, visible: set<string>, targets: seq<Option<Expr>>)
    ensures ResolveTargets(lookup, visible, true, targets) == ResolveTargets(lookup, visible, false, targets)
      <==> StableTargets(lookup, targets)
    decreases SizeOfTargets(targets), 3, 0
  {
    hide ResolveOption, StableOption;
    var twice, once := ResolveTargets(lookup, visible, true, targets), ResolveTargets(lookup, visible, false, targets);
    forall i | 0 <= i < |targets| ensures twice[i] == once[i] <==> StableOption(lookup, targets[i]) {
      SizeOfTarget(targets, i);
      OptionVisitedTwice(lookup, visible, targets[i]);
    }
    assert twice == once <==> forall i :: 0 <= i < |targets| ==> twice[i] == once[i];
  }

  lemma {:induction false} FromVisitedTwice(lookup: Lookup, visible: set<string>, f: From)
    ensures ResolveFrom(lookup, visible, true, f) == ResolveFrom(lookup, visible, false, f) <==> StableFrom(lookup, f)
    decreases SizeOfFrom(f), 1, 0
  {
    hide ResolveOption, ResolveFunctions, ResolveSelect, StableOption, StableFunctions, StableSelect;
    match f
    case Subselect(query) =>
      SelectVisitedTwice(lookup, visible, query);
    case TableFunction(functions) =>
      FunctionsVisitedTwice(lookup, visible, functions);
    case Join(left, right, quals) =>
      FromVisitedTwice(lookup, visible, left);
      FromVisitedTwice(lookup, visible, right);
      OptionVisitedTwice(lookup, visible, quals);
    case _ =>
  }

  lemma {:induction false} FromsVisitedTwice(lookup: Lookup, visible: set<string>, fs: seq<From>)
    ensures ResolveFroms(lookup, visible, true, fs) == ResolveFroms(lookup, visible, false, fs) <==> StableFroms(lookup, fs)
    decreases SizeOfFroms(fs), 2, 0
  {
    hide ResolveFrom, StableFrom;
    var twice, once := ResolveFroms(lookup, visible, true, fs), ResolveFroms(lookup, visible, false, fs);
    forall i | 0 <= i < |fs| ensures twice[i] == once[i] <==> StableFrom(lookup, fs[i]) {
      SizeOfItem(fs, i);
      FromVisitedTwice(lookup, visible, fs[i]);
    }
    assert twice == once <==> forall i :: 0 <= i < |fs| ==> twice[i] == once[i];
  }

  lemma {:induction false} CteVisitedTwice(lookup: Lookup, visible: set<string>, cte: Cte)
    ensures ResolveCte(lookup, visible, true, cte) == ResolveCte(lookup, visible, false, cte) <==> StableCte(lookup, cte)
    decreases SizeOfQuery(cte), 2, 0
  {
    hide ResolveSelect, StableSelect;
    if cte.query.Some? {
      SelectVisitedTwice(lookup, visible, cte.query.value);
    }
  }

  lemma {:induction false} CtesVisitedTwice(lookup: Lookup, visible: set<string>, with: With)
    ensures ResolveCtes(lookup, visible, true, with) == ResolveCtes(lookup, visible, false, with)
      <==> StableCtes(lookup, with.ctes)
    decreases SizeOfCtes(with.ctes), 3, 0
  {
    hide ResolveCte, StableCte;
    var twice, once := ResolveCtes(lookup, visible, true, with), ResolveCtes(lookup, visible, false, with);
    forall i | 0 <= i < |with.ctes| ensures twice[i] == once[i] <==> StableCte(lookup, with.ctes[i]) {
      SizeOfCte(with.ctes, i);
      CteVisitedTwice(lookup, visible + BodyNames(with, i), with.ctes[i]);
    }
    assert twice == once <==> forall i :: 0 <= i < |with.ctes| ==> twice[i] == once[i];
  }

  /** The walk over a whole SELECT is a single top-down pass exactly on the stable ones. */
  lemma {:induction false} SelectVisitedTwice(lookup: Lookup, visible: set<string>, s: Select)
    ensures ResolveSelect(lookup, visible, true, s) == ResolveSelect(lookup, visible, false, s) <==> StableSelect(lookup, s)
    decreases SizeOfSelect(s), 1, 0
  {
    hide ResolveOption, ResolveAll, ResolveFroms, ResolveTargets, ResolveCtes, StableOption, StableAll, StableFroms,
      StableTargets, StableCtes, RemovesWhere, NamesOf;
    var inner := visible + NamesOf(s.with);
    if s.with.Some? {
      CtesVisitedTwice(lookup, visible, s.with.value);
    }
    if IsUnion(s) {
      SelectVisitedTwice(lookup, inner, s.larg.value);
      SelectVisitedTwice(lookup, inner, s.rarg.value);
    }
    OptionVisitedTwice(lookup, inner, s.where);
    FromsVisitedTwice(lookup, inner, s.from);
    AllVisitedTwice(lookup, inner, s.sort);
    AllVisitedTwice(lookup, inner, s.group);
    TargetsVisitedTwice(lookup, inner, s.targets);
  }

  /** For example upper(bemidb_last_synced_at('public.t', 'YYYY')), whatever the lookups say. */
  lemma NestedStampIsVisitedTwice(lookup: Lookup, visible: set<string>)
    ensures var stamp := FuncCall(Bare("bemidb_last_synced_at", [Const(Text("public.t")), Const(Text("YYYY"))], false));
      var e := FuncCall(Bare("upper", [stamp], false));
      ResolveExpr(lookup, visible, true, e) != ResolveExpr(lookup, visible, false, e)
  {
    hide ResolveExpr, StableExpr, IsPgCatalogMacro, IsBuiltin, IsInformationSchemaMacro, StableAll;
    var stamp := Bare("bemidb_last_synced_at", [Const(Text("public.t")), Const(Text("YYYY"))], false);
    var c := Bare("upper", [FuncCall(stamp)], false);
    UpperIsIgnored(lookup, c);
    assert StampsTwice(stamp) by {
      LastSyncedAtIsNoMacro(stamp);
    }
    assert c.args[0] == FuncCall(stamp) && !Settled(c.args[0]);
    CallVisitedTwice(lookup, visible, c, 0);
    NotRepeated(lookup, FuncCall(c));
  }

  lemma UpperIsIgnored(lookup: Lookup, c: Call)
    requires c.name == "upper"
    ensures Rewritten(lookup, c) == c
  {
    hide IsPgCatalogMacro, IsBuiltin, IsInformationSchemaMacro;
    assert !SpelledLikeMacro(c.name);
    if IsMacro(c) {
      MacroSpelling(c.name);
    }
    var n, a := |c.name|, c.name[0];
  }

  lemma LastSyncedAtIsNoMacro(c: Call)
    requires c.name == "bemidb_last_synced_at"
    ensures !IsMacro(c) && SpecialOf(c.name) == LastSyncedAt
  {
    hide IsPgCatalogMacro, IsBuiltin, IsInformationSchemaMacro;
    assert !SpelledLikeMacro(c.name);
    if IsMacro(c) {
      MacroSpelling(c.name);
    }
    var n, a := |c.name|, c.name[0];
  }
}
