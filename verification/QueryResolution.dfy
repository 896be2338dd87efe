/** What the walk over a SELECT is meant to compute, with the visible WITH names passed down. */
module QueryResolution {
  import opened Checkpoint
  import opened QueryTree
  import opened FunctionRemapper

  // The first visit of nested calls

  /** RemapNestedFunctionCalls: calls that are direct arguments, and theirs, down to those rewritten. */
  function NestedCalls(lookup: Lookup, c: Call): Call
    decreases SizeOfCall(c), 0
  {
    c.(args := NestedArguments(lookup, c.args))
  }

  function NestedArguments(lookup: Lookup, args: seq<Expr>): (nested: seq<Expr>)
    ensures |nested| == |args|
    decreases SizeOfAll(args), 2
  {
    seq(|args|, i requires 0 <= i < |args| => SizeOfMember(args, i); NestedArgument(lookup, args[i]))
  }

  function NestedArgument(lookup: Lookup, e: Expr): Expr
    decreases Size(e), 1
  {
    if !e.FuncCall? then e
    else
      match RemapFunctionCall(lookup, e.call)
      case Handled(call) => FuncCall(call)
      case _ => FuncCall(NestedCalls(lookup, e.call))
  }

  lemma {:induction false} NestedIsNoLarger(lookup: Lookup, e: Expr)
    ensures Size(NestedArgument(lookup, e)) <= Size(e)
    decreases Size(e), 1
  {
    hide RemapFunctionCall;
    if e.FuncCall? {
      RewrittenIsSmaller(lookup, e.call);
      NestedAreNoLarger(lookup, e.call.args);
    }
  }

  lemma {:induction false} NestedAreNoLarger(lookup: Lookup, args: seq<Expr>)
    ensures SizeOfAll(NestedArguments(lookup, args)) <= SizeOfAll(args)
    decreases SizeOfAll(args), 2
  {
    forall i | 0 <= i < |args| ensures Size(NestedArguments(lookup, args)[i]) <= Size(args[i]) {
      SizeOfMember(args, i);
      NestedIsNoLarger(lookup, args[i]);
    }
    SizeIsMonotone(NestedArguments(lookup, args), args);
  }

  // WITH names

  function CteNames(ctes: seq<Cte>): set<string> {
    set c | c in ctes :: c.name
  }

  /** The names of a WITH clause that its i-th query sees: all of them under RECURSIVE, else the earlier ones. */
  function BodyNames(with: With, i: nat): set<string>
    requires i <= |with.ctes|
  {
    CteNames(if with.recursive then with.ctes else with.ctes[..i])
  }

  /** A query of a WITH clause sees a name of the clause if and only if it is the name of an earlier query,
    * or of any of them, itself included, under RECURSIVE. */
  lemma BodySees(with: With, i: nat, name: string)
    requires i < |with.ctes|
    ensures name in BodyNames(with, i) <==> exists j :: 0 <= j < |with.ctes| && (with.recursive || j < i) && with.ctes[j].name == name
  {
    if j :| 0 <= j < |with.ctes| && (with.recursive || j < i) && with.ctes[j].name == name {
      if !with.recursive {
        assert with.ctes[..i][j] == with.ctes[j];
      }
      assert with.ctes[j] in if with.recursive then with.ctes else with.ctes[..i];
    }
  }

  function NamesOf(with: Option<With>): set<string> {
    match with
    case None => {}
    case Some(w) => CteNames(w.ctes)
  }

  /** A table reference is left alone if and only if it is unqualified and the name is visible. */
  function ResolveTable(visible: set<string>, schema: string, name: string): From {
    if schema == "" && name in visible then Table(schema, name) else RemappedTable(schema, name)
  }

  /** The WHERE clause that psql sends for a table's description and DuckDB cannot bind. */
  predicate RemovesWhere(e: Expr) {
    match e
    case Bool(true, args) =>
      && |args| == 2
      && args[0] == Operator(true, "=", Some(Column(["attrelid"])), Some(Column(["pr", "prrelid"])))
      && args[1] == Operator(true, "=", Some(Column(["attnum"])),
                             Some(Indirection(Column(["prattrs"]), [Index(Some(Column(["s"])))])))
    case _ => false
  }

  // Resolution. `twice` is how the walk does it, visiting nested calls before the arguments.

  function ResolveCall(lookup: Lookup, visible: set<string>, twice: bool, c: Call): Call
    decreases SizeOfCall(c), 0, 0
  {
    var rewritten := Rewritten(lookup, c);
    RewrittenIsSmaller(lookup, c);
    NestedAreNoLarger(lookup, rewritten.args);
    rewritten.(args := ResolveAll(lookup, visible, twice,
                                  if twice then NestedArguments(lookup, rewritten.args) else rewritten.args))
  }

  function ResolveExpr(lookup: Lookup, visible: set<string>, twice: bool, e: Expr): Expr
    decreases Size(e), 1, 0
  {
    match e
    case Operator(_, _, left, right) =>
      e.(left := ResolveOption(lookup, visible, twice, left), right := ResolveOption(lookup, visible, twice, right))
    case Bool(_, args) => e.(args := ResolveAll(lookup, visible, twice, args))
    case Case(_, branches) => e.(branches := ResolveAll(lookup, visible, twice, branches))
    case Coalesce(values) => e.(values := ResolveSubLinks(lookup, visible, twice, values))
    case NullTest(arg) => NullTest(ResolveExpr(lookup, visible, twice, arg))
    case TypeCast(value, _) => e.(value := ResolveOption(lookup, visible, twice, value))
    case SubLink(_, query) => e.(query := ResolveSelect(lookup, visible, twice, query))
    case FuncCall(call) => FuncCall(ResolveCall(lookup, visible, twice, call))
    case Indirection(FuncCall(call), _) => e.(base := FuncCall(NestedCalls(lookup, Rewritten(lookup, call))))
    case _ => e
  }

  function ResolveOption(lookup: Lookup, visible: set<string>, twice: bool, e: Option<Expr>): Option<Expr>
    decreases SizeOfOption(e), 2, 0
  {
    match e
    case None => None
    case Some(value) => Some(ResolveExpr(lookup, visible, twice, value))
  }

  function ResolveAll(lookup: Lookup, visible: set<string>, twice: bool, es: seq<Expr>): (resolved: seq<Expr>)
    ensures |resolved| == |es|
    decreases SizeOfAll(es), 2, 0
  {
    seq(|es|, i requires 0 <= i < |es| => SizeOfMember(es, i); ResolveExpr(lookup, visible, twice, es[i]))
  }

  /** Of the values of COALESCE only sub-selects are looked at. */
  function ResolveSubLinks(lookup: Lookup, visible: set<string>, twice: bool, es: seq<Expr>): (resolved: seq<Expr>)
    ensures |resolved| == |es|
    decreases SizeOfAll(es), 2, 0
  {
    seq(|es|, i requires 0 <= i < |es| => SizeOfMember(es, i);
      if es[i].SubLink? then ResolveExpr(lookup, visible, twice, es[i]) else es[i])
  }

  /** Of the functions in FROM only proper calls. */
  function ResolveFunctions(lookup: Lookup, visible: set<string>, twice: bool, es: seq<Expr>): (resolved: seq<Expr>)
    ensures |resolved| == |es|
    decreases SizeOfAll(es), 2, 0
  {
    seq(|es|, i requires 0 <= i < |es| => SizeOfMember(es, i);
      if es[i].FuncCall? then ResolveExpr(lookup, visible, twice, es[i]) else es[i])
  }

  function ResolveTargets(lookup: Lookup, visible: set<string>, twice: bool, targets: seq<Option<Expr>>)
    : (resolved: seq<Option<Expr>>)
    ensures |resolved| == |targets|
    decreases SizeOfTargets(targets), 3, 0
  {
    seq(|targets|, i requires 0 <= i < |targets| => SizeOfTarget(targets, i);
      ResolveOption(lookup, visible, twice, targets[i]))
  }

  function ResolveFrom(lookup: Lookup, visible: set<string>, twice: bool, f: From): From
    decreases SizeOfFrom(f), 1, 0
  {
    match f
    case Table(schema, name) => ResolveTable(visible, schema, name)
    case Subselect(query) => Subselect(ResolveSelect(lookup, visible, twice, query))
    case TableFunction(functions) => TableFunction(ResolveFunctions(lookup, visible, twice, functions))
    case Join(left, right, quals) =>
      Join(ResolveFrom(lookup, visible, twice, left), ResolveFrom(lookup, visible, twice, right),
           ResolveOption(lookup, visible, twice, quals))
    case _ => f
  }

  function ResolveFroms(lookup: Lookup, visible: set<string>, twice: bool, fs: seq<From>): (resolved: seq<From>)
    ensures |resolved| == |fs|
    decreases SizeOfFroms(fs), 2, 0
  {
    seq(|fs|, i requires 0 <= i < |fs| => SizeOfItem(fs, i); ResolveFrom(lookup, visible, twice, fs[i]))
  }

  function ResolveCte(lookup: Lookup, visible: set<string>, twice: bool, cte: Cte): Cte
    decreases SizeOfQuery(cte), 2, 0
  {
    match cte.query
    case None => cte
    case Some(query) => cte.(query := Some(ResolveSelect(lookup, visible, twice, query)))
  }

  function ResolveCtes(lookup: Lookup, visible: set<string>, twice: bool, with: With): (resolved: seq<Cte>)
    ensures |resolved| == |with.ctes|
    decreases SizeOfCtes(with.ctes), 3, 0
  {
    seq(|with.ctes|, i requires 0 <= i < |with.ctes| =>
      SizeOfCte(with.ctes, i);
      ResolveCte(lookup, visible + BodyNames(with, i), twice, with.ctes[i]))
  }

  predicate IsUnion(s: Select) {
    s.from == [] && s.larg.Some? && s.rarg.Some?
  }

  /** Each query of the WITH clause in its own scope, everything else in the scope of all of its names.
    * HAVING is not looked at. */
  function ResolveSelect(lookup: Lookup, visible: set<string>, twice: bool, s: Select): Select
    decreases SizeOfSelect(s), 1, 0
  {
    var inner := visible + NamesOf(s.with);
    Select(
      match s.with
      case None => None
      case Some(with) => Some(with.(ctes := ResolveCtes(lookup, visible, twice, with))),
      if IsUnion(s) then Some(ResolveSelect(lookup, inner, twice, s.larg.value)) else s.larg,
      if IsUnion(s) then Some(ResolveSelect(lookup, inner, twice, s.rarg.value)) else s.rarg,
      if s.where.Some? && RemovesWhere(s.where.value) then None else ResolveOption(lookup, inner, twice, s.where),
      ResolveFroms(lookup, inner, twice, s.from),
      ResolveAll(lookup, inner, twice, s.sort),
      ResolveAll(lookup, inner, twice, s.group),
      s.having,
      ResolveTargets(lookup, inner, twice, s.targets))
  }
}
