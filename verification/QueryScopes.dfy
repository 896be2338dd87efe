/** What the walk does to every single place of a query, without the functions that compute it: a place is a path
  * from the root. */
module QueryScopes {
  import opened Checkpoint
  import opened QueryTree
  import opened FunctionRemapper
  import opened QueryResolution

  // Places

  datatype Node = SelectNode(select: Select) | FromNode(from: From) | ExprNode(expr: Expr)

  datatype Edge =
    | CteQuery(i: nat) | LeftArm | RightArm | Where | FromItem(i: nat) | SortKey(i: nat) | GroupKey(i: nat) | Target(i: nat)
    | FromQuery | Function(i: nat) | JoinLeft | JoinRight | JoinQuals
    | LeftOperand | RightOperand | BoolArgument(i: nat) | Branch(i: nat) | Coalesced(i: nat) | Tested | CastValue
    | LinkedQuery | CallArgument(i: nat)

  function ExprIn(e: Option<Expr>): Option<Node> {
    if e.Some? then Some(ExprNode(e.value)) else None
  }

  function ExprAt(es: seq<Expr>, i: nat): Option<Node> {
    if i < |es| then Some(ExprNode(es[i])) else None
  }

  function SelectIn(s: Option<Select>): Option<Node> {
    if s.Some? then Some(SelectNode(s.value)) else None
  }

  function ChildOfSelect(s: Select, edge: Edge): Option<Node> {
    match edge
    case CteQuery(i) => if s.with.Some? && i < |s.with.value.ctes| then SelectIn(s.with.value.ctes[i].query) else None
    case LeftArm => SelectIn(s.larg)
    case RightArm => SelectIn(s.rarg)
    case Where => ExprIn(s.where)
    case FromItem(i) => if i < |s.from| then Some(FromNode(s.from[i])) else None
    case SortKey(i) => ExprAt(s.sort, i)
    case GroupKey(i) => ExprAt(s.group, i)
    case Target(i) => if i < |s.targets| then ExprIn(s.targets[i]) else None
    case _ => None
  }

  function ChildOfFrom(f: From, edge: Edge): Option<Node> {
    match edge
    case FromQuery => if f.Subselect? then Some(SelectNode(f.query)) else None
    case Function(i) => if f.TableFunction? then ExprAt(f.functions, i) else None
    case JoinLeft => if f.Join? then Some(FromNode(f.left)) else None
    case JoinRight => if f.Join? then Some(FromNode(f.right)) else None
    case JoinQuals => if f.Join? then ExprIn(f.quals) else None
    case _ => None
  }

  function ChildOfExpr(e: Expr, edge: Edge): Option<Node> {
    match edge
    case LeftOperand => if e.Operator? then ExprIn(e.left) else None
    case RightOperand => if e.Operator? then ExprIn(e.right) else None
    case BoolArgument(i) => if e.Bool? then ExprAt(e.args, i) else None
    case Branch(i) => if e.Case? then ExprAt(e.branches, i) else None
    case Coalesced(i) => if e.Coalesce? then ExprAt(e.values, i) else None
    case Tested => if e.NullTest? then Some(ExprNode(e.arg)) else None
    case CastValue => if e.TypeCast? then ExprIn(e.value) else None
    case LinkedQuery => if e.SubLink? then Some(SelectNode(e.query)) else None
    case CallArgument(i) => if e.FuncCall? then ExprAt(e.call.args, i) else None
    case _ => None
  }

  function Child(n: Node, edge: Edge): Option<Node> {
    match n
    case SelectNode(s) => ChildOfSelect(s, edge)
    case FromNode(f) => ChildOfFrom(f, edge)
    case ExprNode(e) => ChildOfExpr(e, edge)
  }

  function Find(n: Node, path: seq<Edge>): Option<Node>
    decreases |path|
  {
    if path == [] then Some(n)
    else
      var child := Child(n, path[0]);
      if child.Some? then Find(child.value, path[1..]) else None
  }

  // The places that the walk comes to

  /** attrelid = pr.prrelid AND attnum = prattrs[s] */
  const PSQL_WHERE := Bool(true, [
    Operator(true, "=", Some(Column(["attrelid"])), Some(Column(["pr", "prrelid"]))),
    Operator(true, "=", Some(Column(["attnum"])), Some(Indirection(Column(["prattrs"]), [Index(Some(Column(["s"])))])))])

  /** Arms are visited in a union, COALESCE for its sub-selects, functions in FROM if they are proper calls, and the WHERE
    * clause unless it is the one that psql sends. */
  predicate Visits(n: Node, edge: Edge) {
    match n
    case SelectNode(s) =>
      && (edge.LeftArm? || edge.RightArm? ==> s.from == [] && s.larg.Some? && s.rarg.Some?)
      && (edge.Where? ==> s.where != Some(PSQL_WHERE))
    case FromNode(f) => f.TableFunction? && edge.Function? && edge.i < |f.functions| ==> f.functions[edge.i].FuncCall?
    case ExprNode(e) => e.Coalesce? && edge.Coalesced? && edge.i < |e.values| ==> e.values[edge.i].SubLink?
  }

  /** A call is rewritten before its arguments are visited, and, if `twice`, the calls among them once more. */
  function AsVisited(lookup: Lookup, twice: bool, n: Node): Node {
    if n.ExprNode? && n.expr.FuncCall? then
      var rewritten := Rewritten(lookup, n.expr.call);
      ExprNode(FuncCall(if twice then NestedCalls(lookup, rewritten) else rewritten))
    else n
  }

  function Walk(lookup: Lookup, twice: bool, n: Node, path: seq<Edge>): Option<Node>
    decreases |path|
  {
    if path == [] then Some(n)
    else if !Visits(n, path[0]) then None
    else
      var child := Child(AsVisited(lookup, twice, n), path[0]);
      if child.Some? then Walk(lookup, twice, child.value, path[1..]) else None
  }

  // Scopes

  /** The path leaves a SELECT with a WITH clause that binds the name there: from outside of the clause, or from a
    * query of it that comes after the one with the name, or from any under RECURSIVE. */
  ghost predicate Binds(at: Option<Node>, edge: Edge, name: string) {
    && at.Some? && at.value.SelectNode? && at.value.select.with.Some?
    && var with := at.value.select.with.value;
      exists j :: 0 <= j < |with.ctes| && with.ctes[j].name == name && (edge.CteQuery? && !with.recursive ==> j < edge.i)
  }

  ghost predicate BoundAlong(lookup: Lookup, twice: bool, n: Node, path: seq<Edge>, name: string) {
    exists k :: 0 <= k < |path| && Binds(Walk(lookup, twice, n, path[..k]), path[k], name)
  }

  lemma BoundByFirst(lookup: Lookup, twice: bool, n: Node, path: seq<Edge>, child: Node)
    requires path != [] && Visits(n, path[0]) && Child(AsVisited(lookup, twice, n), path[0]) == Some(child)
    ensures forall name :: BoundAlong(lookup, twice, n, path, name) <==>
      Binds(Some(n), path[0], name) || BoundAlong(lookup, twice, child, path[1..], name)
  {
    hide Visits, Child, AsVisited, Binds;
    var rest := path[1..];
    assert Walk(lookup, twice, n, path[..0]) == Some(n);
    forall k | 0 <= k < |rest| ensures Walk(lookup, twice, n, path[..k + 1]) == Walk(lookup, twice, child, rest[..k]) {
      assert path[..k + 1][1..] == rest[..k];
    }
    forall name ensures BoundAlong(lookup, twice, n, path, name) <==>
      Binds(Some(n), path[0], name) || BoundAlong(lookup, twice, child, rest, name)
    {
      if k :| 0 <= k < |path| && Binds(Walk(lookup, twice, n, path[..k]), path[k], name) {
        if k > 0 {
          assert Binds(Walk(lookup, twice, child, rest[..k - 1]), rest[k - 1], name);
        }
      }
      if Binds(Some(n), path[0], name) {
        assert Binds(Walk(lookup, twice, n, path[..0]), path[0], name);
      }
      if k :| 0 <= k < |rest| && Binds(Walk(lookup, twice, child, rest[..k]), rest[k], name) {
        assert Binds(Walk(lookup, twice, n, path[..k + 1]), path[k + 1], name);
      }
    }
  }

  // One step

  function ResolveNode(lookup: Lookup, visible: set<string>, twice: bool, n: Node): Node {
    match n
    case SelectNode(s) => SelectNode(ResolveSelect(lookup, visible, twice, s))
    case FromNode(f) => FromNode(ResolveFrom(lookup, visible, twice, f))
    case ExprNode(e) => ExprNode(ResolveExpr(lookup, visible, twice, e))
  }

  lemma RemovesPsqlWhere(e: Expr)
    ensures RemovesWhere(e) <==> e == PSQL_WHERE
  {
  }

  lemma ResolvedAt(lookup: Lookup, visible: set<string>, twice: bool, es: seq<Expr>, i: nat)
    requires i < |es|
    ensures ResolveAll(lookup, visible, twice, es)[i] == ResolveExpr(lookup, visible, twice, es[i])
    ensures ResolveSubLinks(lookup, visible, twice, es)[i]
      == if es[i].SubLink? then ResolveExpr(lookup, visible, twice, es[i]) else es[i]
    ensures ResolveFunctions(lookup, visible, twice, es)[i]
      == if es[i].FuncCall? then ResolveExpr(lookup, visible, twice, es[i]) else es[i]
  {
    hide ResolveExpr;
  }

  lemma ResolvedTargetAt(lookup: Lookup, visible: set<string>, twice: bool, targets: seq<Option<Expr>>, i: nat)
    requires i < |targets|
    ensures ResolveTargets(lookup, visible, twice, targets)[i]
      == if targets[i].Some? then Some(ResolveExpr(lookup, visible, twice, targets[i].value)) else None
  {
    hide ResolveExpr;
  }

  lemma ResolvedItemAt(lookup: Lookup, visible: set<string>, twice: bool, fs: seq<From>, i: nat)
    requires i < |fs|
    ensures ResolveFroms(lookup, visible, twice, fs)[i] == ResolveFrom(lookup, visible, twice, fs[i])
  {
    hide ResolveFrom;
  }

  lemma ResolvedCteAt(lookup: Lookup, visible: set<string>, twice: bool, with: With, i: nat)
    requires i < |with.ctes|
    ensures var cte, r := with.ctes[i], ResolveCtes(lookup, visible, twice, with)[i];
      r == cte.(query := if cte.query.None? then None
                         else Some(ResolveSelect(lookup, visible + BodyNames(with, i), twice, cte.query.value)))
  {
    hide ResolveSelect;
  }

  lemma ClauseBinds(with: Option<With>, name: string)
    ensures name in NamesOf(with) <==>
      with.Some? && exists j :: 0 <= j < |with.value.ctes| && with.value.ctes[j].name == name
  {
    if with.Some? {
      if j :| 0 <= j < |with.value.ctes| && with.value.ctes[j].name == name {
        assert with.value.ctes[j] in with.value.ctes;
      }
    }
  }

  lemma StepFromSelect(lookup: Lookup, visible: set<string>, twice: bool, s: Select, edge: Edge, child: Node)
      returns (inner: set<string>)
    requires Visits(SelectNode(s), edge) && ChildOfSelect(s, edge) == Some(child)
    ensures ChildOfSelect(ResolveSelect(lookup, visible, twice, s), edge) == Some(ResolveNode(lookup, inner, twice, child))
    ensures forall name :: name in inner <==> name in visible || Binds(Some(SelectNode(s)), edge, name)
  {
    hide ResolveExpr, ResolveFrom, RemovesWhere, ResolveAll, ResolveFroms, ResolveTargets, ResolveCtes, NamesOf, BodyNames,
      CteNames;
    if s.where.Some? {
      RemovesPsqlWhere(s.where.value);
    }
    var all := visible + NamesOf(s.with);
    match edge {
      case FromItem(i) => ResolvedItemAt(lookup, all, twice, s.from, i);
      case SortKey(i) => ResolvedAt(lookup, all, twice, s.sort, i);
      case GroupKey(i) => ResolvedAt(lookup, all, twice, s.group, i);
      case Target(i) => ResolvedTargetAt(lookup, all, twice, s.targets, i);
      case CteQuery(i) => ResolvedCteAt(lookup, visible, twice, s.with.value, i);
      case _ =>
    }
    if edge.CteQuery? {
      inner := visible + BodyNames(s.with.value, edge.i);
      forall name ensures name in BodyNames(s.with.value, edge.i) <==> Binds(Some(SelectNode(s)), edge, name) {
        BodySees(s.with.value, edge.i, name);
      }
    } else {
      inner := all;
      forall name ensures name in NamesOf(s.with) <==> Binds(Some(SelectNode(s)), edge, name) {
        ClauseBinds(s.with, name);
      }
    }
  }

  lemma StepFromFrom(lookup: Lookup, visible: set<string>, twice: bool, f: From, edge: Edge, child: Node)
    requires Visits(FromNode(f), edge) && ChildOfFrom(f, edge) == Some(child)
    ensures ChildOfFrom(ResolveFrom(lookup, visible, twice, f), edge) == Some(ResolveNode(lookup, visible, twice, child))
  {
    hide ResolveExpr, ResolveSelect, ResolveFunctions;
    if edge.Function? && f.TableFunction? {
      ResolvedAt(lookup, visible, twice, f.functions, edge.i);
    }
  }

  lemma ResolvedCall(lookup: Lookup, visible: set<string>, twice: bool, c: Call)
    ensures ResolveExpr(lookup, visible, twice, FuncCall(c)).FuncCall?
    ensures var rewritten := Rewritten(lookup, c);
      ResolveExpr(lookup, visible, twice, FuncCall(c)).call.args
      == ResolveAll(lookup, visible, twice, if twice then NestedCalls(lookup, rewritten).args else rewritten.args)
  {
    hide ResolveAll, Rewritten;
  }

  lemma StepFromExpr(lookup: Lookup, visible: set<string>, twice: bool, e: Expr, edge: Edge, child: Node)
    requires Visits(ExprNode(e), edge) && Child(AsVisited(lookup, twice, ExprNode(e)), edge) == Some(child)
    ensures ChildOfExpr(ResolveExpr(lookup, visible, twice, e), edge) == Some(ResolveNode(lookup, visible, twice, child))
  {
    hide ResolveSelect, ResolveAll, ResolveSubLinks, ResolveCall, Rewritten, NestedCalls;
    match edge {
      case BoolArgument(i) => ResolvedAt(lookup, visible, twice, e.args, i);
      case Branch(i) => ResolvedAt(lookup, visible, twice, e.branches, i);
      case Coalesced(i) => ResolvedAt(lookup, visible, twice, e.values, i);
      case CallArgument(i) =>
        ResolvedCall(lookup, visible, twice, e.call);
        var rewritten := Rewritten(lookup, e.call);
        ResolvedAt(lookup, visible, twice, if twice then NestedCalls(lookup, rewritten).args else rewritten.args, i);
      case _ =>
    }
  }

  lemma Step(lookup: Lookup, visible: set<string>, twice: bool, n: Node, edge: Edge, child: Node)
      returns (inner: set<string>)
    requires Visits(n, edge) && Child(AsVisited(lookup, twice, n), edge) == Some(child)
    ensures Child(ResolveNode(lookup, visible, twice, n), edge) == Some(ResolveNode(lookup, inner, twice, child))
    ensures forall name :: name in inner <==> name in visible || Binds(Some(n), edge, name)
  {
    hide ResolveExpr, ResolveSelect, ResolveFrom, ChildOfExpr, ChildOfFrom, ChildOfSelect, Visits;
    inner := visible;
    match n
    case SelectNode(s) => inner := StepFromSelect(lookup, visible, twice, s, edge, child);
    case FromNode(f) => StepFromFrom(lookup, visible, twice, f, edge, child);
    case ExprNode(e) => StepFromExpr(lookup, visible, twice, e, edge, child);
  }

  // Any number of steps

  /** Wherever the walk comes, it resolves what is there in the scope of the names bound along the path. */
  lemma {:induction false} PlacesAreResolved(lookup: Lookup, visible: set<string>, twice: bool, n: Node, path: seq<Edge>)
      returns (inner: set<string>)
    requires Walk(lookup, twice, n, path).Some?
    ensures Find(ResolveNode(lookup, visible, twice, n), path)
      == Some(ResolveNode(lookup, inner, twice, Walk(lookup, twice, n, path).value))
    ensures forall name :: name in inner <==> name in visible || BoundAlong(lookup, twice, n, path, name)
    decreases |path|
  {
    hide ResolveNode, Child, Visits, AsVisited, Binds;
    inner := visible;
    if path != [] {
      var child := Child(AsVisited(lookup, twice, n), path[0]).value;
      var middle := Step(lookup, visible, twice, n, path[0], child);
      inner := PlacesAreResolved(lookup, middle, twice, child, path[1..]);
      BoundByFirst(lookup, twice, n, path, child);
    }
  }

  /** A table reference that the walk comes to is left alone if and only if it is unqualified and its name is bound by a
    * WITH clause along the path. In all other cases it is replaced. */
  lemma ReferencesAreResolved(lookup: Lookup, twice: bool, s: Select, path: seq<Edge>, schema: string, name: string)
    requires Walk(lookup, twice, SelectNode(s), path) == Some(FromNode(Table(schema, name)))
    ensures Find(SelectNode(ResolveSelect(lookup, {}, twice, s)), path) == Some(FromNode(
      if schema == "" && BoundAlong(lookup, twice, SelectNode(s), path, name) then Table(schema, name)
      else RemappedTable(schema, name)))
  {
    hide ResolveSelect, Walk, Find, BoundAlong;
    var inner := PlacesAreResolved(lookup, {}, twice, SelectNode(s), path);
  }

  /** A call that the walk comes to is rewritten; its arguments are places of their own. */
  lemma CallsAreRewritten(lookup: Lookup, twice: bool, s: Select, path: seq<Edge>, c: Call) returns (args: seq<Expr>)
    requires Walk(lookup, twice, SelectNode(s), path) == Some(ExprNode(FuncCall(c)))
    ensures |args| == |Rewritten(lookup, c).args|
    ensures Find(SelectNode(ResolveSelect(lookup, {}, twice, s)), path)
      == Some(ExprNode(FuncCall(Rewritten(lookup, c).(args := args))))
  {
    hide ResolveSelect, Walk, Find, BoundAlong, Rewritten, ResolveAll;
    var inner := PlacesAreResolved(lookup, {}, twice, SelectNode(s), path);
    args := ResolveCall(lookup, inner, twice, c).args;
  }

  // What stays

  ghost predicate SameWith(w: With, r: With) {
    && r.recursive == w.recursive && |r.ctes| == |w.ctes|
    && forall i :: 0 <= i < |w.ctes| ==> r.ctes[i].name == w.ctes[i].name && (r.ctes[i].query.None? <==> w.ctes[i].query.None?)
  }

  ghost predicate SameSelect(s: Select, r: Select) {
    && (r.with.Some? <==> s.with.Some?) && (s.with.Some? ==> SameWith(s.with.value, r.with.value))
    && (!(s.from == [] && s.larg.Some? && s.rarg.Some?) ==> r.larg == s.larg && r.rarg == s.rarg)
    && (r.where.None? <==> s.where.None? || s.where == Some(PSQL_WHERE))
    && r.having == s.having
    && |r.from| == |s.from| && |r.sort| == |s.sort| && |r.group| == |s.group| && |r.targets| == |s.targets|
    && forall i :: 0 <= i < |s.targets| ==> (r.targets[i].None? <==> s.targets[i].None?)
  }

  ghost predicate SameFrom(f: From, r: From) {
    match f
    case Table(_, _) => true
    case Subselect(_) => r.Subselect?
    case TableFunction(functions) =>
      && r.TableFunction? && |r.functions| == |functions|
      && forall i :: 0 <= i < |functions| && !functions[i].FuncCall? ==> r.functions[i] == functions[i]
    case Join(_, _, quals) => r.Join? && (r.quals.None? <==> quals.None?)
    case _ => r == f
  }

  ghost predicate SameExpr(e: Expr, r: Expr) {
    match e
    case Operator(plain, operator, left, right) =>
      && r.Operator? && r.plain == plain && r.operator == operator
      && (r.left.None? <==> left.None?) && (r.right.None? <==> right.None?)
    case Bool(conjunction, args) => r.Bool? && r.conjunction == conjunction && |r.args| == |args|
    case Case(subject, branches) => r.Case? && r.subject == subject && |r.branches| == |branches|
    case Coalesce(values) =>
      && r.Coalesce? && |r.values| == |values|
      && forall i :: 0 <= i < |values| && !values[i].SubLink? ==> r.values[i] == values[i]
    case NullTest(_) => r.NullTest?
    case TypeCast(value, typeName) => r.TypeCast? && r.typeName == typeName && (r.value.None? <==> value.None?)
    case SubLink(test, _) => r.SubLink? && r.test == test
    case FuncCall(_) => r.FuncCall?
    case Indirection(base, subscripts) =>
      r.Indirection? && r.subscripts == subscripts && (if base.FuncCall? then r.base.FuncCall? else r.base == base)
    case _ => r == e
  }

  /** The same construct in both, and equal wherever the walk does not go on from here. */
  ghost predicate Same(n: Node, r: Node) {
    match n
    case SelectNode(s) => r.SelectNode? && SameSelect(s, r.select)
    case FromNode(f) => r.FromNode? && SameFrom(f, r.from)
    case ExprNode(e) => r.ExprNode? && SameExpr(e, r.expr)
  }

  lemma ResolvedSelectIsSame(lookup: Lookup, visible: set<string>, twice: bool, s: Select)
    ensures SameSelect(s, ResolveSelect(lookup, visible, twice, s))
  {
    hide ResolveExpr, ResolveFrom, RemovesWhere, ResolveFroms, ResolveAll, ResolveTargets, ResolveCtes, NamesOf;
    if s.where.Some? {
      RemovesPsqlWhere(s.where.value);
    }
    var inner := visible + NamesOf(s.with);
    forall i | 0 <= i < |s.targets| ensures ResolveTargets(lookup, inner, twice, s.targets)[i].None? <==> s.targets[i].None? {
      ResolvedTargetAt(lookup, inner, twice, s.targets, i);
    }
    if s.with.Some? {
      ResolvedWithIsSame(lookup, visible, twice, s.with.value);
    }
  }

  lemma ResolvedWithIsSame(lookup: Lookup, visible: set<string>, twice: bool, with: With)
    ensures SameWith(with, with.(ctes := ResolveCtes(lookup, visible, twice, with)))
  {
    hide ResolveCtes;
    forall i | 0 <= i < |with.ctes|
      ensures var r := ResolveCtes(lookup, visible, twice, with)[i];
        r.name == with.ctes[i].name && (r.query.None? <==> with.ctes[i].query.None?)
    {
      ResolvedCteAt(lookup, visible, twice, with, i);
    }
  }

  lemma ResolvedFromIsSame(lookup: Lookup, visible: set<string>, twice: bool, f: From)
    ensures SameFrom(f, ResolveFrom(lookup, visible, twice, f))
  {
    hide ResolveSelect, ResolveFunctions, ResolveExpr;
    if f.TableFunction? {
      forall i | 0 <= i < |f.functions| && !f.functions[i].FuncCall?
        ensures ResolveFunctions(lookup, visible, twice, f.functions)[i] == f.functions[i]
      {
        ResolvedAt(lookup, visible, twice, f.functions, i);
      }
    }
  }

  lemma ResolvedExprIsSame(lookup: Lookup, visible: set<string>, twice: bool, e: Expr)
    ensures SameExpr(e, ResolveExpr(lookup, visible, twice, e))
  {
    hide ResolveSelect, ResolveAll, ResolveSubLinks, ResolveCall, NestedCalls, Rewritten;
    if e.Coalesce? {
      forall i | 0 <= i < |e.values| && !e.values[i].SubLink?
        ensures ResolveSubLinks(lookup, visible, twice, e.values)[i] == e.values[i]
      {
        ResolvedAt(lookup, visible, twice, e.values, i);
      }
    }
  }

  lemma ResolvedIsSame(lookup: Lookup, visible: set<string>, twice: bool, n: Node)
    ensures Same(n, ResolveNode(lookup, visible, twice, n))
  {
    hide ResolveSelect, ResolveFrom, ResolveExpr, SameSelect, SameFrom, SameExpr;
    match n
    case SelectNode(s) => ResolvedSelectIsSame(lookup, visible, twice, s);
    case FromNode(f) => ResolvedFromIsSame(lookup, visible, twice, f);
    case ExprNode(e) => ResolvedExprIsSame(lookup, visible, twice, e);
  }

  /** Nothing else changes: every place that the walk comes to keeps its construct, its operators and names, and
    * whatever is not visited in it, HAVING for example. Only the WHERE clause of psql goes. */
  lemma OthersAreKept(lookup: Lookup, twice: bool, s: Select, path: seq<Edge>)
    requires Walk(lookup, twice, SelectNode(s), path).Some?
    ensures var r := Find(SelectNode(ResolveSelect(lookup, {}, twice, s)), path);
      r.Some? && Same(Walk(lookup, twice, SelectNode(s), path).value, r.value)
  {
    hide ResolveSelect, Walk, Find, BoundAlong, Same;
    var inner := PlacesAreResolved(lookup, {}, twice, SelectNode(s), path);
    ResolvedIsSame(lookup, inner, twice, Walk(lookup, twice, SelectNode(s), path).value);
  }

  // The calls that are visited on their own

  function ArgumentAt(c: Call, path: seq<nat>): Option<Expr>
    requires path != []
    decreases |path|
  {
    if path[0] >= |c.args| then None
    else if |path| == 1 then Some(c.args[path[0]])
    else if c.args[path[0]].FuncCall? then ArgumentAt(c.args[path[0]].call, path[1..])
    else None
  }

  /** The call at a shorter path is rewritten as a whole. */
  ghost predicate HandledAbove(lookup: Lookup, c: Call, path: seq<nat>) {
    exists k :: 0 < k < |path| && HandledAt(lookup, ArgumentAt(c, path[..k]))
  }

  predicate HandledAt(lookup: Lookup, e: Option<Expr>) {
    e.Some? && e.value.FuncCall? && RemapFunctionCall(lookup, e.value.call).Handled?
  }

  /** Directly nested calls are rewritten down to the first that is handled, any other argument stays. */
  lemma {:induction false} NestedCallsAreReached(lookup: Lookup, c: Call, path: seq<nat>)
    requires path != [] && ArgumentAt(c, path).Some? && !HandledAbove(lookup, c, path)
    ensures var e, r := ArgumentAt(c, path).value, ArgumentAt(NestedCalls(lookup, c), path);
      && r.Some?
      && (!e.FuncCall? ==> r.value == e)
      && (HandledAt(lookup, Some(e)) ==> r.value == FuncCall(RemapFunctionCall(lookup, e.call).call))
      && (e.FuncCall? && !HandledAt(lookup, Some(e)) ==>
            r.value.FuncCall? && r.value.call == e.call.(args := r.value.call.args) && |r.value.call.args| == |e.call.args|)
    decreases |path|
  {
    hide RemapFunctionCall;
    assert NestedCalls(lookup, c).args[path[0]] == NestedArgument(lookup, c.args[path[0]]);
    if |path| > 1 {
      var d, rest := c.args[path[0]].call, path[1..];
      assert path[..1] == [path[0]];
      assert !HandledAt(lookup, ArgumentAt(c, path[..1]));
      forall k | 0 < k < |rest| ensures !HandledAt(lookup, ArgumentAt(d, rest[..k])) {
        assert path[..k + 1][1..] == rest[..k];
        assert !HandledAt(lookup, ArgumentAt(c, path[..k + 1]));
      }
      NestedCallsAreReached(lookup, d, rest);
    }
  }

  /** Of a call that is indexed only the nested calls are visited. */
  lemma IndexedCallsAreRewritten(
    lookup: Lookup, twice: bool, s: Select, path: seq<Edge>, c: Call, subscripts: seq<Subscript>)
    requires Walk(lookup, twice, SelectNode(s), path) == Some(ExprNode(Indirection(FuncCall(c), subscripts)))
    ensures Find(SelectNode(ResolveSelect(lookup, {}, twice, s)), path)
      == Some(ExprNode(Indirection(FuncCall(NestedCalls(lookup, Rewritten(lookup, c))), subscripts)))
  {
    hide ResolveSelect, Walk, Find, BoundAlong, Rewritten, NestedCalls;
    var inner := PlacesAreResolved(lookup, {}, twice, SelectNode(s), path);
  }
}
