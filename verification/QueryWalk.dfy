/** The walk itself: a stack of WITH names that is pushed and popped on the way through a SELECT. */
module QueryWalk {
  import opened Checkpoint
  import opened QueryTree
  import opened FunctionRemapper
  import opened QueryResolution

  /** The names visible with this stack. */
  function Visible(scopes: seq<set<string>>): set<string> {
    if scopes == [] then {} else Visible(scopes[..|scopes| - 1]) + scopes[|scopes| - 1]
  }

  lemma Pushed(scopes: seq<set<string>>, names: set<string>)
    ensures Visible(scopes + [names]) == Visible(scopes) + names
  {
    assert (scopes + [names])[..|scopes|] == scopes;
  }

  class QueryRemapperWalk {
    const lookup: Lookup
    var cteNameScopes: seq<set<string>>

    constructor (lookup: Lookup)
      ensures this.lookup == lookup && cteNameScopes == []
    {
      this.lookup, cteNameScopes := lookup, [];
    }

    method RemapNestedFunctionCalls(c: Call) returns (nested: Call)
      ensures nested == NestedCalls(lookup, c)
      decreases SizeOfCall(c), 0
    {
      hide RemapFunctionCall;
      var args := [];
      for i := 0 to |c.args|
        invariant |args| == i
        invariant forall k :: 0 <= k < i ==> args[k] == NestedArgument(lookup, c.args[k])
      {
        SizeOfMember(c.args, i);
        var arg := c.args[i];
        if arg.FuncCall? {
          var rewrite := RemapFunctionCall(lookup, arg.call);
          if rewrite.Handled? {
            arg := FuncCall(rewrite.call);
          } else {
            var deeper := RemapNestedFunctionCalls(arg.call);
            arg := FuncCall(deeper);
          }
        }
        args := args + [arg];
      }
      assert args == NestedArguments(lookup, c.args);
      nested := c.(args := args);
    }

    method RemapTable(schema: string, name: string) returns (table: From)
      ensures table == ResolveTable(Visible(cteNameScopes), schema, name)
    {
      if schema == "" {
        for i := 0 to |cteNameScopes|
          invariant name !in Visible(cteNameScopes[..i])
        {
          assert cteNameScopes[..i + 1][..i] == cteNameScopes[..i];
          if name in cteNameScopes[i] {
            StaysVisible(cteNameScopes, i + 1, name);
            return Table(schema, name);
          }
        }
        assert cteNameScopes[..|cteNameScopes|] == cteNameScopes;
      }
      table := RemappedTable(schema, name);
    }

    static lemma {:induction false} StaysVisible(scopes: seq<set<string>>, i: nat, name: string)
      requires i <= |scopes| && name in Visible(scopes[..i])
      ensures name in Visible(scopes)
      decreases |scopes| - i
    {
      if i < |scopes| {
        assert scopes[..i + 1][..i] == scopes[..i];
        StaysVisible(scopes, i + 1, name);
      } else {
        assert scopes[..i] == scopes;
      }
    }

    method RemappedCall(c: Call) returns (r: Call)
      modifies this
      ensures cteNameScopes == old(cteNameScopes)
      ensures r == ResolveCall(lookup, Visible(cteNameScopes), true, c)
      decreases SizeOfCall(c), 0, 0
    {
      var rewritten := Rewritten(lookup, c);
      RewrittenIsSmaller(lookup, c);
      NestedAreNoLarger(lookup, rewritten.args);
      var nested := RemapNestedFunctionCalls(rewritten);
      var args := RemappedAll(nested.args);
      r := nested.(args := args);
    }

    method RemappedExpressions(e: Expr) returns (r: Expr)
      modifies this
      ensures cteNameScopes == old(cteNameScopes)
      ensures r == ResolveExpr(lookup, Visible(cteNameScopes), true, e)
      decreases Size(e), 1, 0
    {
      hide ResolveOption, ResolveAll, ResolveSubLinks, ResolveSelect, ResolveCall, Visible, NestedCalls, Rewritten,
        SizeOfAll, SizeOfOption, SizeOfSelect;
      match e {
        case Operator(_, _, left, right) =>
          var l := RemappedOption(left);
          var rr := RemappedOption(right);
          r := e.(left := l, right := rr);
        case Bool(_, args) =>
          var all := RemappedAll(args);
          r := e.(args := all);
        case Case(_, branches) =>
          var all := RemappedAll(branches);
          r := e.(branches := all);
        case Coalesce(values) =>
          var all := RemappedSubLinks(values);
          r := e.(values := all);
        case NullTest(arg) =>
          var a := RemappedExpressions(arg);
          r := NullTest(a);
        case TypeCast(value, _) =>
          var v := RemappedOption(value);
          r := e.(value := v);
        case SubLink(_, query) =>
          var q := RemapSelectStatement(query);
          r := e.(query := q);
        case FuncCall(call) =>
          var c := RemappedCall(call);
          r := FuncCall(c);
        case Indirection(FuncCall(call), _) =>
          var c := RemapNestedFunctionCalls(Rewritten(lookup, call));
          r := e.(base := FuncCall(c));
        case _ =>
          r := e;
      }
    }

    method RemappedOption(e: Option<Expr>) returns (r: Option<Expr>)
      modifies this
      ensures cteNameScopes == old(cteNameScopes)
      ensures r == ResolveOption(lookup, Visible(cteNameScopes), true, e)
      decreases SizeOfOption(e), 2, 0
    {
      if e.None? {
        return None;
      }
      var value := RemappedExpressions(e.value);
      r := Some(value);
    }

    method RemappedAll(es: seq<Expr>) returns (all: seq<Expr>)
      modifies this
      ensures cteNameScopes == old(cteNameScopes)
      ensures all == ResolveAll(lookup, Visible(cteNameScopes), true, es)
      decreases SizeOfAll(es), 2, 0
    {
      all := [];
      for i := 0 to |es|
        invariant |all| == i && cteNameScopes == old(cteNameScopes)
        invariant forall k :: 0 <= k < i ==> all[k] == ResolveExpr(lookup, Visible(cteNameScopes), true, es[k])
      {
        SizeOfMember(es, i);
        var r := RemappedExpressions(es[i]);
        all := all + [r];
      }
    }

    method RemappedSubLinks(values: seq<Expr>) returns (all: seq<Expr>)
      modifies this
      ensures cteNameScopes == old(cteNameScopes)
      ensures all == ResolveSubLinks(lookup, Visible(cteNameScopes), true, values)
      decreases SizeOfAll(values), 2, 0
    {
      all := [];
      for i := 0 to |values|
        invariant |all| == i && cteNameScopes == old(cteNameScopes)
        invariant forall k :: 0 <= k < i ==>
          all[k] == if values[k].SubLink? then ResolveExpr(lookup, Visible(cteNameScopes), true, values[k]) else values[k]
      {
        SizeOfMember(values, i);
        var value := values[i];
        if value.SubLink? {
          var query := RemapSelectStatement(value.query);
          value := value.(query := query);
        }
        all := all + [value];
      }
    }

    method RemapTableFunction(functions: seq<Expr>) returns (all: seq<Expr>)
      modifies this
      ensures cteNameScopes == old(cteNameScopes)
      ensures all == ResolveFunctions(lookup, Visible(cteNameScopes), true, functions)
      decreases SizeOfAll(functions), 2, 0
    {
      all := [];
      for i := 0 to |functions|
        invariant |all| == i && cteNameScopes == old(cteNameScopes)
        invariant forall k :: 0 <= k < i ==>
          all[k] == if functions[k].FuncCall? then ResolveExpr(lookup, Visible(cteNameScopes), true, functions[k]) else functions[k]
      {
        SizeOfMember(functions, i);
        var f := functions[i];
        if f.FuncCall? {
          var c := RemappedCall(f.call);
          f := FuncCall(c);
        }
        all := all + [f];
      }
    }

    method RemapFromItem(f: From) returns (r: From)
      modifies this
      ensures cteNameScopes == old(cteNameScopes)
      ensures r == ResolveFrom(lookup, Visible(cteNameScopes), true, f)
      decreases SizeOfFrom(f), 1, 0
    {
      match f {
        case Table(schema, name) =>
          r := RemapTable(schema, name);
        case Subselect(query) =>
          var q := RemapSelectStatement(query);
          r := Subselect(q);
        case TableFunction(functions) =>
          var all := RemapTableFunction(functions);
          r := TableFunction(all);
        case Join(left, right, quals) =>
          var l := RemapFromItem(left);
          var rr := RemapFromItem(right);
          var on := RemappedOption(quals);
          r := Join(l, rr, on);
        case _ =>
          r := f;
      }
    }

    /** The scope on top of the stack is shared by reference: it grows where it is. */
    method AddName(name: string)
      requires cteNameScopes != []
      modifies this
      ensures var n := |old(cteNameScopes)| - 1;
        cteNameScopes == old(cteNameScopes[..n]) + [old(cteNameScopes[n]) + {name}]
    {
      var n := |cteNameScopes| - 1;
      cteNameScopes := cteNameScopes[..n] + [cteNameScopes[n] + {name}];
    }

    method AddNames(ctes: seq<Cte>)
      requires cteNameScopes != []
      modifies this
      ensures var n := |old(cteNameScopes)| - 1;
        cteNameScopes == old(cteNameScopes[..n]) + [old(cteNameScopes[n]) + CteNames(ctes)]
    {
      ghost var outer, top := cteNameScopes[..|cteNameScopes| - 1], cteNameScopes[|cteNameScopes| - 1];
      assert ctes[..0] == [] && top + CteNames([]) == top;
      for i := 0 to |ctes|
        invariant cteNameScopes == outer + [top + CteNames(ctes[..i])]
      {
        NextName(ctes, i);
        AddName(ctes[i].name);
      }
      assert ctes[..|ctes|] == ctes;
    }

    static lemma NextName(ctes: seq<Cte>, i: nat)
      requires i < |ctes|
      ensures forall top: set<string> :: top + CteNames(ctes[..i + 1]) == top + CteNames(ctes[..i]) + {ctes[i].name}
    {
      assert ctes[..i + 1] == ctes[..i] + [ctes[i]];
    }

    /** The queries of a WITH clause, with its scope on top of the stack. */
    method RemapWith(with: With) returns (ctes: seq<Cte>)
      modifies this
      ensures cteNameScopes == old(cteNameScopes) + [CteNames(with.ctes)]
      ensures ctes == ResolveCtes(lookup, Visible(old(cteNameScopes)), true, with)
      decreases SizeOfCtes(with.ctes), 3, 0
    {
      hide ResolveCte, CteNames, BodyNames, Visible, SizeOfCtes;
      ghost var outer := cteNameScopes;
      FirstAndLastBody(with);
      cteNameScopes := cteNameScopes + [{}];
      if with.recursive {
        AddNames(with.ctes);
        assert {} + CteNames(with.ctes) == CteNames(with.ctes);
      }
      ctes := [];
      for i := 0 to |with.ctes|
        invariant |ctes| == i
        invariant cteNameScopes == outer + [BodyNames(with, i)]
        invariant forall k :: 0 <= k < i ==>
          ctes[k] == ResolveCte(lookup, Visible(outer) + BodyNames(with, k), true, with.ctes[k])
      {
        Pushed(outer, BodyNames(with, i));
        SizeOfCte(with.ctes, i);
        var cte := RemapCte(with.ctes[i]);
        NextBody(with, i);
        AddName(with.ctes[i].name);
        ctes := ctes + [cte];
      }
    }

    method RemapCte(cte: Cte) returns (r: Cte)
      modifies this
      ensures cteNameScopes == old(cteNameScopes)
      ensures r == ResolveCte(lookup, Visible(cteNameScopes), true, cte)
      decreases SizeOfQuery(cte), 2, 0
    {
      if cte.query.None? {
        return cte;
      }
      var query := RemapSelectStatement(cte.query.value);
      r := cte.(query := Some(query));
    }

    static lemma FirstAndLastBody(with: With)
      ensures BodyNames(with, 0) == if with.recursive then CteNames(with.ctes) else {}
      ensures BodyNames(with, |with.ctes|) == CteNames(with.ctes)
    {
      assert with.ctes[..|with.ctes|] == with.ctes;
    }

    static lemma NextBody(with: With, i: nat)
      requires i < |with.ctes|
      ensures BodyNames(with, i + 1) == BodyNames(with, i) + {with.ctes[i].name}
    {
      assert with.ctes[i] in with.ctes;
      assert with.ctes[..i + 1] == with.ctes[..i] + [with.ctes[i]];
    }

    method RemapFroms(items: seq<From>) returns (from: seq<From>)
      modifies this
      ensures cteNameScopes == old(cteNameScopes)
      ensures from == ResolveFroms(lookup, Visible(cteNameScopes), true, items)
      decreases SizeOfFroms(items), 2, 0
    {
      from := [];
      for i := 0 to |items|
        invariant |from| == i && cteNameScopes == old(cteNameScopes)
        invariant forall k :: 0 <= k < i ==> from[k] == ResolveFrom(lookup, Visible(cteNameScopes), true, items[k])
      {
        SizeOfItem(items, i);
        var item := RemapFromItem(items[i]);
        from := from + [item];
      }
    }

    method RemapSelect(items: seq<Option<Expr>>) returns (targets: seq<Option<Expr>>)
      modifies this
      ensures cteNameScopes == old(cteNameScopes)
      ensures targets == ResolveTargets(lookup, Visible(cteNameScopes), true, items)
      decreases SizeOfTargets(items), 3, 0
    {
      targets := [];
      for i := 0 to |items|
        invariant |targets| == i && cteNameScopes == old(cteNameScopes)
        invariant forall k :: 0 <= k < i ==> targets[k] == ResolveOption(lookup, Visible(cteNameScopes), true, items[k])
      {
        SizeOfTarget(items, i);
        var target := RemappedOption(items[i]);
        targets := targets + [target];
      }
    }

    static lemma InnerScope(outer: seq<set<string>>, with: Option<With>)
      ensures with.None? ==> Visible(outer) + NamesOf(with) == Visible(outer)
      ensures with.Some? ==> Visible(outer + [CteNames(with.value.ctes)]) == Visible(outer) + NamesOf(with)
    {
      if with.Some? {
        Pushed(outer, CteNames(with.value.ctes));
      }
    }

    /** The walk resolves what the stack makes visible as the lexical rules do, and leaves the stack as it was. */
    method RemapSelectStatement(s: Select) returns (r: Select)
      modifies this
      ensures cteNameScopes == old(cteNameScopes)
      ensures r == ResolveSelect(lookup, Visible(cteNameScopes), true, s)
      decreases SizeOfSelect(s), 1, 0
    {
      hide ResolveExpr, ResolveOption, ResolveAll, ResolveFroms, ResolveTargets, ResolveCtes, Visible, NamesOf, CteNames,
        RemovesWhere, Size, SizeOfAll, SizeOfFroms, SizeOfTargets, SizeOfCtes;
      InnerScope(cteNameScopes, s.with);
      r := s;
      if s.with.Some? {
        var ctes := RemapWith(s.with.value);
        r := r.(with := Some(s.with.value.(ctes := ctes)));
      }
      if |s.from| == 0 && s.larg.Some? && s.rarg.Some? {
        var left := RemapSelectStatement(s.larg.value);
        var right := RemapSelectStatement(s.rarg.value);
        r := r.(larg := Some(left), rarg := Some(right));
      }
      if s.where.Some? && RemovesWhere(s.where.value) {
        r := r.(where := None);
      } else {
        var where := RemappedOption(s.where);
        r := r.(where := where);
      }
      var from := RemapFroms(s.from);
      var sort := RemappedAll(s.sort);
      var group := RemappedAll(s.group);
      var targets := RemapSelect(s.targets);
      r := r.(from := from, sort := sort, group := group, targets := targets);
      if s.with.Some? {
        cteNameScopes := cteNameScopes[..|cteNameScopes| - 1];
      }
    }
  }
}
