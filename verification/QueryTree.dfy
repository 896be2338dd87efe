/** The syntax tree of a SELECT, as far as the walk that adapts it to DuckDB looks into it. */
module QueryTree {
  import opened Checkpoint

  datatype Constant = Text(s: string) | Number(n: int) | Null | OtherConstant

  datatype Subscript = Index(upper: Option<Expr>) | Field(name: string)

  datatype Expr =
    | Const(constant: Constant)
    | Column(fields: seq<string>)
    | Operator(plain: bool, operator: string, left: Option<Expr>, right: Option<Expr>)
    | Bool(conjunction: bool, args: seq<Expr>)
    | Case(subject: Option<Expr>, branches: seq<Expr>)    // WHEN, THEN, ..., ELSE in this order
    | Coalesce(values: seq<Expr>)
    | NullTest(arg: Expr)
    | TypeCast(value: Option<Expr>, typeName: string)
    | SubLink(test: Option<Expr>, query: Select)
    | FuncCall(call: Call)
    | Indirection(base: Expr, subscripts: seq<Subscript>)
    | ArrayOf(elements: seq<Expr>)
    | List(items: seq<Expr>)
    | OtherExpr(id: nat)

  /** An unqualified function has the empty schema. */
  datatype Call = Call(schema: string, name: string, args: seq<Expr>, variadic: bool)

  datatype From =
    | Table(schema: string, name: string)
    | RemappedTable(schema: string, name: string)
    | Subselect(query: Select)
    | TableFunction(functions: seq<Expr>)
    | Join(left: From, right: From, quals: Option<Expr>)
    | OtherFrom(id: nat)

  /** `query` is None for a data-modifying statement. */
  datatype Cte = Cte(name: string, query: Option<Select>)

  datatype With = With(recursive: bool, ctes: seq<Cte>)

  datatype Select = Select(
    with: Option<With>,
    larg: Option<Select>, rarg: Option<Select>,
    where: Option<Expr>, from: seq<From>, sort: seq<Expr>, group: seq<Expr>, having: Option<Expr>,
    targets: seq<Option<Expr>>)

  // A measure for the recursion over trees that grow and shrink on the way

  function Size(e: Expr): (n: nat)
    ensures n > 0
  {
    match e
    case Operator(_, _, left, right) => 1 + SizeOfOption(left) + SizeOfOption(right)
    case Bool(_, args) => 1 + SizeOfAll(args)
    case Case(_, branches) => 1 + SizeOfAll(branches)
    case Coalesce(values) => 1 + SizeOfAll(values)
    case NullTest(arg) => 1 + Size(arg)
    case TypeCast(value, _) => 1 + SizeOfOption(value)
    case SubLink(_, query) => 1 + SizeOfSelect(query)
    case FuncCall(call) => SizeOfCall(call)
    case Indirection(base, _) => 1 + Size(base)
    case ArrayOf(elements) => 1 + SizeOfAll(elements)
    case _ => 1
  }

  function SizeOfCall(c: Call): (n: nat)
    ensures n > 0
  {
    1 + SizeOfAll(c.args)
  }

  function SizeOfOption(e: Option<Expr>): nat {
    match e
    case None => 0
    case Some(value) => Size(value)
  }

  function SizeOfAll(es: seq<Expr>): nat {
    if es == [] then 0 else Size(es[0]) + SizeOfAll(es[1..])
  }

  function SizeOfTargets(targets: seq<Option<Expr>>): nat {
    if targets == [] then 0 else SizeOfOption(targets[0]) + SizeOfTargets(targets[1..])
  }

  function SizeOfFrom(f: From): (n: nat)
    ensures n > 0
  {
    match f
    case Subselect(query) => 1 + SizeOfSelect(query)
    case TableFunction(functions) => 1 + SizeOfAll(functions)
    case Join(left, right, quals) => 1 + SizeOfFrom(left) + SizeOfFrom(right) + SizeOfOption(quals)
    case _ => 1
  }

  function SizeOfFroms(fs: seq<From>): nat {
    if fs == [] then 0 else SizeOfFrom(fs[0]) + SizeOfFroms(fs[1..])
  }

  function SizeOfCtes(ctes: seq<Cte>): nat {
    if ctes == [] then 0
    else SizeOfQuery(ctes[0]) + SizeOfCtes(ctes[1..])
  }

  function SizeOfQuery(cte: Cte): nat {
    match cte.query
    case None => 0
    case Some(query) => SizeOfSelect(query)
  }

  function SizeOfSelect(s: Select): (n: nat)
    ensures n > 0
  {
    1 + (match s.with case None => 0 case Some(with) => SizeOfCtes(with.ctes))
      + (match s.larg case None => 0 case Some(larg) => SizeOfSelect(larg))
      + (match s.rarg case None => 0 case Some(rarg) => SizeOfSelect(rarg))
      + SizeOfOption(s.where) + SizeOfFroms(s.from) + SizeOfAll(s.sort) + SizeOfAll(s.group) + SizeOfTargets(s.targets)
  }

  lemma {:induction false} SizeOfMember(es: seq<Expr>, i: nat)
    requires i < |es|
    ensures Size(es[i]) <= SizeOfAll(es)
  {
    if i > 0 {
      SizeOfMember(es[1..], i - 1);
    }
  }

  lemma {:induction false} SizeOfTarget(targets: seq<Option<Expr>>, i: nat)
    requires i < |targets|
    ensures SizeOfOption(targets[i]) <= SizeOfTargets(targets)
  {
    if i > 0 {
      SizeOfTarget(targets[1..], i - 1);
    }
  }

  lemma {:induction false} SizeOfItem(fs: seq<From>, i: nat)
    requires i < |fs|
    ensures SizeOfFrom(fs[i]) <= SizeOfFroms(fs)
  {
    if i > 0 {
      SizeOfItem(fs[1..], i - 1);
    }
  }

  lemma {:induction false} SizeOfCte(ctes: seq<Cte>, i: nat)
    requires i < |ctes|
    ensures SizeOfQuery(ctes[i]) <= SizeOfCtes(ctes)
  {
    if i > 0 {
      SizeOfCte(ctes[1..], i - 1);
    }
  }

  /** As if from pointwise smaller trees. */
  lemma {:induction false} SizeIsMonotone(es: seq<Expr>, fs: seq<Expr>)
    requires |es| == |fs| && forall i :: 0 <= i < |es| ==> Size(es[i]) <= Size(fs[i])
    ensures SizeOfAll(es) <= SizeOfAll(fs)
  {
    if es != [] {
      SizeIsMonotone(es[1..], fs[1..]);
    }
  }
}
