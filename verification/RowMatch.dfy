/** Rows, keys, and the predicate that decides which existing rows a new chunk replaces. */
module RowMatch {
  import opened Checkpoint

  /** A cell is text, or NULL. */
  type Cell = Option<string>
  type Row = seq<Cell>

  datatype Column = Column(name: string, partOfPrimaryKey: bool)
  type Schema = seq<Column>

  /** One conjunct of the merge condition, over a column position. */
  datatype Condition = Equal(column: nat) | NotDistinct(column: nat)

  function PrimaryKey(schema: Schema): (positions: seq<nat>)
    ensures forall p :: p in positions <==> 0 <= p < |schema| && schema[p].partOfPrimaryKey
  {
    if schema == [] then []
    else
      var init := PrimaryKey(schema[..|schema| - 1]);
      if schema[|schema| - 1].partOfPrimaryKey then init + [|schema| - 1] else init
  }

  /** With a primary key: plain equality on it. Without: NULL-safe equality on every column. */
  method RowMatchConditions(schema: Schema) returns (conditions: seq<Condition>)
    ensures forall c :: c in conditions <==> c in ExpectedConditions(schema)
  {
    var pkColumns := PrimaryKey(schema);
    conditions := [];
    if |pkColumns| == 0 {
      for i := 0 to |schema|
        invariant forall c :: c in conditions <==> c.NotDistinct? && c.column < i
      {
        conditions := conditions + [NotDistinct(i)];
      }
    } else {
      for i := 0 to |pkColumns|
        invariant forall c :: c in conditions <==> c.Equal? && c.column in pkColumns[..i]
      {
        conditions := conditions + [Equal(pkColumns[i])];
      }
    }
  }

  function ExpectedConditions(schema: Schema): set<Condition> {
    if PrimaryKey(schema) == [] then set i | 0 <= i < |schema| :: NotDistinct(i)
    else set i | i in PrimaryKey(schema) :: Equal(i)
  }

  /** SQL semantics: `=` is not true when either side is NULL, IS NOT DISTINCT FROM treats NULLs as equal. */
  predicate Holds(condition: Condition, existing: Row, new_: Row)
    requires condition.column < |existing| && condition.column < |new_|
  {
    match condition
    case Equal(i) => existing[i].Some? && new_[i].Some? && existing[i] == new_[i]
    case NotDistinct(i) => existing[i] == new_[i]
  }

  predicate FitsSchema(schema: Schema, row: Row) {
    && |row| == |schema|
    && forall p | p in PrimaryKey(schema) :: row[p].Some?
  }

  predicate Matches(schema: Schema, existing: Row, new_: Row)
    requires |existing| == |new_| == |schema|
  {
    forall c | c in ExpectedConditions(schema) :: Holds(c, existing, new_)
  }

  /** What identifies a row: its primary-key cells, or the whole row of a keyless table. */
  function Key(schema: Schema, row: Row): (key: seq<Cell>)
    requires |row| == |schema|
    ensures PrimaryKey(schema) == [] ==> key == row
    ensures PrimaryKey(schema) != [] ==> |key| == |PrimaryKey(schema)|
  {
    var pk := PrimaryKey(schema);
    if pk == [] then row else seq(|pk|, i requires 0 <= i < |pk| => assert pk[i] in pk; row[pk[i]])
  }

  /** The merge condition is equality of keys. */
  lemma MatchesIffSameKey(schema: Schema, existing: Row, new_: Row)
    requires FitsSchema(schema, existing) && FitsSchema(schema, new_)
    ensures Matches(schema, existing, new_) <==> Key(schema, existing) == Key(schema, new_)
  {
    var pk := PrimaryKey(schema);
    if pk == [] {
      if Matches(schema, existing, new_) {
        forall i | 0 <= i < |schema| ensures existing[i] == new_[i] {
          assert NotDistinct(i) in ExpectedConditions(schema);
          assert Holds(NotDistinct(i), existing, new_);
        }
      }
    } else {
      var k, l := Key(schema, existing), Key(schema, new_);
      if Matches(schema, existing, new_) {
        forall i | 0 <= i < |pk| ensures k[i] == l[i] {
          assert Equal(pk[i]) in ExpectedConditions(schema);
          assert Holds(Equal(pk[i]), existing, new_);
        }
      }
      if k == l {
        forall c | c in ExpectedConditions(schema) ensures Holds(c, existing, new_) {
          var i :| 0 <= i < |pk| && pk[i] == c.column;
          assert k[i] == l[i];
        }
      }
    }
  }

  /** The new row takes the place of the existing one. */
  predicate Replaces(schema: Schema, new_: Row, existing: Row) {
    |existing| == |new_| == |schema| && Matches(schema, existing, new_)
  }

  predicate Overlaps(schema: Schema, existing: Row, chunk: seq<Row>) {
    exists n :: n in chunk && Replaces(schema, n, existing)
  }

  /** The rows of an existing file that no row of the chunk replaces, in file order. */
  function Surviving(schema: Schema, existing: seq<Row>, chunk: seq<Row>): (rows: seq<Row>) {
    if existing == [] then []
    else (if Overlaps(schema, existing[0], chunk) then [] else [existing[0]]) + Surviving(schema, existing[1..], chunk)
  }

  lemma {:induction false} SurvivingMembers(schema: Schema, existing: seq<Row>, chunk: seq<Row>)
    ensures forall r :: r in Surviving(schema, existing, chunk) <==> r in existing && !Overlaps(schema, r, chunk)
  {
    hide Overlaps;
    if existing != [] {
      SurvivingMembers(schema, existing[1..], chunk);
    }
  }

  lemma {:induction false} SurvivingConcat(schema: Schema, a: seq<Row>, b: seq<Row>, chunk: seq<Row>)
    ensures Surviving(schema, a + b, chunk) == Surviving(schema, a, chunk) + Surviving(schema, b, chunk)
  {
    hide Overlaps;
    if a == [] {
      assert a + b == b;
    } else {
      SurvivingConcat(schema, a[1..], b, chunk);
      assert (a + b)[1..] == a[1..] + b && (a + b)[0] == a[0];
      var head := if Overlaps(schema, a[0], chunk) then [] else [a[0]];
      var left, right := Surviving(schema, a[1..], chunk), Surviving(schema, b, chunk);
      assert (head + left) + right == head + (left + right);
    }
  }

  lemma {:induction false} SurvivingAll(schema: Schema, existing: seq<Row>, chunk: seq<Row>)
    requires forall r :: r in existing ==> !Overlaps(schema, r, chunk)
    ensures Surviving(schema, existing, chunk) == existing
  {
    hide Overlaps;
    if existing != [] {
      SurvivingAll(schema, existing[1..], chunk);
      assert existing == [existing[0]] + existing[1..];
    }
  }

  /** No two positions of a table hold rows with the same key. */
  ghost predicate UniqueKeys(schema: Schema, rows: seq<Row>) {
    forall i, j :: 0 <= i < j < |rows| ==> !Replaces(schema, rows[i], rows[j])
  }

  lemma {:induction false} SurvivingKeepsUniqueKeys(schema: Schema, existing: seq<Row>, chunk: seq<Row>)
    requires UniqueKeys(schema, existing)
    ensures UniqueKeys(schema, Surviving(schema, existing, chunk))
  {
    hide Overlaps, Replaces;
    if existing != [] {
      SurvivingKeepsUniqueKeys(schema, existing[1..], chunk);
      SurvivingMembers(schema, existing[1..], chunk);
      var tail := Surviving(schema, existing[1..], chunk);
      var rows := Surviving(schema, existing, chunk);
      forall i, j | 0 <= i < j < |rows| ensures !Replaces(schema, rows[i], rows[j]) {
        if rows != tail && i == 0 {
          assert rows[j] == tail[j - 1];
          assert tail[j - 1] in tail;
        }
      }
    }
  }
}
