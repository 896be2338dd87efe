/** Runs in which a row of the source is lost, one for each way that `Resume` describes. */
module ResumeExamples {
  import opened Checkpoint
  import opened RowMatch
  import opened Lake
  import opened CopyStream
  import opened Attempt
  import opened TxidWindow
  import opened SyncRuns
  import opened Resume

  const ITEMS: Schema := [Column("id", true)]
  const APPLE: Row := [Some("apple")]
  const PEAR: Row := [Some("pear")]

  lemma ApplesAreNotPears()
    ensures APPLE != PEAR
  {
    assert |"apple"| == 5 && |"pear"| == 4 && APPLE[0] != PEAR[0];
  }

  lemma TwoItems(db: Database)
    requires forall v :: v in db.rows ==> v.row in {APPLE, PEAR} && v.xid < db.next && v.xid !in db.active && Raw(v) != 0
    requires forall x :: x in db.active ==> x < db.next
    requires forall v, w :: v in db.rows && w in db.rows && v != w ==> v.row != w.row
    ensures ValidDatabase(ITEMS, db) && PrimaryKey(ITEMS) == [0]
  {
    assert ITEMS[..0] == [] && PrimaryKey(ITEMS[..0]) == [];
    assert PrimaryKey(ITEMS) == [0];
    assert FitsSchema(ITEMS, APPLE) && FitsSchema(ITEMS, PEAR);
    assert |"apple"| == 5 && |"pear"| == 4 && APPLE[0] != PEAR[0];
    forall a, b | a in {APPLE, PEAR} && b in {APPLE, PEAR} && a != b ensures !Replaces(ITEMS, a, b) {
      MatchesIffSameKey(ITEMS, b, a);
      assert Key(ITEMS, a)[0] == a[0] && Key(ITEMS, b)[0] == b[0];
    }
  }

  function Fresh(db: Database): State {
    State(db, View([], NO_CHECKPOINT), 0)
  }

  /** The attempt on `s` that puts what COPY delivered into at most one file. */
  function AttemptOf(
    s: State, incrementalRefresh: bool, currentTxid: nat, delivered: seq<SourceRow>, aborted: bool): Attempt
  {
    var ck := s.view.checkpoint;
    var continuedRefresh := ContinuedRefresh(ck, incrementalRefresh);
    Attempt(s.view, continuedRefresh, if delivered == [] && continuedRefresh then [] else [delivered],
            aborted, incrementalRefresh, LastTxid(ck, currentTxid), SeedXmin(ck))
  }

  function EndOf(schema: Schema, a: Attempt): View {
    View(TableAfter(schema, a, |a.chunks|), CheckpointAfter(a, |a.chunks|, !a.aborted))
  }

  lemma AttemptIsMade(
    s: State, incrementalRefresh: bool, currentTxid: nat, query: CopyQuery, copied: seq<Version>,
    delivered: seq<SourceRow>, aborted: bool)
    requires s.horizon <= currentTxid <= s.db.next && forall x :: x in s.db.active ==> currentTxid <= x
    requires QueryOf(s, incrementalRefresh, currentTxid) == query != Panic
    requires Returns(query, s.db.rows, copied)
    requires delivered <= Delivered(copied) && (!aborted ==> delivered == Delivered(copied))
    ensures var a := AttemptOf(s, incrementalRefresh, currentTxid, delivered, aborted);
      && Attempts(s, incrementalRefresh, currentTxid, copied, a)
      && Flatten(a.chunks) == delivered && Ended(ITEMS, a, EndOf(ITEMS, a))
      && EndOf(ITEMS, a).checkpoint
         == CheckpointAt(incrementalRefresh, !aborted, a.lastTxid, XminAfter(a.seed, delivered))
  {
    hide Returns, QueryOf, TableAfter;
    var a := AttemptOf(s, incrementalRefresh, currentTxid, delivered, aborted);
    assert a.chunks[..|a.chunks|] == a.chunks;
    if a.chunks != [] {
      assert a.chunks[..0] == [];
      assert Flatten(a.chunks) == [] + delivered;
    }
  }

  lemma ReturnsOf(query: CopyQuery, x: Version, y: Version)
    requires x != y
    ensures Selects(query, Raw(x)) && Selects(query, Raw(y)) && !Precedes(query, Raw(y), Raw(x)) ==>
      Returns(query, {x, y}, [x, y])
    ensures Selects(query, Raw(x)) && !Selects(query, Raw(y)) ==> Returns(query, {x, y}, [x])
    ensures !Selects(query, Raw(x)) && !Selects(query, Raw(y)) ==> Returns(query, {x, y}, [])
    ensures Selects(query, Raw(x)) ==> Returns(query, {x}, [x])
  {
    hide Selects, Precedes, Raw;
  }

  lemma PearIsAbove(db: Database, pear: Version)
    requires pear in db.rows && Raw(pear) == 4_000_000_000
    ensures !RawOrderIsReal(db, EPOCH + 2000) && PgWraparoundTxid(EPOCH + 2000) == 2000
  {
  }

  lemma NewQuery(s: State, incrementalRefresh: bool, currentTxid: nat)
    requires !ContinuedRefresh(s.view.checkpoint, incrementalRefresh)
    ensures QueryOf(s, incrementalRefresh, currentTxid) == FullCopy
  {
  }

  lemma ResumedQuery(s: State, incrementalRefresh: bool, currentTxid: nat, lo: Xid)
    requires var ck := s.view.checkpoint;
      ContinuedRefresh(ck, incrementalRefresh) && ck.maxXmin == Some(lo) && ck.IsInProgress() && lo <= currentTxid % EPOCH
    ensures QueryOf(s, incrementalRefresh, currentTxid) == Window(true, lo, currentTxid % EPOCH)
  {
  }

  lemma FullCopySorts(x: Xid, y: Xid)
    requires x <= y
    ensures Selects(FullCopy, x) && Selects(FullCopy, y) && !Precedes(FullCopy, y, x)
  {
  }

  lemma WindowSelects(lo: Xid, hi: Xid)
    requires lo <= hi
    ensures Selects(Window(true, lo, hi), lo)
    ensures forall x: Xid :: x < lo || x > hi ==> !Selects(Window(true, lo, hi), x)
  {
  }

  /** The pear was written in the epoch before the apple. The full copy delivers the apple first, whose raw id is
    * lower, and is aborted; the window that resumes it ends below the pear's raw id. */
  lemma ResumedCopyLosesTheOlderEpoch()
      returns (s: State, txid: nat, copied1: seq<Version>, a1: Attempt, s1: State, copied2: seq<Version>, a2: Attempt, end: View)
    ensures ValidDatabase(ITEMS, s.db) && Attempts(s, false, txid, copied1, a1) && !a1.continuedRefresh && a1.aborted
    ensures s1.db == s.db && Ended(ITEMS, a1, s1.view)
    ensures Attempts(s1, false, txid, copied2, a2) && !a2.aborted && Ended(ITEMS, a2, end)
    ensures !AllSourceRows(s.db, end.rows)
  {
    hide EndOf, Ended, Attempts, Returns, ValidDatabase, LogicalTxid, WithinRaw, AllSourceRows, Selects, Precedes, QueryOf,
      RawOrderIsReal, Flatten, Delivered;
    txid := EPOCH + 2000;
    var apple, pear := Version(APPLE, EPOCH + 500, 0), Version(PEAR, 4_000_000_000, 1);
    var db := Database({apple, pear}, {}, txid);
    ApplesAreNotPears();
    TwoItems(db);
    assert Raw(apple) == 500 && Raw(pear) == 4_000_000_000;
    s, copied1 := Fresh(db), [apple, pear];
    NewQuery(s, false, txid);
    ReturnsOf(FullCopy, apple, pear);
    FullCopySorts(500, 4_000_000_000);
    AttemptIsMade(s, false, txid, FullCopy, copied1, [SourceRow(APPLE, 500)], true);
    a1 := AttemptOf(s, false, txid, [SourceRow(APPLE, 500)], true);
    s1, copied2 := State(db, EndOf(ITEMS, a1), txid), [apple];
    var query := Window(true, 500, 2000);
    ResumedQuery(s1, false, txid, 500);
    WindowSelects(500, 2000);
    ReturnsOf(query, apple, pear);
    AttemptIsMade(s1, false, txid, query, copied2, [SourceRow(APPLE, 500)], false);
    a2 := AttemptOf(s1, false, txid, [SourceRow(APPLE, 500)], false);
    end := EndOf(ITEMS, a2);
    ResumedFullCopyIsCompleteIff(ITEMS, false, s, txid, copied1, a1, s1, txid, copied2, a2, end);
    PearIsAbove(db, pear);
  }

  /** A table was read up to transaction 700. The next full refresh is aborted before its first row, and the one
    * after that resumes at 700: the apple, written by transaction 500, is gone. */
  lemma EmptyAbortLosesEverythingBefore()
      returns (s: State, txid: nat, copied1: seq<Version>, a1: Attempt, s1: State, copied2: seq<Version>, a2: Attempt, end: View)
    ensures ValidDatabase(ITEMS, s.db) && Attempts(s, false, txid, copied1, a1) && KeepsStaleWatermark(a1)
    ensures s1.db == s.db && Ended(ITEMS, a1, s1.view)
    ensures Attempts(s1, false, txid, copied2, a2) && !a2.aborted && Ended(ITEMS, a2, end)
    ensures AllSourceRows(s.db, s.view.rows) && !AllSourceRows(s.db, end.rows)
  {
    hide TableAfter, Attempts, Returns, ValidDatabase, LogicalTxid, Selects, Precedes, QueryOf, NothingBefore;
    txid := 1000;
    var apple, pear := Version(APPLE, 500, 0), Version(PEAR, 700, 1);
    var db := Database({pear, apple}, {}, txid);
    ApplesAreNotPears();
    TwoItems(db);
    assert Raw(apple) == 500 && Raw(pear) == 700;
    s, copied1 := State(db, View([APPLE, PEAR], InternalTableMetadata(Full, 900, Some(700))), 900), [apple, pear];
    assert AllSourceRows(db, s.view.rows);
    NewQuery(s, false, txid);
    ReturnsOf(FullCopy, apple, pear);
    FullCopySorts(500, 700);
    assert {pear, apple} == {apple, pear};
    AttemptIsMade(s, false, txid, FullCopy, copied1, [], true);
    a1 := AttemptOf(s, false, txid, [], true);
    s1, copied2 := State(db, EndOf(ITEMS, a1), txid), [pear];
    var query := Window(true, 700, 1000);
    ResumedQuery(s1, false, txid, 700);
    WindowSelects(700, 1000);
    ReturnsOf(query, pear, apple);
    AttemptIsMade(s1, false, txid, query, copied2, [SourceRow(PEAR, 700)], false);
    a2 := AttemptOf(s1, false, txid, [SourceRow(PEAR, 700)], false);
    end := EndOf(ITEMS, a2);
    EmptyAbortIsCompleteIff(ITEMS, s, txid, copied1, a1, s1, txid, copied2, a2, end);
    LogicalTxidIsUnique(500, 1000, 500);
    LogicalTxidIsUnique(700, 1000, 700);
    assert apple in db.rows;
  }

  /** Transaction 500 is in flight while a full copy delivers the apple of transaction 700. It commits the pear, and the
    * next window starts after 700. */
  lemma NextWindowMissesTheLateRow()
      returns (s: State, copied1: seq<Version>, a1: Attempt, s1: State, copied2: seq<Version>, a2: Attempt, end: View)
    ensures ValidDatabase(ITEMS, s.db) && Attempts(s, true, 500, copied1, a1)
    ensures !a1.continuedRefresh && !a1.aborted && Ended(ITEMS, a1, s1.view)
    ensures Transacts(ITEMS, s.db, Commit(500), s1.db) && s1.horizon == 500
    ensures Attempts(s1, true, 1000, copied2, a2) && a2.continuedRefresh && !a2.aborted && Ended(ITEMS, a2, end)
    ensures !AllSourceRows(s1.db, end.rows)
  {
    LogicalTxidIsUnique(700, 1000, 700);
    s, copied1, a1, s1, copied2, a2, end := RowIsMissed(Version(APPLE, 700, 0), 500, 1000);
  }

  /** The apple is from an earlier epoch, with the raw id of the transaction in flight. The copy ends with it, so that the
    * watermark names that transaction, whose pear the next window leaves out. */
  lemma NextWindowMissesTheAlias()
      returns (s: State, copied1: seq<Version>, a1: Attempt, s1: State, copied2: seq<Version>, a2: Attempt, end: View)
    ensures ValidDatabase(ITEMS, s.db) && Attempts(s, true, EPOCH + 500, copied1, a1)
    ensures NothingNewer(s.db, EPOCH + 500) && RawOrderIsReal(s.db, EPOCH + 500)
    ensures !a1.aborted && Ended(ITEMS, a1, s1.view)
    ensures Transacts(ITEMS, s.db, Commit(EPOCH + 500), s1.db) && s1.horizon == EPOCH + 500
    ensures Attempts(s1, true, EPOCH + 1000, copied2, a2) && a2.continuedRefresh && !a2.aborted && Ended(ITEMS, a2, end)
    ensures !AllSourceRows(s1.db, end.rows)
  {
    hide Attempts, ValidDatabase, Ended, AllSourceRows, Transacts, LogicalTxid;
    LogicalTxidIsUnique(500, EPOCH + 1000, EPOCH + 500);
    s, copied1, a1, s1, copied2, a2, end := RowIsMissed(Version(APPLE, 500, 0), EPOCH + 500, EPOCH + 1000);
  }

  /** While `late` is in flight a full copy delivers the apple; then `late` commits the pear, whose id is not above
    * the watermark. */
  lemma RowIsMissed(apple: Version, late: nat, next: nat)
      returns (s: State, copied1: seq<Version>, a1: Attempt, s1: State, copied2: seq<Version>, a2: Attempt, end: View)
    requires apple.row == APPLE && apple.ctid == 0 && apple.xid < next && apple.xid != late < next < late + EPOCH
    requires late % EPOCH <= Raw(apple) <= next % EPOCH && late % EPOCH != 0
    requires late <= LogicalTxid(Raw(apple), next)
    ensures s.db == Database({apple}, {late}, next)
    ensures ValidDatabase(ITEMS, s.db) && Attempts(s, true, late, copied1, a1)
    ensures !a1.continuedRefresh && !a1.aborted && Ended(ITEMS, a1, s1.view)
    ensures Transacts(ITEMS, s.db, Commit(late), s1.db) && s1.horizon == late
    ensures Attempts(s1, true, next, copied2, a2) && a2.continuedRefresh && !a2.aborted && Ended(ITEMS, a2, end)
    ensures !AllSourceRows(s1.db, end.rows)
  {
    hide TableAfter, Attempts, Returns, ValidDatabase, LogicalTxid, Selects, Precedes, XminAfter;
    var pear, raw := Version(PEAR, late, 1), Raw(apple);
    var before, after := Database({apple}, {late}, next), Database({apple, pear}, {}, next);
    ApplesAreNotPears();
    TwoItems(before);
    TwoItems(after);
    assert {late} - {late} == {};
    s, copied1 := Fresh(before), [apple];
    assert Returns(FullCopy, {apple}, [apple]) by {
      ReturnsOf(FullCopy, apple, pear);
      assert Selects(FullCopy, Raw(apple)) by { SelectsAll(Raw(apple)); }
    }
    AttemptIsMade(s, true, late, FullCopy, copied1, [SourceRow(APPLE, raw)], false);
    a1 := AttemptOf(s, true, late, [SourceRow(APPLE, raw)], false);
    OneRowCheckpoint(a1, raw);
    s1, copied2 := State(after, EndOf(ITEMS, a1), late), [];
    var query := Window(false, raw, next % EPOCH);
    assert QueryOf(s1, true, next) == query;
    assert Returns(query, {apple, pear}, []) by {
      ReturnsOf(query, apple, pear);
      SelectsNeither(raw, late % EPOCH, next % EPOCH);
    }
    AttemptIsMade(s1, true, next, query, copied2, [], false);
    a2 := AttemptOf(s1, true, next, [], false);
    end := EndOf(ITEMS, a2);
    LateRowIsLost(s, late, copied1, a1, s1, next, copied2, a2, end, pear);
  }

  lemma SelectsAll(raw: Xid)
    ensures Selects(FullCopy, raw)
  {
  }

  lemma SelectsNeither(x: Xid, y: Xid, hi: Xid)
    requires y <= x
    ensures !Selects(Window(false, x, hi), x) && !Selects(Window(false, x, hi), y)
  {
  }

  lemma OneRowCheckpoint(a: Attempt, raw: Xid)
    requires raw != 0
    ensures var ck := CheckpointAt(true, true, a.lastTxid, XminAfter(a.seed, [SourceRow(APPLE, raw)]));
      ck.maxXmin == Some(raw) && !ck.IsInProgress()
  {
  }

  lemma LateRowIsLost(
    s: State, late: nat, copied1: seq<Version>, a1: Attempt,
    s1: State, next: nat, copied2: seq<Version>, a2: Attempt, end: View, pear: Version)
    requires ValidDatabase(ITEMS, s.db) && Attempts(s, true, late, copied1, a1) && !a1.continuedRefresh
    requires !a1.aborted && Ended(ITEMS, a1, s1.view)
    requires ValidDatabase(ITEMS, s1.db) && late <= next < late + EPOCH
    requires Attempts(s1, true, next, copied2, a2) && a2.continuedRefresh && !a2.aborted && Ended(ITEMS, a2, end)
    requires PrimaryKey(ITEMS) != [] && s.db.active == {late} && pear.xid == late && pear in s1.db.rows
    requires forall v :: v in s1.db.rows && v.xid == late ==> v == pear
    requires forall v :: v in s.db.rows ==> v.row != pear.row
    requires late <= LogicalTxid(s1.view.checkpoint.maxXmin.value, next)
    ensures !AllSourceRows(s1.db, end.rows)
  {
    hide TableAfter, ValidDatabase, LogicalTxid, Attempts;
    TableHoldsSourceOnly(s, late, copied1, a1);
    NextWindowMissesNoneIff(ITEMS, s, late, copied1, a1, s1, next, copied2, a2, end);
    assert Late(s.db, s1.db, next, pear);
  }

  lemma TableHoldsSourceOnly(s: State, currentTxid: nat, copied: seq<Version>, a: Attempt)
    requires Attempts(s, true, currentTxid, copied, a) && !a.continuedRefresh
    ensures OnlySourceRows(s.db, TableAfter(ITEMS, a, |a.chunks|))
  {
    hide Returns, TableAfter;
    TableOfSourceRows(ITEMS, s, true, currentTxid, copied, a, |a.chunks|);
  }
}
