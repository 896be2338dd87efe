/** What the resume rule of a refresh achieves on a source that stands still, and exactly where it fails. */
module Resume {
  import opened Checkpoint
  import opened RowMatch
  import opened Lake
  import opened CopyStream
  import opened Attempt
  import opened TxidWindow
  import opened SyncRuns

  // Interrupted and uninterrupted refreshes

  ghost predicate OnlySourceRows(db: Database, rows: seq<Row>) {
    forall r :: r in rows ==> exists v :: v in db.rows && v.row == r
  }

  ghost predicate AllSourceRows(db: Database, rows: seq<Row>) {
    forall v :: v in db.rows ==> v.row in rows
  }

  /** The table is the source, row for row; a primary key makes each row appear once. */
  ghost predicate Mirrors(schema: Schema, db: Database, rows: seq<Row>) {
    OnlySourceRows(db, rows) && AllSourceRows(db, rows) && (PrimaryKey(schema) != [] ==> UniqueKeys(schema, rows))
  }

  /** Attempts one after the other, each left at any of its states, while the source stands still. */
  ghost predicate Retries(schema: Schema, incrementalRefresh: bool, states: seq<State>, steps: seq<Step>) {
    && |states| == |steps| + 1
    && forall i :: 0 <= i < |steps| ==> steps[i].Syncing? && Next(schema, incrementalRefresh, states[i], steps[i], states[i + 1])
  }

  /** Either the table holds source rows only, or the next refresh replaces it. */
  ghost predicate Clean(s: State, incrementalRefresh: bool) {
    OnlySourceRows(s.db, s.view.rows) || !ContinuedRefresh(s.view.checkpoint, incrementalRefresh)
  }

  lemma TableOfSourceRows(
      schema: Schema, s: State, incrementalRefresh: bool, currentTxid: nat, copied: seq<Version>, a: Attempt,
      count: nat)
    requires Attempts(s, incrementalRefresh, currentTxid, copied, a) && count <= |a.chunks|
    requires a.continuedRefresh ==> OnlySourceRows(s.db, s.view.rows)
    ensures OnlySourceRows(s.db, TableAfter(schema, a, count))
  {
    hide TableAfter, Overlaps;
    TableIsOverridden(schema, a, count);
    ReturnsRows(s, incrementalRefresh, currentTxid, copied, a);
    var k := ChunksArePrefix(copied, a, count);
    var delivered := RowsOf(Flatten(a.chunks[..count]));
    forall r | r in TableAfter(schema, a, count) ensures exists v :: v in s.db.rows && v.row == r {
      if r in delivered {
        var i :| 0 <= i < |delivered| && delivered[i] == r;
        assert copied[i] in copied && copied[i].row == r;
      } else {
        assert r in s.view.rows;
      }
    }
  }

  lemma AttemptKeepsClean(
    schema: Schema, incrementalRefresh: bool, s: State, currentTxid: nat, copied: seq<Version>, a: Attempt, s': State)
    requires Clean(s, incrementalRefresh)
    requires Next(schema, incrementalRefresh, s, Syncing(currentTxid, copied, a), s')
    ensures Clean(s', incrementalRefresh)
  {
    hide TableAfter, SoundConditions, Returns, Shows, OnlySourceRows;
    if s'.view != a.base {
      ShownTable(schema, a, s'.view);
      var count: nat :| count <= |a.chunks| && s'.view.rows == TableAfter(schema, a, count);
      TableOfSourceRows(schema, s, incrementalRefresh, currentTxid, copied, a, count);
    }
  }

  /** The last attempt runs to its end, and sees no row newer than its oldest transaction in flight. */
  ghost predicate EndsClean(schema: Schema, step: Step, last: State) {
    step.Syncing? && !step.a.aborted && Ended(schema, step.a, last.view) && NothingNewer(last.db, step.currentTxid)
  }

  lemma {:induction false} RetriesKeepInvariants(
    schema: Schema, incrementalRefresh: bool, states: seq<State>, steps: seq<Step>, i: nat)
    requires Retries(schema, incrementalRefresh, states, steps) && i < |states|
    requires Invariant(schema, incrementalRefresh, states[0]) && Clean(states[0], incrementalRefresh)
    ensures Invariant(schema, incrementalRefresh, states[i]) && Clean(states[i], incrementalRefresh)
    ensures states[i].db == states[0].db
    decreases i
  {
    if i > 0 {
      RetriesKeepInvariants(schema, incrementalRefresh, states, steps, i - 1);
      var s, step, s' := states[i - 1], steps[i - 1], states[i];
      assert step.Syncing? && Next(schema, incrementalRefresh, s, step, s');
      assert step == Syncing(step.currentTxid, step.copied, step.a);
      hide Invariant, Clean;
      AttemptKeepsInvariant(schema, incrementalRefresh, s, step.currentTxid, step.copied, step.a, s');
      AttemptKeepsClean(schema, incrementalRefresh, s, step.currentTxid, step.copied, step.a, s');
    }
  }

  /** A clean attempt makes the table mirror a source with no row newer than its oldest transaction in flight. */
  lemma CleanAttemptMirrors(
    schema: Schema, incrementalRefresh: bool, s: State, currentTxid: nat, copied: seq<Version>, a: Attempt, s': State)
    requires Invariant(schema, incrementalRefresh, s) && Clean(s, incrementalRefresh)
    requires Next(schema, incrementalRefresh, s, Syncing(currentTxid, copied, a), s')
    requires !a.aborted && Ended(schema, a, s'.view) && NothingNewer(s.db, currentTxid)
    ensures OnlySourceRows(s.db, s'.view.rows) && AllSourceRows(s.db, s'.view.rows)
  {
    hide TableAfter, Replaces, Returns, Shows, OnlySourceRows, UniqueKeys, FitsSchema;
    assert a.chunks[..|a.chunks|] == a.chunks;
    forall v | v in s.db.rows ensures v.row in s'.view.rows {
      LogicalIsNotLater(v, currentTxid);
      CaughtCompletely(schema, s, incrementalRefresh, currentTxid, copied, a, |a.chunks|, v);
    }
    TableOfSourceRows(schema, s, incrementalRefresh, currentTxid, copied, a, |a.chunks|);
  }

  lemma LogicalIsNotLater(v: Version, currentTxid: nat)
    ensures v.xid <= currentTxid ==> Position(v.xid, currentTxid) <= currentTxid
  {
  }

  /** However many attempts were aborted or crashed, at whatever point: once one runs to its end, the
    * table mirrors the source, although rows at a watermark were read twice. */
  lemma RetriedRefreshMirrorsSource(schema: Schema, incrementalRefresh: bool, states: seq<State>, steps: seq<Step>)
    requires Retries(schema, incrementalRefresh, states, steps) && |steps| > 0
    requires Invariant(schema, incrementalRefresh, states[0]) && Clean(states[0], incrementalRefresh)
    requires EndsClean(schema, steps[|steps| - 1], states[|steps|])
    ensures Mirrors(schema, states[0].db, states[|steps|].view.rows)
  {
    var n := |steps|;
    RetriesKeepInvariants(schema, incrementalRefresh, states, steps, n - 1);
    RetriesKeepInvariants(schema, incrementalRefresh, states, steps, n);
    var s, step, s' := states[n - 1], steps[n - 1], states[n];
    assert Next(schema, incrementalRefresh, s, step, s');
    assert step == Syncing(step.currentTxid, step.copied, step.a);
    InvariantKeys(schema, incrementalRefresh, s');
    hide Next, Invariant, Clean, Ended, NothingNewer, OnlySourceRows, AllSourceRows, UniqueKeys;
    CleanAttemptMirrors(schema, incrementalRefresh, s, step.currentTxid, step.copied, step.a, s');
  }

  lemma InvariantKeys(schema: Schema, incrementalRefresh: bool, s: State)
    requires Invariant(schema, incrementalRefresh, s)
    ensures PrimaryKey(schema) != [] ==> UniqueKeys(schema, s.view.rows)
  {
  }

  /** So it ends with the rows that a single clean attempt from the same start ends with. */
  lemma InterruptedEqualsUninterrupted(
    schema: Schema, incrementalRefresh: bool, states: seq<State>, steps: seq<Step>, single: Step, end: State)
    requires Retries(schema, incrementalRefresh, states, steps) && |steps| > 0
    requires Invariant(schema, incrementalRefresh, states[0]) && Clean(states[0], incrementalRefresh)
    requires EndsClean(schema, steps[|steps| - 1], states[|steps|])
    requires single.Syncing? && Next(schema, incrementalRefresh, states[0], single, end) && EndsClean(schema, single, end)
    ensures forall r :: r in states[|steps|].view.rows <==> r in end.view.rows
    ensures PrimaryKey(schema) != [] ==> UniqueKeys(schema, states[|steps|].view.rows) && UniqueKeys(schema, end.view.rows)
  {
    RetriedRefreshMirrorsSource(schema, incrementalRefresh, states, steps);
    assert Retries(schema, incrementalRefresh, [states[0], end], [single]);
    RetriedRefreshMirrorsSource(schema, incrementalRefresh, [states[0], end], [single]);
    hide UniqueKeys, Next, Invariant;
    assert [states[0], end][1] == end;
  }

  // Which rows an attempt leaves in the table

  /** Some version with the same contents satisfies what the statement asks of its raw id. */
  ghost predicate HasCopy(rows: set<Version>, row: Row, query: CopyQuery) {
    exists w :: w in rows && w.row == row && Selects(query, Raw(w))
  }

  ghost predicate AmongFirst(copied: seq<Version>, k: nat, row: Row)
    requires k <= |copied|
  {
    exists i :: 0 <= i < k && copied[i].row == row
  }

  /** A source row is in the table if and only if an equal row was delivered, or was there before. */
  lemma AttemptHolds(
    schema: Schema, s: State, incrementalRefresh: bool, currentTxid: nat, copied: seq<Version>, a: Attempt,
    count: nat, k: nat, v: Version)
    requires Attempts(s, incrementalRefresh, currentTxid, copied, a) && ValidDatabase(schema, s.db)
    requires count <= |a.chunks| && k <= |copied| && Flatten(a.chunks[..count]) == Delivered(copied)[..k]
    requires v in s.db.rows
    ensures v.row in TableAfter(schema, a, count) <==> AmongFirst(copied, k, v.row) || v.row in ExistingRows(a)
  {
    hide TableAfter, Overlaps, Replaces, ExistingRows, ValidDatabase, FitsSchema;
    TableIsOverridden(schema, a, count);
    ReturnsRows(s, incrementalRefresh, currentTxid, copied, a);
    var delivered := RowsOf(Flatten(a.chunks[..count]));
    assert |delivered| == k && forall i :: 0 <= i < k ==> delivered[i] == copied[i].row;
    if AmongFirst(copied, k, v.row) {
      var i :| 0 <= i < k && copied[i].row == v.row;
      assert delivered[i] in delivered;
    } else if v.row in ExistingRows(a) {
      RowInTable(schema, s, copied, a, count, k, v);
    }
  }

  /** After a clean attempt the delivered rows are those that the statement selects. */
  lemma CleanAttemptHolds(
    schema: Schema, s: State, incrementalRefresh: bool, currentTxid: nat, copied: seq<Version>, a: Attempt, v: Version)
    requires Attempts(s, incrementalRefresh, currentTxid, copied, a) && ValidDatabase(schema, s.db)
    requires !a.aborted && v in s.db.rows
    ensures v.row in TableAfter(schema, a, |a.chunks|)
      <==> HasCopy(s.db.rows, v.row, QueryOf(s, incrementalRefresh, currentTxid)) || v.row in ExistingRows(a)
  {
    hide TableAfter, ExistingRows, ValidDatabase, Selects, Precedes;
    var n, k := |a.chunks|, |copied|;
    assert a.chunks[..n] == a.chunks && Delivered(copied)[..k] == Delivered(copied);
    AttemptHolds(schema, s, incrementalRefresh, currentTxid, copied, a, n, k, v);
    if AmongFirst(copied, k, v.row) {
      var i :| 0 <= i < k && copied[i].row == v.row;
      assert copied[i] in copied;
    }
    if HasCopy(s.db.rows, v.row, QueryOf(s, incrementalRefresh, currentTxid)) {
      var w :| w in s.db.rows && w.row == v.row && Selects(QueryOf(s, incrementalRefresh, currentTxid), Raw(w));
      assert w in copied;
      var i :| 0 <= i < k && copied[i] == w;
    }
  }

  /** Of a table with a primary key, different versions are different rows. */
  lemma RowsTellVersions(schema: Schema, db: Database, v: Version, w: Version)
    requires ValidDatabase(schema, db) && PrimaryKey(schema) != []
    requires v in db.rows && w in db.rows && v.row == w.row
    ensures v == w
  {
    MatchesIffSameKey(schema, v.row, v.row);
  }

  lemma KeyedHasCopy(schema: Schema, db: Database, v: Version, query: CopyQuery)
    requires ValidDatabase(schema, db) && PrimaryKey(schema) != [] && v in db.rows
    ensures HasCopy(db.rows, v.row, query) <==> Selects(query, Raw(v))
  {
    hide ValidDatabase, Selects;
    if HasCopy(db.rows, v.row, query) {
      var w :| w in db.rows && w.row == v.row && Selects(query, Raw(w));
      RowsTellVersions(schema, db, v, w);
    }
  }

  // Where a full copy cannot be resumed

  /** Every row, or an equal one, has a raw id up to `hi`. */
  ghost predicate WithinRaw(db: Database, hi: Xid) {
    forall v :: v in db.rows ==> exists w :: w in db.rows && w.row == v.row && Raw(w) <= hi
  }

  lemma KeyedWithinRaw(schema: Schema, db: Database, currentTxid: nat)
    requires ValidDatabase(schema, db) && PrimaryKey(schema) != []
    ensures WithinRaw(db, PgWraparoundTxid(currentTxid)) <==> RawOrderIsReal(db, currentTxid)
  {
    hide ValidDatabase;
    forall v, w | v in db.rows && w in db.rows && w.row == v.row ensures v == w {
      RowsTellVersions(schema, db, v, w);
    }
  }

  /** A new full copy is aborted after some rows, and a clean attempt resumes it. The source is complete
    * in the table if and only if no raw id in it is above the one of the second attempt, unless the
    * watermark itself is: the window of the second attempt ends there, the copy it resumes did not. In a
    * table without a primary key an equal row may stand in. */
  lemma ResumedFullCopyIsCompleteIff(
    schema: Schema, incrementalRefresh: bool, s: State, txid1: nat, copied1: seq<Version>, a1: Attempt,
    s1: State, txid2: nat, copied2: seq<Version>, a2: Attempt, end: View)
    requires ValidDatabase(schema, s.db)
    requires Attempts(s, incrementalRefresh, txid1, copied1, a1)
    requires !a1.continuedRefresh && a1.aborted && Flatten(a1.chunks) != []
    requires s1.db == s.db && Ended(schema, a1, s1.view)
    requires Attempts(s1, incrementalRefresh, txid2, copied2, a2)
    requires !a2.aborted && Ended(schema, a2, end)
    ensures AllSourceRows(s.db, end.rows)
      <==> (SeedXmin(s1.view.checkpoint) <= PgWraparoundTxid(txid2) ==> WithinRaw(s.db, PgWraparoundTxid(txid2)))
    ensures PrimaryKey(schema) != [] ==>
      (WithinRaw(s.db, PgWraparoundTxid(txid2)) <==> RawOrderIsReal(s.db, txid2))
  {
    hide TableAfter, Replaces, FitsSchema, ValidDatabase, ExistingRows;
    var n1, n2 := |a1.chunks|, |a2.chunks|;
    assert a1.chunks[..n1] == a1.chunks && a2.chunks[..n2] == a2.chunks;
    var k := ChunksArePrefix(copied1, a1, n1);
    AbortedCopyCheckpoint(schema, s, incrementalRefresh, txid1, copied1, a1, s1.view.checkpoint, k);
    var lo, hi := Raw(copied1[k - 1]), PgWraparoundTxid(txid2);
    var query := if lo <= hi then Window(true, lo, hi) else WrappedWindow(true, lo, hi);
    assert QueryOf(s1, incrementalRefresh, txid2) == query;
    forall v | v in s.db.rows
      ensures v.row in end.rows <==> HasCopy(s.db.rows, v.row, query) || AmongFirst(copied1, k, v.row)
    {
      CleanAttemptHolds(schema, s1, incrementalRefresh, txid2, copied2, a2, v);
      AttemptHolds(schema, s, incrementalRefresh, txid1, copied1, a1, n1, k, v);
      ResumesWith(a1, a2, s1.view.rows, v.row);
    }
    hide AmongFirst, HasCopy, AllSourceRows, Attempts;
    CopiedUpTo(s, incrementalRefresh, txid1, copied1, a1, k, query, hi);
    assert AllSourceRows(s.db, end.rows) <==> (lo <= hi ==> WithinRaw(s.db, hi)) by {
      AllOrNot(s.db, end.rows, copied1, k, query);
    }
    if PrimaryKey(schema) != [] {
      KeyedWithinRaw(schema, s.db, txid2);
    }
  }

  lemma ResumesWith(a1: Attempt, a2: Attempt, rows: seq<Row>, row: Row)
    requires a2.continuedRefresh && a2.base.rows == rows && !a1.continuedRefresh
    ensures row in ExistingRows(a2) <==> row in rows
    ensures row !in ExistingRows(a1)
  {
  }

  lemma AllOrNot(db: Database, rows: seq<Row>, copied: seq<Version>, k: nat, query: CopyQuery)
    requires k <= |copied|
    requires forall v :: v in db.rows ==> (v.row in rows <==> HasCopy(db.rows, v.row, query) || AmongFirst(copied, k, v.row))
    ensures AllSourceRows(db, rows)
      <==> forall v :: v in db.rows ==> HasCopy(db.rows, v.row, query) || AmongFirst(copied, k, v.row)
  {
    hide HasCopy, AmongFirst;
  }

  /** Between them, the first `k` rows of a full copy and the window resumed from the last of them hold the
    * source exactly when it lies within the window's end, or the window wraps around. */
  lemma CopiedUpTo(
    s: State, incrementalRefresh: bool, txid1: nat, copied1: seq<Version>, a1: Attempt, k: nat, query: CopyQuery, hi: Xid)
    requires Attempts(s, incrementalRefresh, txid1, copied1, a1) && !a1.continuedRefresh && 0 < k <= |copied1|
    requires var lo := Raw(copied1[k - 1]);
      query == if lo <= hi then Window(true, lo, hi) else WrappedWindow(true, lo, hi)
    ensures (forall v :: v in s.db.rows ==> HasCopy(s.db.rows, v.row, query) || AmongFirst(copied1, k, v.row))
      <==> (Raw(copied1[k - 1]) <= hi ==> WithinRaw(s.db, hi))
  {
    var lo := Raw(copied1[k - 1]);
    assert copied1[k - 1] in copied1;
    forall i | k <= i < |copied1| ensures lo <= Raw(copied1[i]) {
      assert !Precedes(FullCopy, Raw(copied1[i]), lo);
    }
    forall w | w in s.db.rows && (Raw(w) <= hi || lo > hi)
      ensures HasCopy(s.db.rows, w.row, query) || AmongFirst(copied1, k, w.row)
    {
      if !Selects(query, Raw(w)) {
        assert w in copied1;
        var i :| 0 <= i < |copied1| && copied1[i] == w;
        assert i < k;
      }
    }
    forall i | 0 <= i < k ensures copied1[i] in s.db.rows && Raw(copied1[i]) <= lo {
      assert copied1[i] in copied1;
      if i < k - 1 {
        assert !Precedes(FullCopy, Raw(copied1[k - 1]), Raw(copied1[i]));
      }
    }
  }

  lemma AbortedCopyCheckpoint(
    schema: Schema, s: State, incrementalRefresh: bool, txid1: nat, copied1: seq<Version>, a1: Attempt,
    ck: InternalTableMetadata, k: nat)
    requires ValidDatabase(schema, s.db) && Attempts(s, incrementalRefresh, txid1, copied1, a1)
    requires !a1.continuedRefresh && a1.aborted && Flatten(a1.chunks) != []
    requires k <= |copied1| && Flatten(a1.chunks) == Delivered(copied1)[..k] && k == |Flatten(a1.chunks)|
    requires ck == CheckpointAfter(a1, |a1.chunks|, false)
    ensures k > 0 && ck.maxXmin == Some(Raw(copied1[k - 1])) && ck.IsInProgress()
    ensures ContinuedRefresh(ck, incrementalRefresh)
  {
    assert a1.chunks[..|a1.chunks|] == a1.chunks;
    assert copied1[k - 1] in copied1;
  }

  // Where a checkpoint says too much

  lemma NothingKept(schema: Schema, a: Attempt)
    requires a.chunks == [[]] && !a.continuedRefresh
    ensures TableAfter(schema, a, 1) == []
  {
    assert a.chunks[..1] == a.chunks && a.chunks[..0] == [];
    assert ExistingRows(a) == [] && KeptRows(schema, [], []) == [];
    assert KeptRows(schema, [], a.chunks) == Surviving(schema, [], RowsOf([])) == [];
    assert NewRows(a.chunks) == RowsOf([]) + NewRows([]) == [];
  }

  /** Every row, or an equal one, was written at or after the transaction `watermark`, as ids read at `currentTxid`. */
  ghost predicate NothingBefore(db: Database, watermark: Xid, currentTxid: nat) {
    forall v :: v in db.rows ==>
      exists w :: w in db.rows && w.row == v.row && LogicalTxid(watermark, currentTxid) <= LogicalTxid(Raw(w), currentTxid)
  }

  /** A new full refresh of a table that had a watermark is aborted before its first row. The emptied table
    * keeps the watermark and counts as in progress, so that the next attempt resumes there. When that one
    * runs to its end, the source is complete in the table if and only if no row of it lies before the stale
    * watermark. */
  lemma EmptyAbortIsCompleteIff(
    schema: Schema, s: State, txid1: nat, copied1: seq<Version>, a1: Attempt,
    s1: State, txid2: nat, copied2: seq<Version>, a2: Attempt, end: View)
    requires Attempts(s, false, txid1, copied1, a1) && KeepsStaleWatermark(a1) && a1.chunks == [[]]
    requires s.view.checkpoint.maxXmin != Some(0)
    requires Ended(schema, a1, s1.view) && ValidDatabase(schema, s1.db)
    requires Attempts(s1, false, txid2, copied2, a2) && !a2.aborted && Ended(schema, a2, end)
    ensures s1.view.rows == [] && s1.view.checkpoint.maxXmin == s.view.checkpoint.maxXmin && a2.continuedRefresh
    ensures AllSourceRows(s1.db, end.rows) <==> NothingBefore(s1.db, s.view.checkpoint.maxXmin.value, txid2)
    ensures PrimaryKey(schema) != [] ==>
      (AllSourceRows(s1.db, end.rows)
       <==> forall v :: v in s1.db.rows ==>
              LogicalTxid(s.view.checkpoint.maxXmin.value, txid2) <= LogicalTxid(Raw(v), txid2))
  {
    hide TableAfter, ValidDatabase, LogicalTxid, Selects, Returns;
    EmptyAbortCheckpoint(schema, s, txid1, copied1, a1, s1.view);
    var ck, stale := s1.view.checkpoint, s.view.checkpoint.maxXmin.value;
    var query := QueryOf(s1, false, txid2);
    forall v | v in s1.db.rows ensures v.row in end.rows <==> HasCopy(s1.db.rows, v.row, query) {
      CleanAttemptHolds(schema, s1, false, txid2, copied2, a2, v);
    }
    forall w | w in s1.db.rows
      ensures Selects(query, Raw(w)) <==> LogicalTxid(stale, txid2) <= LogicalTxid(Raw(w), txid2)
    {
      ContinuedWindowIsLogicalInterval(ck, txid2, Raw(w));
    }
    if PrimaryKey(schema) != [] {
      forall v | v in s1.db.rows ensures HasCopy(s1.db.rows, v.row, query) <==> Selects(query, Raw(v)) {
        KeyedHasCopy(schema, s1.db, v, query);
      }
    }
  }

  lemma EmptyAbortCheckpoint(schema: Schema, s: State, txid1: nat, copied1: seq<Version>, a1: Attempt, v: View)
    requires Attempts(s, false, txid1, copied1, a1) && KeepsStaleWatermark(a1) && a1.chunks == [[]]
    requires s.view.checkpoint.maxXmin != Some(0) && Ended(schema, a1, v)
    ensures v.rows == [] && v.checkpoint.maxXmin == s.view.checkpoint.maxXmin && v.checkpoint.IsInProgress()
    ensures ContinuedRefresh(v.checkpoint, false)
  {
    assert a1.chunks[..1] == a1.chunks && a1.chunks[..0] == [];
    NothingKept(schema, a1);
  }

  /** A row that a transaction in flight at the time of `before` has committed since, up to the current id. */
  ghost predicate Late(before: Database, after: Database, currentTxid: nat, v: Version) {
    v in after.rows && v.xid in before.active && v.xid <= currentTxid
  }

  /** An attempt ran to its end while transactions were in flight. They commit, and a continued attempt runs to its
    * end. It has their rows if and only if each of them is above the watermark of the first attempt, or equals
    * a row that the table has anyhow; with a primary key and new contents, if and only if each of them is above
    * the watermark. */
  lemma NextWindowMissesNoneIff(
    schema: Schema, s: State, txid1: nat, copied1: seq<Version>, a1: Attempt,
    s1: State, txid2: nat, copied2: seq<Version>, a2: Attempt, end: View)
    requires ValidDatabase(schema, s.db) && Attempts(s, true, txid1, copied1, a1)
    requires !a1.aborted && Ended(schema, a1, s1.view)
    requires ValidDatabase(schema, s1.db) && txid1 <= txid2 < txid1 + EPOCH
    requires Attempts(s1, true, txid2, copied2, a2) && a2.continuedRefresh && !a2.aborted && Ended(schema, a2, end)
    ensures var watermark := LogicalTxid(s1.view.checkpoint.maxXmin.value, txid2);
      && ((forall v :: Late(s.db, s1.db, txid2, v) ==> v.row in end.rows)
          <==> forall v :: Late(s.db, s1.db, txid2, v) ==>
                 v.xid > watermark || v.row in s1.view.rows
                 || HasCopy(s1.db.rows, v.row, QueryOf(s1, true, txid2)))
      && (PrimaryKey(schema) != [] && (forall v :: Late(s.db, s1.db, txid2, v) ==> v.row !in s1.view.rows) ==>
            ((forall v :: Late(s.db, s1.db, txid2, v) ==> v.row in end.rows)
             <==> forall v :: Late(s.db, s1.db, txid2, v) ==> v.xid > watermark))
  {
    hide TableAfter, ValidDatabase, Selects, Returns, LogicalTxid;
    var ck, query := s1.view.checkpoint, QueryOf(s1, true, txid2);
    CompletedCheckpoint(schema, a1, s1.view);
    forall v | Late(s.db, s1.db, txid2, v)
      ensures v.row in end.rows <==> HasCopy(s1.db.rows, v.row, query) || v.row in s1.view.rows
      ensures Selects(query, Raw(v)) <==> v.xid > LogicalTxid(ck.maxXmin.value, txid2)
      ensures PrimaryKey(schema) != [] ==> (HasCopy(s1.db.rows, v.row, query) <==> Selects(query, Raw(v)))
    {
      CleanAttemptHolds(schema, s1, true, txid2, copied2, a2, v);
      LogicalTxidIsUnique(Raw(v), txid2, v.xid);
      ContinuedWindowIsLogicalInterval(ck, txid2, Raw(v));
      if PrimaryKey(schema) != [] {
        KeyedHasCopy(schema, s1.db, v, query);
      }
    }
  }

  lemma CompletedCheckpoint(schema: Schema, a: Attempt, v: View)
    requires !a.aborted && Ended(schema, a, v)
    ensures !v.checkpoint.IsInProgress()
  {
    hide TableAfter, Flatten;
  }

  /** The watermark of the first attempt is not above its oldest transaction in flight. So long as it keeps its
    * meaning, that one transaction alone can be missed: exactly when it commits a row, and the watermark, left by a row
    * of an earlier epoch, has its raw id. */
  lemma OnlyAnAliasIsMissedIff(
    schema: Schema, s: State, txid1: nat, copied1: seq<Version>, a1: Attempt,
    s1: State, txid2: nat, copied2: seq<Version>, a2: Attempt, end: View)
    requires ValidDatabase(schema, s.db) && Attempts(s, true, txid1, copied1, a1)
    requires !a1.aborted && Ended(schema, a1, s1.view)
    requires ValidDatabase(schema, s1.db) && txid1 <= txid2 < txid1 + EPOCH
    requires Attempts(s1, true, txid2, copied2, a2) && a2.continuedRefresh && !a2.aborted && Ended(schema, a2, end)
    requires PrimaryKey(schema) != [] && forall v :: Late(s.db, s1.db, txid2, v) ==> v.row !in s1.view.rows
    requires txid2 < LogicalTxid(s1.view.checkpoint.maxXmin.value, txid1) + EPOCH
    ensures (exists v :: Late(s.db, s1.db, txid2, v) && v.row !in end.rows)
      <==> s1.view.checkpoint.maxXmin.value == PgWraparoundTxid(txid1)
           && exists v :: Late(s.db, s1.db, txid2, v) && v.xid == txid1
  {
    hide Ended, ValidDatabase, Returns, LogicalTxid, Position, TableAfter;
    NextWindowMissesNoneIff(schema, s, txid1, copied1, a1, s1, txid2, copied2, a2, end);
    forall v | Late(s.db, s1.db, txid2, v)
      ensures v.xid <= LogicalTxid(s1.view.checkpoint.maxXmin.value, txid2)
        <==> v.xid == txid1 && s1.view.checkpoint.maxXmin.value == PgWraparoundTxid(txid1)
    {
      NotBelowAnActive(s1.view.checkpoint.maxXmin.value, txid1, txid2, v.xid);
    }
  }

  lemma NotBelowAnActive(watermark: Xid, txid1: nat, txid2: nat, x: nat)
    requires txid1 <= txid2 < LogicalTxid(watermark, txid1) + EPOCH && txid1 <= x
    ensures x <= LogicalTxid(watermark, txid2) <==> x == txid1 && watermark == PgWraparoundTxid(txid1)
  {
    LogicalTxidIsUnique(watermark, txid2, LogicalTxid(watermark, txid1));
    if watermark == PgWraparoundTxid(txid1) {
      LogicalTxidIsUnique(watermark, txid1, txid1);
    }
  }
}
