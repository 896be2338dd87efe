/** Whole runs of one table: transactions of the source interleaved with sync attempts that may
  * finish, be aborted or crash, and what the stored checkpoint means all the while. */
module SyncRuns {
  import opened Checkpoint
  import opened RowMatch
  import opened Lake
  import opened CopyStream
  import opened Attempt
  import opened TxidWindow

  // The source database

  /** A current row version: where it is stored, and the 64-bit id of the transaction that wrote it. */
  datatype Version = Version(row: Row, xid: nat, ctid: nat)

  /** Committed rows, transactions in flight, and the next transaction id. */
  datatype Database = Database(rows: set<Version>, active: set<nat>, next: nat)

  function Raw(v: Version): Xid {
    v.xid % EPOCH
  }

  /** A primary key is unique. A table without one may hold equal rows. */
  ghost predicate ValidDatabase(schema: Schema, db: Database) {
    && (forall v :: v in db.rows ==> FitsSchema(schema, v.row) && v.xid < db.next && v.xid !in db.active && Raw(v) != 0)
    && (forall x :: x in db.active ==> x < db.next)
    && (forall v, w :: v in db.rows && w in db.rows && v != w && (PrimaryKey(schema) != [] || v.row != w.row)
          ==> !Replaces(schema, v.row, w.row))
  }

  datatype Transaction = Begin(xid: nat) | Commit(xid: nat) | Rollback(xid: nat)

  /** A commit inserts, updates and deletes at will: what is new carries its id. Ids 0, 1 and 2 of every
    * epoch are reserved. */
  ghost predicate Transacts(schema: Schema, before: Database, t: Transaction, after: Database) {
    && ValidDatabase(schema, after)
    && match t
       case Begin(xid) =>
         xid >= before.next && xid % EPOCH >= 3
         && after == Database(before.rows, before.active + {xid}, xid + 1)
       case Commit(xid) =>
         xid in before.active
         && after == Database(after.rows, before.active - {xid}, before.next)
         && forall v :: v in after.rows ==> v in before.rows || v.xid == xid
       case Rollback(xid) =>
         xid in before.active && after == Database(before.rows, before.active - {xid}, before.next)
  }

  // One attempt

  function Delivered(copied: seq<Version>): (source: seq<SourceRow>)
    ensures |source| == |copied|
    ensures forall i :: 0 <= i < |source| ==> source[i] == SourceRow(copied[i].row, Raw(copied[i]))
  {
    seq(|copied|, i requires 0 <= i < |copied| => SourceRow(copied[i].row, Raw(copied[i])))
  }

  /** What the statement returns: every selected row once, in the order of the ORDER BY clause. */
  ghost predicate Returns(query: CopyQuery, rows: set<Version>, copied: seq<Version>) {
    && (forall v :: v in copied <==> v in rows && Selects(query, Raw(v)))
    && (forall i, j :: 0 <= i < j < |copied| ==> copied[i] != copied[j] && !Precedes(query, Raw(copied[j]), Raw(copied[i])))
  }

  /** A table, its source, and the oldest transaction that was in flight when the last attempt started. */
  datatype State = State(db: Database, view: View, horizon: nat)

  function QueryOf(s: State, incrementalRefresh: bool, currentTxid: nat): CopyQuery {
    CopyFromPgTableSql(s.view.checkpoint, currentTxid, ContinuedRefresh(s.view.checkpoint, incrementalRefresh))
  }

  /** The attempt is the one that SyncPgTable makes of the stored checkpoint: it reads the rows of its
    * snapshot that the statement selects, a prefix of them if COPY is aborted. `currentTxid` is the
    * oldest transaction in flight in its own snapshot, taken no later than the one of the rows. */
  ghost predicate Attempts(s: State, incrementalRefresh: bool, currentTxid: nat, copied: seq<Version>, a: Attempt) {
    && s.horizon <= currentTxid <= s.db.next && (forall x :: x in s.db.active ==> currentTxid <= x)
    && a.base == s.view
    && a.incrementalRefresh == incrementalRefresh
    && a.continuedRefresh == ContinuedRefresh(s.view.checkpoint, incrementalRefresh)
    && a.seed == SeedXmin(s.view.checkpoint)
    && QueryOf(s, incrementalRefresh, currentTxid) != Panic
    && Returns(QueryOf(s, incrementalRefresh, currentTxid), s.db.rows, copied)
    && (forall chunk :: chunk in a.chunks && chunk == [] ==> a.chunks == [[]] && !a.continuedRefresh)
    && Flatten(a.chunks) <= Delivered(copied)
    && (!a.aborted ==> Flatten(a.chunks) == Delivered(copied))
  }

  /** The 64-bit id behind the stored watermark. */
  function Watermark(s: State): int
    requires s.view.checkpoint.maxXmin.Some?
  {
    LogicalTxid(s.view.checkpoint.maxXmin.value, s.horizon)
  }

  // Conditions on the source under which the checkpoints are sound

  /** Fewer than 2^32 transactions were started since the watermark. */
  ghost predicate WithinOneEpoch(s: State) {
    s.view.checkpoint.maxXmin.Some? ==> s.db.next < Watermark(s) + EPOCH
  }

  /** No row from an earlier epoch shows the raw id of the current transaction. */
  ghost predicate NoAlias(db: Database, currentTxid: nat) {
    forall v :: v in db.rows && Raw(v) == PgWraparoundTxid(currentTxid) ==> v.xid == currentTxid
  }

  /** A full copy has no upper bound: no row in it may be newer than the oldest transaction in flight. */
  ghost predicate NothingNewer(db: Database, currentTxid: nat) {
    forall v :: v in db.rows ==> v.xid <= currentTxid
  }

  /** No raw id in the table is above the one of the current transaction, so raw order is the real order. */
  ghost predicate RawOrderIsReal(db: Database, currentTxid: nat) {
    forall v :: v in db.rows ==> Raw(v) <= PgWraparoundTxid(currentTxid)
  }

  /** A new refresh that delivers no row and is aborted keeps the watermark of the table it emptied. */
  predicate KeepsStaleWatermark(a: Attempt) {
    !a.continuedRefresh && a.aborted && Flatten(a.chunks) == [] && a.base.checkpoint.maxXmin.Some?
  }

  ghost predicate SoundConditions(s: State, currentTxid: nat, a: Attempt, after: View) {
    && NoAlias(s.db, currentTxid)
    && (a.continuedRefresh ==> WithinOneEpoch(s))
    && (!a.continuedRefresh ==> NothingNewer(s.db, currentTxid))
    && (!a.continuedRefresh ==> RawOrderIsReal(s.db, currentTxid) || !after.checkpoint.IsInProgress())
    && !KeepsStaleWatermark(a)
  }

  // Runs

  datatype Step = Transacting(t: Transaction) | Syncing(currentTxid: nat, copied: seq<Version>, a: Attempt)

  ghost predicate Next(schema: Schema, incrementalRefresh: bool, s: State, step: Step, s': State) {
    match step
    case Transacting(t) =>
      Transacts(schema, s.db, t, s'.db) && s'.view == s.view && s'.horizon == s.horizon
    case Syncing(currentTxid, copied, a) =>
      && Attempts(s, incrementalRefresh, currentTxid, copied, a)
      && s'.db == s.db && s'.horizon == currentTxid
      && Shows(schema, a, s'.view)
      && SoundConditions(s, currentTxid, a, s'.view)
  }

  ghost predicate Init(schema: Schema, s: State) {
    ValidDatabase(schema, s.db) && s.view == View([], NO_CHECKPOINT) && s.horizon == 0
  }

  /** A run: any interleaving of transactions and attempts, each attempt left at any of its states. */
  ghost predicate IsRun(schema: Schema, incrementalRefresh: bool, states: seq<State>, steps: seq<Step>) {
    && |states| == |steps| + 1
    && Init(schema, states[0])
    && forall i :: 0 <= i < |steps| ==> Next(schema, incrementalRefresh, states[i], steps[i], states[i + 1])
  }

  // What the checkpoint means

  /** Where the next window finds a row: rows newer than the horizon are still to come, and a row
    * from an earlier epoch counts as the latest transaction with its raw id. */
  function Position(xid: nat, horizon: nat): int {
    if xid > horizon then xid else LogicalTxid(xid % EPOCH, horizon)
  }

  /** The rows up to the watermark, or before it, are in the table with their current values. */
  ghost predicate Caught(db: Database, rows: seq<Row>, horizon: nat, watermark: int, inclusive: bool) {
    forall v :: v in db.rows && (Position(v.xid, horizon) < watermark || (inclusive && Position(v.xid, horizon) == watermark))
      ==> v.row in rows
  }

  ghost predicate Resumable(s: State, incrementalRefresh: bool) {
    ContinuedRefresh(s.view.checkpoint, incrementalRefresh) ==>
      && Watermark(s) < s.db.next && Watermark(s) !in s.db.active
      && Caught(s.db, s.view.rows, s.horizon, Watermark(s), !s.view.checkpoint.IsInProgress())
  }

  ghost predicate Invariant(schema: Schema, incrementalRefresh: bool, s: State) {
    && ValidDatabase(schema, s.db)
    && s.horizon <= s.db.next && (forall x :: x in s.db.active ==> s.horizon <= x)
    && (PrimaryKey(schema) != [] ==> UniqueKeys(schema, s.view.rows))
    && s.view.checkpoint.maxXmin != Some(0)
    && Resumable(s, incrementalRefresh)
  }

  lemma TransactionKeepsInvariant(schema: Schema, incrementalRefresh: bool, s: State, t: Transaction, s': State)
    requires Invariant(schema, incrementalRefresh, s)
    requires Next(schema, incrementalRefresh, s, Transacting(t), s')
    ensures Invariant(schema, incrementalRefresh, s')
  {
    hide Replaces, FitsSchema;
    if ContinuedRefresh(s.view.checkpoint, incrementalRefresh) {
      var w := Watermark(s);
      forall v | v in s'.db.rows && v !in s.db.rows
        ensures !(Position(v.xid, s.horizon) <= w)
      {
        assert v.xid == t.xid >= s.horizon;
        if v.xid == s.horizon {
          LogicalTxidIsUnique(v.xid % EPOCH, s.horizon, s.horizon);
        }
      }
    }
  }

  // Positions and windows

  lemma PositionAdvances(xid: nat, earlier: nat, later: nat)
    requires earlier <= later < xid + EPOCH || xid <= earlier <= later
    ensures Position(xid, earlier) <= Position(xid, later)
  {
    if xid > earlier && xid <= later {
      LogicalTxidIsUnique(xid % EPOCH, later, xid);
    } else if xid <= earlier {
      LogicalTxidIsMonotone(xid % EPOCH, earlier, later);
    }
  }

  /** The watermark means the same transaction to the next attempt. */
  lemma WatermarkStands(s: State, currentTxid: nat)
    requires s.view.checkpoint.maxXmin.Some?
    requires s.horizon <= currentTxid <= s.db.next && s.db.next < Watermark(s) + EPOCH
    ensures LogicalTxid(s.view.checkpoint.maxXmin.value, currentTxid) == Watermark(s)
  {
    LogicalTxidIsUnique(s.view.checkpoint.maxXmin.value, currentTxid, Watermark(s));
  }

  /** A row that the statement of a continued refresh does not return was caught before, or is newer. */
  lemma NotReturned(s: State, incrementalRefresh: bool, currentTxid: nat, copied: seq<Version>, a: Attempt, v: Version)
    requires a.continuedRefresh && Attempts(s, incrementalRefresh, currentTxid, copied, a)
    requires Resumable(s, incrementalRefresh) && WithinOneEpoch(s)
    requires v in s.db.rows && v !in copied && v.xid < s.db.next
    requires Position(v.xid, currentTxid) <= currentTxid
    ensures v.row in s.view.rows
    ensures Position(v.xid, currentTxid) <= Watermark(s)
  {
    var ck, w := s.view.checkpoint, Watermark(s);
    assert !Selects(QueryOf(s, incrementalRefresh, currentTxid), Raw(v));
    ContinuedWindowIsLogicalInterval(ck, currentTxid, Raw(v));
    WatermarkStands(s, currentTxid);
    assert Position(v.xid, currentTxid) == LogicalTxid(Raw(v), currentTxid);
    assert Position(v.xid, currentTxid) < w || (Position(v.xid, currentTxid) == w && !ck.IsInProgress());
    PositionAdvances(v.xid, s.horizon, currentTxid);
  }

  /** COPY delivers in the order of positions. */
  lemma DeliveredInOrder(
      s: State, incrementalRefresh: bool, currentTxid: nat, copied: seq<Version>, a: Attempt, i: nat, j: nat)
    requires Attempts(s, incrementalRefresh, currentTxid, copied, a)
    requires a.continuedRefresh || RawOrderIsReal(s.db, currentTxid)
    requires i < j < |copied|
    ensures LogicalTxid(Raw(copied[i]), currentTxid) <= LogicalTxid(Raw(copied[j]), currentTxid)
  {
    var query := QueryOf(s, incrementalRefresh, currentTxid);
    assert copied[i] in copied && copied[j] in copied;
    assert !Precedes(query, Raw(copied[j]), Raw(copied[i]));
    if a.continuedRefresh {
      ContinuedOrderIsLogical(s.view.checkpoint, currentTxid, Raw(copied[j]), Raw(copied[i]));
    } else {
      LogicalTxidByEpoch(Raw(copied[i]), currentTxid);
      LogicalTxidByEpoch(Raw(copied[j]), currentTxid);
    }
  }

  // What the chunks put in the table

  /** The rows of the first `count` chunks are the first rows that COPY returned. */
  lemma ChunksArePrefix(copied: seq<Version>, a: Attempt, count: nat) returns (k: nat)
    requires count <= |a.chunks| && Flatten(a.chunks) <= Delivered(copied)
    ensures k <= |copied| && Flatten(a.chunks[..count]) == Delivered(copied)[..k]
    ensures count == |a.chunks| ==> k == |Flatten(a.chunks)|
  {
    FlattenPrefix(a.chunks, count);
    k := |Flatten(a.chunks[..count])|;
    assert a.chunks[..|a.chunks|] == a.chunks;
  }

  /** Rows that were delivered are in the table, and older ones with a current version stay. */
  lemma RowInTable(schema: Schema, s: State, copied: seq<Version>, a: Attempt, count: nat, k: nat, v: Version)
    requires ValidDatabase(schema, s.db) && count <= |a.chunks| && k <= |copied|
    requires forall w :: w in copied ==> w in s.db.rows
    requires Flatten(a.chunks[..count]) == Delivered(copied)[..k]
    requires v in s.db.rows && (v in copied[..k] || v.row in ExistingRows(a))
    ensures v.row in TableAfter(schema, a, count)
  {
    hide Replaces, TableAfter, ExistingRows;
    var delivered := RowsOf(Flatten(a.chunks[..count]));
    TableIsOverridden(schema, a, count);
    forall i | 0 <= i < k ensures delivered[i] == copied[i].row {
    }
    if v in copied[..k] {
      var i :| 0 <= i < k && copied[..k][i] == v;
      assert delivered[i] == v.row;
    } else if v.row !in delivered {
      forall i | 0 <= i < k ensures !Replaces(schema, delivered[i], v.row) {
        assert copied[i] in copied && copied[..k][i] == copied[i] && delivered[i] in delivered;
      }
      assert !Overlaps(schema, v.row, delivered);
    }
  }

  lemma TableKeysUnique(schema: Schema, s: State, copied: seq<Version>, a: Attempt, count: nat)
    requires PrimaryKey(schema) != [] && ValidDatabase(schema, s.db)
    requires count <= |a.chunks| && UniqueKeys(schema, ExistingRows(a))
    requires forall i, j :: 0 <= i < j < |copied| ==> copied[i] != copied[j]
    requires forall w :: w in copied ==> w in s.db.rows
    requires Flatten(a.chunks) <= Delivered(copied)
    ensures UniqueKeys(schema, TableAfter(schema, a, count))
  {
    hide Replaces, TableAfter;
    var k := ChunksArePrefix(copied, a, count);
    var rows := RowsOf(Flatten(a.chunks[..count]));
    forall i, j | 0 <= i < j < |rows| ensures !Replaces(schema, rows[i], rows[j]) {
      assert copied[i] in copied && copied[j] in copied;
    }
    TableHasUniqueKeys(schema, a, count);
  }

  /** After `m` delivered rows the watermark is the last of them, or still the one of the start. */
  function Reached(s: State, currentTxid: nat, copied: seq<Version>, m: nat): int
    requires m <= |copied| && (m == 0 ==> s.view.checkpoint.maxXmin.Some?)
  {
    LogicalTxid(if m == 0 then s.view.checkpoint.maxXmin.value else Raw(copied[m - 1]), currentTxid)
  }

  /** With `k` rows in the table and a checkpoint that says `m` <= `k`, all rows before it are in. */
  lemma CaughtInProgress(
    schema: Schema, s: State, incrementalRefresh: bool, currentTxid: nat, copied: seq<Version>, a: Attempt,
    count: nat, k: nat, m: nat)
    requires Attempts(s, incrementalRefresh, currentTxid, copied, a) && ValidDatabase(schema, s.db)
    requires if a.continuedRefresh then Resumable(s, incrementalRefresh) && WithinOneEpoch(s)
             else NothingNewer(s.db, currentTxid) && RawOrderIsReal(s.db, currentTxid) && m > 0
    requires count <= |a.chunks| && m <= k <= |copied| && Flatten(a.chunks[..count]) == Delivered(copied)[..k]
    ensures Caught(s.db, TableAfter(schema, a, count), currentTxid, Reached(s, currentTxid, copied, m),
                   m == 0 && !s.view.checkpoint.IsInProgress())
  {
    hide TableAfter, Replaces, FitsSchema, Returns, Flatten, LogicalTxid, QueryOf, RawOrderIsReal;
    ReturnsRows(s, incrementalRefresh, currentTxid, copied, a);
    forall v | v in s.db.rows && (Position(v.xid, currentTxid) < Reached(s, currentTxid, copied, m)
        || (m == 0 && !s.view.checkpoint.IsInProgress() && Position(v.xid, currentTxid) == Reached(s, currentTxid, copied, m)))
      ensures v.row in TableAfter(schema, a, count)
    {
      assert Position(v.xid, currentTxid) == LogicalTxid(Raw(v), currentTxid);
      if v in copied {
        var i :| 0 <= i < |copied| && copied[i] == v;
        if m == 0 {
          StartExcludes(s, incrementalRefresh, currentTxid, copied, a, v);
        } else if i >= m {
          if i > m - 1 {
            DeliveredInOrder(s, incrementalRefresh, currentTxid, copied, a, m - 1, i);
          }
        }
        assert m > 0 && i < m;
        assert copied[..k][i] == v;
      } else {
        ReturnedUnlessContinued(s, incrementalRefresh, currentTxid, copied, a, v);
        NotReturned(s, incrementalRefresh, currentTxid, copied, a, v);
      }
      RowInTable(schema, s, copied, a, count, k, v);
    }
  }

  /** No returned row lies before the watermark of the start. */
  lemma StartExcludes(
      s: State, incrementalRefresh: bool, currentTxid: nat, copied: seq<Version>, a: Attempt, v: Version)
    requires a.continuedRefresh && Attempts(s, incrementalRefresh, currentTxid, copied, a) && v in copied
    requires LogicalTxid(Raw(v), currentTxid) <= LogicalTxid(s.view.checkpoint.maxXmin.value, currentTxid)
    ensures LogicalTxid(Raw(v), currentTxid) == LogicalTxid(s.view.checkpoint.maxXmin.value, currentTxid)
    ensures s.view.checkpoint.IsInProgress()
  {
    ContinuedWindowIsLogicalInterval(s.view.checkpoint, currentTxid, Raw(v));
  }

  lemma ReturnedUnlessContinued(
      s: State, incrementalRefresh: bool, currentTxid: nat, copied: seq<Version>, a: Attempt, v: Version)
    requires Attempts(s, incrementalRefresh, currentTxid, copied, a)
    requires v in s.db.rows && v !in copied
    ensures a.continuedRefresh
  {
  }

  /** A clean COPY that is completely in the table leaves out only rows newer than its horizon. */
  lemma CaughtCompletely(
    schema: Schema, s: State, incrementalRefresh: bool, currentTxid: nat, copied: seq<Version>, a: Attempt, count: nat, v: Version)
    requires Attempts(s, incrementalRefresh, currentTxid, copied, a) && ValidDatabase(schema, s.db)
    requires a.continuedRefresh ==> Resumable(s, incrementalRefresh) && WithinOneEpoch(s)
    requires count <= |a.chunks| && Flatten(a.chunks[..count]) == Delivered(copied)
    requires v in s.db.rows && Position(v.xid, currentTxid) <= currentTxid
    ensures v.row in TableAfter(schema, a, count)
  {
    hide TableAfter, Replaces, FitsSchema, Selects, Precedes;
    if v !in copied {
      ReturnedUnlessContinued(s, incrementalRefresh, currentTxid, copied, a, v);
      NotReturned(s, incrementalRefresh, currentTxid, copied, a, v);
    }
    assert copied[..|copied|] == copied && Delivered(copied)[..|copied|] == Delivered(copied);
    RowInTable(schema, s, copied, a, count, |copied|, v);
  }

  // Every state an attempt can leave is one to resume from

  /** The watermark never names a transaction that may still write. */
  lemma WatermarkIsSettled(schema: Schema, db: Database, currentTxid: nat, v: Version)
    requires ValidDatabase(schema, db) && NoAlias(db, currentTxid) && v in db.rows
    requires currentTxid <= db.next && forall x :: x in db.active ==> currentTxid <= x
    ensures LogicalTxid(Raw(v), currentTxid) < db.next && LogicalTxid(Raw(v), currentTxid) !in db.active
  {
    if LogicalTxid(Raw(v), currentTxid) == currentTxid {
      assert v.xid == currentTxid;
    }
  }

  /** The attempt's own steps: the watermark of a checkpoint written after `j` chunks. */
  lemma WatermarkOfChunks(s: State, copied: seq<Version>, a: Attempt, j: nat) returns (m: nat)
    requires j <= |a.chunks| && Flatten(a.chunks) <= Delivered(copied) && a.seed == SeedXmin(s.view.checkpoint)
    ensures m <= |copied| && Flatten(a.chunks[..j]) == Delivered(copied)[..m]
    ensures j == |a.chunks| ==> m == |Flatten(a.chunks)|
    ensures XminAfter(a.seed, Flatten(a.chunks[..j])) == if m == 0 then a.seed else Raw(copied[m - 1])
  {
    m := ChunksArePrefix(copied, a, j);
  }

  lemma FlattenGrows(a: Attempt, i: nat, j: nat)
    requires i <= j <= |a.chunks|
    ensures |Flatten(a.chunks[..i])| <= |Flatten(a.chunks[..j])|
  {
    FlattenPrefix(a.chunks[..j], i);
    assert a.chunks[..j][..i] == a.chunks[..i];
  }

  lemma NonEmptyChunks(a: Attempt, j: nat)
    requires forall chunk :: chunk in a.chunks && chunk == [] ==> a.chunks == [[]] && !a.continuedRefresh
    requires j <= |a.chunks| && (j > 0 || a.chunks == []) && Flatten(a.chunks[..j]) == []
    ensures a.chunks == [] || (a.chunks == [[]] && !a.continuedRefresh)
    ensures Flatten(a.chunks) == []
  {
    if j > 0 {
      assert a.chunks[..j][j - 1] == a.chunks[j - 1];
      assert a.chunks[j - 1] in a.chunks;
      assert a.chunks[..1] == a.chunks;
    }
  }

  /** `count` chunks are in the table, and a checkpoint in progress says so of the first `j`. */
  lemma InProgressIsResumable(
    schema: Schema, incrementalRefresh: bool, s: State, currentTxid: nat, copied: seq<Version>, a: Attempt,
    count: nat, j: nat, s': State)
    requires Invariant(schema, incrementalRefresh, s)
    requires Attempts(s, incrementalRefresh, currentTxid, copied, a) && SoundConditions(s, currentTxid, a, s'.view)
    requires j <= count <= |a.chunks| && (j > 0 || (a.chunks == [] && a.aborted))
    requires a.chunks == [[]] ==> a.aborted
    requires s' == State(s.db, View(TableAfter(schema, a, count), CheckpointAfter(a, j, false)), currentTxid)
    ensures Resumable(s', incrementalRefresh)
  {
    hide TableAfter, Caught, Returns, NothingNewer, RawOrderIsReal, ValidDatabase, UniqueKeys, QueryOf, Flatten, LogicalTxid;
    var k := ChunksArePrefix(copied, a, count);
    var m := WatermarkOfChunks(s, copied, a, j);
    FlattenGrows(a, j, count);
    if m > 0 {
      assert copied[m - 1] in s.db.rows by {
        assert copied[m - 1] in copied;
        ReturnsRows(s, incrementalRefresh, currentTxid, copied, a);
      }
      WatermarkIsSettled(schema, s.db, currentTxid, copied[m - 1]);
      CaughtInProgress(schema, s, incrementalRefresh, currentTxid, copied, a, count, k, m);
    } else if a.continuedRefresh {
      WatermarkStands(s, currentTxid);
      CaughtInProgress(schema, s, incrementalRefresh, currentTxid, copied, a, count, k, m);
      CaughtIsMonotone(s.db, s'.view.rows, currentTxid, Watermark(s), !s.view.checkpoint.IsInProgress());
    } else {
      NonEmptyChunks(a, j);
    }
  }

  lemma ReturnsRows(s: State, incrementalRefresh: bool, currentTxid: nat, copied: seq<Version>, a: Attempt)
    requires Attempts(s, incrementalRefresh, currentTxid, copied, a)
    ensures forall v :: v in copied ==> v in s.db.rows
    ensures forall i, j :: 0 <= i < j < |copied| ==> copied[i] != copied[j]
  {
  }

  lemma CaughtIsMonotone(db: Database, rows: seq<Row>, horizon: nat, watermark: int, inclusive: bool)
    requires Caught(db, rows, horizon, watermark, inclusive)
    ensures Caught(db, rows, horizon, watermark, false)
  {
  }

  /** The last chunk is in the table and COPY ended cleanly. */
  lemma CompletedIsResumable(
    schema: Schema, incrementalRefresh: bool, s: State, currentTxid: nat, copied: seq<Version>, a: Attempt, s': State)
    requires Invariant(schema, incrementalRefresh, s)
    requires Attempts(s, incrementalRefresh, currentTxid, copied, a) && SoundConditions(s, currentTxid, a, s'.view)
    requires !a.aborted
    requires s' == State(s.db, View(TableAfter(schema, a, |a.chunks|), CheckpointAfter(a, |a.chunks|, true)), currentTxid)
    ensures Resumable(s', incrementalRefresh)
  {
    hide TableAfter, Returns, NothingNewer, ValidDatabase, UniqueKeys, Selects, Precedes;
    if ContinuedRefresh(s'.view.checkpoint, incrementalRefresh) {
      var m := WatermarkOfChunks(s, copied, a, |a.chunks|);
      ReturnsRows(s, incrementalRefresh, currentTxid, copied, a);
      assert a.chunks[..|a.chunks|] == a.chunks;
      if m > 0 {
        assert copied[m - 1] in copied;
        WatermarkIsSettled(schema, s.db, currentTxid, copied[m - 1]);
      } else {
        assert a.continuedRefresh;
        WatermarkStands(s, currentTxid);
      }
      forall v | v in s.db.rows && Position(v.xid, currentTxid) <= currentTxid
        ensures v.row in TableAfter(schema, a, |a.chunks|)
      {
        CaughtCompletely(schema, s, incrementalRefresh, currentTxid, copied, a, |a.chunks|, v);
      }
    }
  }

  /** Nothing was committed: the checkpoint stands, and its rows too. */
  lemma UnchangedIsResumable(
    schema: Schema, incrementalRefresh: bool, s: State, currentTxid: nat, rows: seq<Row>, copied: seq<Version>, a: Attempt, s': State)
    requires Invariant(schema, incrementalRefresh, s)
    requires Attempts(s, incrementalRefresh, currentTxid, copied, a) && SoundConditions(s, currentTxid, a, s'.view)
    requires s' == State(s.db, s.view, currentTxid)
    ensures Resumable(s', incrementalRefresh)
  {
    hide Returns, NothingNewer;
    if a.continuedRefresh {
      WatermarkStands(s, currentTxid);
      forall v | v in s.db.rows && (Position(v.xid, currentTxid) < Watermark(s)
          || (!s.view.checkpoint.IsInProgress() && Position(v.xid, currentTxid) == Watermark(s)))
        ensures v.row in s.view.rows
      {
        PositionAdvances(v.xid, s.horizon, currentTxid);
      }
    }
  }

  /** The first chunk is in the table, and the checkpoint is still the one of the start. */
  lemma FirstChunkIsResumable(
    schema: Schema, incrementalRefresh: bool, s: State, currentTxid: nat, copied: seq<Version>, a: Attempt, s': State)
    requires Invariant(schema, incrementalRefresh, s)
    requires Attempts(s, incrementalRefresh, currentTxid, copied, a) && SoundConditions(s, currentTxid, a, s'.view)
    requires |a.chunks| > 0
    requires s' == State(s.db, View(TableAfter(schema, a, 1), s.view.checkpoint), currentTxid)
    ensures Resumable(s', incrementalRefresh)
  {
    hide TableAfter, Returns, NothingNewer, Caught;
    if a.continuedRefresh {
      WatermarkStands(s, currentTxid);
      var k := ChunksArePrefix(copied, a, 1);
      CaughtInProgress(schema, s, incrementalRefresh, currentTxid, copied, a, 1, k, 0);
    }
  }

  lemma ExistingKeysUnique(schema: Schema, a: Attempt)
    requires UniqueKeys(schema, a.base.rows)
    ensures UniqueKeys(schema, ExistingRows(a))
  {
  }

  lemma ShownTable(schema: Schema, a: Attempt, v: View)
    requires Shows(schema, a, v) && v != a.base
    ensures exists count: nat :: count <= |a.chunks| && v.rows == TableAfter(schema, a, count)
    ensures v.checkpoint.maxXmin != Some(0) || v.checkpoint == a.base.checkpoint
  {
    hide TableAfter;
    if !Ended(schema, a, v) {
      var count: nat :| CommittedAt(schema, a, v, count);
    }
  }

  lemma AttemptKeepsUniqueKeys(
    schema: Schema, incrementalRefresh: bool, s: State, currentTxid: nat, copied: seq<Version>, a: Attempt, s': State)
    requires Invariant(schema, incrementalRefresh, s)
    requires Next(schema, incrementalRefresh, s, Syncing(currentTxid, copied, a), s')
    ensures PrimaryKey(schema) != [] ==> UniqueKeys(schema, s'.view.rows)
    ensures s'.view.checkpoint.maxXmin != Some(0)
  {
    hide TableAfter, SoundConditions, Selects, Precedes, Returns, ValidDatabase, UniqueKeys, Resumable, Shows;
    ReturnsRows(s, incrementalRefresh, currentTxid, copied, a);
    if s'.view != a.base {
      ShownTable(schema, a, s'.view);
      if PrimaryKey(schema) != [] {
        ExistingKeysUnique(schema, a);
        var count: nat :| count <= |a.chunks| && s'.view.rows == TableAfter(schema, a, count);
        TableKeysUnique(schema, s, copied, a, count);
      }
    }
  }

  lemma AttemptKeepsInvariant(
    schema: Schema, incrementalRefresh: bool, s: State, currentTxid: nat, copied: seq<Version>, a: Attempt, s': State)
    requires Invariant(schema, incrementalRefresh, s)
    requires Next(schema, incrementalRefresh, s, Syncing(currentTxid, copied, a), s')
    ensures Invariant(schema, incrementalRefresh, s')
  {
    AttemptKeepsUniqueKeys(schema, incrementalRefresh, s, currentTxid, copied, a, s');
    hide TableAfter, UniqueKeys, SoundConditions, Returns, CheckpointAfter, ValidDatabase, Resumable;
    assert s' == State(s.db, s'.view, currentTxid);
    if s'.view == a.base {
      UnchangedIsResumable(schema, incrementalRefresh, s, currentTxid, s.view.rows, copied, a, s');
    } else if Ended(schema, a, s'.view) {
      if a.aborted {
        InProgressIsResumable(schema, incrementalRefresh, s, currentTxid, copied, a, |a.chunks|, |a.chunks|, s');
      } else {
        CompletedIsResumable(schema, incrementalRefresh, s, currentTxid, copied, a, s');
      }
    } else {
      var count: nat :| CommittedAt(schema, a, s'.view, count);
      if s'.view.checkpoint == CheckpointAfter(a, count, false) && (a.chunks[count - 1] != [] || a.aborted) {
        InProgressIsResumable(schema, incrementalRefresh, s, currentTxid, copied, a, count, count, s');
      } else if count == 1 {
        FirstChunkIsResumable(schema, incrementalRefresh, s, currentTxid, copied, a, s');
      } else {
        InProgressIsResumable(schema, incrementalRefresh, s, currentTxid, copied, a, count, count - 1, s');
      }
    }
  }

  // Main results

  /** Over every run, at every moment: if the stored checkpoint makes the next attempt a continued one,
    * every current source row up to its watermark (before it, while a refresh is in progress) is in
    * the table with its current value, no transaction that could still commit lies there, and no two
    * rows of a table with a primary key share it. */
  lemma {:induction false} ResumeInvariant(
    schema: Schema, incrementalRefresh: bool, states: seq<State>, steps: seq<Step>, i: nat)
    requires IsRun(schema, incrementalRefresh, states, steps) && i < |states|
    ensures Invariant(schema, incrementalRefresh, states[i])
    decreases i
  {
    if i == 0 {
      hide ValidDatabase;
    } else {
      ResumeInvariant(schema, incrementalRefresh, states, steps, i - 1);
      var s, step, s' := states[i - 1], steps[i - 1], states[i];
      assert Next(schema, incrementalRefresh, s, step, s');
      hide Invariant;
      match step
      case Transacting(t) => TransactionKeepsInvariant(schema, incrementalRefresh, s, t, s');
      case Syncing(currentTxid, copied, a) => AttemptKeepsInvariant(schema, incrementalRefresh, s, currentTxid, copied, a, s');
    }
  }
}
