/** Synchronising one table: a single attempt, and the retries around it. */
module Syncer {
  import opened Checkpoint
  import opened RowMatch
  import opened Lake
  import opened CopyStream
  import opened Loader
  import opened Attempt
  import opened Storage
  import opened IcebergWriter
  import opened SyncRuns
  import opened Resume
  import opened TxidWindow
  import CappedBuffer

  const MAX_RECOVERY_CONFLICT_RETRIES: nat := 3

  /** What the outside world does during one attempt: a connection or the header fails before anything
    * is written, or the database answers the statement it is sent through the buffer. */
  datatype Weather =
    | SetupFails(retryable: bool)
    | Copies(currentTxid: nat, copy: CopyQuery -> CopyRun, retryable: bool)

  datatype Outcome = Synced | Failed(retryable: bool) | Crashed

  ghost predicate ReadyToSync(disk: Disk) {
    && Consistent(disk)
    && disk.checkpoint.maxXmin != Some(0)
    && (disk.checkpoint.maxXmin.Some? ==> disk.metadata.Some?)
  }

  /** The attempt was made as the checkpoint on disk says. */
  ghost predicate ResumesFromDisk(a: Attempt, incrementalRefresh: bool) {
    && a.incrementalRefresh == incrementalRefresh
    && a.continuedRefresh == ContinuedRefresh(a.base.checkpoint, incrementalRefresh)
    && a.seed == SeedXmin(a.base.checkpoint)
  }

  /** The metadata in memory leads to the same attempt as the one on disk. */
  ghost predicate Agree(inMemory: InternalTableMetadata, onDisk: InternalTableMetadata) {
    inMemory == onDisk || (inMemory.maxXmin.None? && onDisk.maxXmin.None?)
  }

  /** The next attempt starts from the table and the checkpoint that an aborted one left. */
  ghost predicate Resumes(schema: Schema, a: Attempt, next: Attempt) {
    a.aborted && Ended(schema, a, next.base)
  }

  /** The attempts lead from the view `start` to the one now, each resuming from where the one before it ended. */
  ghost predicate Linked(schema: Schema, incrementalRefresh: bool, start: View, attempts: seq<Attempt>, now: View) {
    && (forall a :: a in attempts ==> ResumesFromDisk(a, incrementalRefresh))
    && (forall i :: 0 <= i < |attempts| - 1 ==> Resumes(schema, attempts[i], attempts[i + 1]))
    && if attempts == [] then now == start
       else attempts[0].base == start && Ended(schema, attempts[|attempts| - 1], now)
  }

  /** Only a new refresh that found nothing at all has an empty file, and then no other. */
  ghost predicate NoEmptyChunk(a: Attempt) {
    forall chunk :: chunk in a.chunks && chunk == [] ==> a.chunks == [[]] && !a.continuedRefresh
  }

  ghost predicate NormalXids(source: seq<SourceRow>) {
    forall r :: r in source ==> r.xmin != 0
  }

  /** Whatever statement it is sent, COPY runs to an end and delivers rows with transaction ids. */
  ghost predicate Proper(decode: Decoder, w: Weather) {
    w.Copies? ==> forall query :: ReadByOne(w.copy(query)) && NormalXids(decode(Written(w.copy(query))))
  }

  /** The attempt put in the table what this COPY wrote, and was aborted if COPY was. */
  ghost predicate MadeOf(decode: Decoder, a: Attempt, run: CopyRun) {
    Flatten(a.chunks) == decode(Written(run)) && a.aborted == Aborted(run)
  }

  /** The statement that the checkpoint of the attempt's start leads to. */
  function QueryFrom(a: Attempt, currentTxid: nat): CopyQuery {
    CopyFromPgTableSql(a.base.checkpoint, currentTxid, a.continuedRefresh)
  }

  /** A refresh is marked as completed only if the first close of the buffer was a clean one, and every byte that COPY
    * ever got accepted is delivered, decoded and in the table. */
  lemma CompletedMeansEveryByte(schema: Schema, decode: Decoder, a: Attempt, run: CopyRun, v: View)
    requires ReadByOne(run) && MadeOf(decode, a, run) && Shows(schema, a, v)
    requires v.checkpoint != a.base.checkpoint && !v.checkpoint.IsInProgress()
    ensures CappedBuffer.FirstClose(Last(run).log) == Some(None)
    ensures CappedBuffer.Delivered(Last(run).log) == CappedBuffer.Accepted(Last(run).log)
    ensures Flatten(a.chunks) == decode(CappedBuffer.Accepted(Last(run).log))
    ensures v.rows == TableAfter(schema, a, |a.chunks|)
  {
    hide TableAfter, Flatten, Shows, CappedBuffer.FirstClose, CappedBuffer.Accepted, CappedBuffer.Delivered;
    CompletedOnlyWithEveryRow(schema, a, v);
    var reason :| Told(Last(run).log, run.reader, reason);
    ToldMeansAll(run, |run.states| - 1, reason);
  }

  // When an attempt is made, and when it is made again

  /** Nothing is written if the setup fails or the statement is refused; else an attempt is made, and succeeds if and
    * only if COPY was not aborted. */
  ghost predicate Concludes(
      onDisk: InternalTableMetadata, incrementalRefresh: bool, w: Weather, made: Option<Attempt>, outcome: Outcome) {
    match w
    case SetupFails(retryable) => made.None? && outcome == Failed(retryable)
    case Copies(currentTxid, copy, retryable) =>
      var query := CopyFromPgTableSql(onDisk, currentTxid, ContinuedRefresh(onDisk, incrementalRefresh));
      if query == Panic then made.None? && outcome == Crashed
      else made.Some? && outcome == if Aborted(copy(query)) then Failed(retryable) else Synced
  }

  /** With a watermark that some transaction can have left, the statement is refused in one case only. */
  lemma RefusedIff(onDisk: InternalTableMetadata, incrementalRefresh: bool, currentTxid: nat)
    requires onDisk.maxXmin.Some? ==> LogicalTxid(onDisk.maxXmin.value, currentTxid) >= 0
    ensures CopyFromPgTableSql(onDisk, currentTxid, ContinuedRefresh(onDisk, incrementalRefresh)) == Panic
      <==> currentTxid == EPOCH && onDisk.maxXmin !in {None, Some(0)}
           && (incrementalRefresh || onDisk.lastRefreshMode == FullInProgress)
  {
    if onDisk.maxXmin.Some? {
      ContinuedWindowPanicsIff(onDisk, currentTxid);
    }
  }

  /** One round of the retries: the metadata in memory and on disk, the attempt if one is made, and its outcome. */
  datatype Round = Round(
    inMemory: InternalTableMetadata, onDisk: InternalTableMetadata, made: Option<Attempt>, outcome: Outcome)
  {
    /** The checkpoint on disk after it. */
    function Leaves(): InternalTableMetadata {
      if made.None? then onDisk else CheckpointAfter(made.value, |made.value.chunks|, !made.value.aborted)
    }
  }

  ghost predicate RoundHolds(incrementalRefresh: bool, w: Weather, r: Round) {
    && Concludes(r.onDisk, incrementalRefresh, w, r.made, r.outcome)
    && (r.made.Some? ==>
          var a := r.made.value;
          && w.Copies? && a.base.checkpoint == r.onDisk && a.incrementalRefresh == incrementalRefresh
          && a.lastTxid == LastTxid(r.inMemory, w.currentTxid) && a.aborted == (r.outcome != Synced)
          && (r.Leaves().maxXmin.None? ==> r.inMemory.maxXmin.None?))
  }

  /** What the next round has in memory: the checkpoint on disk, if it has a watermark. */
  function Refreshed(r: Round): InternalTableMetadata {
    if r.Leaves().maxXmin.Some? then r.Leaves() else r.inMemory
  }

  /** Every round but the last one failed for a reason to try again, and the next one starts from what it left. */
  ghost predicate Chained(incrementalRefresh: bool, weather: seq<Weather>, rounds: seq<Round>) {
    && |rounds| <= |weather|
    && (forall i :: 0 <= i < |rounds| ==> RoundHolds(incrementalRefresh, weather[i], rounds[i]))
    && (forall i :: 0 <= i < |rounds| - 1 ==> TriedAgain(rounds[i], rounds[i + 1]))
  }

  ghost predicate TriedAgain(r: Round, next: Round) {
    r.outcome == Failed(true) && next.onDisk == r.Leaves() && next.inMemory == Refreshed(r)
  }

  function Made(rounds: seq<Round>): seq<Attempt> {
    if rounds == [] then []
    else
      var last := rounds[|rounds| - 1].made;
      Made(rounds[..|rounds| - 1]) + if last.Some? then [last.value] else []
  }

  /** The rounds so far led from the checkpoint `start` to the one that is on disk now, by these attempts. */
  ghost predicate Recorded(
      incrementalRefresh: bool, weather: seq<Weather>, start: InternalTableMetadata, rounds: seq<Round>,
      attempts: seq<Attempt>, now: InternalTableMetadata)
  {
    && Chained(incrementalRefresh, weather, rounds) && attempts == Made(rounds)
    && if rounds == [] then now == start
       else rounds[0].inMemory == rounds[0].onDisk == start && now == rounds[|rounds| - 1].Leaves()
  }

  /** There is a next round, which has this in memory. */
  ghost predicate Continues(rounds: seq<Round>, onDisk: InternalTableMetadata, inMemory: InternalTableMetadata) {
    if rounds == [] then inMemory == onDisk
    else rounds[|rounds| - 1].outcome == Failed(true) && inMemory == Refreshed(rounds[|rounds| - 1])
  }

  lemma OneMoreRound(incrementalRefresh: bool, weather: seq<Weather>, rounds: seq<Round>, next: Round)
    requires Chained(incrementalRefresh, weather, rounds) && |rounds| < |weather|
    requires RoundHolds(incrementalRefresh, weather[|rounds|], next)
    requires rounds != [] ==> TriedAgain(rounds[|rounds| - 1], next)
    ensures Chained(incrementalRefresh, weather, rounds + [next])
  {
    hide RoundHolds, TriedAgain;
    var all := rounds + [next];
    assert forall i :: 0 <= i < |rounds| ==> all[i] == rounds[i];
  }

  lemma OneMoreMade(rounds: seq<Round>, next: Round)
    ensures Made(rounds + [next]) == if next.made.Some? then Made(rounds) + [next.made.value] else Made(rounds)
  {
    assert (rounds + [next])[..|rounds|] == rounds;
  }

  /** A full refresh belongs to the transaction that began it: once an attempt of it left a watermark, every later one
    * stores the same id, however much later it runs. */
  lemma {:induction false} FullRefreshKeepsItsTxid(weather: seq<Weather>, rounds: seq<Round>, i: nat, j: nat)
    requires Chained(false, weather, rounds) && i < j < |rounds|
    requires rounds[i].made.Some? && rounds[i].made.value.lastTxid != 0 && rounds[i].Leaves().maxXmin.Some?
    ensures rounds[j].onDisk == rounds[j].inMemory && rounds[j].onDisk.maxXmin.Some?
    ensures rounds[j].onDisk.lastRefreshMode == FullInProgress
    ensures rounds[j].onDisk.lastTxid == rounds[i].made.value.lastTxid
    ensures rounds[j].made.Some? ==> rounds[j].made.value.lastTxid == rounds[i].made.value.lastTxid
    decreases j
  {
    hide Concludes, Flatten;
    assert TriedAgain(rounds[j - 1], rounds[j]) && RoundHolds(false, weather[j - 1], rounds[j - 1]);
    assert RoundHolds(false, weather[j], rounds[j]);
    if i < j - 1 {
      FullRefreshKeepsItsTxid(weather, rounds, i, j - 1);
    }
  }

  /** A new one belongs to the transaction that was current when it began. */
  lemma NewRefreshTakesTheCurrentTxid(existing: InternalTableMetadata, currentTxid: nat)
    ensures existing.lastRefreshMode != FullInProgress ==> LastTxid(existing, currentTxid) == currentTxid
  {
  }

  // The retries as steps of a run

  /** What COPY writes is a prefix of what the statement returns on this database, or all of it if it was not aborted. */
  ghost predicate AnswersFrom(db: Database, query: CopyQuery, source: seq<SourceRow>, aborted: bool) {
    exists copied :: Returns(query, db.rows, copied) && source <= Delivered(copied) && (!aborted ==> source == Delivered(copied))
  }

  ghost predicate ServedBy(db: Database, decode: Decoder, w: Weather) {
    w.Copies? ==>
      && w.currentTxid <= db.next && (forall x :: x in db.active ==> w.currentTxid <= x)
      && forall query :: AnswersFrom(db, query, decode(Written(w.copy(query))), Aborted(w.copy(query)))
  }

  ghost predicate InTime(horizon: nat, weather: seq<Weather>) {
    && (forall i :: 0 <= i < |weather| && weather[i].Copies? ==> horizon <= weather[i].currentTxid)
    && (forall i, j :: 0 <= i < j < |weather| && weather[i].Copies? && weather[j].Copies? ==>
          weather[i].currentTxid <= weather[j].currentTxid)
  }

  ghost predicate AllSound(attempts: seq<Attempt>, states: seq<State>) {
    && |states| == |attempts| + 1
    && forall i :: 0 <= i < |attempts| ==>
         SoundConditions(states[i], states[i + 1].horizon, attempts[i], states[i + 1].view)
  }

  /** One database stands still and serves all attempts, they start from a sound state, and each of them is made
    * under the conditions on the source. */
  ghost predicate Favourable(
    schema: Schema, incrementalRefresh: bool, decode: Decoder, s: State, weather: seq<Weather>,
    attempts: seq<Attempt>, states: seq<State>)
  {
    && Invariant(schema, incrementalRefresh, s) && Clean(s, incrementalRefresh)
    && (forall w :: w in weather ==> ServedBy(s.db, decode, w)) && InTime(s.horizon, weather)
    && AllSound(attempts, states)
  }

  /** The state that the attempts led to is one to resume from. */
  ghost predicate Leads(
    schema: Schema, incrementalRefresh: bool, decode: Decoder, s: State, weather: seq<Weather>,
    attempts: seq<Attempt>, states: seq<State>)
  {
    && |states| == |attempts| + 1 && states[0] == s && (forall t :: t in states ==> t.db == s.db)
    && (Favourable(schema, incrementalRefresh, decode, s, weather, attempts, states) ==>
          Invariant(schema, incrementalRefresh, states[|attempts|]) && Clean(states[|attempts|], incrementalRefresh))
  }

  /** An attempt that puts in the table what the database answers is a step of a run. */
  lemma AttemptIsStep(
    schema: Schema, incrementalRefresh: bool, decode: Decoder, s: State, w: Weather, a: Attempt, v: View)
      returns (copied: seq<Version>)
    requires w.Copies? && ServedBy(s.db, decode, w) && s.horizon <= w.currentTxid
    requires a.base == s.view && ResumesFromDisk(a, incrementalRefresh) && NoEmptyChunk(a)
    requires QueryFrom(a, w.currentTxid) != Panic && MadeOf(decode, a, w.copy(QueryFrom(a, w.currentTxid)))
    requires Shows(schema, a, v) && SoundConditions(s, w.currentTxid, a, v)
    ensures Next(schema, incrementalRefresh, s, Syncing(w.currentTxid, copied, a), State(s.db, v, w.currentTxid))
  {
    hide Shows, SoundConditions, Returns, Flatten, ContinuedRefresh, Written, Aborted;
    var query := QueryFrom(a, w.currentTxid);
    var source := decode(Written(w.copy(query)));
    assert AnswersFrom(s.db, query, source, a.aborted);
    copied :| Returns(query, s.db.rows, copied) && source <= Delivered(copied) && (!a.aborted ==> source == Delivered(copied));
  }

  lemma AttemptLeads(
    schema: Schema, incrementalRefresh: bool, decode: Decoder, s: State, weather: seq<Weather>,
    attempts: seq<Attempt>, states: seq<State>, i: nat, a: Attempt, v: View)
    requires Leads(schema, incrementalRefresh, decode, s, weather, attempts, states)
    requires i < |weather| && weather[i].Copies? && (InTime(s.horizon, weather) ==> states[|attempts|].horizon <= weather[i].currentTxid)
    requires a.base == states[|attempts|].view && ResumesFromDisk(a, incrementalRefresh) && NoEmptyChunk(a)
    requires var query := QueryFrom(a, weather[i].currentTxid);
      query != Panic && MadeOf(decode, a, weather[i].copy(query))
    requires Ended(schema, a, v)
    ensures var states' := states + [State(s.db, v, weather[i].currentTxid)];
      && Leads(schema, incrementalRefresh, decode, s, weather, attempts + [a], states')
      && (Favourable(schema, incrementalRefresh, decode, s, weather, attempts + [a], states') ==>
            !a.aborted ==> NothingNewer(s.db, weather[i].currentTxid) ==> Mirrors(schema, s.db, v.rows))
  {
    hide Invariant, Clean, SoundConditions, Ended, MadeOf, ServedBy, QueryFrom, ResumesFromDisk, NoEmptyChunk, Mirrors;
    var w, last, next := weather[i], states[|attempts|], State(s.db, v, weather[i].currentTxid);
    var attempts', states' := attempts + [a], states + [next];
    assert last in states;
    if Favourable(schema, incrementalRefresh, decode, s, weather, attempts', states') {
      SoundSplit(attempts, states, a, next);
      assert w in weather;
      assert Shows(schema, a, v);
      var copied := AttemptIsStep(schema, incrementalRefresh, decode, last, w, a, v);
      AttemptKeepsInvariant(schema, incrementalRefresh, last, w.currentTxid, copied, a, next);
      AttemptKeepsClean(schema, incrementalRefresh, last, w.currentTxid, copied, a, next);
      if !a.aborted && NothingNewer(s.db, w.currentTxid) {
        CleanAttemptMirrors(schema, incrementalRefresh, last, w.currentTxid, copied, a, next);
        MirrorsWithKeys(schema, incrementalRefresh, next);
      }
    }
  }

  lemma MirrorsWithKeys(schema: Schema, incrementalRefresh: bool, s: State)
    requires Invariant(schema, incrementalRefresh, s)
    requires OnlySourceRows(s.db, s.view.rows) && AllSourceRows(s.db, s.view.rows)
    ensures Mirrors(schema, s.db, s.view.rows)
  {
  }

  lemma SoundSplit(attempts: seq<Attempt>, states: seq<State>, a: Attempt, next: State)
    requires |states| == |attempts| + 1 && AllSound(attempts + [a], states + [next])
    ensures AllSound(attempts, states)
    ensures SoundConditions(states[|attempts|], next.horizon, a, next.view)
  {
    hide SoundConditions;
    var attempts', states' := attempts + [a], states + [next];
    forall i | 0 <= i < |attempts| ensures SoundConditions(states[i], states[i + 1].horizon, attempts[i], states[i + 1].view) {
      assert SoundConditions(states'[i], states'[i + 1].horizon, attempts'[i], states'[i + 1].view);
    }
    var n := |attempts|;
    assert SoundConditions(states'[n], states'[n + 1].horizon, attempts'[n], states'[n + 1].view);
  }

  class SyncerTable {
    const schema: Schema
    const storage: Storage
    const decode: Decoder
    const rowCountPerBatch: nat
    const payloadThreshold: nat

    constructor (schema: Schema, storage: Storage, decode: Decoder, rowCountPerBatch: nat, payloadThreshold: nat)
      requires rowCountPerBatch > 0 && RecordsAreFinal(decode)
      ensures this.schema == schema && this.storage == storage && this.decode == decode && Valid()
    {
      this.schema, this.storage, this.decode := schema, storage, decode;
      this.rowCountPerBatch, this.payloadThreshold := rowCountPerBatch, payloadThreshold;
    }

    ghost predicate Valid() {
      rowCountPerBatch > 0 && RecordsAreFinal(decode)
    }

    /** Nothing is written, or every state left behind is one of the attempt's, which is made of what COPY wrote in
      * answer to the statement. A refresh ends up completed if and only if COPY closed cleanly; otherwise it stays
      * resumable, and fails. */
    method SyncPgTable(existing: InternalTableMetadata, incrementalRefresh: bool, weather: Weather)
      returns (outcome: Outcome, ghost a: Option<Attempt>)
      requires Valid() && storage.Valid() && ReadyToSync(storage.disk) && Agree(existing, storage.disk.checkpoint)
      requires Proper(decode, weather)
      modifies storage
      ensures storage.Valid() && ReadyToSync(storage.disk)
      ensures Concludes(old(storage.disk).checkpoint, incrementalRefresh, weather, a, outcome)
      ensures a.None? ==> storage.disk == old(storage.disk) && outcome != Synced
      ensures a.Some? ==>
        && weather.Copies?
        && a.value.base == old(ViewOf(storage.disk)) && ResumesFromDisk(a.value, incrementalRefresh)
        && a.value.lastTxid == LastTxid(existing, weather.currentTxid)
        && QueryFrom(a.value, weather.currentTxid) != Panic
        && MadeOf(decode, a.value, weather.copy(QueryFrom(a.value, weather.currentTxid)))
        && NoEmptyChunk(a.value)
        && (forall v :: v in storage.seen ==> Shows(schema, a.value, v))
        && Ended(schema, a.value, ViewOf(storage.disk))
        && FillFiles(storage.rowSize, payloadThreshold, rowCountPerBatch, a.value.chunks, true)
        && (outcome == Synced <==> !a.value.aborted)
        && (storage.disk.checkpoint.IsInProgress() <==> a.value.aborted)
      ensures a.Some? && storage.disk.checkpoint.maxXmin.None? ==> existing.maxXmin.None?
    {
      hide Ended, Shows, Consistent, ViewOf, Flatten, CsvReader.Valid, ReadByOne, RecordsAreFinal, CopyFromPgTableSql, FillFiles,
        LastTxid;
      IcebergWriterTable.RowsOfView(storage.disk);
      SameQuery(existing, storage.disk.checkpoint, incrementalRefresh);
      if weather.SetupFails? {
        return Failed(weather.retryable), None;
      }
      var continuedRefresh := ContinuedRefresh(existing, incrementalRefresh);
      var copyQuery := CopyFromPgTableSql(existing, weather.currentTxid, continuedRefresh);
      if copyQuery == Panic {
        return Crashed, None;
      }
      var run := weather.copy(copyQuery);
      var reader := new CsvReader(run, decode);
      var loader := new RowLoader(reader, existing, weather.currentTxid, incrementalRefresh, rowCountPerBatch);
      var writer := new IcebergWriterTable(schema, rowCountPerBatch, payloadThreshold, continuedRefresh, storage);
      ghost var attempt := writer.Write(loader);
      a := Some(attempt);
      EndedCheckpoint(schema, attempt, storage.disk);
      outcome := if Aborted(run) then Failed(weather.retryable) else Synced;
    }

    static lemma SameQuery(existing: InternalTableMetadata, onDisk: InternalTableMetadata, incrementalRefresh: bool)
      requires Agree(existing, onDisk)
      ensures ContinuedRefresh(existing, incrementalRefresh) == ContinuedRefresh(onDisk, incrementalRefresh)
      ensures SeedXmin(existing) == SeedXmin(onDisk)
      ensures forall txid: nat ::
        CopyFromPgTableSql(existing, txid, ContinuedRefresh(existing, incrementalRefresh))
        == CopyFromPgTableSql(onDisk, txid, ContinuedRefresh(onDisk, incrementalRefresh))
    {
    }

    static lemma EndedCheckpoint(schema: Schema, a: Attempt, disk: Disk)
      requires Ended(schema, a, ViewOf(disk)) && NormalXids(Flatten(a.chunks))
      ensures disk.checkpoint.IsInProgress() <==> a.aborted
      ensures disk.checkpoint.maxXmin != Some(0)
      ensures disk.checkpoint.maxXmin.None? ==> a.seed == 0
    {
      hide TableAfter, TableRows;
      assert a.chunks[..|a.chunks|] == a.chunks;
      var source := Flatten(a.chunks);
      if source != [] {
        assert source[|source| - 1] in source;
      }
    }

    /** At most four attempts. Each one resumes from what the one before it left on disk, and the table counts as
      * synced only when the last of them ran to the end of a clean COPY. On a database that stands still, and from
      * a state that is sound to resume from, the table is left in such a state again; and if it counts as synced,
      * it mirrors the source. */
    method SyncTableWithRetry(incrementalRefresh: bool, weather: seq<Weather>, ghost s: State)
      returns (outcome: Outcome, ghost attempts: seq<Attempt>, ghost states: seq<State>, ghost rounds: seq<Round>)
      requires Valid() && storage.Valid() && ReadyToSync(storage.disk) && s.view == ViewOf(storage.disk)
      requires |weather| == MAX_RECOVERY_CONFLICT_RETRIES + 1
      requires forall w :: w in weather ==> Proper(decode, w)
      modifies storage
      ensures storage.Valid() && ReadyToSync(storage.disk)
      ensures Recorded(incrementalRefresh, weather, old(storage.disk).checkpoint, rounds, attempts, storage.disk.checkpoint)
      ensures rounds != [] && outcome == rounds[|rounds| - 1].outcome
      ensures outcome == Failed(true) ==> |rounds| == 4
      ensures |attempts| <= MAX_RECOVERY_CONFLICT_RETRIES + 1
      ensures attempts == [] ==> storage.disk == old(storage.disk)
      ensures Linked(schema, incrementalRefresh, old(ViewOf(storage.disk)), attempts, ViewOf(storage.disk))
      ensures outcome == Synced <==> attempts != [] && !attempts[|attempts| - 1].aborted
      ensures |states| == |attempts| + 1 && states[|attempts|].view == ViewOf(storage.disk)
      ensures Favourable(schema, incrementalRefresh, decode, s, weather, attempts, states) ==>
        Invariant(schema, incrementalRefresh, State(s.db, ViewOf(storage.disk), states[|attempts|].horizon))
      ensures Favourable(schema, incrementalRefresh, decode, s, weather, attempts, states) ==>
        outcome == Synced ==> NothingNewer(s.db, states[|attempts|].horizon) ==> Mirrors(schema, s.db, TableRows(storage.disk))
    {
      hide Ended, Shows, Consistent, ViewOf, Flatten, Leads, Favourable, Proper, RecordsAreFinal, MadeOf, QueryFrom,
        NoEmptyChunk, Invariant, Clean, Mirrors, InTime, TableRows, Recorded, Continues, Concludes, LastTxid, FillFiles, Linked, ResumesFromDisk;
      var currentMetadata := storage.disk.checkpoint;
      attempts, states, rounds := [], [s], [];
      NoRounds(incrementalRefresh, weather, currentMetadata);
      NoneLinked(schema, incrementalRefresh, ViewOf(storage.disk));
      LeadsFromStart(schema, incrementalRefresh, decode, s, weather);
      var attempt := 0;
      while true
        invariant attempt <= MAX_RECOVERY_CONFLICT_RETRIES && |attempts| <= attempt == |rounds|
        invariant Recorded(incrementalRefresh, weather, old(storage.disk).checkpoint, rounds, attempts, storage.disk.checkpoint)
        invariant Continues(rounds, storage.disk.checkpoint, currentMetadata)
        invariant storage.Valid() && ReadyToSync(storage.disk)
        invariant Agree(currentMetadata, storage.disk.checkpoint)
        invariant attempts == [] ==> storage.disk == old(storage.disk)
        invariant Linked(schema, incrementalRefresh, old(ViewOf(storage.disk)), attempts, ViewOf(storage.disk))
        invariant attempts != [] ==> attempts[|attempts| - 1].aborted
        invariant |states| == |attempts| + 1 && states[|attempts|].view == ViewOf(storage.disk)
        invariant Leads(schema, incrementalRefresh, decode, s, weather, attempts, states)
        invariant InTime(s.horizon, weather) ==> NotLater(states[|attempts|].horizon, weather, attempt)
        decreases MAX_RECOVERY_CONFLICT_RETRIES - attempt
      {
        ghost var a;
        ghost var before, earlier := storage.disk, attempts;
        outcome, a := SyncPgTable(currentMetadata, incrementalRefresh, weather[attempt]);
        if a.Some? {
          StillInTime(s.horizon, states[|attempts|].horizon, weather, attempt);
          AttemptLeads(schema, incrementalRefresh, decode, s, weather, attempts, states, attempt, a.value, ViewOf(storage.disk));
          OneMoreLinked(schema, incrementalRefresh, old(ViewOf(storage.disk)), attempts, a.value, ViewOf(storage.disk));
          attempts := attempts + [a.value];
          states := states + [State(s.db, ViewOf(storage.disk), weather[attempt].currentTxid)];
        }
        LeadsTo(schema, incrementalRefresh, decode, s, weather, attempts, states);
        IcebergWriterTable.RowsOfView(storage.disk);
        ghost var round := Round(currentMetadata, before.checkpoint, a, outcome);
        RoundDone(schema, incrementalRefresh, weather[attempt], round, before, storage.disk);
        NextRecorded(incrementalRefresh, weather, old(storage.disk).checkpoint, rounds, earlier, round);
        rounds := rounds + [round];
        if outcome == Failed(true) && attempt < MAX_RECOVERY_CONFLICT_RETRIES {
          // Resume from the checkpoint the failed attempt persisted, if any
          var refreshed := storage.disk.checkpoint;
          if refreshed.maxXmin.Some? {
            currentMetadata := refreshed;
          }
          MayContinue(rounds, storage.disk.checkpoint, round.inMemory);
          attempt := attempt + 1;
        } else {
          return;
        }
      }
    }

    static lemma NoneLinked(schema: Schema, incrementalRefresh: bool, view: View)
      ensures Linked(schema, incrementalRefresh, view, [], view)
    {
    }

    static lemma OneMoreLinked(
        schema: Schema, incrementalRefresh: bool, start: View, attempts: seq<Attempt>, a: Attempt, now: View)
      requires Linked(schema, incrementalRefresh, start, attempts, a.base)
      requires attempts != [] ==> attempts[|attempts| - 1].aborted
      requires ResumesFromDisk(a, incrementalRefresh) && Ended(schema, a, now)
      ensures Linked(schema, incrementalRefresh, start, attempts + [a], now)
    {
      hide Ended, ResumesFromDisk;
    }

    static lemma NoRounds(incrementalRefresh: bool, weather: seq<Weather>, checkpoint: InternalTableMetadata)
      ensures Recorded(incrementalRefresh, weather, checkpoint, [], [], checkpoint)
      ensures Continues([], checkpoint, checkpoint)
    {
    }

    static lemma RoundDone(schema: Schema, incrementalRefresh: bool, w: Weather, r: Round, before: Disk, after: Disk)
      requires Concludes(r.onDisk, incrementalRefresh, w, r.made, r.outcome) && r.onDisk == before.checkpoint
      requires r.made.None? ==> after.checkpoint == before.checkpoint
      requires r.made.Some? ==>
        var a := r.made.value;
        && w.Copies? && a.base == ViewOf(before) && ResumesFromDisk(a, incrementalRefresh)
        && a.lastTxid == LastTxid(r.inMemory, w.currentTxid) && (r.outcome == Synced <==> !a.aborted)
        && Ended(schema, a, ViewOf(after)) && (after.checkpoint.maxXmin.None? ==> r.inMemory.maxXmin.None?)
      ensures after.checkpoint == r.Leaves() && RoundHolds(incrementalRefresh, w, r)
    {
      hide TableAfter, TableRows, CheckpointAfter, Concludes;
    }

    static lemma NextRecorded(
        incrementalRefresh: bool, weather: seq<Weather>, start: InternalTableMetadata, rounds: seq<Round>,
        attempts: seq<Attempt>, next: Round)
      requires Recorded(incrementalRefresh, weather, start, rounds, attempts, next.onDisk)
      requires Continues(rounds, next.onDisk, next.inMemory)
      requires |rounds| < |weather| && RoundHolds(incrementalRefresh, weather[|rounds|], next)
      ensures Recorded(incrementalRefresh, weather, start, rounds + [next],
                       if next.made.Some? then attempts + [next.made.value] else attempts, next.Leaves())
    {
      hide Chained, RoundHolds, Made, Refreshed;
      OneMoreRound(incrementalRefresh, weather, rounds, next);
      OneMoreMade(rounds, next);
    }

    static lemma MayContinue(rounds: seq<Round>, checkpoint: InternalTableMetadata, inMemory: InternalTableMetadata)
      requires rounds != []
      requires var last := rounds[|rounds| - 1];
        last.outcome == Failed(true) && last.inMemory == inMemory && last.Leaves() == checkpoint
      ensures Continues(rounds, checkpoint, if checkpoint.maxXmin.Some? then checkpoint else inMemory)
    {
    }

    static lemma LeadsFromStart(schema: Schema, incrementalRefresh: bool, decode: Decoder, s: State, weather: seq<Weather>)
      ensures Leads(schema, incrementalRefresh, decode, s, weather, [], [s])
      ensures InTime(s.horizon, weather) ==> NotLater(s.horizon, weather, 0)
    {
      hide Invariant, Clean, ServedBy;
    }

    static lemma LeadsTo(
        schema: Schema, incrementalRefresh: bool, decode: Decoder, s: State, weather: seq<Weather>,
        attempts: seq<Attempt>, states: seq<State>)
      requires Leads(schema, incrementalRefresh, decode, s, weather, attempts, states)
      ensures Favourable(schema, incrementalRefresh, decode, s, weather, attempts, states) ==>
        Invariant(schema, incrementalRefresh, states[|attempts|])
      ensures states[|attempts|] == State(s.db, states[|attempts|].view, states[|attempts|].horizon)
    {
      hide Invariant, Clean, Favourable;
      assert states[|attempts|] in states;
    }

    static ghost predicate NotLater(horizon: nat, weather: seq<Weather>, from: nat) {
      forall j :: from <= j < |weather| && weather[j].Copies? ==> horizon <= weather[j].currentTxid
    }

    static lemma StillInTime(start: nat, horizon: nat, weather: seq<Weather>, i: nat)
      requires i < |weather| && weather[i].Copies?
      requires InTime(start, weather) ==> NotLater(horizon, weather, i)
      ensures InTime(start, weather) ==>
        horizon <= weather[i].currentTxid && NotLater(weather[i].currentTxid, weather, i + 1)
    {
    }
  }
}
