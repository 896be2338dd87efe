/** One sync attempt as a reader of the table sees it: the sequence of states it can leave behind. */
module Attempt {
  import opened Checkpoint
  import opened RowMatch
  import opened Lake
  import opened CopyStream

  /** `chunks` are the rows of the successive data files, `seed` the watermark it started from. */
  datatype Attempt = Attempt(
    base: View, continuedRefresh: bool, chunks: seq<seq<SourceRow>>,
    aborted: bool, incrementalRefresh: bool, lastTxid: nat, seed: Xid)

  function Flatten(chunks: seq<seq<SourceRow>>): seq<SourceRow> {
    if chunks == [] then [] else Flatten(chunks[..|chunks| - 1]) + chunks[|chunks| - 1]
  }

  /** Chunks of one attempt are stacked, latest first; they are not merged with each other. */
  function NewRows(chunks: seq<seq<SourceRow>>): seq<Row> {
    if chunks == [] then [] else RowsOf(chunks[|chunks| - 1]) + NewRows(chunks[..|chunks| - 1])
  }

  /** What is left of the older rows once every chunk has replaced the ones it overlaps. */
  function KeptRows(schema: Schema, existing: seq<Row>, chunks: seq<seq<SourceRow>>): seq<Row> {
    if chunks == [] then existing
    else Surviving(schema, KeptRows(schema, existing, chunks[..|chunks| - 1]), RowsOf(chunks[|chunks| - 1]))
  }

  /** A new refresh starts from nothing, a continued one from the table it found. */
  function ExistingRows(a: Attempt): seq<Row> {
    if a.continuedRefresh then a.base.rows else []
  }

  function TableAfter(schema: Schema, a: Attempt, count: nat): seq<Row>
    requires count <= |a.chunks|
  {
    NewRows(a.chunks[..count]) + KeptRows(schema, ExistingRows(a), a.chunks[..count])
  }

  function CheckpointAfter(a: Attempt, count: nat, reachedEnd: bool): InternalTableMetadata
    requires count <= |a.chunks|
  {
    CheckpointAt(a.incrementalRefresh, reachedEnd, a.lastTxid, XminAfter(a.seed, Flatten(a.chunks[..count])))
  }

  /** The `count`-th chunk is committed; its own checkpoint is written, or still the one before it.
    * An empty chunk is only ever in progress because COPY was aborted. */
  predicate CommittedAt(schema: Schema, a: Attempt, v: View, count: nat) {
    && 0 < count <= |a.chunks|
    && v.rows == TableAfter(schema, a, count)
    && ((v.checkpoint == CheckpointAfter(a, count, false) && (a.chunks[count - 1] != [] || a.aborted))
        || v.checkpoint == if count == 1 then a.base.checkpoint else CheckpointAfter(a, count - 1, false))
  }

  ghost predicate InProgress(schema: Schema, a: Attempt, v: View) {
    v == a.base || exists count: nat :: CommittedAt(schema, a, v, count)
  }

  /** Every chunk is in the table. The checkpoint is final only if COPY was not aborted. */
  predicate Ended(schema: Schema, a: Attempt, v: View) {
    v == View(TableAfter(schema, a, |a.chunks|), CheckpointAfter(a, |a.chunks|, !a.aborted))
  }

  /** A crash of the attempt at any point leaves one of these states. */
  ghost predicate Shows(schema: Schema, a: Attempt, v: View) {
    InProgress(schema, a, v) || Ended(schema, a, v)
  }

  lemma InProgressGrows(schema: Schema, a: Attempt, chunk: seq<SourceRow>, v: View)
    requires InProgress(schema, a, v)
    ensures InProgress(schema, a.(chunks := a.chunks + [chunk]), v)
  {
    hide KeptRows, NewRows, Flatten, CheckpointAt;
    if v != a.base {
      var count: nat :| CommittedAt(schema, a, v, count);
      var grown := a.(chunks := a.chunks + [chunk]);
      assert grown.chunks[..count] == a.chunks[..count];
      assert grown.chunks[..count - 1] == a.chunks[..count - 1];
      assert CommittedAt(schema, grown, v, count);
    }
  }

  /** The state between two chunks, with the checkpoint of the last one written. */
  predicate AtChunk(schema: Schema, a: Attempt, v: View, reachedEnd: bool) {
    if a.chunks == [] then v == a.base
    else
      && v == View(TableAfter(schema, a, |a.chunks|), CheckpointAfter(a, |a.chunks|, reachedEnd))
      && (a.chunks[|a.chunks| - 1] != [] || a.aborted || reachedEnd)
  }

  lemma AtChunkInProgress(schema: Schema, a: Attempt, v: View)
    requires AtChunk(schema, a, v, false)
    ensures InProgress(schema, a, v)
  {
    if a.chunks != [] {
      assert CommittedAt(schema, a, v, |a.chunks|);
    }
  }

  lemma AtChunkEnded(schema: Schema, a: Attempt, v: View)
    requires AtChunk(schema, a, v, true) && a.chunks != [] && !a.aborted
    ensures Ended(schema, a, v)
  {
  }

  /** One more chunk: the table is committed first, its checkpoint follows. */
  lemma NextChunk(
      schema: Schema, a: Attempt, chunk: seq<SourceRow>, before: View, rows: seq<Row>,
      checkpoint: InternalTableMetadata, reachedEnd: bool)
    requires AtChunk(schema, a, before, false) && (chunk != [] || a.aborted || reachedEnd)
    requires var chunks := a.chunks + [chunk];
      rows == NewRows(chunks) + KeptRows(schema, ExistingRows(a), chunks)
      && checkpoint == CheckpointAt(a.incrementalRefresh, reachedEnd, a.lastTxid, XminAfter(a.seed, Flatten(chunks)))
    ensures var next := a.(chunks := a.chunks + [chunk]);
      && (forall v :: InProgress(schema, a, v) ==> InProgress(schema, next, v))
      && InProgress(schema, next, View(rows, before.checkpoint))
      && AtChunk(schema, next, View(rows, checkpoint), reachedEnd)
  {
    var next := a.(chunks := a.chunks + [chunk]);
    var count := |next.chunks|;
    forall v | InProgress(schema, a, v) ensures InProgress(schema, next, v) {
      InProgressGrows(schema, a, chunk, v);
    }
    assert next.chunks[..count] == next.chunks;
    assert next.chunks[..count - 1] == a.chunks == a.chunks[..count - 1];
    assert CommittedAt(schema, next, View(rows, before.checkpoint), count);
  }

  /** Nothing more came after the last chunk: only the checkpoint is rewritten. */
  lemma LastCheckpoint(schema: Schema, a: Attempt, before: View, checkpoint: InternalTableMetadata)
    requires AtChunk(schema, a, before, false) && (a.continuedRefresh || a.chunks != [])
    requires checkpoint == CheckpointAt(a.incrementalRefresh, !a.aborted, a.lastTxid, XminAfter(a.seed, Flatten(a.chunks)))
    ensures Ended(schema, a, View(before.rows, checkpoint))
  {
    assert a.chunks[..|a.chunks|] == a.chunks;
    if a.chunks == [] {
      assert [] + a.base.rows == a.base.rows;
    }
  }

  // What the table holds, in terms of what COPY delivered

  lemma {:induction false} RowsOfConcat(a: seq<SourceRow>, b: seq<SourceRow>)
    ensures RowsOf(a + b) == RowsOf(a) + RowsOf(b)
  {
    assert |RowsOf(a + b)| == |RowsOf(a) + RowsOf(b)|;
  }

  /** The chunks up to any one are a prefix of the stream. */
  lemma {:induction false} FlattenPrefix(chunks: seq<seq<SourceRow>>, count: nat)
    requires count <= |chunks|
    ensures Flatten(chunks[..count]) <= Flatten(chunks)
    decreases |chunks|
  {
    if count == |chunks| {
      assert chunks[..count] == chunks;
    } else {
      var init := chunks[..|chunks| - 1];
      assert init[..count] == chunks[..count];
      FlattenPrefix(init, count);
    }
  }

  /** The rows the chunks brought, in any order. */
  lemma {:induction false} NewRowsMembers(chunks: seq<seq<SourceRow>>)
    ensures forall r :: r in NewRows(chunks) <==> r in RowsOf(Flatten(chunks))
  {
    if chunks != [] {
      var init, last := chunks[..|chunks| - 1], chunks[|chunks| - 1];
      NewRowsMembers(init);
      RowsOfConcat(Flatten(init), last);
    }
  }

  /** Replacing chunk by chunk is replacing by everything delivered. */
  lemma {:induction false} KeptRowsMembers(schema: Schema, existing: seq<Row>, chunks: seq<seq<SourceRow>>)
    ensures forall r ::
      r in KeptRows(schema, existing, chunks) <==> r in existing && !Overlaps(schema, r, RowsOf(Flatten(chunks)))
  {
    if chunks != [] {
      var init, last := chunks[..|chunks| - 1], chunks[|chunks| - 1];
      KeptRowsMembers(schema, existing, init);
      SurvivingMembers(schema, KeptRows(schema, existing, init), RowsOf(last));
      RowsOfConcat(Flatten(init), last);
      forall r ensures Overlaps(schema, r, RowsOf(Flatten(chunks)))
        <==> Overlaps(schema, r, RowsOf(Flatten(init))) || Overlaps(schema, r, RowsOf(last))
      {
        OverlapsConcat(schema, r, RowsOf(Flatten(init)), RowsOf(last));
      }
    }
  }

  lemma OverlapsConcat(schema: Schema, r: Row, a: seq<Row>, b: seq<Row>)
    ensures Overlaps(schema, r, a + b) <==> Overlaps(schema, r, a) || Overlaps(schema, r, b)
  {
    hide Replaces;
    assert forall n :: n in a + b <==> n in a || n in b;
  }

  /** The table after `count` chunks is the older table overridden, key by key, by what was delivered. */
  lemma TableIsOverridden(schema: Schema, a: Attempt, count: nat)
    requires count <= |a.chunks|
    ensures var delivered := RowsOf(Flatten(a.chunks[..count]));
      forall r ::
        r in TableAfter(schema, a, count) <==> r in delivered || (r in ExistingRows(a) && !Overlaps(schema, r, delivered))
  {
    hide Overlaps, KeptRows, NewRows;
    NewRowsMembers(a.chunks[..count]);
    KeptRowsMembers(schema, ExistingRows(a), a.chunks[..count]);
  }

  lemma {:induction false} KeptRowsUnique(schema: Schema, existing: seq<Row>, chunks: seq<seq<SourceRow>>)
    requires UniqueKeys(schema, existing)
    ensures UniqueKeys(schema, KeptRows(schema, existing, chunks))
  {
    hide UniqueKeys, Surviving;
    if chunks != [] {
      KeptRowsUnique(schema, existing, chunks[..|chunks| - 1]);
      SurvivingKeepsUniqueKeys(schema, KeptRows(schema, existing, chunks[..|chunks| - 1]), RowsOf(chunks[|chunks| - 1]));
    }
  }

  lemma UniqueConcat(schema: Schema, a: seq<Row>, b: seq<Row>)
    ensures UniqueKeys(schema, a + b) <==>
      UniqueKeys(schema, a) && UniqueKeys(schema, b) && forall x, y :: x in a && y in b ==> !Replaces(schema, x, y)
  {
    hide Replaces;
    var c := a + b;
    if UniqueKeys(schema, c) {
      forall i, j | 0 <= i < j < |b| ensures !Replaces(schema, b[i], b[j]) {
        assert c[|a| + i] == b[i] && c[|a| + j] == b[j];
      }
      forall i, j | 0 <= i < j < |a| ensures !Replaces(schema, a[i], a[j]) {
        assert c[i] == a[i] && c[j] == a[j];
      }
      forall x, y | x in a && y in b ensures !Replaces(schema, x, y) {
        var i :| 0 <= i < |a| && a[i] == x;
        var j :| 0 <= j < |b| && b[j] == y;
        assert c[i] == x && c[|a| + j] == y;
      }
    } else {
      var i, j :| 0 <= i < j < |c| && Replaces(schema, c[i], c[j]);
      if j < |a| {
        assert c[i] == a[i] && c[j] == a[j];
      } else if i >= |a| {
        assert c[i] == b[i - |a|] && c[j] == b[j - |a|];
      } else {
        assert c[i] in a && c[j] in b;
      }
    }
  }

  /** Stacking latest first does not make two rows share a key. */
  lemma {:induction false} NewRowsUnique(schema: Schema, chunks: seq<seq<SourceRow>>)
    requires UniqueKeys(schema, RowsOf(Flatten(chunks)))
    ensures UniqueKeys(schema, NewRows(chunks))
  {
    hide UniqueKeys, Replaces;
    if chunks == [] {
      assert UniqueKeys(schema, []) by {
        UniqueConcat(schema, [], []);
      }
    } else {
      var init, last := chunks[..|chunks| - 1], chunks[|chunks| - 1];
      RowsOfConcat(Flatten(init), last);
      UniqueConcat(schema, RowsOf(Flatten(init)), RowsOf(last));
      NewRowsUnique(schema, init);
      NewRowsMembers(init);
      UniqueConcat(schema, RowsOf(last), NewRows(init));
      forall x, y | x in RowsOf(last) && y in NewRows(init) ensures !Replaces(schema, x, y) {
        ReplacesIsSymmetric(schema, x, y);
      }
    }
  }

  lemma ReplacesIsSymmetric(schema: Schema, a: Row, b: Row)
    ensures Replaces(schema, a, b) <==> Replaces(schema, b, a)
  {
    if |a| == |b| == |schema| {
      assert forall c :: c in ExpectedConditions(schema) ==> (Holds(c, a, b) <==> Holds(c, b, a));
    }
  }

  /** No key is in two live files, as long as COPY delivers every key once. */
  lemma TableHasUniqueKeys(schema: Schema, a: Attempt, count: nat)
    requires count <= |a.chunks|
    requires UniqueKeys(schema, RowsOf(Flatten(a.chunks[..count])))
    requires UniqueKeys(schema, ExistingRows(a))
    ensures UniqueKeys(schema, TableAfter(schema, a, count))
  {
    hide UniqueKeys, Replaces, KeptRows, NewRows;
    var chunks, existing := a.chunks[..count], ExistingRows(a);
    NewRowsUnique(schema, chunks);
    KeptRowsUnique(schema, existing, chunks);
    NewRowsMembers(chunks);
    KeptRowsMembers(schema, existing, chunks);
    UniqueConcat(schema, NewRows(chunks), KeptRows(schema, existing, chunks));
    forall x, y | x in NewRows(chunks) && y in KeptRows(schema, existing, chunks) ensures !Replaces(schema, x, y) {
      assert !Overlaps(schema, y, RowsOf(Flatten(chunks)));
    }
  }

  lemma CommittedInProgress(schema: Schema, a: Attempt, v: View, count: nat)
    ensures CommittedAt(schema, a, v, count) ==> v.checkpoint == a.base.checkpoint || v.checkpoint.IsInProgress()
  {
    hide TableAfter, Flatten;
  }

  /** A refresh is marked as completed only once a COPY that was not aborted is in the table entirely. */
  lemma CompletedOnlyWithEveryRow(schema: Schema, a: Attempt, v: View)
    requires Shows(schema, a, v)
    requires v.checkpoint != a.base.checkpoint && !v.checkpoint.IsInProgress()
    ensures !a.aborted && v.rows == TableAfter(schema, a, |a.chunks|)
    ensures v.checkpoint.maxXmin == (var xmin := XminAfter(a.seed, Flatten(a.chunks)); if xmin != 0 then Some(xmin) else None)
  {
    hide TableAfter, Flatten, CommittedAt;
    assert a.chunks[..|a.chunks|] == a.chunks;
    forall count: nat ensures !CommittedAt(schema, a, v, count) {
      CommittedInProgress(schema, a, v, count);
    }
  }
}
