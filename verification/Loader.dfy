/** The reading end of one COPY: decoding what comes out of the capped buffer, and the closure that SyncPgTable
  * hands to the writer. */
module Loader {
  import opened Checkpoint
  import opened RowMatch
  import opened CopyStream
  import CappedBuffer

  /** One COPY through its buffer, with all its threads, until the one that reads has been told about the end. */
  datatype CopyRun = CopyRun(
    maxSizeBytes: nat, states: seq<CappedBuffer.System>, steps: seq<CappedBuffer.Step>, reader: nat)

  /** The read that told the thread about the end. */
  ghost predicate Told(log: seq<CappedBuffer.Event>, reader: nat, reason: Option<CappedBuffer.Error>) {
    exists e :: e in log && e.thread == reader && e.outcome == CappedBuffer.Ended(reason)
  }

  ghost predicate ReadByOne(run: CopyRun) {
    && CappedBuffer.IsRun(run.maxSizeBytes, run.states, run.steps)
    && (forall e :: e in Last(run).log && (e.outcome.Bytes? || e.outcome.Ended?) ==> e.thread == run.reader)
    && (exists reason :: Told(Last(run).log, run.reader, reason))
  }

  function Last(run: CopyRun): CappedBuffer.System
    requires run.states != []
  {
    run.states[|run.states| - 1]
  }

  /** What COPY wrote until its end. */
  function Written(run: CopyRun): seq<CappedBuffer.Byte> {
    if run.states == [] then [] else CappedBuffer.Accepted(Last(run).log)
  }

  /** COPY closed the buffer with an error. */
  predicate Aborted(run: CopyRun) {
    run.states != [] && CappedBuffer.FirstClose(Last(run).log) !in {None, Some(None)}
  }

  /** The CSV decoder: a record is final as soon as it is there. */
  type Decoder = seq<CappedBuffer.Byte> -> seq<SourceRow>

  ghost predicate RecordsAreFinal(decode: Decoder) {
    forall bytes, more :: decode(bytes) <= decode(bytes + more)
  }

  // The run, seen from the reading thread

  lemma {:induction false} LogGrows(run: CopyRun, i: nat, j: nat)
    requires CappedBuffer.IsRun(run.maxSizeBytes, run.states, run.steps) && i <= j < |run.states|
    ensures run.states[i].log <= run.states[j].log
    decreases j
  {
    if i < j {
      LogGrows(run, i, j - 1);
      assert CappedBuffer.Next(run.states[j - 1], run.steps[j - 1], run.states[j]);
      LogStep(run.states[j - 1], run.steps[j - 1], run.states[j]);
    }
  }

  lemma LogStep(s: CappedBuffer.System, step: CappedBuffer.Step, s': CappedBuffer.System)
    requires CappedBuffer.Next(s, step, s')
    ensures s'.log == s.log || (|s'.log| == |s.log| + 1 && s'.log[..|s.log|] == s.log)
  {
  }

  lemma {:induction false} PrefixAccepted(log: seq<CappedBuffer.Event>, n: nat)
    requires n <= |log|
    ensures CappedBuffer.Accepted(log[..n]) <= CappedBuffer.Accepted(log)
    decreases |log|
  {
    if n == |log| {
      assert log[..n] == log;
    } else {
      var init := log[..|log| - 1];
      assert init[..n] == log[..n];
      PrefixAccepted(init, n);
    }
  }

  /** What was delivered at any time is the beginning of what was written. */
  lemma DeliveredSoFar(run: CopyRun, i: nat)
    requires CappedBuffer.IsRun(run.maxSizeBytes, run.states, run.steps) && i < |run.states|
    ensures CappedBuffer.Delivered(run.states[i].log) <= Written(run)
  {
    hide CappedBuffer.Accepted, CappedBuffer.Delivered;
    var n := |run.states| - 1;
    CappedBuffer.BytesAreConserved(run.maxSizeBytes, run.states, run.steps, i);
    LogGrows(run, i, n);
    PrefixAccepted(run.states[n].log, |run.states[i].log|);
    assert run.states[n].log[..|run.states[i].log|] == run.states[i].log;
  }

  /** Once the reader is told about the end, it has everything that was written, and the reason of the first close. */
  lemma ToldMeansAll(run: CopyRun, i: nat, reason: Option<CappedBuffer.Error>)
    requires CappedBuffer.IsRun(run.maxSizeBytes, run.states, run.steps) && i < |run.states|
    requires Told(run.states[i].log, run.reader, reason)
    ensures CappedBuffer.Delivered(run.states[i].log) == Written(run)
    ensures CappedBuffer.FirstClose(Last(run).log) == Some(reason)
    ensures run.states[i].buffer.closeErr == reason
  {
    hide CappedBuffer.Accepted, CappedBuffer.Delivered, CappedBuffer.FirstClose;
    var e :| e in run.states[i].log && e.thread == run.reader && e.outcome == CappedBuffer.Ended(reason);
    CappedBuffer.EndMeansEverything(run.maxSizeBytes, run.states, run.steps, i, e, |run.states| - 1);
    CappedBuffer.RunKeepsInvariant(run.maxSizeBytes, run.states, run.steps, i);
  }

  /** csv.Reader over the capped buffer. The run says what the other threads do meanwhile. */
  class CsvReader {
    const run: CopyRun
    const decode: Decoder
    /** How far the run has come. */
    var at: nat
    var received: seq<CappedBuffer.Byte>
    var taken: nat
    /** The error of the last read from the buffer, if it was one; Some(None) is io.EOF. */
    var end: Option<Option<CappedBuffer.Error>>

    constructor (run: CopyRun, decode: Decoder)
      requires ReadByOne(run) && RecordsAreFinal(decode)
      ensures Valid() && this.run == run && this.decode == decode
      ensures Pending() == decode(Written(run))
    {
      this.run, this.decode := run, decode;
      at, received, taken, end := 0, [], 0, None;
    }

    ghost predicate Valid()
      reads this
    {
      && ReadByOne(run) && RecordsAreFinal(decode)
      && at < |run.states|
      && received == CappedBuffer.Delivered(run.states[at].log)
      && taken <= |decode(received)|
      && (forall reason :: Told(run.states[at].log, run.reader, reason) <==> end == Some(reason))
    }

    /** The records still to come. */
    ghost function Pending(): seq<SourceRow>
      reads this
    {
      var records := decode(Written(run));
      if taken <= |records| then records[taken..] else []
    }

    /** The next record, or none once all are read and the buffer has reported its end. */
    method Read() returns (row: Option<SourceRow>)
      requires Valid()
      modifies this
      ensures Valid()
      ensures if old(Pending()) == [] then row == None && end.Some? && Pending() == []
              else row == Some(old(Pending())[0]) && Pending() == old(Pending())[1..]
    {
      while true
        invariant Valid() && taken == old(taken)
        decreases |run.states| - at
      {
        ReceivedIsPrefix();
        var records := decode(received);
        if taken < |records| {
          row := Some(records[taken]);
          taken := taken + 1;
          return;
        }
        if end.Some? {
          ToldMeansAll(run, at, end.value);
          return None;
        }
        NotLast();
        Advance();
      }
    }

    /** One step of some thread. A read of this one that returned brings bytes, or the end. */
    method Advance()
      requires Valid() && at + 1 < |run.states| && end.None?
      modifies this`at, this`received, this`end
      ensures Valid() && at == old(at) + 1
    {
      hide CappedBuffer.Delivered, CappedBuffer.PassOf, CappedBuffer.Next, Told;
      var before, after := run.states[at].log, run.states[at + 1].log;
      assert CappedBuffer.Next(run.states[at], run.steps[at], run.states[at + 1]);
      LogStep(run.states[at], run.steps[at], run.states[at + 1]);
      LogGrows(run, at + 1, |run.states| - 1);
      ghost var old_ := received;
      if |after| > |before| {
        var event := after[|before|];
        assert after == before + [event] && event in Last(run).log;
        CappedBuffer.Logged(before, event);
        if event.outcome.Bytes? {
          received := received + event.outcome.data;
        } else if event.outcome.Ended? {
          end := Some(event.outcome.reason);
        }
        assert received == CappedBuffer.Delivered(after);
        ToldOfOne(before, event);
      }
      at := at + 1;
      assert decode(old_) <= decode(received) by {
        assert received == old_ + received[|old_|..];
      }
    }

    lemma ToldOfOne(before: seq<CappedBuffer.Event>, event: CappedBuffer.Event)
      ensures forall reason :: Told(before + [event], run.reader, reason) <==>
        Told(before, run.reader, reason) || (event.thread == run.reader && event.outcome == CappedBuffer.Ended(reason))
    {
      forall reason | Told(before, run.reader, reason) ensures Told(before + [event], run.reader, reason) {
        var e :| e in before && e.thread == run.reader && e.outcome == CappedBuffer.Ended(reason);
        assert e in before + [event];
      }
      assert event in before + [event];
    }

    lemma ReceivedIsPrefix()
      requires Valid()
      ensures decode(received) <= decode(Written(run))
    {
      hide CappedBuffer.Accepted, CappedBuffer.Delivered;
      DeliveredSoFar(run, at);
      assert Written(run) == received + Written(run)[|received|..];
    }

    lemma NotLast()
      requires Valid() && end.None?
      ensures at + 1 < |run.states|
    {
    }

    /** The buffer's own error, as it is now. */
    method CloseError() returns (reason: Option<CappedBuffer.Error>)
      requires Valid()
      ensures end.Some? ==> reason == end.value && (reason.Some? <==> Aborted(run))
    {
      if end.Some? {
        ToldMeansAll(run, at, end.value);
      }
      reason := run.states[at].buffer.closeErr;
    }
  }

  class RowLoader {
    const input: CsvReader
    var reachedEnd: bool
    var maxXmin: XminCell
    const incrementalRefresh: bool
    const lastTxid: nat
    const rowCountPerBatch: nat      // never zero, see calculatedynamicRowCountPerBatch
    /** The rows that COPY writes and that are not read yet, and whether it fails after them. */
    ghost var pending: seq<SourceRow>
    ghost const aborted: bool

    constructor (input: CsvReader, existing: InternalTableMetadata, currentTxid: nat, incrementalRefresh: bool,
                 rowCountPerBatch: nat)
      requires rowCountPerBatch > 0 && input.Valid()
      ensures fresh(maxXmin) && Valid() && this.input == input
      ensures pending == input.Pending() && aborted == Aborted(input.run)
      ensures !reachedEnd && maxXmin.xmin == SeedXmin(existing)
      ensures this.incrementalRefresh == incrementalRefresh
      ensures lastTxid == LastTxid(existing, currentTxid) && this.rowCountPerBatch == rowCountPerBatch
    {
      this.input, reachedEnd := input, false;
      this.incrementalRefresh, this.rowCountPerBatch := incrementalRefresh, rowCountPerBatch;
      this.lastTxid := LastTxid(existing, currentTxid);
      pending, aborted := input.Pending(), Aborted(input.run);
      var seed: Xid := 0;
      if existing.maxXmin.Some? {
        seed := existing.maxXmin.value;
      }
      this.maxXmin := new XminCell(seed);
    }

    /** The end is reached only by a COPY that closed cleanly and whose every row was read. */
    ghost predicate Valid()
      reads this, input
    {
      && rowCountPerBatch > 0
      && input.Valid() && pending == input.Pending() && aborted == Aborted(input.run)
      && (reachedEnd ==> pending == [] && !aborted)
    }

    /** The metadata describes this sync, and shares its watermark variable. */
    ghost predicate Describes(metadata: PendingMetadata)
      reads this, maxXmin
    {
      && metadata.lastRefreshMode == RefreshModeFor(incrementalRefresh, reachedEnd)
      && metadata.lastTxid == lastTxid
      && metadata.maxXmin == (if maxXmin.xmin != 0 then Some(maxXmin) else None)
    }

    /** Written out now, the metadata is the checkpoint of what was read so far. */
    lemma StoredIsCurrent(metadata: PendingMetadata)
      requires Describes(metadata)
      ensures metadata.Stored() == CheckpointAt(incrementalRefresh, reachedEnd, lastTxid, maxXmin.xmin)
      ensures metadata.IsInProgress() <==> !reachedEnd
    {
    }

    /** One batch of rows, or those that are left. Nothing comes back only once the stream is drained; then the close error of the
      * buffer decides whether this was the end. */
    method LoadRows() returns (rows: seq<Row>, metadata: PendingMetadata)
      requires Valid()
      modifies this`pending, this`reachedEnd, maxXmin, input
      ensures Valid()
      ensures ReadRows(old(pending), old(maxXmin.xmin), |rows|, rows, pending, maxXmin.xmin)
      ensures rows == [] <==> old(pending) == []
      ensures rows == [] && !aborted ==> reachedEnd
      ensures |rows| == if |old(pending)| < rowCountPerBatch then |old(pending)| else rowCountPerBatch
      ensures Describes(metadata)
    {
      hide Aborted, CsvReader.Valid, CsvReader.Pending;
      rows := [];
      ghost var source := pending;
      while true
        invariant Valid()
        invariant ReadRows(source, old(maxXmin.xmin), |rows|, rows, pending, maxXmin.xmin)
        invariant |rows| < rowCountPerBatch
        invariant reachedEnd == old(reachedEnd)
        decreases |pending|
      {
        var row := input.Read();
        if row.None? {
          var closeError := input.CloseError();
          if closeError.Some? {
            break;
          }
          assert input.end == Some(None);    // io.EOF
          reachedEnd := true;
          break;
        }
        pending := pending[1..];
        maxXmin.xmin := row.value.xmin;
        rows := rows + [row.value.row];
        if |rows| >= rowCountPerBatch {
          break;
        }
      }
      metadata := PendingMetadata(
        RefreshModeFor(incrementalRefresh, reachedEnd), lastTxid, if maxXmin.xmin != 0 then Some(maxXmin) else None);
    }
  }
}
