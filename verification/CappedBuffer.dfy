/** The bounded pipe from COPY to the reader: a byte buffer behind one mutex and one condition variable. */
module CappedBuffer {
  import opened Checkpoint

  type Byte = b: int | 0 <= b < 256
  type Error = string

  /** The fields that the mutex guards. */
  datatype Buffer = Buffer(maxSizeBytes: nat, bytes: seq<Byte>, closed: bool, closeErr: Option<Error>)

  datatype Call = Writing(payload: seq<Byte>) | Reading(size: nat) | Closing(reason: Option<Error>)

  /** `Ended(None)` is io.EOF. */
  datatype Outcome =
    | Blocked
    | Written(count: nat)
    | Refused
    | Bytes(data: seq<Byte>)
    | Ended(reason: Option<Error>)
    | Closed

  /** One stretch of a call between taking the mutex and giving it up, by waiting or by returning. */
  datatype Pass = Pass(after: Buffer, outcome: Outcome, broadcast: bool)

  function PassOf(b: Buffer, call: Call): Pass {
    match call
    case Writing(payload) =>
      if payload == [] then Pass(b, Written(0), false)
      else if b.closed then Pass(b, Refused, false)
      else if |b.bytes| + |payload| > b.maxSizeBytes then Pass(b, Blocked, false)
      else Pass(b.(bytes := b.bytes + payload), Written(|payload|), true)
    case Reading(size) =>
      if size == 0 then Pass(b, Bytes([]), false)
      else if b.bytes == [] then (if b.closed then Pass(b, Ended(b.closeErr), false) else Pass(b, Blocked, false))
      else
        var count := if size < |b.bytes| then size else |b.bytes|;
        Pass(b.(bytes := b.bytes[count..]), Bytes(b.bytes[..count]), true)
    case Closing(reason) =>
      if b.closed then Pass(b, Closed, false) else Pass(b.(closed := true, closeErr := reason), Closed, true)
  }

  class CappedBuffer {
    const maxSizeBytes: nat
    var buffer: seq<Byte>
    var closed: bool
    var closeErr: Option<Error>
    var closeOnce: bool

    constructor (maxSizeBytes: nat)
      ensures Valid() && Guarded() == Buffer(maxSizeBytes, [], false, None)
    {
      this.maxSizeBytes, buffer, closed, closeErr, closeOnce := maxSizeBytes, [], false, None, false;
    }

    ghost predicate Valid()
      reads this
    {
      closeOnce == closed
    }

    function Guarded(): Buffer
      reads this
    {
      Buffer(maxSizeBytes, buffer, closed, closeErr)
    }

    method Write(payload: seq<Byte>) returns (outcome: Outcome, broadcast: bool)
      requires Valid()
      modifies this`buffer
      ensures Valid() && Pass(Guarded(), outcome, broadcast) == PassOf(old(Guarded()), Writing(payload))
    {
      if |payload| == 0 {
        return Written(0), false;
      }
      if closed {
        return Refused, false;
      }
      if |buffer| + |payload| > maxSizeBytes {
        return Blocked, false;     // Wait; the next pass checks again
      }
      buffer := buffer + payload;
      return Written(|payload|), true;
    }

    method Read(size: nat) returns (outcome: Outcome, broadcast: bool)
      requires Valid()
      modifies this`buffer
      ensures Valid() && Pass(Guarded(), outcome, broadcast) == PassOf(old(Guarded()), Reading(size))
    {
      if size == 0 {
        return Bytes([]), false;
      }
      if |buffer| == 0 && !closed {
        return Blocked, false;
      }
      if |buffer| == 0 && closed {
        if closeErr.Some? {
          return Ended(closeErr), false;
        }
        return Ended(None), false;
      }
      var readBytes := if size < |buffer| then size else |buffer|;
      var data := buffer[..readBytes];
      buffer := buffer[readBytes..];
      return Bytes(data), true;
    }

    method CloseWithError(reason: Option<Error>) returns (outcome: Outcome, broadcast: bool)
      requires Valid()
      modifies this`closed, this`closeErr, this`closeOnce
      ensures Valid() && Pass(Guarded(), outcome, broadcast) == PassOf(old(Guarded()), Closing(reason))
    {
      broadcast := false;
      if !closeOnce {
        closeOnce := true;
        closeErr := reason;
        closed := true;
        broadcast := true;
      }
      outcome := Closed;
    }
  }

  // Threads

  /** A running thread is about to take the mutex, a waiting one sleeps until a broadcast. */
  datatype Thread = Idle | Running(call: Call) | Waiting(call: Call)

  datatype Event = Event(thread: nat, call: Call, outcome: Outcome)

  /** `log` holds every call that returned, in the order of their last passes. */
  datatype System = System(buffer: Buffer, threads: seq<Thread>, log: seq<Event>)

  datatype Step = Starts(thread: nat, call: Call) | Runs(thread: nat)

  function Woken(t: Thread): Thread {
    if t.Waiting? then Running(t.call) else t
  }

  function Wake(threads: seq<Thread>): (woken: seq<Thread>)
    ensures |woken| == |threads|
    ensures forall i :: 0 <= i < |woken| ==> woken[i] == Woken(threads[i])
  {
    seq(|threads|, i requires 0 <= i < |threads| => Woken(threads[i]))
  }

  function AfterPass(s: System, t: nat, call: Call): System
    requires t < |s.threads|
  {
    var pass := PassOf(s.buffer, call);
    var threads := if pass.broadcast then Wake(s.threads) else s.threads;
    if pass.outcome.Blocked? then System(pass.after, threads[t := Waiting(call)], s.log)
    else System(pass.after, threads[t := Idle], s.log + [Event(t, call, pass.outcome)])
  }

  predicate Next(s: System, step: Step, s': System) {
    && step.thread < |s.threads|
    && match step
       case Starts(t, call) => s.threads[t].Idle? && s' == s.(threads := s.threads[t := Running(call)])
       case Runs(t) => s.threads[t].Running? && s' == AfterPass(s, t, s.threads[t].call)
  }

  predicate Init(maxSizeBytes: nat, s: System) {
    && s.buffer == Buffer(maxSizeBytes, [], false, None) && s.log == []
    && forall t :: 0 <= t < |s.threads| ==> s.threads[t].Idle?
  }

  ghost predicate Steps(states: seq<System>, steps: seq<Step>) {
    && |states| == |steps| + 1
    && forall i :: 0 <= i < |steps| ==> Next(states[i], steps[i], states[i + 1])
  }

  /** Any interleaving of any number of writers, readers and closers. */
  ghost predicate IsRun(maxSizeBytes: nat, states: seq<System>, steps: seq<Step>) {
    Steps(states, steps) && Init(maxSizeBytes, states[0])
  }

  // What an observer of the calls sees

  function BytesIn(e: Event): seq<Byte> {
    if e.call.Writing? && e.outcome.Written? then e.call.payload else []
  }

  function BytesOut(e: Event): seq<Byte> {
    if e.outcome.Bytes? then e.outcome.data else []
  }

  function Accepted(log: seq<Event>): seq<Byte> {
    if log == [] then [] else Accepted(log[..|log| - 1]) + BytesIn(log[|log| - 1])
  }

  function Delivered(log: seq<Event>): seq<Byte> {
    if log == [] then [] else Delivered(log[..|log| - 1]) + BytesOut(log[|log| - 1])
  }

  /** The reason given by the first call that closed the buffer. */
  function FirstClose(log: seq<Event>): Option<Option<Error>> {
    if log == [] then None
    else
      var earlier, last := FirstClose(log[..|log| - 1]), log[|log| - 1];
      if earlier.Some? then earlier else if last.call.Closing? then Some(last.call.reason) else None
  }

  ghost predicate Invariant(maxSizeBytes: nat, s: System) {
    && s.buffer.maxSizeBytes == maxSizeBytes
    && |s.buffer.bytes| <= maxSizeBytes
    && Accepted(s.log) == Delivered(s.log) + s.buffer.bytes
    && s.buffer.closed == FirstClose(s.log).Some?
    && s.buffer.closeErr == (if s.buffer.closed then FirstClose(s.log).value else None)
    && (forall t :: 0 <= t < |s.threads| && s.threads[t].Waiting? ==> PassOf(s.buffer, s.threads[t].call).outcome == Blocked)
    && (forall e :: e in s.log && e.outcome.Ended? ==>
          s.buffer.closed && s.buffer.bytes == [] && e.outcome.reason == s.buffer.closeErr)
  }

  lemma Logged(log: seq<Event>, e: Event)
    ensures Accepted(log + [e]) == Accepted(log) + BytesIn(e)
    ensures Delivered(log + [e]) == Delivered(log) + BytesOut(e)
    ensures FirstClose(log + [e]) ==
      if FirstClose(log).Some? then FirstClose(log) else if e.call.Closing? then Some(e.call.reason) else None
  {
    assert (log + [e])[..|log|] == log;
  }

  lemma StepKeepsInvariant(maxSizeBytes: nat, s: System, step: Step, s': System)
    requires Invariant(maxSizeBytes, s) && Next(s, step, s')
    ensures Invariant(maxSizeBytes, s')
    ensures s.buffer.closed ==>
      s'.buffer.closed && s'.buffer.closeErr == s.buffer.closeErr && Accepted(s'.log) == Accepted(s.log)
  {
    hide Accepted, Delivered, FirstClose, PassOf, Wake;
    if step.Runs? {
      PassKeepsInvariant(maxSizeBytes, s, step.thread);
    }
  }

  /** What a pass does to the bytes and to the closing, and when it is silent. */
  lemma PassEffects(b: Buffer, t: nat, call: Call)
    ensures var pass := PassOf(b, call);
      var e, after := Event(t, call, pass.outcome), pass.after;
      && (!pass.broadcast ==> after == b)
      && (pass.outcome.Blocked? ==> !pass.broadcast)
      && b.bytes + BytesIn(e) == BytesOut(e) + after.bytes
      && after.maxSizeBytes == b.maxSizeBytes && (|b.bytes| <= b.maxSizeBytes ==> |after.bytes| <= b.maxSizeBytes)
      && after.closed == (b.closed || call.Closing?)
      && after.closeErr == (if !b.closed && call.Closing? then call.reason else b.closeErr)
      && (b.closed ==> BytesIn(e) == [] && |after.bytes| <= |b.bytes|)
      && (pass.outcome.Ended? ==> b.closed && b.bytes == [] && pass.outcome.reason == b.closeErr)
  {
  }

  lemma PassKeepsInvariant(maxSizeBytes: nat, s: System, t: nat)
    requires Invariant(maxSizeBytes, s) && t < |s.threads| && s.threads[t].Running?
    ensures var s' := AfterPass(s, t, s.threads[t].call);
      && Invariant(maxSizeBytes, s')
      && (s.buffer.closed ==>
            s'.buffer.closed && s'.buffer.closeErr == s.buffer.closeErr && Accepted(s'.log) == Accepted(s.log))
  {
    hide Accepted, Delivered, FirstClose, PassOf, BytesIn, BytesOut;
    var call := s.threads[t].call;
    var pass := PassOf(s.buffer, call);
    PassEffects(s.buffer, t, call);
    if !pass.outcome.Blocked? {
      var e := Event(t, call, pass.outcome);
      Logged(s.log, e);
      assert Accepted(s.log) + BytesIn(e) == Delivered(s.log) + (s.buffer.bytes + BytesIn(e));
      assert Delivered(s.log) + (BytesOut(e) + pass.after.bytes) == Delivered(s.log + [e]) + pass.after.bytes;
    }
  }

  lemma {:induction false} RunKeepsInvariant(maxSizeBytes: nat, states: seq<System>, steps: seq<Step>, i: nat)
    requires IsRun(maxSizeBytes, states, steps) && i < |states|
    ensures Invariant(maxSizeBytes, states[i])
    decreases i
  {
    if i > 0 {
      RunKeepsInvariant(maxSizeBytes, states, steps, i - 1);
      StepKeepsInvariant(maxSizeBytes, states[i - 1], steps[i - 1], states[i]);
    }
  }

  /** Nothing is lost, duplicated or reordered, and the cap is kept. */
  lemma BytesAreConserved(maxSizeBytes: nat, states: seq<System>, steps: seq<Step>, i: nat)
    requires IsRun(maxSizeBytes, states, steps) && i < |states|
    ensures Accepted(states[i].log) == Delivered(states[i].log) + states[i].buffer.bytes
    ensures |states[i].buffer.bytes| <= maxSizeBytes
  {
    RunKeepsInvariant(maxSizeBytes, states, steps, i);
  }

  /** Once closed, the buffer stays closed for the reason given first, and accepts nothing more. */
  lemma {:induction false} CloseIsFinal(maxSizeBytes: nat, states: seq<System>, steps: seq<Step>, i: nat, j: nat)
    requires IsRun(maxSizeBytes, states, steps) && i <= j < |states| && states[i].buffer.closed
    ensures states[j].buffer.closed && Some(states[j].buffer.closeErr) == FirstClose(states[i].log)
    ensures Accepted(states[j].log) == Accepted(states[i].log)
    decreases j
  {
    hide Next, Accepted, FirstClose;
    RunKeepsInvariant(maxSizeBytes, states, steps, i);
    if i < j {
      CloseIsFinal(maxSizeBytes, states, steps, i, j - 1);
      RunKeepsInvariant(maxSizeBytes, states, steps, j - 1);
      StepKeepsInvariant(maxSizeBytes, states[j - 1], steps[j - 1], states[j]);
    }
  }

  /** A reader that is told about the end, at any time in the run, got every byte that any writer ever got
    * accepted in it; it is told of a clean end if and only if the first close was a clean one. */
  lemma EndMeansEverything(maxSizeBytes: nat, states: seq<System>, steps: seq<Step>, i: nat, e: Event, j: nat)
    requires IsRun(maxSizeBytes, states, steps) && i <= j < |states|
    requires e in states[i].log && e.outcome.Ended?
    ensures Delivered(states[i].log) == Accepted(states[i].log) == Accepted(states[j].log)
    ensures FirstClose(states[j].log) == Some(e.outcome.reason)
  {
    hide Accepted, Delivered, FirstClose;
    RunKeepsInvariant(maxSizeBytes, states, steps, i);
    CloseIsFinal(maxSizeBytes, states, steps, i, j);
    RunKeepsInvariant(maxSizeBytes, states, steps, j);
  }

  /** No wakeup is lost: a thread that sleeps would only go back to sleep. */
  lemma SleepersAreBlocked(maxSizeBytes: nat, states: seq<System>, steps: seq<Step>, i: nat, t: nat)
    requires IsRun(maxSizeBytes, states, steps) && i < |states|
    requires t < |states[i].threads| && states[i].threads[t].Waiting?
    ensures var s, call := states[i], states[i].threads[t].call;
      && PassOf(s.buffer, call).outcome == Blocked
      && !s.buffer.closed
      && match call
         case Writing(payload) => |s.buffer.bytes| + |payload| > maxSizeBytes
         case Reading(_) => s.buffer.bytes == []
         case Closing(_) => false
  {
    RunKeepsInvariant(maxSizeBytes, states, steps, i);
  }

  // What one call does

  function Min(a: nat, b: nat): nat {
    if a < b then a else b
  }

  /** The call returned with this outcome, and is the last in the log. */
  ghost predicate Returns(s: System, t: nat, outcome: Outcome, s': System) {
    && t < |s.threads| && t < |s'.threads| && s.threads[t].Running?
    && s'.threads[t] == Idle
    && s'.log == s.log + [Event(t, s.threads[t].call, outcome)]
  }

  /** The call went to sleep, and nothing else happened. */
  ghost predicate Sleeps(s: System, t: nat, s': System) {
    && t < |s.threads| && s.threads[t].Running?
    && s' == s.(threads := s.threads[t := Waiting(s.threads[t].call)])
  }

  /** A read takes the first bytes, as many as it asked for or as there are, and leaves the rest. It sleeps if and
    * only if there are none and more may come, and reports the end if and only if none will. */
  lemma ReadTakesTheFirst(s: System, t: nat, s': System)
    requires Next(s, Runs(t), s') && s.threads[t].call.Reading? && s.threads[t].call.size > 0
    ensures var before, count := s.buffer.bytes, Min(s.threads[t].call.size, |s.buffer.bytes|);
      && (before != [] ==> Returns(s, t, Bytes(before[..count]), s') && s'.buffer == s.buffer.(bytes := before[count..]))
      && (before == [] && s.buffer.closed ==> Returns(s, t, Ended(s.buffer.closeErr), s') && s'.buffer == s.buffer)
      && (before == [] && !s.buffer.closed ==> Sleeps(s, t, s'))
  {
  }

  /** A write is accepted as a whole, behind what is there; refused once the buffer is closed; and sleeps if and only
    * if it does not fit. */
  lemma WriteIsAllOrNothing(s: System, t: nat, s': System)
    requires Next(s, Runs(t), s') && s.threads[t].call.Writing? && s.threads[t].call.payload != []
    ensures var before, payload := s.buffer.bytes, s.threads[t].call.payload;
      && (s.buffer.closed ==> Returns(s, t, Refused, s') && s'.buffer == s.buffer)
      && (!s.buffer.closed && |before| + |payload| > s.buffer.maxSizeBytes ==> Sleeps(s, t, s'))
      && (!s.buffer.closed && |before| + |payload| <= s.buffer.maxSizeBytes ==>
            Returns(s, t, Written(|payload|), s') && s'.buffer == s.buffer.(bytes := before + payload))
  {
  }

  /** The outcome is one of this call. */
  ghost predicate Answers(e: Event) {
    match e.call
    case Writing(payload) => e.outcome == Refused || e.outcome == Written(|payload|)
    case Reading(size) => (e.outcome.Bytes? && |e.outcome.data| <= size) || (e.outcome.Ended? && size > 0)
    case Closing(_) => e.outcome == Closed
  }

  /** Whatever the threads do: no read ever gets more than it asked for, no write is accepted in part, and a call
    * that asked for nothing does not wait. */
  lemma {:induction false} OutcomesFitCalls(maxSizeBytes: nat, states: seq<System>, steps: seq<Step>, i: nat)
    requires IsRun(maxSizeBytes, states, steps) && i < |states|
    ensures forall e :: e in states[i].log ==> Answers(e)
    ensures forall t :: 0 <= t < |states[i].threads| && states[i].threads[t].Waiting? ==>
      states[i].threads[t].call !in {Reading(0), Writing([])} && !states[i].threads[t].call.Closing?
    decreases i
  {
    if i > 0 {
      OutcomesFitCalls(maxSizeBytes, states, steps, i - 1);
      assert Next(states[i - 1], steps[i - 1], states[i]);
    }
  }

  // Deadlock

  /** A writer of this payload and a reader sleep at the same time, each waiting for the other. */
  ghost predicate Stuck(s: System, payload: seq<Byte>) {
    && (exists w :: 0 <= w < |s.threads| && s.threads[w] == Waiting(Writing(payload)))
    && (exists r :: 0 <= r < |s.threads| && s.threads[r].Waiting? && s.threads[r].call.Reading?)
  }

  ghost predicate CanGetStuck(maxSizeBytes: nat, payload: seq<Byte>) {
    exists states, steps, i :: IsRun(maxSizeBytes, states, steps) && 0 <= i < |states| && Stuck(states[i], payload)
  }

  /** Two sleeping threads can wait for each other exactly when the payload could never fit. */
  lemma StuckIffTooLarge(maxSizeBytes: nat, payload: seq<Byte>)
    ensures CanGetStuck(maxSizeBytes, payload) <==> |payload| > maxSizeBytes
  {
    if CanGetStuck(maxSizeBytes, payload) {
      var states, steps, i :| IsRun(maxSizeBytes, states, steps) && 0 <= i < |states| && Stuck(states[i], payload);
      RunKeepsInvariant(maxSizeBytes, states, steps, i);
    }
    if |payload| > maxSizeBytes {
      StuckRun(maxSizeBytes, payload);
    }
  }

  lemma StuckRun(maxSizeBytes: nat, payload: seq<Byte>)
    requires |payload| > maxSizeBytes
    ensures CanGetStuck(maxSizeBytes, payload)
  {
    var b := Buffer(maxSizeBytes, [], false, None);
    var w, r := Writing(payload), Reading(1);
    var states := [
      System(b, [Idle, Idle], []), System(b, [Running(w), Idle], []), System(b, [Waiting(w), Idle], []),
      System(b, [Waiting(w), Running(r)], []), System(b, [Waiting(w), Waiting(r)], [])];
    var steps := [Starts(0, w), Runs(0), Starts(1, r), Runs(1)];
    assert IsRun(maxSizeBytes, states, steps);
    assert states[4].threads[0] == Waiting(Writing(payload)) && states[4].threads[1] == Waiting(r);
    assert Stuck(states[4], payload);
  }

  /** A read with a writer asleep takes something out, and wakes the writer. */
  lemma ReadFreesWriter(maxSizeBytes: nat, s: System, w: nat, r: nat, s': System)
    requires Invariant(maxSizeBytes, s) && Next(s, Runs(r), s')
    requires w < |s.threads| && s.threads[w].Waiting? && s.threads[w].call.Writing?
    requires |s.threads[w].call.payload| <= maxSizeBytes
    requires s.threads[r].call.Reading? && s.threads[r].call.size > 0
    ensures |s'.buffer.bytes| < |s.buffer.bytes|
    ensures s'.threads[w] == Running(s.threads[w].call)
  {
    assert PassOf(s.buffer, s.threads[w].call).outcome == Blocked;
  }

  /** So with a payload that fits, alternating between one reader, whatever it asks for, and the writer completes
    * the write. */
  lemma {:induction false} WriterGetsThrough(maxSizeBytes: nat, s: System, w: nat, r: nat, payload: seq<Byte>)
      returns (states: seq<System>, steps: seq<Step>)
    requires Invariant(maxSizeBytes, s) && !s.buffer.closed && |payload| <= maxSizeBytes
    requires w < |s.threads| && s.threads[w] in {Running(Writing(payload)), Waiting(Writing(payload))}
    requires r < |s.threads| && r != w
    requires var reader := s.threads[r]; reader.Idle? || (reader.Running? && reader.call.Reading? && reader.call.size > 0)
    ensures Steps(states, steps) && states[0] == s
    ensures forall i :: 0 <= i < |steps| ==> steps[i].thread in {r, w}
    ensures states[|steps|].log != []
    ensures states[|steps|].log[|states[|steps|].log| - 1] == Event(w, Writing(payload), Written(|payload|))
    decreases |s.buffer.bytes|, if s.threads[w].Running? then 1 else 0, if s.threads[r].Idle? then 1 else 0
  {
    hide Accepted, Delivered, FirstClose, Wake;
    var step, s';
    if s.threads[w].Running? {
      step, s' := Runs(w), AfterPass(s, w, Writing(payload));
      if !PassOf(s.buffer, Writing(payload)).outcome.Blocked? {
        return [s, s'], [step];
      }
    } else if s.threads[r].Idle? {
      step, s' := Starts(r, Reading(1)), s.(threads := s.threads[r := Running(Reading(1))]);
    } else {
      step, s' := Runs(r), AfterPass(s, r, s.threads[r].call);
      ReadFreesWriter(maxSizeBytes, s, w, r, s');
    }
    StepKeepsInvariant(maxSizeBytes, s, step, s');
    var restStates, restSteps := WriterGetsThrough(maxSizeBytes, s', w, r, payload);
    states, steps := [s] + restStates, [step] + restSteps;
  }
}
