/** Threads sharing one vbuffer: every critical section of proto/buf.c is one step, a wait on a
    condition variable puts the thread to sleep, and a broadcast wakes all its sleepers. */
module VBufferMonitor {
  import opened ByteStrings
  import opened VBuffers

  type ThreadId = nat

  /** Where a thread is. A woken thread is back at the test of its wait loop. */
  datatype Phase =
    | Idle
    | Reading(size: nat)      // about to test for data in vbuffer_read
    | SleepsOnData(size: nat)
    | AwaitingDrain           // about to test for emptiness in vbuffer_wait_drain
    | SleepsOnDrain
    | Draining                // vbuffer_drain, between closing and clearing

  /** What has left the queue, in order. */
  datatype Piece = Delivered(reader: ThreadId, bytes: seq<Byte>) | Dropped(bytes: seq<Byte>)

  datatype State = State(
    queue: Queue,
    phase: map<ThreadId, Phase>,  // absent threads are idle
    accepted: seq<Byte>,          // all bytes a write has stored
    gone: seq<Piece>)

  datatype Step =
    | Write(data: seq<Byte>)
    | Close
    | CallRead(t: ThreadId, size: nat)
    | RunRead(t: ThreadId)
    | CallDrain(t: ThreadId)
    | RunDrain(t: ThreadId)
    | CallWaitDrain(t: ThreadId)
    | RunWaitDrain(t: ThreadId)
    | Spurious(t: ThreadId)
    | TryRead(t: ThreadId, size: nat)

  function PhaseOf(s: State, t: ThreadId): Phase
  {
    if t in s.phase then s.phase[t] else Idle
  }

  function Woken(p: Phase): Phase
  {
    match p
    case SleepsOnData(size) => Reading(size)
    case SleepsOnDrain => AwaitingDrain
    case _ => p
  }

  function BroadcastData(phase: map<ThreadId, Phase>): map<ThreadId, Phase>
  {
    map t | t in phase :: if phase[t].SleepsOnData? then Woken(phase[t]) else phase[t]
  }

  function BroadcastDrain(phase: map<ThreadId, Phase>): map<ThreadId, Phase>
  {
    map t | t in phase :: if phase[t].SleepsOnDrain? then Woken(phase[t]) else phase[t]
  }

  /** A thread may take the step now. */
  predicate Enabled(s: State, step: Step)
  {
    match step
    case Write(_) => true
    case Close => true
    case CallRead(t, _) => PhaseOf(s, t).Idle?
    case RunRead(t) => PhaseOf(s, t).Reading?
    case CallDrain(t) => PhaseOf(s, t).Idle?
    case RunDrain(t) => PhaseOf(s, t).Draining?
    case CallWaitDrain(t) => PhaseOf(s, t).Idle?
    case RunWaitDrain(t) => PhaseOf(s, t).AwaitingDrain?
    case Spurious(t) => PhaseOf(s, t).SleepsOnData? || PhaseOf(s, t).SleepsOnDrain?
    case TryRead(t, _) => PhaseOf(s, t).Idle?
  }

  function CloseQueue(s: State): State
  {
    if s.queue.eof then s else s.(queue := s.queue.(eof := true), phase := BroadcastData(s.phase))
  }

  function Next(s: State, step: Step): State
    requires Enabled(s, step)
  {
    match step
    case Write(data) =>
      if s.queue.eof then s
      else s.(queue := s.queue.AfterWrite(data), phase := BroadcastData(s.phase), accepted := s.accepted + data)
    case Close => CloseQueue(s)
    case CallRead(t, size) => s.(phase := s.phase[t := Reading(size)])
    case RunRead(t) =>
      var size := s.phase[t].size;
      if s.queue.Blocks() then
        s.(phase := s.phase[t := SleepsOnData(size)])
      else if s.queue.bytes == [] then
        s.(phase := s.phase[t := Idle], gone := s.gone + [Delivered(t, [])])
      else
        var q := s.queue.AfterRead(size);
        var phase := s.phase[t := Idle];
        s.(queue := q,
           phase := if q.bytes == [] then BroadcastDrain(phase) else phase,
           gone := s.gone + [Delivered(t, s.queue.bytes[..s.queue.Take(size)])])
    case CallDrain(t) => var c := CloseQueue(s); c.(phase := c.phase[t := Draining])
    case RunDrain(t) =>
      s.(queue := s.queue.(bytes := []),
         phase := BroadcastDrain(s.phase[t := Idle]),
         gone := s.gone + [Dropped(s.queue.bytes)])
    case CallWaitDrain(t) => s.(phase := s.phase[t := AwaitingDrain])
    case RunWaitDrain(t) =>
      s.(phase := s.phase[t := if s.queue.bytes != [] then SleepsOnDrain else Idle])
    case Spurious(t) => s.(phase := s.phase[t := Woken(s.phase[t])])
    case TryRead(t, size) =>
      if s.queue.eof then s
      else s.(queue := s.queue.AfterRead(size),
              gone := s.gone + [Delivered(t, s.queue.bytes[..s.queue.Take(size)])])
  }

  // ---------- properties ----------

  function Bytes(pieces: seq<Piece>): seq<Byte>
  {
    if pieces == [] then [] else Bytes(pieces[..|pieces| - 1]) + pieces[|pieces| - 1].bytes
  }

  /** Delivered, dropped and queued bytes are the accepted bytes, in order. */
  ghost predicate Conserved(s: State)
  {
    Bytes(s.gone) + s.queue.bytes == s.accepted
  }

  /** No thread sleeps through the event it waits for. */
  ghost predicate NoLostWakeup(s: State)
  {
    && (forall t | t in s.phase :: s.phase[t].SleepsOnData? ==> s.queue.Blocks())
    && (forall t | t in s.phase :: s.phase[t].SleepsOnDrain? ==> s.queue.bytes != [])
  }

  /** Taking `piece` off the front of the queue moves it to the pieces gone. */
  lemma {:induction false} ConservedTake(s: State, piece: Piece, rest: seq<Byte>)
    requires Conserved(s) && s.queue.bytes == piece.bytes + rest
    ensures Bytes(s.gone + [piece]) + rest == s.accepted
  {
    assert (s.gone + [piece])[..|s.gone|] == s.gone;
    ConcatAssociative(Bytes(s.gone), piece.bytes, rest);
  }

  lemma {:induction false} ConservedStep(s: State, step: Step)
    requires Enabled(s, step) && Conserved(s)
    ensures Conserved(Next(s, step))
  {
    var n, q := Next(s, step), s.queue.bytes;
    if step.Write? && !s.queue.eof {
      ConcatAssociative(Bytes(s.gone), q, step.data);
    } else if step.RunDrain? {
      assert q + [] == q;
      ConservedTake(s, Dropped(q), []);
    } else if n.gone != s.gone {
      var piece := n.gone[|n.gone| - 1];
      assert q == piece.bytes + n.queue.bytes;
      ConservedTake(s, piece, n.queue.bytes);
    }
  }

  /** A vbuffer_try_read, which signals nothing, empties the queue under a sleeping drain-waiter. */
  ghost predicate Strands(s: State, step: Step)
  {
    && step.TryRead? && !s.queue.eof && step.size >= |s.queue.bytes|
    && exists t | t in s.phase :: s.phase[t].SleepsOnDrain?
  }

  /** Exactly the stranding reads break the wake-up guarantee. */
  lemma {:induction false} WakeupStep(s: State, step: Step)
    requires Enabled(s, step) && NoLostWakeup(s)
    ensures NoLostWakeup(Next(s, step)) <==> !Strands(s, step)
  {
    var n := Next(s, step);
    if Strands(s, step) {
      var t :| t in s.phase && s.phase[t].SleepsOnDrain?;
      assert t in n.phase && n.phase[t].SleepsOnDrain? && n.queue.bytes == [];
    }
  }

  /** The states a run goes through, one more than its steps. */
  ghost predicate IsRun(states: seq<State>, steps: seq<Step>)
  {
    && |states| == |steps| + 1
    && forall i {:trigger steps[i]} :: 0 <= i < |steps| ==>
      Enabled(states[i], steps[i]) && states[i + 1] == Next(states[i], steps[i])
  }

  const INIT: State := State(Queue([], false), map[], [], [])

  /** Over every interleaving no byte is lost, invented or reordered. */
  lemma {:induction false} RunConserves(states: seq<State>, steps: seq<Step>)
    requires IsRun(states, steps) && states[0] == INIT
    ensures forall i :: 0 <= i < |states| ==> Conserved(states[i])
  {
    for k := 0 to |steps|
      invariant forall i :: 0 <= i <= k ==> Conserved(states[i])
    {
      ConservedStep(states[k], steps[k]);
    }
  }

  /** Over every interleaving, no thread ever sleeps on a condition that already holds exactly
      when no vbuffer_try_read strands a waiter; without vbuffer_try_read, always. */
  lemma {:induction false} RunWakesUp(states: seq<State>, steps: seq<Step>)
    requires IsRun(states, steps) && states[0] == INIT
    ensures (forall i :: 0 <= i < |steps| ==> !Strands(states[i], steps[i]))
      <==> forall i :: 0 <= i < |states| ==> NoLostWakeup(states[i])
  {
    if forall i :: 0 <= i < |steps| ==> !Strands(states[i], steps[i]) {
      for k := 0 to |steps|
        invariant forall i :: 0 <= i <= k ==> NoLostWakeup(states[i])
      {
        WakeupStep(states[k], steps[k]);
      }
    } else {
      var k :| 0 <= k < |steps| && Strands(states[k], steps[k]);
      if NoLostWakeup(states[k]) {
        WakeupStep(states[k], steps[k]);
      }
      assert !NoLostWakeup(states[k]) || !NoLostWakeup(states[k + 1]);
    }
  }

  /** A run in which vbuffer_try_read strands a drain-waiter on an empty queue. */
  lemma {:induction false} TryReadStrandsWaiter() returns (states: seq<State>, steps: seq<Step>)
    ensures IsRun(states, steps) && states[0] == INIT
    ensures var last := states[|states| - 1]; PhaseOf(last, 1).SleepsOnDrain? && last.queue == Queue([], false)
  {
    steps := [Write([7]), CallWaitDrain(1), RunWaitDrain(1), TryRead(2, 1)];
    var s1 := Next(INIT, steps[0]);
    var s2 := Next(s1, steps[1]);
    var s3 := Next(s2, steps[2]);
    states := [INIT, s1, s2, s3, Next(s3, steps[3])];
  }
}
