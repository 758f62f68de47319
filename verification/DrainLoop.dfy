/** The drain loop's barrier (src/cli/interactive.rs, lines 2265-2286): a control event of the
    priority lane is applied only if no finalized output emitted before it is still unread. The
    test reads the main channel first, without the writer's mutex, and the deferred queue second;
    writers may step in between, the drain loop itself does not receive in between. */
module DrainLoop {
  import opened OutputEvents
  import opened OutputProtocol
  import opened OutputSafety
  import opened OutputRace

  /** What the barrier promises: no ordered output older than `n` is still to be received. */
  ghost predicate NoneOlderWaits(w: Writer, n: nat) {
    forall x | x in w.main.queue + w.deferred && x.event.IsOrdered() :: n <= x.sequence
  }

  /** The second half of the test. */
  predicate OldestIsNotBefore(w: Writer, n: nat) { w.deferred != [] ==> n <= w.deferred[0].sequence }

  predicate NoReceive(ms: seq<Micro>) { Env(ReceiveMain) !in ms }

  /** The writer's step moves a waiter older than `n` into the main channel. */
  predicate MovesOlder(s: State, m: Micro, n: nat) {
    && m.Advance? && (s.pc.Flushing? || s.pc.FlushingOnly?)
    && s.w.main.open && |s.w.main.queue| < s.w.cfg.capacity
    && s.w.deferred != [] && s.w.deferred[0].sequence < n
  }

  predicate MovesNothingOlder(s: State, ms: seq<Micro>, n: nat)
    decreases ms
  {
    ms == [] || (!MovesOlder(s, ms[0], n) && MovesNothingOlder(MicroNext(s, ms[0]), ms[1..], n))
  }

  // ---- what the steps between the reads add

  /** A control event that was taken from the priority lane, and waiters in order. */
  ghost predicate Reading(s: State, c: Sequenced) {
    MicroSafe(s) && Sorted(s.w.deferred) && c in s.w.priority.delivered
  }

  lemma SuffixKeepsSorted(s: Events, k: nat)
    requires Sorted(s) && k <= |s|
    ensures Sorted(s[k..]) && forall x | x in s[k..] :: x in s
  {
  }

  lemma DeferKeepsSorted(w: Writer, ev: Sequenced)
    requires Sorted(w.deferred) && Below(w.deferred, ev.sequence)
    ensures Sorted(Defer(w, ev).deferred)
    ensures forall x | x in Defer(w, ev).deferred :: x in w.deferred || x == ev
  {
    SortedPut(w.deferred, ev);
    if ev.event.EstimatedBytes() <= w.cfg.maxBytes {
      SuffixKeepsSorted(w.deferred + [ev], Excess(w.cfg, w.deferred + [ev]));
    }
  }

  /** Only events numbered `n` or later are new in the main channel or among the waiters. */
  ghost predicate AddsNothingOlder(w: Writer, w': Writer, n: nat) {
    && (forall x | x in w'.main.queue && x.event.IsOrdered() :: x in w.main.queue || n <= x.sequence)
    && (forall x | x in w'.deferred :: x in w.deferred || n <= x.sequence)
  }

  lemma HandIsNewer(w: Writer, c: Sequenced, ev: Sequenced)
    requires c in w.priority.delivered && LanesBelow(w, ev.sequence)
    ensures c.sequence < ev.sequence
  {
    assert c in w.priority.All();
  }

  lemma AppendAdds(w: Writer, ev: Sequenced, n: nat)
    requires Sorted(w.deferred) && LanesBelow(w, ev.sequence) && n <= ev.sequence
    ensures Sorted(Append(w, ev).deferred) && w.main.queue <= Append(w, ev).main.queue
    ensures AddsNothingOlder(w, Append(w, ev), n) && Append(w, ev).priority.delivered == w.priority.delivered
  {
    if !w.CanSend() && !ev.event.IsLossy() && !ev.event.IsCritical() { DeferKeepsSorted(w, ev); }
  }

  lemma FlushOneAdds(w: Writer, n: nat)
    requires Sorted(w.deferred) && FlushOne(w).Some?
    ensures Sorted(FlushOne(w).value.deferred) && w.main.queue <= FlushOne(w).value.main.queue
    ensures (w.main.open ==> n <= w.deferred[0].sequence) ==> AddsNothingOlder(w, FlushOne(w).value, n)
    ensures FlushOne(w).value.priority.delivered == w.priority.delivered
  {
    if w.main.open {
      SuffixKeepsSorted(w.deferred, 1);
    }
  }

  /** What one operation of the writer does to the waiters, the channel and the control lane. */
  ghost predicate Adds(w: Writer, w': Writer, n: nat, moves: bool) {
    && Sorted(w'.deferred) && w.main.queue <= w'.main.queue && w'.priority.delivered == w.priority.delivered
    && (!moves ==> AddsNothingOlder(w, w', n))
  }

  lemma FlushingAdds(s: State, n: nat)
    requires (s.pc.Flushing? || s.pc.FlushingOnly?) && Sorted(s.w.deferred)
    ensures Adds(s.w, AdvanceWriter(s).w, n, MovesOlder(s, Advance, n))
  {
    if FlushOne(s.w).Some? { FlushOneAdds(s.w, n); }
  }

  lemma AdvanceAdds(s: State, c: Sequenced)
    requires Reading(s, c)
    ensures Adds(s.w, AdvanceWriter(s).w, c.sequence, MovesOlder(s, Advance, c.sequence))
  {
    match s.pc {
      case Flushing(_) => FlushingAdds(s, c.sequence);
      case FlushingOnly => FlushingAdds(s, c.sequence);
      case Appending(ev) =>
        HandIsNewer(s.w, c, ev);
        AppendAdds(s.w, ev, c.sequence);
      case _ =>
    }
  }

  lemma ReceiverAdds(w: Writer, a: ReceiverAction)
    requires a != ReceiveMain
    ensures Receiver(w, a).main.queue == w.main.queue && Receiver(w, a).deferred == w.deferred
    ensures w.priority.delivered <= Receiver(w, a).priority.delivered
  {
  }

  lemma StepAdds(s: State, m: Micro, c: Sequenced)
    requires Reading(s, c) && m != Env(ReceiveMain)
    ensures Reading(MicroNext(s, m), c) && s.w.main.queue <= MicroNext(s, m).w.main.queue
    ensures !MovesOlder(s, m, c.sequence) ==> AddsNothingOlder(s.w, MicroNext(s, m).w, c.sequence)
  {
    MicroNextSafe(s, m);
    match m
    case Begin(e) =>
    case BeginFlush =>
    case Advance => AdvanceAdds(s, c);
    case Env(a) => ReceiverAdds(s.w, a);
  }

  lemma {:induction false} RunAdds(s: State, ms: seq<Micro>, c: Sequenced)
    requires Reading(s, c) && NoReceive(ms)
    ensures Reading(MicroRun(s, ms), c) && s.w.main.queue <= MicroRun(s, ms).w.main.queue
    ensures MovesNothingOlder(s, ms, c.sequence) ==> AddsNothingOlder(s.w, MicroRun(s, ms).w, c.sequence)
    decreases ms
  {
    if ms != [] {
      StepAdds(s, ms[0], c);
      RunAdds(MicroNext(s, ms[0]), ms[1..], c);
    }
  }

  /** A waiter that is moved stays unread. */
  lemma MovedIsUnread(s: State, m: Micro, c: Sequenced)
    requires Reading(s, c) && MovesOlder(s, m, c.sequence)
    ensures var x := s.w.deferred[0];
            x in MicroNext(s, m).w.main.queue && x.event.IsOrdered() && x.sequence < c.sequence
  {
    var x := s.w.deferred[0];
    assert x in s.w.deferred;
    assert MicroNext(s, m).w.main.queue == s.w.main.queue + [x];
  }

  lemma {:induction false} MoverLeavesOlder(s: State, ms: seq<Micro>, c: Sequenced)
    requires Reading(s, c) && NoReceive(ms)
    ensures NoneOlderWaits(MicroRun(s, ms).w, c.sequence) ==> MovesNothingOlder(s, ms, c.sequence)
    decreases ms
  {
    if ms == [] { return; }
    var s' := MicroNext(s, ms[0]);
    StepAdds(s, ms[0], c);
    if MovesOlder(s, ms[0], c.sequence) {
      MovedIsUnread(s, ms[0], c);
      RunAdds(s', ms[1..], c);
      var x := s.w.deferred[0];
      assert x in MicroRun(s', ms[1..]).w.main.queue;
      assert x in MicroRun(s', ms[1..]).w.main.queue + MicroRun(s', ms[1..]).w.deferred;
    } else {
      MoverLeavesOlder(s', ms[1..], c);
    }
  }

  /** The waiters are in emission order in every interleaving, whatever happens in main. */
  lemma {:induction false} RunKeepsWaitersSorted(s: State, ms: seq<Micro>)
    requires MicroSafe(s) && Sorted(s.w.deferred)
    ensures MicroSafe(MicroRun(s, ms)) && Sorted(MicroRun(s, ms).w.deferred)
    decreases ms
  {
    if ms != [] {
      MicroNextSafe(s, ms[0]);
      StepKeepsWaitersSorted(s, ms[0]);
      RunKeepsWaitersSorted(MicroNext(s, ms[0]), ms[1..]);
    }
  }

  /** Some interleaving of some writer's and its receivers' steps leads to the state. */
  ghost predicate Reachable(s: State) {
    exists cfg: Config, ms: seq<Micro> :: cfg.Valid() && s == MicroRun(Start(cfg), ms)
  }

  lemma ReachableWaitersSorted(s: State)
    requires Reachable(s)
    ensures MicroSafe(s) && Sorted(s.w.deferred)
  {
    var cfg: Config, ms: seq<Micro> :| cfg.Valid() && s == MicroRun(Start(cfg), ms);
    StartSafe(cfg);
    RunKeepsWaitersSorted(Start(cfg), ms);
  }

  lemma StepKeepsWaitersSorted(s: State, m: Micro)
    requires MicroSafe(s) && Sorted(s.w.deferred)
    ensures Sorted(MicroNext(s, m).w.deferred)
  {
    if m.Advance? {
      match s.pc {
        case Flushing(_) => if FlushOne(s.w).Some? { FlushOneAdds(s.w, 0); }
        case FlushingOnly => if FlushOne(s.w).Some? { FlushOneAdds(s.w, 0); }
        case Appending(ev) => AppendAdds(s.w, ev, 0);
        case _ =>
      }
    }
  }

  // ---- the barrier

  lemma FrontDecides(w: Writer, n: nat)
    requires Sorted(w.deferred) && Kinds(w)
    ensures NoneOlderWaits(w, n) <==>
            OldestIsNotBefore(w, n) && forall x | x in w.main.queue && x.event.IsOrdered() :: n <= x.sequence
  {
    if w.deferred != [] {
      assert w.deferred[0] in w.main.queue + w.deferred && w.deferred[0] in w.deferred;
    }
    assert forall x | x in w.main.queue :: x in w.main.queue + w.deferred;
  }

  /** In every interleaving: the test never holds a control event back without reason, and where
      it lets one through it is right if and only if between the two reads no writer moved an older
      waiter into the channel that had been seen empty. */
  lemma DrainBarrier(s: State, between: seq<Micro>, c: Sequenced)
    requires Reachable(s) && s.w.main.queue == [] && c in s.w.priority.delivered && NoReceive(between)
    ensures var t := MicroRun(s, between);
            && (!OldestIsNotBefore(t.w, c.sequence) ==> !NoneOlderWaits(t.w, c.sequence))
            && (OldestIsNotBefore(t.w, c.sequence) ==>
                  (NoneOlderWaits(t.w, c.sequence) <==> MovesNothingOlder(s, between, c.sequence)))
  {
    ReachableWaitersSorted(s);
    BarrierFrom(s, between, c);
  }

  lemma BarrierFrom(s: State, between: seq<Micro>, c: Sequenced)
    requires Reading(s, c) && NoReceive(between) && s.w.main.queue == []
    ensures var t := MicroRun(s, between);
            && (!OldestIsNotBefore(t.w, c.sequence) ==> !NoneOlderWaits(t.w, c.sequence))
            && (OldestIsNotBefore(t.w, c.sequence) ==>
                  (NoneOlderWaits(t.w, c.sequence) <==> MovesNothingOlder(s, between, c.sequence)))
  {
    RunAdds(s, between, c);
    FrontDecides(MicroRun(s, between).w, c.sequence);
    MoverLeavesOlder(s, between, c);
  }

  /** Reading the oldest waiter first and the channel second is always right: whatever writers do
      in between, a control event that passes overtakes nothing. */
  lemma OldestFirstIsRight(s: State, between: seq<Micro>, c: Sequenced)
    requires Reachable(s) && c in s.w.priority.delivered && NoReceive(between)
    requires OldestIsNotBefore(s.w, c.sequence)
    ensures MicroRun(s, between).w.main.queue == [] ==> NoneOlderWaits(MicroRun(s, between).w, c.sequence)
  {
    ReachableWaitersSorted(s);
    OldestFirstFrom(s, between, c);
  }

  lemma OldestFirstFrom(s: State, between: seq<Micro>, c: Sequenced)
    requires Reading(s, c) && NoReceive(between) && OldestIsNotBefore(s.w, c.sequence)
    ensures MicroRun(s, between).w.main.queue == [] ==> NoneOlderWaits(MicroRun(s, between).w, c.sequence)
  {
    RunAdds(s, between, c);
    MoverIsUnread(s, between, c);
    forall x | x in s.w.deferred ensures c.sequence <= x.sequence { FrontIsLeast(s.w.deferred, x); }
  }

  lemma FrontIsLeast(q: Events, x: Sequenced)
    requires Sorted(q) && x in q
    ensures q[0].sequence <= x.sequence
  {
    var i :| 0 <= i < |q| && q[i] == x;
  }

  lemma {:induction false} MoverIsUnread(s: State, ms: seq<Micro>, c: Sequenced)
    requires Reading(s, c) && NoReceive(ms)
    ensures MicroRun(s, ms).w.main.queue == [] ==> MovesNothingOlder(s, ms, c.sequence)
    decreases ms
  {
    if ms == [] { return; }
    var s' := MicroNext(s, ms[0]);
    StepAdds(s, ms[0], c);
    if MovesOlder(s, ms[0], c.sequence) {
      MovedIsUnread(s, ms[0], c);
      RunAdds(s', ms[1..], c);
    } else {
      MoverIsUnread(s', ms[1..], c);
    }
  }

  // ---- several control events behind one test

  lemma NoneOlderMonotone(w: Writer, m: nat, n: nat)
    requires m <= n && NoneOlderWaits(w, n)
    ensures NoneOlderWaits(w, m)
  {
  }

  /** The test looks at the first control event, and then all of them are applied. That is right if
      and only if it would have been right, and let through, for the last one. */
  lemma BatchBarrier(s: State, between: seq<Micro>, controls: Events)
    requires Reachable(s) && s.w.main.queue == [] && NoReceive(between)
    requires controls != [] && Sorted(controls) && forall c | c in controls :: c in s.w.priority.delivered
    ensures var t := MicroRun(s, between);
            var last := controls[|controls| - 1].sequence;
            (forall c | c in controls :: NoneOlderWaits(t.w, c.sequence)) <==>
            OldestIsNotBefore(t.w, last) && MovesNothingOlder(s, between, last)
  {
    var t := MicroRun(s, between);
    var c := controls[|controls| - 1];
    assert c in controls;
    DrainBarrier(s, between, c);
    if NoneOlderWaits(t.w, c.sequence) {
      forall x | x in controls ensures NoneOlderWaits(t.w, x.sequence) {
        LastIsGreatest(controls, x);
        NoneOlderMonotone(t.w, x.sequence, c.sequence);
      }
    }
  }

  lemma LastIsGreatest(q: Events, x: Sequenced)
    requires Sorted(q) && x in q
    ensures x.sequence <= q[|q| - 1].sequence
  {
    var i :| 0 <= i < |q| && q[i] == x;
  }

  // ---- the barrier inside the loop

  /** The first ordered event of a queue, if there is one, is numbered `n` or later. */
  predicate FirstIsNotBefore(q: Events, n: nat) {
    q == [] || (if q[0].event.IsOrdered() then n <= q[0].sequence else FirstIsNotBefore(q[1..], n))
  }

  lemma {:induction false} FirstOfOrdered(q: Events, n: nat)
    requires Ordered(q)
    ensures FirstIsNotBefore(q, n) <==> forall x | x in q && x.event.IsOrdered() :: n <= x.sequence
  {
    if q != [] {
      assert q == [q[0]] + q[1..];
      if q[0].event.IsOrdered() {
        forall x | x in q[1..] && x.event.IsOrdered() ensures q[0].sequence < x.sequence {
          var i :| 0 < i < |q| && q[i] == x;
        }
      } else {
        FirstOfOrdered(q[1..], n);
      }
    }
  }

  lemma UnreadIsOrdered(w: Writer)
    requires Ordered(w.Pipeline())
    ensures Ordered(w.main.queue + w.deferred)
  {
    var k := |w.main.delivered|;
    assert w.Pipeline()[k..] == w.main.queue + w.deferred;
  }

  /** Before the loop shows an event of the main channel it applies the control events with smaller
      numbers. Where finalized output is in order, that is right if the event is an ordered one; for
      any event it is right if and only if the first ordered event still unread is not older. */
  lemma LoopBarrierFrom(w: Writer, control: nat)
    requires Ordered(w.Pipeline()) && w.main.queue != [] && control < w.main.queue[0].sequence
    ensures w.main.queue[0].event.IsOrdered() ==> NoneOlderWaits(w, control)
    ensures NoneOlderWaits(w, control) <==> FirstIsNotBefore(w.main.queue + w.deferred, control)
  {
    UnreadIsOrdered(w);
    FirstOfOrdered(w.main.queue + w.deferred, control);
  }

  /** Finalized output is in order in every run of atomic steps. */
  lemma LoopBarrier(cfg: Config, steps: seq<Step>, control: nat)
    requires cfg.Valid() && Run(Init(cfg), steps).main.queue != []
    requires control < Run(Init(cfg), steps).main.queue[0].sequence
    ensures var w := Run(Init(cfg), steps);
            && (w.main.queue[0].event.IsOrdered() ==> NoneOlderWaits(w, control))
            && (NoneOlderWaits(w, control) <==> FirstIsNotBefore(w.main.queue + w.deferred, control))
  {
    ReachableInv(cfg, steps);
    LoopBarrierFrom(Run(Init(cfg), steps), control);
  }
}
