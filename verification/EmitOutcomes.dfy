/** Where an emit leaves its event and the pending reasoning (src/cli/output.rs, lines 1100-1110 and
    1229-1322), said by the contents of the lanes before and after it. */
module EmitOutcomes {
  import opened Utf8
  import opened OutputEvents
  import opened OutputProtocol
  import opened OutputSafety
  import opened OutputTheorems
  import opened OutputRace

  /** The snapshot that an emit sends ahead of its event, if reasoning is pending. */
  function Pending(w: Writer): Events {
    match w.mailbox
    case None => []
    case Some(mail) => [Sequenced(w.next, ReasoningChunk(mail.text))]
  }

  /** The main channel takes so many events more. */
  predicate HasRoom(w: Writer, n: nat) { w.main.open && |w.main.queue| + n <= w.cfg.capacity }

  /** The event as it is numbered: after the snapshot. */
  function Assigned(w: Writer, e: OutputEvent): Sequenced { Sequenced(w.next + |Pending(w)|, e) }

  /** What every emit of an event other than reasoning does to the numbering and the mailbox. */
  function Renumbered(w: Writer, e: OutputEvent): Writer {
    w.(next := w.next + |Pending(w)| + 1, mailbox := None, sequenced := w.sequenced + Pending(w) + [Assigned(w, e)])
  }

  function WithMain(w: Writer, queue: Events): Writer { w.(main := w.main.(queue := queue)) }

  /** The lanes when the event itself is routed: the snapshot is in, or lost. */
  function Settled(w: Writer, e: OutputEvent): Writer {
    var w1 := Renumbered(w, e);
    if HasRoom(w, |Pending(w)|) then WithMain(w1, w.main.queue + Pending(w))
    else w1.(lost := w.lost + Pending(w))
  }

  lemma SnapshotIs(w: Writer)
    ensures FlushSnapshot(w) ==
            var w1 := w.(next := w.next + |Pending(w)|, mailbox := None, sequenced := w.sequenced + Pending(w));
            if HasRoom(w, |Pending(w)|) then WithMain(w1, w.main.queue + Pending(w)) else w1.(lost := w.lost + Pending(w))
  {
    if w.mailbox.None? {
      assert w.sequenced + [] == w.sequenced && w.main.queue + [] == w.main.queue && w.lost + [] == w.lost;
    }
  }

  lemma SettledIs(w: Writer, e: OutputEvent)
    ensures Assign(FlushSnapshot(w), e) == Settled(w, e) && FlushSnapshot(w).next == w.next + |Pending(w)|
  {
    SnapshotIs(w);
  }

  lemma AfterSnapshot(w: Writer, e: OutputEvent)
    requires !e.ReasoningChunk?
    ensures Emit(w, e) == Route(Settled(w, e), Assigned(w, e))
  {
    SettledIs(w, e);
  }

  /** With room for the snapshot, those who wait and the event itself, an emit puts all of them into
      the main channel, in this order, and loses nothing. */
  lemma EmitWithRoom(w: Writer, e: OutputEvent)
    requires e.IsOrdered() && !e.IsApproval() && HasRoom(w, |Pending(w)| + |w.deferred| + 1)
    ensures Emit(w, e) ==
            WithMain(Renumbered(w, e), w.main.queue + Pending(w) + w.deferred + [Assigned(w, e)]).(deferred := [])
  {
    AfterSnapshot(w, e);
    assert w.main.queue + [] == w.main.queue;
    assert w.deferred[..|w.deferred|] == w.deferred && w.deferred[|w.deferred|..] == [];
  }

  /** A line in progress only needs room for itself and the snapshot, and leaves those who wait alone. */
  lemma EmitLossy(w: Writer, e: OutputEvent)
    requires e.IsLossy() && Bounded(w)
    ensures var w1 := Renumbered(w, e);
            Emit(w, e) ==
            if HasRoom(w, |Pending(w)| + 1) then WithMain(w1, w.main.queue + Pending(w) + [Assigned(w, e)])
            else if HasRoom(w, |Pending(w)|) then WithMain(w1, w.main.queue + Pending(w)).(lost := w.lost + [Assigned(w, e)])
            else w1.(lost := w.lost + Pending(w) + [Assigned(w, e)])
  {
    AfterSnapshot(w, e);
    assert w.main.queue + [] == w.main.queue && w.lost + [] == w.lost;
  }

  /** What the snapshot and those who wait leave of a main channel without room for all of them and
      one more: as many of them as fit are in it, in order. */
  function Crowded(w: Writer, e: OutputEvent): Writer
    requires Bounded(w) && w.main.open
  {
    var sent := if HasRoom(w, |Pending(w)|) then Pending(w) else [];
    var free := w.cfg.capacity - |w.main.queue| - |sent|;
    var n := if free < |w.deferred| then free else |w.deferred|;
    WithMain(Renumbered(w, e), w.main.queue + sent + w.deferred[..n])
      .(deferred := w.deferred[n..], lost := w.lost + if sent == [] then Pending(w) else [])
  }

  /** With the receiver gone, the snapshot and everybody who waits are lost. */
  function Abandoned(w: Writer, e: OutputEvent): Writer {
    Renumbered(w, e).(deferred := [], lost := w.lost + Pending(w) + w.deferred)
  }

  lemma FlushedIs(w: Writer, e: OutputEvent)
    requires Bounded(w) && !HasRoom(w, |Pending(w)| + |w.deferred| + 1)
    ensures var w2 := if w.main.open then Crowded(w, e) else Abandoned(w, e);
            FlushDeferred(Settled(w, e)) == w2 && !w2.CanSend()
  {
    assert w.main.queue + [] == w.main.queue && w.lost + [] == w.lost;
  }

  lemma RoutedFrom(w: Writer, e: OutputEvent)
    requires e.IsOrdered() && !e.IsApproval() && Bounded(w) && !HasRoom(w, |Pending(w)| + |w.deferred| + 1)
    ensures var w2 := if w.main.open then Crowded(w, e) else Abandoned(w, e);
            Emit(w, e) == Append(w2, Assigned(w, e)) && !w2.CanSend()
  {
    AfterSnapshot(w, e);
    FlushedIs(w, e);
    RouteAppends(Settled(w, e), Assigned(w, e));
  }

  lemma RouteAppends(w: Writer, ev: Sequenced)
    requires ev.event.IsOrdered() && !ev.event.IsApproval()
    ensures Route(w, ev) == Append(FlushDeferred(w), ev)
  {
  }

  /** A critical event that the main channel cannot take is on the priority lane, and lost only if
      that receiver is gone too. */
  lemma EmitCriticalCrowded(w: Writer, e: OutputEvent)
    requires e.IsCritical() && Bounded(w) && !HasRoom(w, |Pending(w)| + |w.deferred| + 1)
    ensures var ev, w2 := Assigned(w, e), if w.main.open then Crowded(w, e) else Abandoned(w, e);
            Emit(w, e) ==
            if w.priority.open then w2.(priority := w.priority.(queue := w.priority.queue + [ev]))
            else w2.(lost := w2.lost + [ev])
  {
    RoutedFrom(w, e);
  }

  /** Any other finalized event then waits behind those that still wait, at the cost of the fewest
      oldest of them, unless it can never fit. */
  lemma EmitDeferred(w: Writer, e: OutputEvent) returns (k: nat)
    requires e.IsDeferrable() && Bounded(w) && !HasRoom(w, |Pending(w)| + |w.deferred| + 1)
    ensures var ev, w2 := Assigned(w, e), if w.main.open then Crowded(w, e) else Abandoned(w, e);
            if e.EstimatedBytes() > w.cfg.maxBytes then Emit(w, e) == w2.(lost := w2.lost + [ev])
            else
              && k <= |w2.deferred|
              && Emit(w, e) == w2.(lost := w2.lost + w2.deferred[..k], deferred := w2.deferred[k..] + [ev])
              && Fits(w.cfg, w2.deferred[k..] + [ev])
              && forall i | 0 <= i < k :: !Fits(w.cfg, w2.deferred[i..] + [ev])
  {
    var ev, w2 := Assigned(w, e), if w.main.open then Crowded(w, e) else Abandoned(w, e);
    RoutedFrom(w, e);
    k := 0;
    if e.EstimatedBytes() <= w.cfg.maxBytes { k := DeferredAfter(w2, ev); }
  }

  lemma DeferredAfter(w: Writer, ev: Sequenced) returns (k: nat)
    requires ev.event.EstimatedBytes() <= w.cfg.maxBytes && w.cfg.Valid()
    ensures k <= |w.deferred| && Defer(w, ev) == w.(lost := w.lost + w.deferred[..k], deferred := w.deferred[k..] + [ev])
    ensures Fits(w.cfg, w.deferred[k..] + [ev]) && forall i | 0 <= i < k :: !Fits(w.cfg, w.deferred[i..] + [ev])
  {
    var all := w.deferred + [ev];
    k := Excess(w.cfg, all);
    assert all[|w.deferred|..] == [ev] && [ev][1..] == [];
    assert Fits(w.cfg, all[|w.deferred|..]);
    assert all[..k] == w.deferred[..k] && all[k..] == w.deferred[k..] + [ev];
    assert forall i | 0 <= i < k :: all[i..] == w.deferred[i..] + [ev];
  }

  /** An approval event takes its own lane past everybody; without a receiver there, a request is
      counted lost and an end vanishes. Whoever waits keeps waiting. */
  lemma EmitApproval(w: Writer, e: OutputEvent)
    requires e.IsApproval()
    ensures var ev, w2 := Assigned(w, e), Settled(w, e);
            Emit(w, e) ==
            if w.approvalAttached && w.approval.open then w2.(approval := w.approval.(queue := w.approval.queue + [ev]))
            else if e.ApprovalRequested? then w2.(lost := w2.lost + [ev])
            else w2.(vanished := w.vanished + [ev])
  {
    AfterSnapshot(w, e);
    assert w.main.queue + [] == w.main.queue && w.lost + [] == w.lost;
  }

  // ---- snapshots

  lemma OneOf(w: Writer, x: Sequenced)
    requires Inv(w)
    ensures x in w.main.All() ==> x !in w.lost
  {
    if x in w.main.All() && x in w.lost {
      assert x in w.Pipeline();
      var i := Placed(w, x);
    }
  }

  /** Nothing that a step does takes anything back out of the main channel or the losses. */
  lemma NextOnlyAdds(w: Writer, s: Step)
    ensures w.main.All() <= Next(w, s).main.All() && w.lost <= Next(w, s).lost
  {
    match s
    case EmitStep(e) => EmitOnlyAdds(w, e);
    case FlushStep =>
    case ReceiverStep(a) => ReceiverKeepsLanes(w, a);
  }

  lemma EmitOnlyAdds(w: Writer, e: OutputEvent)
    ensures w.main.delivered == Emit(w, e).main.delivered && w.main.queue <= Emit(w, e).main.queue
    ensures w.main.All() <= Emit(w, e).main.All() && w.lost <= Emit(w, e).lost
  {
    if !e.ReasoningChunk? {
      AfterSnapshot(w, e);
      RouteOnlyAdds(Settled(w, e), Assigned(w, e));
    }
    assert w.main.All() == w.main.delivered + w.main.queue;
  }

  lemma RouteOnlyAdds(w: Writer, ev: Sequenced)
    ensures w.main.queue <= Route(w, ev).main.queue && w.lost <= Route(w, ev).lost
    ensures w.main.delivered == Route(w, ev).main.delivered
  {
    if !ev.event.IsApproval() {
      var w' := if ev.event.IsLossy() then w else FlushDeferred(w);
      FlushOnlyAdds(w);
      AppendOnlyAdds(w', ev);
    }
  }

  lemma FlushOnlyAdds(w: Writer)
    ensures var w' := FlushDeferred(w);
            w.main.queue <= w'.main.queue && w.lost <= w'.lost && w.main.delivered == w'.main.delivered
  {
  }

  lemma AppendOnlyAdds(w: Writer, ev: Sequenced)
    ensures var w' := Append(w, ev);
            w.main.queue <= w'.main.queue && w.lost <= w'.lost && w.main.delivered == w'.main.delivered
  {
  }

  lemma {:induction false} RunOnlyAdds(w: Writer, steps: seq<Step>)
    ensures w.main.All() <= Run(w, steps).main.All() && w.lost <= Run(w, steps).lost
    decreases steps
  {
    if steps != [] {
      NextOnlyAdds(w, steps[0]);
      RunOnlyAdds(Next(w, steps[0]), steps[1..]);
    }
  }

  /** Reasoning that is pending is shown ahead of the next event exactly if the main channel has a
      slot for it, right behind what is in it, and is counted lost exactly if it has none. */
  lemma SnapshotIsShown(w: Writer, e: OutputEvent)
    requires Inv(w) && !e.ReasoningChunk? && w.mailbox.Some?
    ensures var snap, w' := Sequenced(w.next, ReasoningChunk(w.mailbox.value.text)), Emit(w, e);
            if w.main.open && |w.main.queue| < w.cfg.capacity
            then w.main.queue + [snap] <= w'.main.queue && snap !in w'.lost
            else w.lost + [snap] <= w'.lost && snap !in w'.main.queue
  {
    var snap := Sequenced(w.next, ReasoningChunk(w.mailbox.value.text));
    assert Pending(w) == [snap];
    SnapshotPlaced(w, e);
    NotLostAfter(w, e, snap);
  }

  lemma NotLostAfter(w: Writer, e: OutputEvent, x: Sequenced)
    requires Inv(w)
    ensures x in Emit(w, e).main.queue ==> x !in Emit(w, e).lost
  {
    EmitKeepsInv(w, e);
    OneOf(Emit(w, e), x);
  }

  lemma SnapshotPlaced(w: Writer, e: OutputEvent)
    requires !e.ReasoningChunk?
    ensures if HasRoom(w, |Pending(w)|) then w.main.queue + Pending(w) <= Emit(w, e).main.queue
            else w.lost + Pending(w) <= Emit(w, e).lost
  {
    AfterSnapshot(w, e);
    RouteOnlyAdds(Settled(w, e), Assigned(w, e));
  }

  lemma EmitSequences(w: Writer, e: OutputEvent)
    requires !e.ReasoningChunk?
    ensures Emit(w, e).sequenced == w.sequenced + Pending(w) + [Assigned(w, e)]
  {
    AfterSnapshot(w, e);
    RouteSequencesNothing(Settled(w, e), Assigned(w, e));
  }

  lemma RouteSequencesNothing(w: Writer, ev: Sequenced)
    ensures Route(w, ev).sequenced == w.sequenced
  {
  }

  /** The step takes this snapshot out of the mailbox. */
  ghost predicate TakesSnapshot(w: Writer, s: Step, x: Sequenced) {
    s.EmitStep? && !s.event.ReasoningChunk? && x in Pending(w)
  }

  lemma SnapshotStep(w: Writer, s: Step, x: Sequenced)
    requires Inv(w) && x.event.ReasoningChunk? && x !in w.sequenced && x in Next(w, s).sequenced
    ensures TakesSnapshot(w, s, x)
    ensures if HasRoom(w, 1) then x in Next(w, s).main.All() else x in Next(w, s).lost
  {
    match s
    case EmitStep(e) =>
      if !e.ReasoningChunk? {
        EmitSequences(w, e);
        assert x in Pending(w) && Pending(w) == [x];
        SnapshotPlaced(w, e);
        assert x in if HasRoom(w, 1) then w.main.queue + [x] else w.lost + [x];
      }
    case FlushStep =>
    case ReceiverStep(a) => ReceiverKeepsLanes(w, a);
  }

  /** In every run each snapshot was taken by one step, and it is lost exactly if the main channel
      was full or closed at that step; otherwise it was sent. */
  lemma SnapshotLostIff(cfg: Config, steps: seq<Step>, x: Sequenced) returns (k: nat)
    requires cfg.Valid() && x.event.ReasoningChunk? && x in Run(Init(cfg), steps).sequenced
    ensures k < |steps|
    ensures var at, w := Run(Init(cfg), steps[..k]), Run(Init(cfg), steps);
            && TakesSnapshot(at, steps[k], x)
            && (x in w.lost <==> !at.main.open || |at.main.queue| >= at.cfg.capacity)
            && (x in w.main.All() <==> at.main.open && |at.main.queue| < at.cfg.capacity)
  {
    var w := Init(cfg);
    InitInv(cfg);
    k := SnapshotFrom(w, steps, x);
  }

  lemma {:induction false} SnapshotFrom(w: Writer, steps: seq<Step>, x: Sequenced) returns (k: nat)
    requires Inv(w) && x.event.ReasoningChunk? && x !in w.sequenced && x in Run(w, steps).sequenced
    ensures k < |steps|
    ensures var at, w' := Run(w, steps[..k]), Run(w, steps);
            && TakesSnapshot(at, steps[k], x)
            && (x in w'.lost <==> !HasRoom(at, 1)) && (x in w'.main.All() <==> HasRoom(at, 1))
    decreases steps
  {
    var w1, rest := Next(w, steps[0]), steps[1..];
    NextKeepsInv(w, steps[0]);
    if x in w1.sequenced {
      k := 0;
      assert steps[..0] == [];
      SnapshotStep(w, steps[0], x);
      RunOnlyAdds(w1, rest);
      RunKeepsInv(w1, rest);
      OneOf(Run(w1, rest), x);
    } else {
      var j := SnapshotFrom(w1, rest, x);
      k := j + 1;
      assert steps[..k][1..] == rest[..j] && steps[..k][0] == steps[0];
    }
  }

  // ---- snapshots among the receivers' steps

  /** The operation that sends a snapshot: into a free slot, or counted lost. */
  lemma SendingSnapshotOutcome(s: State)
    requires s.pc.SendingSnapshot?
    ensures var snap, w, w' := s.pc.snap, s.w, AdvanceWriter(s).w;
            if w.main.open && |w.main.queue| < w.cfg.capacity
            then w' == w.(main := w.main.(queue := w.main.queue + [snap]))
            else w' == w.(lost := w.lost + [snap])
  {
  }

  /** The step sends this snapshot. */
  ghost predicate SendsSnapshot(s: State, m: Micro, x: Sequenced) {
    m.Advance? && s.pc.SendingSnapshot? && s.pc.snap == x
  }

  lemma MicroOnlySnapshots(s: State, m: Micro, x: Sequenced)
    requires MicroSafe(s) && x.event.ReasoningChunk? && x !in s.w.lost && x !in s.w.main.All()
    requires x in MicroNext(s, m).w.lost || x in MicroNext(s, m).w.main.All()
    ensures SendsSnapshot(s, m, x)
    ensures if HasRoom(s.w, 1) then x in MicroNext(s, m).w.main.All() else x in MicroNext(s, m).w.lost
  {
    match m
    case Env(a) => ReceiverKeepsLanes(s.w, a);
    case Advance => AdvanceOnlySnapshots(s, x);
    case _ =>
  }

  lemma AdvanceOnlySnapshots(s: State, x: Sequenced)
    requires MicroSafe(s) && x.event.ReasoningChunk? && x !in s.w.lost && x !in s.w.main.All()
    requires x in AdvanceWriter(s).w.lost || x in AdvanceWriter(s).w.main.All()
    ensures s.pc.SendingSnapshot? && s.pc.snap == x
    ensures if HasRoom(s.w, 1) then x in AdvanceWriter(s).w.main.All() else x in AdvanceWriter(s).w.lost
  {
    assert forall d | d in s.w.deferred :: d.event.IsDeferrable();
    match s.pc {
      case SendingSnapshot(snap, _) => assert s.w.main.Put(snap).All() == s.w.main.All() + [snap];
      case Appending(ev) => AppendAddsNoSnapshot(s.w, ev, x);
      case Flushing(_) => if FlushOne(s.w).Some? { FlushAddsNoSnapshot(s.w, x); }
      case FlushingOnly => if FlushOne(s.w).Some? { FlushAddsNoSnapshot(s.w, x); }
      case _ =>
    }
  }

  lemma FlushAddsNoSnapshot(w: Writer, x: Sequenced)
    requires FlushOne(w).Some? && x !in w.deferred && x !in w.lost && x !in w.main.All()
    ensures x !in FlushOne(w).value.lost && x !in FlushOne(w).value.main.All()
  {
    if w.main.open && |w.main.queue| < w.cfg.capacity {
      assert w.main.Put(w.deferred[0]).All() == w.main.All() + [w.deferred[0]];
    }
  }

  lemma AppendAddsNoSnapshot(w: Writer, ev: Sequenced, x: Sequenced)
    requires x != ev && x !in w.deferred && x !in w.lost && x !in w.main.All()
    ensures x !in Append(w, ev).lost && x !in Append(w, ev).main.All()
  {
    assert w.main.Put(ev).All() == w.main.All() + [ev];
    DeferAddsNoSnapshot(w, ev, x);
  }

  lemma DeferAddsNoSnapshot(w: Writer, ev: Sequenced, x: Sequenced)
    requires x != ev && x !in w.deferred && x !in w.lost
    ensures x !in Defer(w, ev).lost && Defer(w, ev).main == w.main
  {
    assert forall d | d in (w.deferred + [ev])[..Excess(w.cfg, w.deferred + [ev])] :: d in w.deferred || d == ev;
  }

  lemma MicroNextOnlyAdds(s: State, m: Micro)
    ensures s.w.main.All() <= MicroNext(s, m).w.main.All() && s.w.lost <= MicroNext(s, m).w.lost
  {
    match m
    case Env(a) => ReceiverKeepsLanes(s.w, a);
    case Advance => AdvanceOnlyAdds(s);
    case _ =>
  }

  lemma AdvanceOnlyAdds(s: State)
    ensures s.w.main.All() <= AdvanceWriter(s).w.main.All() && s.w.lost <= AdvanceWriter(s).w.lost
  {
    match s.pc
    case Appending(ev) => AppendOnlyAdds(s.w, ev);
    case _ =>
  }

  lemma {:induction false} MicroRunOnlyAdds(s: State, ms: seq<Micro>)
    ensures s.w.main.All() <= MicroRun(s, ms).w.main.All() && s.w.lost <= MicroRun(s, ms).w.lost
    decreases ms
  {
    if ms != [] {
      MicroNextOnlyAdds(s, ms[0]);
      MicroRunOnlyAdds(MicroNext(s, ms[0]), ms[1..]);
    }
  }

  /** In every interleaving a snapshot that is lost, or sent, was so by the operation that sends it,
      and is lost exactly if the main channel was full or closed at that very operation. */
  lemma InterleavedSnapshotLostIff(cfg: Config, ms: seq<Micro>, x: Sequenced) returns (k: nat)
    requires cfg.Valid() && x.event.ReasoningChunk?
    requires var w := MicroRun(Start(cfg), ms).w; x in w.lost || x in w.main.All()
    ensures k < |ms|
    ensures var at, w := MicroRun(Start(cfg), ms[..k]), MicroRun(Start(cfg), ms).w;
            && SendsSnapshot(at, ms[k], x)
            && (x in w.lost <==> !at.w.main.open || |at.w.main.queue| >= at.w.cfg.capacity)
            && (x in w.main.All() <==> at.w.main.open && |at.w.main.queue| < at.w.cfg.capacity)
  {
    StartSafe(cfg);
    k := InterleavedSnapshotFrom(Start(cfg), ms, x);
  }

  lemma {:induction false} InterleavedSnapshotFrom(s: State, ms: seq<Micro>, x: Sequenced) returns (k: nat)
    requires MicroSafe(s) && x.event.ReasoningChunk? && x !in s.w.lost && x !in s.w.main.All()
    requires var w := MicroRun(s, ms).w; x in w.lost || x in w.main.All()
    ensures k < |ms|
    ensures var at, w := MicroRun(s, ms[..k]), MicroRun(s, ms).w;
            && SendsSnapshot(at, ms[k], x)
            && (x in w.lost <==> !HasRoom(at.w, 1)) && (x in w.main.All() <==> HasRoom(at.w, 1))
    decreases ms
  {
    var s1, rest := MicroNext(s, ms[0]), ms[1..];
    MicroNextSafe(s, ms[0]);
    if x in s1.w.lost || x in s1.w.main.All() {
      k := 0;
      assert ms[..0] == [];
      MicroOnlySnapshots(s, ms[0], x);
      MicroRunOnlyAdds(s1, rest);
      MicroRunSafe(s1, rest);
      NotBoth(MicroRun(s1, rest), x);
    } else {
      var j := InterleavedSnapshotFrom(s1, rest, x);
      k := j + 1;
      assert ms[..k][1..] == rest[..j] && ms[..k][0] == ms[0];
    }
  }

  lemma NotBoth(s: State, x: Sequenced)
    requires MicroSafe(s)
    ensures x in s.w.main.All() ==> x !in s.w.lost
  {
    SortedCount(s.w.sequenced, x);
    assert multiset(s.w.sequenced)[x] == Places(s.w, x) + multiset(Hand(s.pc))[x];
  }
}
