/** `emit` split into its channel operations. The writer's mutex serialises the writers, but the
    receivers do not take it, so they may step between any two channel operations. */
module OutputRace {
  import opened Utf8
  import opened OutputEvents
  import opened OutputProtocol
  import opened OutputSafety

  /** Where the writer holding the mutex is, and what it holds. */
  datatype Pc =
    | Idle
    | SendingSnapshot(snap: Sequenced, event: OutputEvent)
    | Routing(event: OutputEvent)
    | Flushing(ev: Sequenced)
    | FlushingOnly
    | Appending(ev: Sequenced)

  datatype State = State(w: Writer, pc: Pc)

  datatype Micro =
    | Begin(event: OutputEvent)   // a producer calls emit and gets the mutex
    | BeginFlush                  // the drain loop calls flush_deferred_finalized_events
    | Advance                     // the mutex holder performs its next operation
    | Env(action: ReceiverAction) // a receiver steps, mutex or not

  /** One iteration of the flush loop; `None` when the loop stops. */
  function FlushOne(w: Writer): Option<Writer> {
    if w.deferred == [] then None
    else if !w.main.open then Some(w.(deferred := [], lost := w.lost + w.deferred))
    else if |w.main.queue| >= w.cfg.capacity then None
    else Some(w.(main := w.main.Put(w.deferred[0]), deferred := w.deferred[1..]))
  }

  function AdvanceWriter(s: State): State {
    match s.pc
    case Idle => s
    case SendingSnapshot(snap, e) => State(SendOrLose(s.w, snap), Routing(e))
    case Routing(e) =>
      var w := Assign(s.w, e);
      var ev := Sequenced(s.w.next, e);
      if e.IsApproval() then State(SendApproval(w, ev), Idle)
      else State(w, if e.IsLossy() then Appending(ev) else Flushing(ev))
    case Flushing(ev) =>
      (match FlushOne(s.w) case Some(w) => State(w, s.pc) case None => State(s.w, Appending(ev)))
    case FlushingOnly =>
      (match FlushOne(s.w) case Some(w) => State(w, s.pc) case None => State(s.w, Idle))
    case Appending(ev) => State(Append(s.w, ev), Idle)
  }

  function BeginEmit(w: Writer, e: OutputEvent): State {
    if e.ReasoningChunk? then State(PostChunk(w, e.chunk), Idle)
    else if w.mailbox.None? then State(w, Routing(e))
    else State(TakeSnapshot(w), SendingSnapshot(Sequenced(w.next, ReasoningChunk(w.mailbox.value.text)), e))
  }

  function MicroNext(s: State, m: Micro): State {
    match m
    case Begin(e) => if s.pc.Idle? then BeginEmit(s.w, e) else s
    case BeginFlush => if s.pc.Idle? then s.(pc := FlushingOnly) else s
    case Advance => AdvanceWriter(s)
    case Env(a) => State(Receiver(s.w, a), s.pc)
  }

  function MicroRun(s: State, ms: seq<Micro>): State
    decreases ms
  {
    if ms == [] then s else MicroRun(MicroNext(s, ms[0]), ms[1..])
  }

  function Start(cfg: Config): State { State(Init(cfg), Idle) }

  // ---- bounds and conservation at this granularity

  ghost predicate EmptyHanded(w: Writer) {
    Safe(w, []) && LanesBelow(w, w.next)
  }

  /** The writer holds one event, and everything already placed is older. */
  ghost predicate Holds(w: Writer, ev: Sequenced) {
    Safe(w, [ev]) && LanesBelow(w, ev.sequence) && ev.sequence < w.next
  }

  /** What holds of a state whatever the receivers do in between. */
  ghost predicate MicroSafe(s: State) {
    match s.pc
    case Idle => EmptyHanded(s.w)
    case SendingSnapshot(snap, e) => Holds(s.w, snap) && snap.event.ReasoningChunk? && !e.ReasoningChunk?
    case Routing(e) => EmptyHanded(s.w) && !e.ReasoningChunk?
    case Flushing(ev) => Holds(s.w, ev) && ev.event.IsOrdered() && !ev.event.IsApproval()
    case FlushingOnly => EmptyHanded(s.w)
    case Appending(ev) => Holds(s.w, ev) && !ev.event.ReasoningChunk? && !ev.event.IsApproval()
  }

  lemma FlushOnePipeline(w: Writer)
    requires FlushOne(w).Some?
    ensures FlushOne(w).value.Pipeline() == if w.main.open then w.Pipeline() else w.main.All()
  {
    if w.main.open {
      assert w.deferred == [w.deferred[0]] + w.deferred[1..];
      assert FlushOne(w).value.main.All() == w.main.All() + [w.deferred[0]];
    }
  }

  lemma FlushOneSafe(w: Writer, hand: Events)
    requires Safe(w, hand) && FlushOne(w).Some?
    ensures Safe(FlushOne(w).value, hand)
  {
    FlushOnePipeline(w);
    if w.main.open { FitsSuffix(w.cfg, w.deferred, 1); }
  }

  lemma FlushOneOrder(w: Writer, n: nat)
    requires FlushOne(w).Some?
    ensures Ordered(w.Pipeline()) ==> Ordered(FlushOne(w).value.Pipeline())
    ensures LanesBelow(w, n) ==> LanesBelow(FlushOne(w).value, n)
  {
    FlushOnePipeline(w);
    if w.main.open {
      assert FlushOne(w).value.main.All() == w.main.All() + [w.deferred[0]];
    } else if Ordered(w.Pipeline()) {
      assert w.Pipeline() == w.main.All() + w.deferred + [] && w.main.All() + [] == w.main.All();
      OrderedCut(w.main.All(), w.deferred, []);
    }
  }

  /** The bounds need no order, so the newest event's place does not matter to them. */
  lemma DeferBelow(w: Writer, ev: Sequenced, n: nat)
    requires LanesBelow(w, ev.sequence) && ev.sequence < n
    ensures LanesBelow(Defer(w, ev), n)
  {
    var all := w.deferred + [ev];
    assert forall x | x in all :: x in w.deferred || x == ev;
    assert forall x | x in Defer(w, ev).deferred :: x in all;
  }

  lemma AppendBelow(w: Writer, ev: Sequenced, n: nat)
    requires LanesBelow(w, ev.sequence) && ev.sequence < n
    ensures LanesBelow(Append(w, ev), n)
  {
    if w.CanSend() {
      assert w.main.Put(ev).All() == w.main.All() + [ev];
    } else if !ev.event.IsLossy() && !ev.event.IsCritical() {
      DeferBelow(w, ev, n);
    } else {
      assert w.priority.Put(ev).All() == w.priority.All() + [ev];
    }
  }

  lemma SendOrLoseSafe(w: Writer, snap: Sequenced)
    requires Holds(w, snap) && snap.event.ReasoningChunk?
    ensures EmptyHanded(SendOrLose(w, snap))
  {
    if w.CanSend() {
      SendSafe(w, snap);
      assert w.Send(snap).main.All() == w.main.All() + [snap];
    } else {
      LoseSafe(w, snap);
    }
  }

  lemma SendApprovalSafe(w: Writer, ev: Sequenced)
    requires Holds(w, ev) && ev.event.IsApproval()
    ensures EmptyHanded(SendApproval(w, ev))
  {
    ApprovalSafe(w, ev);
    assert w.approval.Put(ev).All() == w.approval.All() + [ev];
  }

  lemma AssignHolds(w: Writer, e: OutputEvent)
    requires EmptyHanded(w)
    ensures Holds(Assign(w, e), Sequenced(w.next, e))
  {
    AssignSafe(w, e);
  }

  lemma FlushOneKeeps(w: Writer, hand: Events, n: nat)
    requires Safe(w, hand) && LanesBelow(w, n) && FlushOne(w).Some?
    ensures Safe(FlushOne(w).value, hand) && LanesBelow(FlushOne(w).value, n) && FlushOne(w).value.next == w.next
  {
    FlushOneSafe(w, hand);
    FlushOneOrder(w, n);
  }

  lemma AppendHolds(w: Writer, ev: Sequenced)
    requires Holds(w, ev) && !ev.event.ReasoningChunk? && !ev.event.IsApproval()
    ensures EmptyHanded(Append(w, ev))
  {
    AppendSafe(w, ev);
    AppendBelow(w, ev, w.next);
  }

  lemma RoutingSafe(w: Writer, e: OutputEvent)
    requires EmptyHanded(w) && !e.ReasoningChunk?
    ensures MicroSafe(AdvanceWriter(State(w, Routing(e))))
  {
    AssignHolds(w, e);
    if e.IsApproval() { SendApprovalSafe(Assign(w, e), Sequenced(w.next, e)); }
  }

  lemma AdvanceSafe(s: State)
    requires MicroSafe(s)
    ensures MicroSafe(AdvanceWriter(s))
  {
    var w := s.w;
    match s.pc {
      case Idle =>
      case SendingSnapshot(snap, e) => SendOrLoseSafe(w, snap);
      case Routing(e) => RoutingSafe(w, e);
      case Flushing(ev) => if FlushOne(w).Some? { FlushOneKeeps(w, [ev], ev.sequence); }
      case FlushingOnly => if FlushOne(w).Some? { FlushOneKeeps(w, [], w.next); }
      case Appending(ev) => AppendHolds(w, ev);
    }
  }

  lemma TakeSnapshotHolds(w: Writer)
    requires EmptyHanded(w) && w.mailbox.Some?
    ensures Holds(TakeSnapshot(w), Sequenced(w.next, ReasoningChunk(w.mailbox.value.text)))
  {
    TakeSnapshotSafe(w);
  }

  lemma PostChunkSafe(w: Writer, chunk: string)
    requires EmptyHanded(w)
    ensures EmptyHanded(PostChunk(w, chunk))
  {
    var w' := PostChunk(w, chunk);
    assert Bounded(w') && Numbered(w') && Kinds(w') && LanesSorted(w');
    assert forall x :: Places(w', x) == Places(w, x);
  }

  lemma BeginSafe(w: Writer, e: OutputEvent)
    requires EmptyHanded(w)
    ensures MicroSafe(BeginEmit(w, e))
  {
    if e.ReasoningChunk? {
      PostChunkSafe(w, e.chunk);
    } else if w.mailbox.Some? {
      TakeSnapshotHolds(w);
    }
  }

  lemma EnvSafe(s: State, a: ReceiverAction)
    requires MicroSafe(s)
    ensures MicroSafe(State(Receiver(s.w, a), s.pc))
  {
    match s.pc
    case SendingSnapshot(snap, _) => ReceiverSafe(s.w, [snap], a);
    case Flushing(ev) => ReceiverSafe(s.w, [ev], a);
    case Appending(ev) => ReceiverSafe(s.w, [ev], a);
    case _ => ReceiverSafe(s.w, [], a);
  }

  lemma MicroNextSafe(s: State, m: Micro)
    requires MicroSafe(s)
    ensures MicroSafe(MicroNext(s, m))
  {
    match m
    case Begin(e) => if s.pc.Idle? { BeginSafe(s.w, e); }
    case BeginFlush =>
    case Advance => AdvanceSafe(s);
    case Env(a) => EnvSafe(s, a);
  }

  /** In every interleaving the queues stay within their bounds and every event is in exactly one
      place, the writer's hand included. */
  lemma {:induction false} MicroRunSafe(s: State, ms: seq<Micro>)
    requires MicroSafe(s)
    ensures MicroSafe(MicroRun(s, ms))
    decreases ms
  {
    if ms != [] {
      MicroNextSafe(s, ms[0]);
      MicroRunSafe(MicroNext(s, ms[0]), ms[1..]);
    }
  }

  lemma StartSafe(cfg: Config)
    requires cfg.Valid()
    ensures MicroSafe(Start(cfg))
  {
    InitInv(cfg);
  }

  /** What the writer is holding between two channel operations. */
  function Hand(pc: Pc): Events {
    match pc
    case SendingSnapshot(snap, _) => [snap]
    case Flushing(ev) => [ev]
    case Appending(ev) => [ev]
    case _ => []
  }

  lemma InterleavedConservation(cfg: Config, ms: seq<Micro>)
    requires cfg.Valid()
    ensures var s := MicroRun(Start(cfg), ms);
            Bounded(s.w) && Conserved(s.w, Hand(s.pc)) && Sorted(s.w.sequenced)
  {
    StartSafe(cfg);
    MicroRunSafe(Start(cfg), ms);
  }

  /** Whatever the receivers do in between: while the priority receiver exists, every critical event
      ever numbered is in or through the main channel, on the priority lane, or in the writer's hand. */
  lemma CriticalNeverLost(cfg: Config, ms: seq<Micro>, x: Sequenced)
    requires cfg.Valid()
    requires var w := MicroRun(Start(cfg), ms).w; x in w.sequenced && x.event.IsCritical() && w.priority.open
    ensures var s := MicroRun(Start(cfg), ms); x in s.w.main.All() || x in s.w.priority.All() || x in Hand(s.pc)
  {
    StartSafe(cfg);
    MicroRunSafe(Start(cfg), ms);
    CriticalIsPlaced(MicroRun(Start(cfg), ms), x);
  }

  lemma CriticalIsPlaced(s: State, x: Sequenced)
    requires MicroSafe(s) && x in s.w.sequenced && x.event.IsCritical() && s.w.priority.open
    ensures x in s.w.main.All() || x in s.w.priority.All() || x in Hand(s.pc)
  {
    var w := s.w;
    assert multiset(w.sequenced)[x] == Places(w, x) + multiset(Hand(s.pc))[x];
    assert x in w.Pipeline() || x in w.priority.All() || x in w.approval.All() || x in w.lost || x in w.vanished || x in Hand(s.pc);
  }

  // ---- order, and how it breaks

  /** A slot is freed after the flush loop gave up on a full channel and before the append. */
  predicate InWindow(s: State, m: Micro) {
    && m == Env(ReceiveMain)
    && s.pc.Appending? && s.pc.ev.event.IsOrdered()
    && s.w.deferred != [] && s.w.main.queue != []
  }

  predicate NeverInWindow(s: State, ms: seq<Micro>)
    decreases ms
  {
    ms == [] || (!InWindow(s, ms[0]) && NeverInWindow(MicroNext(s, ms[0]), ms[1..]))
  }

  /** The append cannot take a slot from a waiter. */
  ghost predicate AppendIsFair(s: State) {
    s.pc.Appending? && s.pc.ev.event.IsOrdered() && s.w.deferred != [] ==> !s.w.CanSend()
  }

  /** One append keeps the transcript in order exactly when it does not take a slot while somebody
      waits. The branch that inverts is the one a receive in the window opens. */
  lemma AppendOrderedIff(s: State)
    requires MicroSafe(s) && s.pc.Appending? && Ordered(s.w.Pipeline())
    requires s.pc.ev.event.IsOrdered()
    ensures Ordered(AdvanceWriter(s).w.Pipeline()) <==> AppendIsFair(s)
  {
    var ev := s.pc.ev;
    if AppendIsFair(s) {
      AppendKeepsOrder(s.w, ev, s.w.next);
    } else {
      var p := s.w.Send(ev).Pipeline();
      var n := |s.w.main.All()|;
      assert s.w.Send(ev).main.All() == s.w.main.All() + [ev];
      assert p[n] == ev && p[n + 1] == s.w.deferred[0];
      assert s.w.deferred[0] in s.w.deferred;
    }
  }

  lemma SendOrLoseOrder(w: Writer, snap: Sequenced)
    requires Holds(w, snap) && snap.event.ReasoningChunk? && Ordered(w.Pipeline())
    ensures Ordered(SendOrLose(w, snap).Pipeline())
  {
    if w.CanSend() { SendKeepsOrder(w, snap, w.next); }
  }

  lemma AdvanceOrder(s: State)
    requires MicroSafe(s) && Ordered(s.w.Pipeline()) && AppendIsFair(s)
    ensures Ordered(AdvanceWriter(s).w.Pipeline()) && AppendIsFair(AdvanceWriter(s))
  {
    match s.pc
    case Idle =>
    case SendingSnapshot(snap, e) => SendOrLoseOrder(s.w, snap);
    case Routing(e) =>
    case Flushing(ev) => if FlushOne(s.w).Some? { FlushOneOrder(s.w, 0); }
    case FlushingOnly => if FlushOne(s.w).Some? { FlushOneOrder(s.w, 0); }
    case Appending(ev) => AppendKeepsOrder(s.w, ev, s.w.next);
  }

  lemma MicroNextOrder(s: State, m: Micro)
    requires MicroSafe(s) && Ordered(s.w.Pipeline()) && AppendIsFair(s) && !InWindow(s, m)
    ensures Ordered(MicroNext(s, m).w.Pipeline()) && AppendIsFair(MicroNext(s, m))
  {
    match m
    case Begin(e) =>
    case BeginFlush =>
    case Advance => AdvanceOrder(s);
    case Env(a) => ReceiverKeepsLanes(s.w, a);
  }

  lemma {:induction false} OrderedOutsideWindow(s: State, ms: seq<Micro>)
    requires MicroSafe(s) && Ordered(s.w.Pipeline()) && AppendIsFair(s) && NeverInWindow(s, ms)
    ensures Ordered(MicroRun(s, ms).w.Pipeline())
    decreases ms
  {
    if ms != [] {
      MicroNextSafe(s, ms[0]);
      MicroNextOrder(s, ms[0]);
      OrderedOutsideWindow(MicroNext(s, ms[0]), ms[1..]);
    }
  }

  /** In every interleaving, finalized output out of order implies a receive in exactly that window. */
  lemma InversionImpliesWindowReceive(cfg: Config, ms: seq<Micro>)
    requires cfg.Valid()
    requires !Ordered(MicroRun(Start(cfg), ms).w.Pipeline())
    ensures !NeverInWindow(Start(cfg), ms)
  {
    if NeverInWindow(Start(cfg), ms) { OrderedOutsideWindow(Start(cfg), ms); }
  }

  /** One step takes the transcript out of order exactly if it is an unfair append. */
  lemma StepOrderedIff(s: State, m: Micro)
    requires MicroSafe(s) && Ordered(s.w.Pipeline())
    ensures Ordered(MicroNext(s, m).w.Pipeline()) <==> (m.Advance? ==> AppendIsFair(s))
  {
    match m
    case Begin(e) =>
    case BeginFlush =>
    case Advance =>
      if s.pc.Appending? && s.pc.ev.event.IsOrdered() { AppendOrderedIff(s); } else { AdvanceOrder(s); }
    case Env(a) => ReceiverKeepsLanes(s.w, a);
  }

  ghost predicate OrderedThroughout(s: State, ms: seq<Micro>)
    decreases ms
  {
    Ordered(s.w.Pipeline()) && (ms == [] || OrderedThroughout(MicroNext(s, ms[0]), ms[1..]))
  }

  ghost predicate EveryAppendFair(s: State, ms: seq<Micro>)
    decreases ms
  {
    ms == [] || ((ms[0].Advance? ==> AppendIsFair(s)) && EveryAppendFair(MicroNext(s, ms[0]), ms[1..]))
  }

  lemma {:induction false} OrderedFromIff(s: State, ms: seq<Micro>)
    requires MicroSafe(s) && Ordered(s.w.Pipeline())
    ensures OrderedThroughout(s, ms) <==> EveryAppendFair(s, ms)
    decreases ms
  {
    if ms != [] {
      MicroNextSafe(s, ms[0]);
      StepOrderedIff(s, ms[0]);
      if ms[0].Advance? ==> AppendIsFair(s) { OrderedFromIff(MicroNext(s, ms[0]), ms[1..]); }
    }
  }

  /** An interleaving keeps finalized output in order throughout if and only if no append in it
      takes a slot from a waiter. */
  lemma OrderedThroughoutIff(cfg: Config, ms: seq<Micro>)
    requires cfg.Valid()
    ensures OrderedThroughout(Start(cfg), ms) <==> EveryAppendFair(Start(cfg), ms)
  {
    StartSafe(cfg);
    OrderedFromIff(Start(cfg), ms);
  }

  const TINY := Config(1, 4, 100)
  const A := Line("a")
  const B := Line("b")
  const C := Line("c")

  /** TINY's state after so many emits, with the given pipeline. */
  function TinyState(sequenced: Events, delivered: Events, queue: Events, deferred: Events, pc: Pc): State {
    State(Init(TINY).(next := |sequenced| + 1, sequenced := sequenced,
                      main := Lane(queue, true, delivered), deferred := deferred), pc)
  }

  lemma FirstFillsChannel()
    ensures MicroRun(Start(TINY), [Begin(A), Advance, Advance, Advance]) ==
            TinyState([Sequenced(1, A)], [], [Sequenced(1, A)], [], Idle)
  {
    var a := Sequenced(1, A);
    RunFour(Start(TINY), Begin(A), Advance, Advance, Advance);
    assert [] + [a] == [a];
  }

  lemma SecondWaits()
    ensures MicroRun(TinyState([Sequenced(1, A)], [], [Sequenced(1, A)], [], Idle),
                     [Begin(B), Advance, Advance, Advance]) ==
            TinyState([Sequenced(1, A), Sequenced(2, B)], [], [Sequenced(1, A)], [Sequenced(2, B)], Idle)
  {
    var a, b := Sequenced(1, A), Sequenced(2, B);
    var s := TinyState([a], [], [a], [], Idle);
    RunFour(s, Begin(B), Advance, Advance, Advance);
    assert [a] + [b] == [a, b];
    var s' := TinyState([a, b], [], [a], [], Appending(b));
    assert MicroNext(MicroNext(MicroNext(s, Begin(B)), Advance), Advance) == s';
    assert b.event.EstimatedBytes() == ByteLen("b") <= 4;
  }

  lemma ThirdOvertakes()
    ensures MicroRun(TinyState([Sequenced(1, A), Sequenced(2, B)], [], [Sequenced(1, A)], [Sequenced(2, B)], Idle),
                     [Begin(C), Advance, Advance, Env(ReceiveMain)] + [Advance]) ==
            TinyState([Sequenced(1, A), Sequenced(2, B), Sequenced(3, C)],
                      [Sequenced(1, A)], [Sequenced(3, C)], [Sequenced(2, B)], Idle)
  {
    var a, b, c := Sequenced(1, A), Sequenced(2, B), Sequenced(3, C);
    var s := TinyState([a, b], [], [a], [b], Idle);
    RunAppend(s, [Begin(C), Advance, Advance, Env(ReceiveMain)], [Advance]);
    RunFour(s, Begin(C), Advance, Advance, Env(ReceiveMain));
    assert [a, b] + [c] == [a, b, c] && [a][1..] == [] && [] + [a] == [a];
    RunOne(TinyState([a, b, c], [a], [], [b], Appending(c)), Advance);
    assert [] + [c] == [c];
  }

  /** Such a receive does invert: "a" fills the channel, "b" waits, and while "c" is about to be
      appended the receiver takes "a"; "c" gets the slot and overtakes "b". The delivery contract
      promises otherwise (lines 873-875). */
  lemma WindowReceiveInverts()
    ensures var s := MicroRun(Start(TINY),
                              [Begin(A), Advance, Advance, Advance] + ([Begin(B), Advance, Advance, Advance] +
                              ([Begin(C), Advance, Advance, Env(ReceiveMain)] + [Advance])));
            && s.pc.Idle? && s.w.main.delivered + s.w.main.queue + s.w.deferred == [Sequenced(1, A), Sequenced(3, C), Sequenced(2, B)]
            && !Ordered(s.w.Pipeline())
  {
    var a, b, c := Sequenced(1, A), Sequenced(2, B), Sequenced(3, C);
    var r3 := [Begin(C), Advance, Advance, Env(ReceiveMain)] + [Advance];
    var r2 := [Begin(B), Advance, Advance, Advance] + r3;
    RunAppend(Start(TINY), [Begin(A), Advance, Advance, Advance], r2);
    FirstFillsChannel();
    RunAppend(TinyState([a], [], [a], [], Idle), [Begin(B), Advance, Advance, Advance], r3);
    SecondWaits();
    ThirdOvertakes();
    var p := TinyState([a, b, c], [a], [c], [b], Idle).w.Pipeline();
    assert p == [a, c, b];
    assert p[1].sequence > p[2].sequence;
  }

  lemma RunOne(s: State, m: Micro)
    ensures MicroRun(s, [m]) == MicroNext(s, m)
  {
    assert [m][1..] == [];
  }

  lemma RunFour(s: State, a: Micro, b: Micro, c: Micro, d: Micro)
    ensures MicroRun(s, [a, b, c, d]) == MicroNext(MicroNext(MicroNext(MicroNext(s, a), b), c), d)
  {
    assert [a, b, c, d][1..] == [b, c, d] && [b, c, d][1..] == [c, d] && [c, d][1..] == [d];
    RunOne(MicroNext(MicroNext(MicroNext(s, a), b), c), d);
    assert MicroRun(MicroNext(MicroNext(s, a), b), [c, d]) == MicroRun(MicroNext(MicroNext(MicroNext(s, a), b), c), [d]);
    assert MicroRun(MicroNext(s, a), [b, c, d]) == MicroRun(MicroNext(MicroNext(s, a), b), [c, d]);
  }

  // ---- without interference the phases add up to the atomic step

  function Advances(n: nat): seq<Micro> { seq(n, _ => Advance) }

  lemma {:induction false} RunAppend(s: State, a: seq<Micro>, b: seq<Micro>)
    ensures MicroRun(s, a + b) == MicroRun(MicroRun(s, a), b)
    decreases a
  {
    if a == [] {
      assert a + b == b;
    } else {
      assert (a + b)[1..] == a[1..] + b;
      RunAppend(MicroNext(s, a[0]), a[1..], b);
    }
  }

  lemma AdvanceMore(s: State, n: nat)
    ensures MicroRun(s, Advances(n + 1)) == MicroRun(AdvanceWriter(s), Advances(n))
  {
    assert Advances(n + 1)[1..] == Advances(n);
  }

  lemma NothingToFlush(w: Writer)
    requires Bounded(w) && FlushOne(w).None?
    ensures FlushDeferred(w) == w
  {
    assert w.main.open && |w.main.queue| >= w.cfg.capacity ==>
        w.deferred[..0] == [] && w.deferred[0..] == w.deferred && w.main.queue + [] == w.main.queue;
  }

  /** The flush loop, left alone, does what the atomic flush does. */
  lemma {:induction false} FlushLoopIsFlush(s: State) returns (n: nat)
    requires s.pc.Flushing? || s.pc.FlushingOnly?
    requires Bounded(s.w)
    ensures MicroRun(s, Advances(n)) ==
            State(FlushDeferred(s.w), if s.pc.Flushing? then Appending(s.pc.ev) else Idle)
    decreases |s.w.deferred|
  {
    var f := FlushOne(s.w);
    if f.None? {
      n := 1;
      AdvanceMore(s, 0);
      NothingToFlush(s.w);
    } else {
      var s' := State(f.value, s.pc);
      if s.w.main.open { FitsSuffix(s.w.cfg, s.w.deferred, 1); }
      var n' := FlushLoopIsFlush(s');
      n := n' + 1;
      AdvanceMore(s, n');
    }
  }

  lemma RoutingIsRoute(w: Writer, e: OutputEvent) returns (n: nat)
    requires Bounded(w) && !e.ReasoningChunk?
    ensures MicroRun(State(w, Routing(e)), Advances(n)) ==
            State(Route(Assign(w, e), Sequenced(w.next, e)), Idle)
  {
    var s := State(w, Routing(e));
    var ev := Sequenced(w.next, e);
    var w1 := Assign(w, e);
    if e.IsApproval() {
      n := 1;
      AdvanceMore(s, 0);
    } else if e.IsLossy() {
      n := 2;
      AdvanceMore(s, 1);
      AdvanceMore(State(w1, Appending(ev)), 0);
    } else {
      var k := FlushLoopIsFlush(State(w1, Flushing(ev)));
      n := k + 2;
      AdvanceMore(s, k + 1);
      assert Advances(k + 1) == Advances(k) + Advances(1);
      RunAppend(State(w1, Flushing(ev)), Advances(k), Advances(1));
      AdvanceMore(State(FlushDeferred(w1), Appending(ev)), 0);
    }
  }

  /** An emit that no receiver interrupts is the atomic emit. */
  lemma EmitRefinesAtomic(w: Writer, e: OutputEvent) returns (n: nat)
    requires Inv(w)
    ensures MicroRun(State(w, Idle), [Begin(e)] + Advances(n)) == State(Emit(w, e), Idle)
  {
    var s1 := BeginEmit(w, e);
    if e.ReasoningChunk? {
      n := 0;
    } else {
      var w1 := FlushSnapshot(w);
      FlushSnapshotKeepsInv(w);
      var k := RoutingIsRoute(w1, e);
      if w.mailbox.None? {
        n := k;
      } else {
        n := k + 1;
        AdvanceMore(s1, k);
      }
    }
    assert ([Begin(e)] + Advances(n))[1..] == Advances(n);
  }
}
