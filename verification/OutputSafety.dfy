/** What every reachable state of the delivery protocol satisfies. The invariants are stated with
    a `hand`: the event, if any, that the writer is holding between two channel operations. The
    atomic steps use an empty hand between steps; OutputRace.dfy uses the general form. */
module OutputSafety {
  import opened OutputEvents
  import opened OutputProtocol

  // ---- invariants

  ghost predicate Bounded(w: Writer) {
    w.cfg.Valid() && |w.main.queue| <= w.cfg.capacity && Fits(w.cfg, w.deferred)
  }

  ghost predicate Sorted(s: Events) {
    forall i, j | 0 <= i < j < |s| :: s[i].sequence < s[j].sequence
  }

  ghost predicate Below(s: Events, n: nat) {
    forall x | x in s :: x.sequence < n
  }

  /** Snapshots aside, sequence numbers increase. */
  ghost predicate Ordered(s: Events) {
    forall i, j | 0 <= i < j < |s| && s[i].event.IsOrdered() && s[j].event.IsOrdered() ::
      s[i].sequence < s[j].sequence
  }

  /** In how many places the event is: in the pipeline, on a control lane, or given up. */
  ghost function Places(w: Writer, x: Sequenced): nat {
    multiset(w.Pipeline())[x] + multiset(w.priority.All())[x] + multiset(w.approval.All())[x]
    + multiset(w.lost)[x] + multiset(w.vanished)[x]
  }

  /** Nothing is invented, duplicated or silently dropped. */
  ghost predicate Conserved(w: Writer, hand: Events) {
    forall x :: multiset(w.sequenced)[x] == Places(w, x) + multiset(hand)[x]
  }

  ghost predicate Numbered(w: Writer) {
    Sorted(w.sequenced) && Below(w.sequenced, w.next)
  }

  ghost predicate Kinds(w: Writer) {
    && (forall x | x in w.deferred :: x.event.IsDeferrable())
    && (forall x | x in w.priority.All() :: x.event.IsCritical())
    && (forall x | x in w.approval.All() :: x.event.IsApproval())
    && (forall x | x in w.vanished :: x.event.ApprovalFinished?)
    && (forall x | x in w.lost :: !x.event.ApprovalFinished? && (x.event.IsCritical() ==> !w.priority.open))
    && w.reported <= |w.lost|
  }

  ghost predicate LanesSorted(w: Writer) {
    Sorted(w.priority.All()) && Sorted(w.approval.All())
  }

  ghost predicate LanesBelow(w: Writer, n: nat) {
    Below(w.main.All(), n) && Below(w.deferred, n) && Below(w.priority.All(), n) && Below(w.approval.All(), n)
  }

  /** The part that survives every interleaving of the writer's and the receivers' operations. */
  ghost predicate Safe(w: Writer, hand: Events) {
    Bounded(w) && Numbered(w) && Conserved(w, hand) && Kinds(w) && LanesSorted(w)
  }

  ghost predicate Inv(w: Writer) {
    Safe(w, []) && Ordered(w.Pipeline()) && LanesBelow(w, w.next)
  }

  // ---- sequences

  lemma SortedPut(s: Events, ev: Sequenced)
    requires Sorted(s) && Below(s, ev.sequence)
    ensures Sorted(s + [ev])
  {
  }

  lemma OrderedCut(a: Events, b: Events, c: Events)
    requires Ordered(a + b + c)
    ensures Ordered(a + c)
  {
    forall i, j | 0 <= i < j < |a + c| && (a + c)[i].event.IsOrdered() && (a + c)[j].event.IsOrdered()
      ensures (a + c)[i].sequence < (a + c)[j].sequence
    {
      var i' := if i < |a| then i else i + |b|;
      var j' := if j < |a| then j else j + |b|;
      assert (a + b + c)[i'] == (a + c)[i] && (a + b + c)[j'] == (a + c)[j];
    }
  }

  lemma OrderedInsert(a: Events, ev: Sequenced, c: Events)
    requires Ordered(a + c) && !ev.event.IsOrdered()
    ensures Ordered(a + [ev] + c)
  {
    var s := a + [ev] + c;
    forall i, j | 0 <= i < j < |s| && s[i].event.IsOrdered() && s[j].event.IsOrdered()
      ensures s[i].sequence < s[j].sequence
    {
      var i' := if i < |a| then i else i - 1;
      var j' := if j < |a| then j else j - 1;
      assert (a + c)[i'] == s[i] && (a + c)[j'] == s[j];
    }
  }

  lemma {:induction false} TotalBytesConcat(a: Events, b: Events)
    ensures TotalBytes(a + b) == TotalBytes(a) + TotalBytes(b)
  {
    if a == [] {
      assert a + b == b;
    } else {
      assert (a + b)[1..] == a[1..] + b;
      TotalBytesConcat(a[1..], b);
    }
  }

  lemma FitsSuffix(cfg: Config, evs: Events, k: nat)
    requires k <= |evs| && Fits(cfg, evs)
    ensures Fits(cfg, evs[k..])
  {
    assert evs == evs[..k] + evs[k..];
    TotalBytesConcat(evs[..k], evs[k..]);
  }

  lemma SplitMultiset(s: Events, k: nat)
    requires k <= |s|
    ensures multiset(s) == multiset(s[..k]) + multiset(s[k..])
  {
    assert s == s[..k] + s[k..];
  }

  // ---- each channel operation keeps the safe part

  lemma SendSafe(w: Writer, ev: Sequenced)
    requires Safe(w, [ev]) && w.CanSend()
    ensures Safe(w.Send(ev), [])
  {
    var w' := w.Send(ev);
    assert Bounded(w') && Numbered(w') && Kinds(w') && LanesSorted(w');
    forall x ensures Places(w', x) == Places(w, x) + multiset([ev])[x] { SendPlaces(w, ev, x); }
  }

  lemma SendPlaces(w: Writer, ev: Sequenced, x: Sequenced)
    ensures Places(w.Send(ev), x) == Places(w, x) + multiset([ev])[x]
  {
    assert w.Send(ev).main.All() == w.main.All() + [ev];
  }

  lemma LoseSafe(w: Writer, ev: Sequenced)
    requires Safe(w, [ev]) && !ev.event.ApprovalFinished? && (ev.event.IsCritical() ==> !w.priority.open)
    ensures Safe(w.Lose([ev]), [])
  {
  }

  lemma PrioritySafe(w: Writer, ev: Sequenced)
    requires Safe(w, [ev]) && ev.event.IsCritical() && Below(w.priority.All(), ev.sequence)
    ensures Safe(w.(priority := w.priority.Put(ev)), [])
  {
    assert w.priority.Put(ev).All() == w.priority.All() + [ev];
    SortedPut(w.priority.All(), ev);
    PriorityConserves(w, ev);
  }

  lemma PriorityConserves(w: Writer, ev: Sequenced)
    requires Conserved(w, [ev]) && w.priority.Put(ev).All() == w.priority.All() + [ev]
    ensures Conserved(w.(priority := w.priority.Put(ev)), [])
  {
  }

  lemma ApprovalSafe(w: Writer, ev: Sequenced)
    requires Safe(w, [ev]) && ev.event.IsApproval() && Below(w.approval.All(), ev.sequence)
    ensures Safe(SendApproval(w, ev), [])
  {
    if w.approvalAttached && w.approval.open {
      ApprovalPutSafe(w, ev);
    } else if ev.event.ApprovalRequested? {
      LoseSafe(w, ev);
    } else {
      assert Kinds(SendApproval(w, ev));
    }
  }

  lemma ApprovalPutSafe(w: Writer, ev: Sequenced)
    requires Safe(w, [ev]) && ev.event.IsApproval() && Below(w.approval.All(), ev.sequence)
    ensures Safe(w.(approval := w.approval.Put(ev)), [])
  {
    var w' := w.(approval := w.approval.Put(ev));
    assert w'.approval.All() == w.approval.All() + [ev];
    SortedPut(w.approval.All(), ev);
    assert Bounded(w') && Numbered(w') && Kinds(w') && LanesSorted(w');
    assert forall x :: Places(w', x) == Places(w, x) + multiset([ev])[x];
  }

  lemma CutCounts(a: Events, all: Events, k: nat, x: Sequenced)
    requires k <= |all|
    ensures multiset(a + all)[x] == multiset(a + all[k..])[x] + multiset(all[..k])[x]
  {
    SplitMultiset(all, k);
  }

  lemma EvictionConserves(w: Writer, w': Writer, ev: Sequenced, a: Events, all: Events, k: nat)
    requires Conserved(w, [ev]) && k <= |all|
    requires w.Pipeline() + [ev] == a + all && w'.Pipeline() == a + all[k..] && w'.lost == w.lost + all[..k]
    requires w'.sequenced == w.sequenced && w'.vanished == w.vanished
    requires w'.priority == w.priority && w'.approval == w.approval
    ensures Conserved(w', [])
  {
    forall x ensures multiset(w'.sequenced)[x] == Places(w', x) {
      CutCounts(a, all, k, x);
      assert multiset(w.sequenced)[x] == Places(w, x) + multiset([ev])[x];
      assert multiset(w.Pipeline() + [ev])[x] == multiset(w.Pipeline())[x] + multiset([ev])[x];
    }
  }

  lemma DeferConserves(w: Writer, ev: Sequenced)
    requires Conserved(w, [ev])
    ensures Conserved(Defer(w, ev), [])
  {
    if ev.event.EstimatedBytes() <= w.cfg.maxBytes {
      var all := w.deferred + [ev];
      assert w.Pipeline() + [ev] == w.main.All() + all;
      EvictionConserves(w, Defer(w, ev), ev, w.main.All(), all, Excess(w.cfg, all));
    }
  }

  lemma DeferKinds(w: Writer, ev: Sequenced)
    requires Kinds(w) && ev.event.IsDeferrable()
    ensures Kinds(Defer(w, ev))
  {
    var all := w.deferred + [ev];
    assert forall x | x in all :: x.event.IsDeferrable();
    var k := Excess(w.cfg, all);
    PartsOf(all, k);
  }

  lemma PartsOf(s: Events, k: nat)
    requires k <= |s|
    ensures forall x | x in s[..k] :: x in s
    ensures forall x | x in s[k..] :: x in s
  {
  }

  lemma DeferSafe(w: Writer, ev: Sequenced)
    requires Safe(w, [ev]) && ev.event.IsDeferrable()
    ensures Safe(Defer(w, ev), [])
  {
    DeferConserves(w, ev);
    DeferKinds(w, ev);
  }

  lemma FlushPipeline(w: Writer)
    ensures FlushDeferred(w).Pipeline() == if w.main.open then w.Pipeline() else w.main.All()
  {
    if w.main.open {
      var n := if w.Free() < |w.deferred| then w.Free() else |w.deferred|;
      assert FlushDeferred(w).main.All() == w.main.All() + w.deferred[..n];
      Regroup(w.main.All(), w.deferred, n);
    }
  }

  lemma Regroup(a: Events, b: Events, n: nat)
    requires n <= |b|
    ensures a + b[..n] + b[n..] == a + b
  {
    assert b == b[..n] + b[n..];
  }

  lemma FlushKinds(w: Writer)
    requires Kinds(w)
    ensures Kinds(FlushDeferred(w))
  {
    assert forall x | x in FlushDeferred(w).deferred :: x in w.deferred;
  }

  lemma FlushSafe(w: Writer, hand: Events)
    requires Safe(w, hand)
    ensures Safe(FlushDeferred(w), hand)
  {
    FlushPipeline(w);
    FlushKinds(w);
    if w.main.open {
      FitsSuffix(w.cfg, w.deferred, if w.Free() < |w.deferred| then w.Free() else |w.deferred|);
    }
  }

  lemma TakeSnapshotSafe(w: Writer)
    requires Safe(w, []) && w.mailbox.Some?
    ensures Safe(TakeSnapshot(w), [Sequenced(w.next, ReasoningChunk(w.mailbox.value.text))])
  {
    SortedPut(w.sequenced, Sequenced(w.next, ReasoningChunk(w.mailbox.value.text)));
  }

  lemma AssignSafe(w: Writer, e: OutputEvent)
    requires Safe(w, [])
    ensures Safe(Assign(w, e), [Sequenced(w.next, e)])
  {
    SortedPut(w.sequenced, Sequenced(w.next, e));
  }

  lemma AppendSafe(w: Writer, ev: Sequenced)
    requires Safe(w, [ev]) && !ev.event.IsApproval() && !ev.event.ReasoningChunk?
    requires Below(w.priority.All(), ev.sequence)
    ensures Safe(Append(w, ev), [])
  {
    if w.CanSend() {
      SendSafe(w, ev);
    } else if ev.event.IsLossy() {
      LoseSafe(w, ev);
    } else if ev.event.IsCritical() {
      if w.priority.open { PrioritySafe(w, ev); } else { LoseSafe(w, ev); }
    } else {
      DeferSafe(w, ev);
    }
  }

  lemma ReceiveKeepsAll(l: Lane)
    ensures l.Receive().All() == l.All()
  {
    if l.queue != [] {
      assert l.queue == [l.queue[0]] + l.queue[1..];
    }
  }

  /** A receiver's step moves nothing between lanes and reorders nothing. */
  lemma ReceiverKeepsLanes(w: Writer, a: ReceiverAction)
    ensures var w' := Receiver(w, a);
            && w'.main.All() == w.main.All() && w'.deferred == w.deferred
            && w'.priority.All() == w.priority.All() && w'.approval.All() == w.approval.All()
            && w'.lost == w.lost && w'.vanished == w.vanished
            && w'.sequenced == w.sequenced && w'.next == w.next && w'.cfg == w.cfg
            && |w'.main.queue| <= |w.main.queue| && (w'.priority.open ==> w.priority.open)
            && (w'.reported == w.reported || w'.reported == |w.lost|)
  {
    ReceiveKeepsAll(w.main);
    ReceiveKeepsAll(w.priority);
    ReceiveKeepsAll(w.approval);
  }

  lemma ReceiverSafe(w: Writer, hand: Events, a: ReceiverAction)
    requires Safe(w, hand)
    ensures Safe(Receiver(w, a), hand)
    ensures Receiver(w, a).Pipeline() == w.Pipeline()
    ensures forall n | LanesBelow(w, n) :: LanesBelow(Receiver(w, a), n)
  {
    ReceiverKeepsLanes(w, a);
  }

  // ---- order, one phase at a time

  lemma FlushKeepsOrder(w: Writer, n: nat)
    requires Ordered(w.Pipeline()) && LanesBelow(w, n)
    ensures Ordered(FlushDeferred(w).Pipeline()) && LanesBelow(FlushDeferred(w), n)
  {
    FlushPipeline(w);
    if w.main.open {
      var k := if w.Free() < |w.deferred| then w.Free() else |w.deferred|;
      assert FlushDeferred(w).main.All() == w.main.All() + w.deferred[..k];
    } else {
      assert w.Pipeline() == w.main.All() + w.deferred + [] && w.main.All() + [] == w.main.All();
      OrderedCut(w.main.All(), w.deferred, []);
    }
  }

  lemma DeferKeepsOrder(w: Writer, ev: Sequenced, n: nat)
    requires Ordered(w.Pipeline()) && LanesBelow(w, ev.sequence) && ev.sequence < n
    ensures Ordered(Defer(w, ev).Pipeline()) && LanesBelow(Defer(w, ev), n)
  {
    if ev.event.EstimatedBytes() <= w.cfg.maxBytes {
      var all := w.deferred + [ev];
      var k := Excess(w.cfg, all);
      assert w.Pipeline() + [ev] == w.main.All() + all[..k] + all[k..];
      OrderedCut(w.main.All(), all[..k], all[k..]);
    }
  }

  lemma SendKeepsOrder(w: Writer, ev: Sequenced, n: nat)
    requires Ordered(w.Pipeline()) && LanesBelow(w, ev.sequence) && ev.sequence < n
    requires ev.event.IsOrdered() ==> w.deferred == []
    ensures Ordered(w.Send(ev).Pipeline()) && LanesBelow(w.Send(ev), n)
  {
    assert w.Send(ev).main.All() == w.main.All() + [ev];
    if ev.event.IsOrdered() {
      assert w.Send(ev).Pipeline() == w.Pipeline() + [ev];
    } else {
      OrderedInsert(w.main.All(), ev, w.deferred);
    }
  }

  lemma AppendKeepsOrder(w: Writer, ev: Sequenced, n: nat)
    requires Ordered(w.Pipeline()) && LanesBelow(w, ev.sequence) && ev.sequence < n
    requires w.CanSend() && ev.event.IsOrdered() ==> w.deferred == []
    ensures Ordered(Append(w, ev).Pipeline()) && LanesBelow(Append(w, ev), n)
  {
    if w.CanSend() {
      SendKeepsOrder(w, ev, n);
    } else if !ev.event.IsLossy() && !ev.event.IsCritical() {
      DeferKeepsOrder(w, ev, n);
    } else if !ev.event.IsLossy() && w.priority.open {
      assert w.priority.Put(ev).All() == w.priority.All() + [ev];
    }
  }

  lemma SendApprovalKeepsOrder(w: Writer, ev: Sequenced, n: nat)
    requires Ordered(w.Pipeline()) && LanesBelow(w, ev.sequence) && ev.sequence < n
    ensures Ordered(SendApproval(w, ev).Pipeline()) && LanesBelow(SendApproval(w, ev), n)
  {
    assert w.approval.Put(ev).All() == w.approval.All() + [ev];
  }

  // ---- the invariant over runs

  lemma FlushSnapshotKeepsInv(w: Writer)
    requires Inv(w)
    ensures Inv(FlushSnapshot(w))
  {
    if w.mailbox.Some? {
      var w1 := TakeSnapshot(w);
      var snap := Sequenced(w.next, ReasoningChunk(w.mailbox.value.text));
      TakeSnapshotSafe(w);
      if w1.CanSend() {
        SendSafe(w1, snap);
        SendKeepsOrder(w1, snap, w1.next);
      } else {
        LoseSafe(w1, snap);
      }
    }
  }

  /** After a flush, room in the main channel means that nobody waits. */
  lemma FlushEmptiesOrFills(w: Writer)
    requires Bounded(w)
    ensures var w' := FlushDeferred(w); w'.CanSend() ==> w'.deferred == []
  {
  }

  lemma AppendKeepsInv(w: Writer, ev: Sequenced)
    requires Safe(w, [ev]) && Ordered(w.Pipeline()) && LanesBelow(w, ev.sequence) && ev.sequence < w.next
    requires !ev.event.ReasoningChunk? && !ev.event.IsApproval()
    requires w.CanSend() && ev.event.IsOrdered() ==> w.deferred == []
    ensures Inv(Append(w, ev))
  {
    AppendSafe(w, ev);
    AppendKeepsOrder(w, ev, w.next);
  }

  lemma RouteKeepsInv(w: Writer, ev: Sequenced)
    requires Safe(w, [ev]) && Ordered(w.Pipeline()) && LanesBelow(w, ev.sequence) && ev.sequence < w.next
    requires !ev.event.ReasoningChunk?
    ensures Inv(Route(w, ev))
  {
    if ev.event.IsApproval() {
      ApprovalSafe(w, ev);
      SendApprovalKeepsOrder(w, ev, w.next);
    } else if ev.event.IsLossy() {
      AppendKeepsInv(w, ev);
    } else {
      FlushSafe(w, [ev]);
      FlushKeepsOrder(w, ev.sequence);
      FlushEmptiesOrFills(w);
      AppendKeepsInv(FlushDeferred(w), ev);
    }
  }

  lemma EmitKeepsInv(w: Writer, e: OutputEvent)
    requires Inv(w)
    ensures Inv(Emit(w, e))
  {
    if e.ReasoningChunk? {
      PostChunkKeepsInv(w, e.chunk);
    } else {
      FlushSnapshotKeepsInv(w);
      AssignedKeepsInv(FlushSnapshot(w), e);
    }
  }

  lemma PostChunkKeepsInv(w: Writer, chunk: string)
    requires Inv(w)
    ensures Inv(PostChunk(w, chunk))
  {
    var w' := PostChunk(w, chunk);
    assert Bounded(w') && Numbered(w') && Kinds(w') && LanesSorted(w') && w'.Pipeline() == w.Pipeline();
    assert forall x :: Places(w', x) == Places(w, x);
  }

  lemma AssignedKeepsInv(w: Writer, e: OutputEvent)
    requires Inv(w) && !e.ReasoningChunk?
    ensures Inv(Route(Assign(w, e), Sequenced(w.next, e)))
  {
    AssignSafe(w, e);
    assert Assign(w, e).Pipeline() == w.Pipeline();
    RouteKeepsInv(Assign(w, e), Sequenced(w.next, e));
  }

  lemma NextKeepsInv(w: Writer, s: Step)
    requires Inv(w)
    ensures Inv(Next(w, s))
  {
    match s
    case EmitStep(e) => EmitKeepsInv(w, e);
    case FlushStep => FlushKeepsInv(w);
    case ReceiverStep(a) => ReceiverKeepsInv(w, a);
  }

  lemma FlushKeepsInv(w: Writer)
    requires Inv(w)
    ensures Inv(Next(w, FlushStep))
  {
    FlushSafe(w, []);
    FlushKeepsOrder(w, w.next);
  }

  lemma ReceiverKeepsInv(w: Writer, a: ReceiverAction)
    requires Inv(w)
    ensures Inv(Next(w, ReceiverStep(a)))
  {
    ReceiverSafe(w, [], a);
  }

  lemma {:induction false} RunKeepsInv(w: Writer, steps: seq<Step>)
    requires Inv(w)
    ensures Inv(Run(w, steps))
    decreases steps
  {
    if steps != [] {
      NextKeepsInv(w, steps[0]);
      RunKeepsInv(Next(w, steps[0]), steps[1..]);
    }
  }

  lemma InitInv(cfg: Config)
    requires cfg.Valid()
    ensures Inv(Init(cfg)) && Init(cfg).sequenced == []
  {
    var w := Init(cfg);
    assert w.Pipeline() == [] && w.main.All() == [] && w.priority.All() == [] && w.approval.All() == [];
    assert Conserved(w, []);
  }

  lemma ReachableInv(cfg: Config, steps: seq<Step>)
    requires cfg.Valid()
    ensures Inv(Run(Init(cfg), steps))
  {
    InitInv(cfg);
    RunKeepsInv(Init(cfg), steps);
  }
}
