/** What the delivery contract of src/cli/output.rs (lines 860-906) promises, for every run of
    atomic steps. */
module OutputTheorems {
  import opened Utf8
  import opened OutputEvents
  import opened ReasoningMailbox
  import opened OutputProtocol
  import opened OutputSafety

  /** Whatever was received from, waits in, or waits for the main channel is in emission order,
      snapshots aside; each control lane is in emission order. */
  lemma DeliveryOrder(cfg: Config, steps: seq<Step>)
    requires cfg.Valid()
    ensures var w := Run(Init(cfg), steps);
            && Ordered(w.main.delivered + w.main.queue + w.deferred)
            && Sorted(w.priority.delivered + w.priority.queue)
            && Sorted(w.approval.delivered + w.approval.queue)
  {
    ReachableInv(cfg, steps);
  }

  lemma {:induction false} SortedCount(s: Events, x: Sequenced)
    requires Sorted(s)
    ensures multiset(s)[x] == if x in s then 1 else 0
  {
    if s != [] {
      var rest := s[1..];
      assert s == [s[0]] + rest;
      SortedCount(rest, x);
      assert forall i | 0 <= i < |rest| :: rest[i] == s[i + 1];
    }
  }

  /** Every sequenced event is in exactly one place, and nothing else is anywhere. */
  lemma ExactlyOnePlace(cfg: Config, steps: seq<Step>, x: Sequenced)
    requires cfg.Valid()
    ensures var w := Run(Init(cfg), steps);
            Places(w, x) == if x in w.sequenced then 1 else 0
  {
    ReachableInv(cfg, steps);
    var w := Run(Init(cfg), steps);
    SortedCount(w.sequenced, x);
    assert multiset(w.sequenced)[x] == Places(w, x) + multiset([])[x];
  }

  /** While the priority receiver exists, every critical event ever emitted is received, buffered
      in the main channel, or on the priority lane. */
  lemma CriticalNeverLost(cfg: Config, steps: seq<Step>, x: Sequenced)
    requires cfg.Valid()
    requires var w := Run(Init(cfg), steps); x in w.sequenced && x.event.IsCritical() && w.priority.open
    ensures var w := Run(Init(cfg), steps); x in w.main.All() || x in w.priority.All()
  {
    ReachableInv(cfg, steps);
    ExactlyOnePlace(cfg, steps, x);
    var w := Run(Init(cfg), steps);
    assert x in w.Pipeline() || x in w.priority.All() || x in w.approval.All() || x in w.lost || x in w.vanished;
  }

  lemma RouteToMain(w: Writer, ev: Sequenced)
    requires ev.event.IsOrdered() && ev !in w.main.queue && ev !in w.deferred
    requires FlushDeferred(w).CanSend() ==> FlushDeferred(w).deferred == []
    ensures ev in Route(w, ev).main.queue ==> Route(w, ev).deferred == []
  {
    var w' := FlushDeferred(w);
  }

  lemma RouteKeepsNext(w: Writer, ev: Sequenced)
    ensures Route(w, ev).next == w.next
  {
  }

  /** An ordered event enters the main channel only when nobody is left waiting behind it. */
  lemma MainOnlyWhenNobodyWaits(w: Writer, e: OutputEvent)
    requires Inv(w) && e.IsOrdered()
    ensures var w' := Emit(w, e);
            Sequenced(w'.next - 1, e) in w'.main.queue ==> w'.deferred == []
  {
    var w1 := FlushSnapshot(w);
    var ev := Sequenced(w1.next, e);
    var w2 := Assign(w1, e);
    assert Bounded(w2) && ev !in w2.main.queue && ev !in w2.deferred by {
      FlushSnapshotKeepsInv(w);
    }
    assert Emit(w, e) == Route(w2, ev);
    RouteKeepsNext(w2, ev);
    FlushEmptiesOrFills(w2);
    RouteToMain(w2, ev);
  }

  // ---- reasoning

  /** The reasoning text streamed since the last snapshot or take, continuing from `history`. */
  function ReasoningSince(steps: seq<Step>, history: string): string
    decreases steps
  {
    if steps == [] then history
    else
      ReasoningSince(steps[1..],
        match steps[0]
        case EmitStep(ReasoningChunk(chunk)) => history + chunk
        case EmitStep(_) => ""
        case ReceiverStep(TakeMailbox) => ""
        case _ => history)
  }

  predicate ChunksAreShort(steps: seq<Step>) {
    forall s | s in steps && s.EmitStep? && s.event.ReasoningChunk? :: ByteLen(s.event.chunk) <= MAX_REASONING_SNAPSHOT_BYTES
  }

  lemma FlushSnapshotEmpties(w: Writer, e: OutputEvent)
    ensures !e.ReasoningChunk? ==> Emit(w, e).mailbox == None
  {
    if !e.ReasoningChunk? {
      var w2 := Assign(FlushSnapshot(w), e);
      assert w2.mailbox == None;
    }
  }

  /** In every run, what the next snapshot or take will see is the longest bounded end of exactly the
      reasoning text that none has taken yet. */
  lemma {:induction false} MailboxShowsUntakenReasoning(w: Writer, steps: seq<Step>, history: string)
    requires Shows(w.mailbox, history) && ChunksAreShort(steps)
    ensures Shows(Run(w, steps).mailbox, ReasoningSince(steps, history))
    decreases steps
  {
    if steps != [] {
      var s := steps[0];
      assert s in steps && forall t | t in steps[1..] :: t in steps;
      var history' := match s
        case EmitStep(ReasoningChunk(chunk)) => history + chunk
        case EmitStep(_) => ""
        case ReceiverStep(TakeMailbox) => ""
        case _ => history;
      if s.EmitStep? {
        FlushSnapshotEmpties(w, s.event);
        if s.event.ReasoningChunk? { AppendShows(w.mailbox, history, s.event.chunk, w.next); }
      }
      assert Shows(Next(w, s).mailbox, history');
      MailboxShowsUntakenReasoning(Next(w, s), steps[1..], history');
    }
  }

  // ---- merging the lanes by sequence number

  function Keep(s: Events, p: Sequenced -> bool): (r: Events) {
    if s == [] then [] else (if p(s[0]) then [s[0]] else []) + Keep(s[1..], p)
  }

  lemma {:induction false} KeepCounts(s: Events, p: Sequenced -> bool)
    ensures forall x :: multiset(Keep(s, p))[x] == if p(x) then multiset(s)[x] else 0
    ensures forall x | x in Keep(s, p) :: x in s && p(x)
  {
    if s != [] {
      assert s == [s[0]] + s[1..];
      KeepCounts(s[1..], p);
    }
  }

  lemma SortedCons(x: Sequenced, s: Events)
    requires Sorted(s) && forall y | y in s :: x.sequence < y.sequence
    ensures Sorted([x] + s)
  {
    assert forall i | 0 <= i < |s| :: s[i] in s;
  }

  ghost predicate SortedWhere(s: Events, p: Sequenced -> bool) {
    forall i, j | 0 <= i < j < |s| && p(s[i]) && p(s[j]) :: s[i].sequence < s[j].sequence
  }

  lemma {:induction false} KeepSorted(s: Events, p: Sequenced -> bool)
    requires SortedWhere(s, p)
    ensures Sorted(Keep(s, p))
  {
    if s != [] {
      var t := s[1..];
      assert SortedWhere(t, p) by { assert forall i | 0 <= i < |t| :: t[i] == s[i + 1]; }
      KeepSorted(t, p);
      if p(s[0]) {
        forall x | x in Keep(t, p) ensures s[0].sequence < x.sequence {
          KeepCounts(t, p);
          var i :| 0 <= i < |t| && t[i] == x;
          assert s[i + 1] == x;
        }
        SortedCons(s[0], Keep(t, p));
      }
    }
  }

  lemma SortedHeads(a: Events, b: Events)
    requires Sorted(a) && Sorted(b) && multiset(a) == multiset(b) && a != [] && b != []
    ensures a[0] == b[0]
  {
    assert a[0] in multiset(b) && b[0] in multiset(a);
    var i :| 0 <= i < |b| && b[i] == a[0];
    var j :| 0 <= j < |a| && a[j] == b[0];
    assert b[0].sequence <= b[i].sequence;
    assert a[0].sequence <= a[j].sequence;
  }

  lemma {:induction false} SortedUnique(a: Events, b: Events)
    requires Sorted(a) && Sorted(b) && multiset(a) == multiset(b)
    ensures a == b
  {
    assert |a| == |multiset(a)| == |multiset(b)| == |b|;
    if a != [] {
      SortedHeads(a, b);
      TailCounts(a);
      TailCounts(b);
      SortedUnique(a[1..], b[1..]);
      assert a == [a[0]] + a[1..] && b == [b[0]] + b[1..];
    }
  }

  lemma TailCounts(a: Events)
    requires a != []
    ensures multiset(a[1..]) == multiset(a) - multiset{a[0]}
  {
    assert a == [a[0]] + a[1..];
  }

  /** Taking the smaller head of two lanes until both are empty. */
  function Merge(a: Events, b: Events): Events
    decreases |a| + |b|
  {
    if a == [] then b
    else if b == [] then a
    else if a[0].sequence < b[0].sequence then [a[0]] + Merge(a[1..], b)
    else [b[0]] + Merge(a, b[1..])
  }

  lemma {:induction false} MergeCounts(a: Events, b: Events)
    ensures multiset(Merge(a, b)) == multiset(a) + multiset(b)
    decreases |a| + |b|
  {
    if a != [] && b != [] {
      if a[0].sequence < b[0].sequence {
        assert a == [a[0]] + a[1..];
        MergeCounts(a[1..], b);
      } else {
        assert b == [b[0]] + b[1..];
        MergeCounts(a, b[1..]);
      }
    }
  }

  ghost predicate Apart(a: Events, b: Events) {
    forall x, y | x in a && y in b :: x.sequence != y.sequence
  }

  lemma MergeMembers(a: Events, b: Events, z: Sequenced)
    requires z in Merge(a, b)
    ensures z in a || z in b
  {
    MergeCounts(a, b);
    assert z in multiset(Merge(a, b));
  }

  lemma {:induction false} MergeSorted(a: Events, b: Events)
    requires Sorted(a) && Sorted(b) && Apart(a, b)
    ensures Sorted(Merge(a, b))
    decreases |a| + |b|
  {
    if a != [] && b != [] {
      assert a[0] in a && b[0] in b;
      if a[0].sequence < b[0].sequence {
        MergeSorted(a[1..], b);
        forall z | z in Merge(a[1..], b) ensures a[0].sequence < z.sequence {
          MergeMembers(a[1..], b, z);
        }
        SortedCons(a[0], Merge(a[1..], b));
      } else {
        MergeSorted(a, b[1..]);
        forall z | z in Merge(a, b[1..]) ensures b[0].sequence < z.sequence {
          MergeMembers(a, b[1..], z);
        }
        SortedCons(b[0], Merge(a, b[1..]));
      }
    }
  }

  /** The ordered events that were neither lost nor vanished, in emission order. */
  ghost function Survivors(w: Writer): Events {
    Keep(w.sequenced, (x: Sequenced) => x.event.IsOrdered() && x !in w.lost && x !in w.vanished)
  }

  ghost function OrderedPipeline(w: Writer): Events {
    Keep(w.Pipeline(), (x: Sequenced) => x.event.IsOrdered())
  }

  lemma LanesApart(w: Writer, x: Sequenced, y: Sequenced)
    requires Inv(w)
    requires Places(w, x) >= 1 && Places(w, y) >= 1 && x.sequence == y.sequence
    ensures x == y && Places(w, x) == 1
  {
    var i := Placed(w, x);
    var j := Placed(w, y);
    assert i == j;
  }

  lemma Placed(w: Writer, x: Sequenced) returns (i: nat)
    requires Inv(w) && Places(w, x) >= 1
    ensures Places(w, x) == 1 && i < |w.sequenced| && w.sequenced[i] == x
  {
    SortedCount(w.sequenced, x);
    assert multiset(w.sequenced)[x] == Places(w, x) + multiset([])[x];
    i :| 0 <= i < |w.sequenced| && w.sequenced[i] == x;
  }

  lemma SurvivorCount(w: Writer, x: Sequenced)
    ensures multiset(Survivors(w))[x] ==
            if x.event.IsOrdered() && x !in w.lost && x !in w.vanished then multiset(w.sequenced)[x] else 0
  {
    KeepCounts(w.sequenced, (x: Sequenced) => x.event.IsOrdered() && x !in w.lost && x !in w.vanished);
  }

  lemma SurvivorCounts(w: Writer, x: Sequenced)
    requires Inv(w)
    ensures multiset(Survivors(w))[x] ==
            multiset(OrderedPipeline(w))[x] + multiset(w.priority.All())[x] + multiset(w.approval.All())[x]
  {
    SortedCount(w.sequenced, x);
    assert multiset(w.sequenced)[x] == Places(w, x) + multiset([])[x];
    assert x in w.priority.All() ==> x.event.IsOrdered();
    assert x in w.approval.All() ==> x.event.IsOrdered();
    PlacedOnceCounts(w, x);
  }

  lemma PlacedOnceCounts(w: Writer, x: Sequenced)
    requires multiset(w.sequenced)[x] == Places(w, x) <= 1
    requires x in w.priority.All() || x in w.approval.All() ==> x.event.IsOrdered()
    ensures multiset(Survivors(w))[x] ==
            multiset(OrderedPipeline(w))[x] + multiset(w.priority.All())[x] + multiset(w.approval.All())[x]
  {
    SurvivorCount(w, x);
    KeepCounts(w.Pipeline(), (x: Sequenced) => x.event.IsOrdered());
  }

  lemma SurvivorMultiset(w: Writer)
    requires Inv(w)
    ensures multiset(Survivors(w)) ==
            multiset(OrderedPipeline(w)) + multiset(w.priority.All()) + multiset(w.approval.All())
  {
    var places := multiset(OrderedPipeline(w)) + multiset(w.priority.All()) + multiset(w.approval.All());
    forall x ensures multiset(Survivors(w))[x] == places[x] { SurvivorCounts(w, x); }
  }

  lemma PipelineApart(w: Writer)
    requires Inv(w)
    ensures Apart(w.Pipeline(), w.priority.All()) && Apart(w.Pipeline(), w.approval.All())
  {
    forall x, y | x in w.Pipeline() && (y in w.priority.All() || y in w.approval.All())
      ensures x.sequence != y.sequence
    {
      if x.sequence == y.sequence { LanesApart(w, x, y); }
    }
  }

  lemma ControlLanesApart(w: Writer)
    requires Inv(w)
    ensures Apart(w.priority.All(), w.approval.All())
  {
    forall x, y | x in w.priority.All() && y in w.approval.All() ensures x.sequence != y.sequence {
      if x.sequence == y.sequence { LanesApart(w, x, y); }
    }
  }

  lemma AllApart(w: Writer)
    requires Inv(w)
    ensures Apart(OrderedPipeline(w), w.priority.All())
    ensures Apart(OrderedPipeline(w), w.approval.All())
    ensures Apart(w.priority.All(), w.approval.All())
  {
    KeepCounts(w.Pipeline(), (x: Sequenced) => x.event.IsOrdered());
    PipelineApart(w);
    ControlLanesApart(w);
  }

  /** Merging the three lanes by sequence number gives back emission order, without gaps other
      than the events that were lost. */
  lemma MergeReproducesEmission(cfg: Config, steps: seq<Step>)
    requires cfg.Valid()
    ensures var w := Run(Init(cfg), steps);
            Merge(Merge(OrderedPipeline(w), w.priority.All()), w.approval.All()) == Survivors(w)
  {
    var w := Run(Init(cfg), steps);
    ReachableInv(cfg, steps);
    AllApart(w);
    var p, q, r := OrderedPipeline(w), w.priority.All(), w.approval.All();
    KeepSorted(w.Pipeline(), (x: Sequenced) => x.event.IsOrdered());
    KeepSorted(w.sequenced, (x: Sequenced) => x.event.IsOrdered() && x !in w.lost && x !in w.vanished);
    MergeSorted(p, q);
    MergeCounts(p, q);
    assert Apart(Merge(p, q), r) by {
      forall x, y | x in Merge(p, q) && y in r ensures x.sequence != y.sequence {
        assert x in multiset(Merge(p, q));
        assert x in p || x in q;
      }
    }
    MergeSorted(Merge(p, q), r);
    MergeCounts(Merge(p, q), r);
    SurvivorMultiset(w);
    SortedUnique(Merge(Merge(p, q), r), Survivors(w));
  }

  // ---- the deferred queue

  /** `oldest_deferred_sequence` is the least waiting number, and nothing ordered that still waits
      in the main channel or before it is younger. */
  lemma OldestDeferredIsLeast(cfg: Config, steps: seq<Step>, x: Sequenced)
    requires cfg.Valid()
    requires Run(Init(cfg), steps).deferred != []
    ensures var w := Run(Init(cfg), steps);
            && (x in w.deferred ==> w.deferred[0].sequence <= x.sequence)
            && (x in w.main.All() && x.event.IsOrdered() ==> x.sequence < w.deferred[0].sequence)
  {
    ReachableInv(cfg, steps);
    var w := Run(Init(cfg), steps);
    var n := |w.main.All()|;
    assert w.Pipeline()[n] == w.deferred[0] && w.deferred[0] in w.deferred;
    if x in w.deferred {
      var i :| 0 <= i < |w.deferred| && w.deferred[i] == x;
      assert w.Pipeline()[n + i] == x;
    }
    if x in w.main.All() && x.event.IsOrdered() {
      var i :| 0 <= i < n && w.main.All()[i] == x;
      assert w.Pipeline()[i] == x;
    }
  }

  /** A finalized event costs nothing exactly while a slot is left after the waiters or the queue
      has room for it; the documented bounds are the only reason for a loss. */
  lemma FinalizedLossIff(w: Writer, ev: Sequenced)
    requires Bounded(w) && w.main.open && ev.event.IsDeferrable()
    ensures Route(w, ev).lost == w.lost <==>
            (|w.deferred| < w.Free() || Fits(w.cfg, FlushDeferred(w).deferred + [ev]))
  {
    var w' := FlushDeferred(w);
    var all := w'.deferred + [ev];
    if !w'.CanSend() {
      assert all[0..] == all;
      TotalBytesConcat(w'.deferred, [ev]);
      assert TotalBytes([ev]) == ev.event.EstimatedBytes() by { assert [ev][1..] == []; }
      if ev.event.EstimatedBytes() <= w.cfg.maxBytes {
        var k := Excess(w.cfg, all);
        assert |w.lost + all[..k]| == |w.lost| + k;
        assert k == 0 ==> w.lost + all[..k] == w.lost;
      } else {
        assert |w.lost + [ev]| == |w.lost| + 1;
      }
    }
  }

  /** Deferring either rejects an event that could never fit, leaving the queue as it was, or keeps
      the longest suffix of queue and event that meets both bounds, with the event in it. */
  lemma DeferKeepsLongestSuffix(w: Writer, ev: Sequenced)
    requires Bounded(w)
    ensures var w' := Defer(w, ev);
            var all := w.deferred + [ev];
            if ev.event.EstimatedBytes() > w.cfg.maxBytes then w'.deferred == w.deferred && w'.lost == w.lost + [ev]
            else
              var k := |all| - |w'.deferred|;
              && 0 <= k < |all| && w'.deferred == all[k..] && w'.lost == w.lost + all[..k]
              && Fits(w.cfg, all[k..]) && (forall i | 0 <= i < k :: !Fits(w.cfg, all[i..]))
              && ev in w'.deferred
  {
    var all := w.deferred + [ev];
    if ev.event.EstimatedBytes() <= w.cfg.maxBytes {
      var n := |w.deferred|;
      assert all[n..] == [ev] && [ev][1..] == [];
      assert Fits(w.cfg, all[n..]);
      assert Excess(w.cfg, all) <= n;
      assert all[n] == ev;
    }
  }

  // ---- draining

  /** Receive what is buffered, flush, and start over. */
  function DrainSteps(w: Writer): (steps: seq<Step>)
    requires w.cfg.Valid() && w.main.open
    decreases |w.deferred|, |w.main.queue|
  {
    if w.main.queue != [] then
      [ReceiverStep(ReceiveMain)] + DrainSteps(Receiver(w, ReceiveMain))
    else if w.deferred != [] then
      [FlushStep] + DrainSteps(FlushDeferred(w))
    else []
  }

  /** From any state, draining alone delivers the whole pipeline in its order and loses nothing. */
  lemma {:induction false} DrainDeliversPipeline(w: Writer)
    requires w.cfg.Valid() && w.main.open
    ensures var w' := Run(w, DrainSteps(w));
            && w'.main.queue == [] && w'.deferred == []
            && w'.main.delivered == w.Pipeline() && w'.lost == w.lost
    decreases |w.deferred|, |w.main.queue|
  {
    var steps := DrainSteps(w);
    if w.main.queue != [] {
      var w1 := Receiver(w, ReceiveMain);
      assert steps[1..] == DrainSteps(w1) && Next(w, steps[0]) == w1;
      ReceiveKeepsAll(w.main);
      DrainDeliversPipeline(w1);
    } else if w.deferred != [] {
      var w1 := FlushDeferred(w);
      assert steps[1..] == DrainSteps(w1) && Next(w, steps[0]) == w1;
      FlushPipeline(w);
      DrainDeliversPipeline(w1);
    } else {
      assert w.Pipeline() == w.main.delivered;
    }
  }
}
