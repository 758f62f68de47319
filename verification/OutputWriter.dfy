/** ChannelOutputWriter (src/cli/output.rs): the object whose fields the writer updates in place,
    proved against the transition system of OutputProtocol.dfy. The two ends of each channel are
    in one object; the ghost fields are the logs of that transition system. */
module OutputWriter {
  import opened Utf8
  import opened OutputEvents
  import opened ReasoningMailbox
  import opened OutputProtocol

  datatype SizedOutputEvent = SizedOutputEvent(event: Sequenced, bytes: nat)

  /** Per-category drop counters. */
  datatype DropCounters = DropCounters(modelText: nat, toolOutput: nat, reasoning: nat, approvalPrompt: nat, other: nat) {
    function Total(): nat { modelText + toolOutput + reasoning + approvalPrompt + other }

    function Bump(c: DropCategory): DropCounters {
      match c
      case ModelText => this.(modelText := modelText + 1)
      case ToolOutput => this.(toolOutput := toolOutput + 1)
      case Reasoning => this.(reasoning := reasoning + 1)
      case ApprovalPrompt => this.(approvalPrompt := approvalPrompt + 1)
      case Other => this.(other := other + 1)
    }
  }

  /** How many events of each category a log of losses holds. */
  ghost function Count(lost: Events, c: DropCategory): nat {
    if lost == [] then 0
    else Count(lost[1..], c) + if lost[0].event.Category() == c then 1 else 0
  }

  ghost predicate Tallies(counters: DropCounters, lost: Events) {
    && counters.modelText == Count(lost, ModelText)
    && counters.toolOutput == Count(lost, ToolOutput)
    && counters.reasoning == Count(lost, Reasoning)
    && counters.approvalPrompt == Count(lost, ApprovalPrompt)
    && counters.other == Count(lost, Other)
  }

  lemma {:induction false} CountPush(lost: Events, ev: Sequenced, c: DropCategory)
    ensures Count(lost + [ev], c) == Count(lost, c) + if ev.event.Category() == c then 1 else 0
  {
    if lost == [] {
      assert lost + [ev] == [ev] && [ev][1..] == [];
    } else {
      assert (lost + [ev])[1..] == lost[1..] + [ev];
      CountPush(lost[1..], ev, c);
    }
  }

  lemma TallyPush(counters: DropCounters, lost: Events, ev: Sequenced)
    requires Tallies(counters, lost)
    ensures Tallies(counters.Bump(ev.event.Category()), lost + [ev])
  {
    forall c: DropCategory ensures Count(lost + [ev], c) == Count(lost, c) + if ev.event.Category() == c then 1 else 0 {
      CountPush(lost, ev, c);
    }
  }

  ghost function Tally(lost: Events): (c: DropCounters)
    ensures Tallies(c, lost)
  {
    DropCounters(Count(lost, ModelText), Count(lost, ToolOutput), Count(lost, Reasoning),
                 Count(lost, ApprovalPrompt), Count(lost, Other))
  }

  lemma CountPop(lost: Events, c: DropCategory)
    requires lost != []
    ensures Count(lost, c) == Count(lost[1..], c) + if lost[0].event.Category() == c then 1 else 0
  {
  }

  lemma TallyPop(lost: Events)
    requires lost != []
    ensures Tally(lost).Total() == Tally(lost[1..]).Total() + 1
  {
    CountPop(lost, ModelText);
    CountPop(lost, ToolOutput);
    CountPop(lost, Reasoning);
    CountPop(lost, ApprovalPrompt);
    CountPop(lost, Other);
    var c := lost[0].event.Category();
    assert c.ModelText? || c.ToolOutput? || c.Reasoning? || c.ApprovalPrompt? || c.Other?;
  }

  /** The counters together count every loss once. */
  lemma {:induction false} TallyTotal(lost: Events)
    ensures Tally(lost).Total() == |lost|
  {
    if lost != [] {
      TallyPop(lost);
      TallyTotal(lost[1..]);
    }
  }

  ghost function Unsized(q: seq<SizedOutputEvent>): (evs: Events)
    ensures |evs| == |q|
    ensures forall i | 0 <= i < |q| :: evs[i] == q[i].event
  {
    seq(|q|, i requires 0 <= i < |q| => q[i].event)
  }

  ghost predicate WellSized(q: seq<SizedOutputEvent>) {
    forall x | x in q :: x.bytes == x.event.event.EstimatedBytes()
  }

  lemma UnsizedPop(q: seq<SizedOutputEvent>)
    requires q != []
    ensures Unsized(q)[1..] == Unsized(q[1..]) && Unsized(q)[0] == q[0].event
    ensures Unsized(q) == [q[0].event] + Unsized(q[1..])
    ensures TotalBytes(Unsized(q)) == q[0].event.event.EstimatedBytes() + TotalBytes(Unsized(q[1..]))
  {
    assert Unsized(q)[1..] == Unsized(q[1..]);
  }

  lemma {:induction false} TotalBytesPush(evs: Events, ev: Sequenced)
    ensures TotalBytes(evs + [ev]) == TotalBytes(evs) + ev.event.EstimatedBytes()
  {
    if evs == [] {
      assert evs + [ev] == [ev] && [ev][1..] == [];
    } else {
      assert (evs + [ev])[1..] == evs[1..] + [ev];
      TotalBytesPush(evs[1..], ev);
    }
  }

  /** `k` is the least number of oldest waiters that must go to make room for the event. */
  ghost predicate MakesRoom(cfg: Config, waiting: Events, ev: Sequenced, k: nat) {
    && k <= |waiting| && Fits(cfg, waiting[k..] + [ev])
    && forall i | 0 <= i < k :: !Fits(cfg, waiting[i..] + [ev])
  }

  lemma DeferIs(w: Writer, ev: Sequenced, k: nat)
    requires ev.event.EstimatedBytes() <= w.cfg.maxBytes && MakesRoom(w.cfg, w.deferred, ev, k)
    ensures Defer(w, ev) == w.(lost := w.lost + w.deferred[..k], deferred := w.deferred[k..] + [ev])
  {
    var all := w.deferred + [ev];
    assert forall i | 0 <= i <= k :: all[i..] == w.deferred[i..] + [ev];
    assert all[..k] == w.deferred[..k];
    assert Excess(w.cfg, all) == k;
  }

  class ChannelOutputWriter {
    const maxDeferredFinalizedEvents: nat
    const maxDeferredFinalizedBytes: nat
    const capacity: nat
    const reasoningMailbox: Mailbox
    // the main, priority and approval channels
    var tx: Lane
    var priorityTx: Lane
    var approvalTx: Lane
    var approvalRx: bool   // the approval receiver has not been taken yet
    var approvalAttached: bool
    // behind the mutex
    var nextSequence: nat
    var deferredEvents: seq<SizedOutputEvent>
    var deferredBytes: nat
    // atomics
    var dropCounters: DropCounters
    var overflowSignaled: bool

    ghost var sequenced: Events
    ghost var lost: Events
    ghost var vanished: Events
    ghost var reported: nat

    ghost function Cfg(): Config { Config(capacity, maxDeferredFinalizedEvents, maxDeferredFinalizedBytes) }

    ghost predicate Valid()
      reads this
    {
      && Cfg().Valid()
      && WellSized(deferredEvents)
      && deferredBytes == TotalBytes(Unsized(deferredEvents))
      && approvalRx == !approvalAttached
      && CountersMatch()
    }

    /** The counters and the signal describe the log of losses. */
    ghost predicate CountersMatch()
      reads this
    {
      && Tallies(dropCounters, lost)
      && reported <= |lost|
      && overflowSignaled == (reported < |lost|)
    }

    ghost function View'(mail: Option<Mail>): Writer
      reads this
    {
      Writer(Cfg(),
             nextSequence, tx, priorityTx, approvalTx, approvalAttached,
             Unsized(deferredEvents), mail, sequenced, lost, vanished, reported)
    }

    /** The state of the transition system that this object is in. */
    ghost function View(): Writer
      reads this, reasoningMailbox
    {
      View'(reasoningMailbox.pending)
    }

    constructor (channelCapacity: nat, maxEvents: nat, maxBytes: nat)
      requires channelCapacity > 0
      ensures Valid() && fresh(reasoningMailbox)
      ensures View() == Init(Config(channelCapacity, if maxEvents > 1 then maxEvents else 1, if maxBytes > 1 then maxBytes else 1))
    {
      capacity := channelCapacity;
      maxDeferredFinalizedEvents := if maxEvents > 1 then maxEvents else 1;
      maxDeferredFinalizedBytes := if maxBytes > 1 then maxBytes else 1;
      reasoningMailbox := new Mailbox();
      tx, priorityTx, approvalTx := Lane([], true, []), Lane([], true, []), Lane([], true, []);
      approvalRx, approvalAttached, nextSequence, deferredEvents, deferredBytes := true, false, 1, [], 0;
      dropCounters, overflowSignaled := DropCounters(0, 0, 0, 0, 0), false;
      sequenced, lost, vanished, reported := [], [], [], 0;
      new;
      assert Unsized([]) == [];
    }

    method RecordDroppedEvent(ev: Sequenced)
      requires CountersMatch()
      modifies this`dropCounters, this`overflowSignaled, this`lost
      ensures CountersMatch() && lost == old(lost) + [ev]
    {
      TallyPush(dropCounters, lost, ev);
      dropCounters := dropCounters.Bump(ev.event.Category());
      overflowSignaled := true;
      lost := lost + [ev];
    }

    /** `try_send` on the bounded main channel. */
    method TrySend(ev: Sequenced) returns (ok: bool)
      modifies this`tx
      ensures ok == (old(tx).open && |old(tx).queue| < capacity)
      ensures tx == if ok then old(tx).Put(ev) else old(tx)
    {
      ok := tx.open && |tx.queue| < capacity;
      if ok { tx := tx.Put(ev); }
    }

    /** The eviction loop: makes room for an event of the given size, oldest waiters first. */
    method EvictFor(bytes: nat, ghost ev: Sequenced) returns (ghost k: nat)
      requires Valid() && bytes == ev.event.EstimatedBytes() <= maxDeferredFinalizedBytes
      modifies this`deferredEvents, this`deferredBytes, this`dropCounters, this`overflowSignaled, this`lost
      ensures Valid()
      ensures MakesRoom(Cfg(), Unsized(old(deferredEvents)), ev, k)
      ensures Unsized(deferredEvents) == Unsized(old(deferredEvents))[k..]
      ensures lost == old(lost) + Unsized(old(deferredEvents))[..k]
    {
      ghost var all := Unsized(deferredEvents);
      k := 0;
      while deferredEvents != [] &&
            (|deferredEvents| >= maxDeferredFinalizedEvents || deferredBytes + bytes > maxDeferredFinalizedBytes)
        invariant Valid()
        invariant k <= |all| && Unsized(deferredEvents) == all[k..] && lost == old(lost) + all[..k]
        invariant forall i | 0 <= i < k :: !Fits(Cfg(), all[i..] + [ev])
        decreases |deferredEvents|
      {
        TotalBytesPush(Unsized(deferredEvents), ev);
        PopLost(all, k, old(lost));
        k := k + 1;
      }
      TotalBytesPush(Unsized(deferredEvents), ev);
    }

    /** Takes the oldest waiter out and counts it as lost. */
    method PopLost(ghost all: Events, ghost k: nat, ghost before: Events)
      requires Valid() && deferredEvents != []
      requires k <= |all| && Unsized(deferredEvents) == all[k..] && lost == before + all[..k]
      modifies this`deferredEvents, this`deferredBytes, this`dropCounters, this`overflowSignaled, this`lost
      ensures Valid() && deferredEvents == old(deferredEvents)[1..]
      ensures k < |all| && Unsized(deferredEvents) == all[k + 1..] && lost == before + all[..k + 1]
    {
      var dropped := deferredEvents[0];
      assert dropped in deferredEvents;
      UnsizedPop(deferredEvents);
      deferredEvents := deferredEvents[1..];
      deferredBytes := deferredBytes - dropped.bytes;
      RecordDroppedEvent(dropped.event);
      assert all[k..][1..] == all[k + 1..] && all[..k] + [all[k]] == all[..k + 1];
    }

    method PushDeferredFinalizedEvent(ev: Sequenced)
      requires Valid()
      modifies this`deferredEvents, this`deferredBytes, this`dropCounters, this`overflowSignaled, this`lost
      ensures Valid()
      ensures View() == Defer(old(View()), ev)
    {
      var bytes := ev.event.EstimatedBytes();
      if bytes > maxDeferredFinalizedBytes {
        RecordDroppedEvent(ev);
        return;
      }
      EvictAndPush(ev, bytes);
    }

    method EvictAndPush(ev: Sequenced, bytes: nat)
      requires Valid() && bytes == ev.event.EstimatedBytes() <= maxDeferredFinalizedBytes
      modifies this`deferredEvents, this`deferredBytes, this`dropCounters, this`overflowSignaled, this`lost
      ensures Valid()
      ensures View() == Defer(old(View()), ev)
    {
      ghost var w := View();
      ghost var k := EvictFor(bytes, ev);
      DeferIs(w, ev, k);
      PushBack(ev, bytes);
    }

    method PushBack(ev: Sequenced, bytes: nat)
      requires Valid() && bytes == ev.event.EstimatedBytes()
      modifies this`deferredEvents, this`deferredBytes
      ensures Valid() && deferredBytes == old(deferredBytes) + bytes
      ensures Unsized(deferredEvents) == Unsized(old(deferredEvents)) + [ev]
    {
      TotalBytesPush(Unsized(deferredEvents), ev);
      deferredBytes := deferredBytes + bytes;
      deferredEvents := deferredEvents + [SizedOutputEvent(ev, bytes)];
      assert Unsized(deferredEvents) == Unsized(old(deferredEvents)) + [ev];
    }

    /** One iteration of the flush loop; a refused event goes back to the front. */
    method TryMoveOldest(ghost waiting: Events, ghost moved: nat) returns (ok: bool)
      requires Valid() && deferredEvents != []
      requires moved <= |waiting| && Unsized(deferredEvents) == waiting[moved..]
      modifies this`tx, this`deferredEvents, this`deferredBytes
      ensures Valid()
      ensures ok == (old(tx).open && |old(tx).queue| < capacity)
      ensures ok ==> moved < |waiting| && Unsized(deferredEvents) == waiting[moved + 1..]
      ensures ok ==> |deferredEvents| < |old(deferredEvents)|
      ensures ok ==> forall q: Events | old(tx).queue == q + waiting[..moved] ::
                       tx == old(tx).(queue := q + waiting[..moved + 1])
      ensures !ok ==> tx == old(tx) && deferredEvents == old(deferredEvents)
    {
      var pending := deferredEvents[0];
      assert pending in deferredEvents;
      UnsizedPop(deferredEvents);
      ok := TrySend(pending.event);
      if ok {
        deferredEvents := deferredEvents[1..];
        deferredBytes := deferredBytes - pending.bytes;
        assert waiting[moved..][1..] == waiting[moved + 1..];
        assert waiting[..moved] + [pending.event] == waiting[..moved + 1];
      }
    }

    /** The flush loop, up to the first refusal. */
    method MoveWaiters() returns (moved: nat)
      requires Valid()
      modifies this`tx, this`deferredEvents, this`deferredBytes
      ensures Valid()
      ensures moved <= |old(deferredEvents)| && Unsized(deferredEvents) == Unsized(old(deferredEvents))[moved..]
      ensures tx == old(tx).(queue := old(tx).queue + Unsized(old(deferredEvents))[..moved])
      ensures moved == 0 || (tx.open && |tx.queue| <= capacity)
      ensures deferredEvents == [] || !tx.open || |tx.queue| >= capacity
    {
      moved := 0;
      ghost var waiting := Unsized(deferredEvents);
      while deferredEvents != []
        invariant Valid()
        invariant moved <= |waiting| && Unsized(deferredEvents) == waiting[moved..]
        invariant tx == old(tx).(queue := old(tx).queue + waiting[..moved])
        invariant moved == 0 || (tx.open && |tx.queue| <= capacity)
        decreases |deferredEvents|
      {
        var ok := TryMoveOldest(waiting, moved);
        if !ok {
          break;
        }
        moved := moved + 1;
      }
    }

    /** Returns how many events moved into the main channel and how many still wait. */
    method FlushDeferredFinalizedEvents() returns (moved: nat, remaining: nat)
      requires Valid()
      modifies this`tx, this`deferredEvents, this`deferredBytes, this`dropCounters, this`overflowSignaled, this`lost
      ensures Valid()
      ensures View() == FlushDeferred(old(View()))
      ensures remaining == |deferredEvents|
      ensures old(tx).open ==> moved + remaining == |old(deferredEvents)|
      ensures !old(tx).open ==> moved == 0 && remaining == 0
    {
      ghost var w := View();
      moved := MoveWaiters();
      if tx.open {
      } else {
        assert moved == 0 && w.deferred[0..] == w.deferred;
        LoseAllDeferred();
      }
      remaining := |deferredEvents|;
    }

    /** The closed branch of the flush: the receiver is gone, so everything that waits is counted lost. */
    method LoseAllDeferred()
      requires Valid()
      modifies this`deferredEvents, this`deferredBytes, this`dropCounters, this`overflowSignaled, this`lost
      ensures Valid()
      ensures deferredEvents == [] && lost == old(lost) + Unsized(old(deferredEvents))
    {
      ghost var all, k := Unsized(deferredEvents), 0;
      while deferredEvents != []
        invariant Valid()
        invariant k <= |all| && Unsized(deferredEvents) == all[k..] && lost == old(lost) + all[..k]
        decreases |deferredEvents|
      {
        PopLost(all, k, old(lost));
        k := k + 1;
      }
      assert all[..k] == all;
    }

    method FlushReasoningSnapshot()
      requires Valid()
      modifies this`tx, this`nextSequence, this`dropCounters, this`overflowSignaled, this`lost, this`sequenced, reasoningMailbox
      ensures Valid()
      ensures View() == FlushSnapshot(old(View()))
    {
      var snapshot := reasoningMailbox.TakeWithSequence();
      if snapshot.None? {
        return;
      }
      var ev := Number(ReasoningChunk(snapshot.value.text));
      SendOrRecord(ev);
    }

    /** Sends on the main channel, or counts the loss. */
    method SendOrRecord(ev: Sequenced)
      requires Valid()
      modifies this`tx, this`dropCounters, this`overflowSignaled, this`lost
      ensures Valid() && View() == SendOrLose(old(View()), ev)
    {
      var ok := TrySend(ev);
      if !ok {
        RecordDroppedEvent(ev);
      }
    }

    method FailControlDelivery(ev: Sequenced)
      requires Valid() && ev.event.IsApproval()
      modifies this`dropCounters, this`overflowSignaled, this`lost, this`vanished
      ensures Valid()
      ensures View'(None) == if ev.event.ApprovalRequested? then old(View'(None)).Lose([ev])
                             else old(View'(None)).(vanished := old(vanished) + [ev])
    {
      if ev.event.ApprovalRequested? {
        RecordDroppedEvent(ev);
      } else {
        vanished := vanished + [ev];
      }
    }

    method SendControl(ev: Sequenced)
      requires Valid() && ev.event.IsApproval()
      modifies this`approvalTx, this`dropCounters, this`overflowSignaled, this`lost, this`vanished
      ensures Valid()
      ensures View() == SendApproval(old(View()), ev)
    {
      if !approvalAttached {
        FailControlDelivery(ev);
      } else if approvalTx.open {
        approvalTx := approvalTx.Put(ev);
      } else {
        FailControlDelivery(ev);
      }
    }

    /** The end of `emit`: the append and, when the channel refuses, the delivery policy. */
    method AppendOrKeep(ev: Sequenced)
      requires Valid() && !ev.event.IsApproval()
      modifies this`tx, this`priorityTx, this`deferredEvents, this`deferredBytes, this`dropCounters, this`overflowSignaled, this`lost
      ensures Valid()
      ensures View() == Append(old(View()), ev)
    {
      var ok := TrySend(ev);
      if !ok {
        KeepRefused(ev);
      }
    }

    /** What becomes of an event that the main channel refused. */
    method KeepRefused(ev: Sequenced)
      requires Valid() && !ev.event.IsApproval() && !View().CanSend()
      modifies this`priorityTx, this`deferredEvents, this`deferredBytes, this`dropCounters, this`overflowSignaled, this`lost
      ensures Valid()
      ensures View() == Append(old(View()), ev)
    {
      if ev.event.IsLossy() {
        RecordDroppedEvent(ev);
      } else if ev.event.IsCritical() {
        if priorityTx.open {
          priorityTx := priorityTx.Put(ev);
        } else {
          RecordDroppedEvent(ev);
        }
      } else {
        PushDeferredFinalizedEvent(ev);
      }
    }

    /** `emit` once the event has its number. */
    method Deliver(ev: Sequenced)
      requires Valid()
      modifies this`tx, this`priorityTx, this`approvalTx, this`deferredEvents, this`deferredBytes,
               this`dropCounters, this`overflowSignaled, this`lost, this`vanished
      ensures Valid()
      ensures View() == Route(old(View()), ev)
    {
      if ev.event.IsApproval() {
        SendControl(ev);
        return;
      }
      if !ev.event.IsLossy() {
        var moved, remaining := FlushDeferredFinalizedEvents();
      }
      AppendOrKeep(ev);
    }

    method PostReasoning(chunk: string)
      requires Valid()
      modifies this`nextSequence, reasoningMailbox
      ensures Valid()
      ensures View() == PostChunk(old(View()), chunk)
    {
      var sequence := nextSequence;
      nextSequence := nextSequence + 1;
      reasoningMailbox.AppendWithSequence(chunk, sequence);
    }

    method Number(event: OutputEvent) returns (ev: Sequenced)
      requires Valid()
      modifies this`nextSequence, this`sequenced
      ensures Valid()
      ensures ev == Sequenced(old(nextSequence), event)
      ensures View() == Assign(old(View()), event)
    {
      ev := Sequenced(nextSequence, event);
      nextSequence := nextSequence + 1;
      sequenced := sequenced + [ev];
    }

    method Emit(event: OutputEvent)
      requires Valid()
      modifies this, reasoningMailbox
      ensures Valid()
      ensures View() == OutputProtocol.Emit(old(View()), event)
    {
      if event.ReasoningChunk? {
        PostReasoning(event.chunk);
        return;
      }
      FlushReasoningSnapshot();
      var ev := Number(event);
      Deliver(ev);
    }

    /** True exactly when something was counted lost since the previous call. */
    method TakeOverflowSignal() returns (r: bool)
      requires Valid()
      modifies this`overflowSignaled, this`reported
      ensures Valid()
      ensures r <==> old(reported) < |lost|
      ensures View() == Receiver(old(View()), OutputProtocol.TakeOverflowSignal)
    {
      r := overflowSignaled;
      overflowSignaled := false;
      reported := |lost|;
    }

    method DroppedCount() returns (n: nat)
      requires Valid()
      ensures n == |lost|
    {
      n := dropCounters.Total();
      TallyTotal(lost);
    }

    method HasDeferredFinalizedEvents() returns (r: bool)
      requires Valid()
      ensures r <==> View().deferred != []
    {
      r := deferredEvents != [];
      assert |Unsized(deferredEvents)| == |deferredEvents|;
    }

    method OldestDeferredSequence() returns (r: Option<nat>)
      requires Valid()
      ensures r == if View().deferred == [] then None else Some(View().deferred[0].sequence)
    {
      assert |Unsized(deferredEvents)| == |deferredEvents|;
      r := if deferredEvents == [] then None else Some(deferredEvents[0].event.sequence);
    }

    /** Only the first caller gets the receiver, and with that approvals have somebody to go to. */
    method TakeApprovalRx() returns (receiver: bool)
      requires Valid()
      modifies this`approvalRx, this`approvalAttached
      ensures Valid() && View() == Receiver(old(View()), AttachApproval)
      ensures receiver == !old(approvalAttached) && !approvalRx
    {
      receiver := approvalRx;
      approvalRx := false;
      if receiver {
        approvalAttached := true;
      }
    }
  }
}
