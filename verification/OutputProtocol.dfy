/** The delivery protocol of ChannelOutputWriter (src/cli/output.rs) as a transition system over
    values: the writer's steps under its mutex, and the receivers' steps. The logs `delivered`,
    `sequenced`, `lost` and `vanished` are for reasoning only; nothing branches on them. */
module OutputProtocol {
  import opened Utf8
  import opened OutputEvents
  import opened ReasoningMailbox

  type Events = seq<Sequenced>

  /** One channel: what is buffered, whether a receiver still exists, what it has received. */
  datatype Lane = Lane(queue: Events, open: bool, delivered: Events) {
    function All(): Events { delivered + queue }
    function Put(ev: Sequenced): Lane { this.(queue := queue + [ev]) }
    function Receive(): Lane {
      if queue == [] then this else this.(queue := queue[1..], delivered := delivered + [queue[0]])
    }
    function Close(): Lane { this.(open := false) }
  }

  datatype Config = Config(capacity: nat, maxEvents: nat, maxBytes: nat) {
    predicate Valid() { capacity >= 1 && maxEvents >= 1 && maxBytes >= 1 }
  }

  datatype Writer = Writer(
    cfg: Config,
    next: nat,
    main: Lane,
    priority: Lane,
    approval: Lane,
    approvalAttached: bool,
    deferred: Events,
    mailbox: Option<Mail>,
    sequenced: Events,   // every event that was given a place in the delivery order, oldest first
    lost: Events,        // losses that were counted, oldest first
    vanished: Events,    // ApprovalFinished events without a receiver: not counted
    reported: nat)       // how many losses the overflow signal has already reported
  {
    predicate CanSend() { main.open && |main.queue| < cfg.capacity }
    function Send(ev: Sequenced): Writer { this.(main := main.Put(ev)) }
    function Lose(evs: Events): Writer { this.(lost := lost + evs) }
    function Free(): nat { if |main.queue| <= cfg.capacity then cfg.capacity - |main.queue| else 0 }

    /** Everything that went, or still waits to go, through the main channel, in channel order. */
    function Pipeline(): Events { main.All() + deferred }
  }

  function Init(cfg: Config): Writer {
    Writer(cfg, 1, Lane([], true, []), Lane([], true, []), Lane([], true, []), false, [], None, [], [], [], 0)
  }

  // ---- the deferred queue and its bounds

  function TotalBytes(evs: Events): nat {
    if evs == [] then 0 else evs[0].event.EstimatedBytes() + TotalBytes(evs[1..])
  }

  predicate Fits(cfg: Config, evs: Events) {
    |evs| <= cfg.maxEvents && TotalBytes(evs) <= cfg.maxBytes
  }

  /** The least number of oldest events whose removal makes the rest fit both bounds. */
  function Excess(cfg: Config, evs: Events): (k: nat)
    ensures k <= |evs| && Fits(cfg, evs[k..])
    ensures forall i | 0 <= i < k :: !Fits(cfg, evs[i..])
  {
    if Fits(cfg, evs) then
      assert evs[0..] == evs;
      0
    else
      var k' := Excess(cfg, evs[1..]);
      assert evs[1..][k'..] == evs[k' + 1..];
      assert forall i | 0 < i < k' + 1 :: evs[i..] == evs[1..][i - 1..];
      assert evs[0..] == evs;
      k' + 1
  }

  /** Deferring keeps the longest suffix of the old queue and the new event that fits. */
  function Defer(w: Writer, ev: Sequenced): Writer {
    if ev.event.EstimatedBytes() > w.cfg.maxBytes then w.Lose([ev])
    else
      var all := w.deferred + [ev];
      var k := Excess(w.cfg, all);
      w.(lost := w.lost + all[..k], deferred := all[k..])
  }

  /** Flushing moves the oldest waiters into the free slots, or loses all of them when the
      receiver is gone. */
  function FlushDeferred(w: Writer): Writer {
    if !w.main.open then w.(deferred := [], lost := w.lost + w.deferred)
    else
      var n := if w.Free() < |w.deferred| then w.Free() else |w.deferred|;
      w.(main := w.main.(queue := w.main.queue + w.deferred[..n]), deferred := w.deferred[n..])
  }

  // ---- emit, in the order of its phases

  function TakeSnapshot(w: Writer): Writer
    requires w.mailbox.Some?
  {
    var ev := Sequenced(w.next, ReasoningChunk(w.mailbox.value.text));
    w.(mailbox := None, next := w.next + 1, sequenced := w.sequenced + [ev])
  }

  function SendOrLose(w: Writer, ev: Sequenced): Writer {
    if w.CanSend() then w.Send(ev) else w.Lose([ev])
  }

  function FlushSnapshot(w: Writer): Writer {
    if w.mailbox.None? then w
    else SendOrLose(TakeSnapshot(w), Sequenced(w.next, ReasoningChunk(w.mailbox.value.text)))
  }

  function Assign(w: Writer, e: OutputEvent): Writer {
    w.(next := w.next + 1, sequenced := w.sequenced + [Sequenced(w.next, e)])
  }

  function SendApproval(w: Writer, ev: Sequenced): Writer {
    if w.approvalAttached && w.approval.open then w.(approval := w.approval.Put(ev))
    else if ev.event.ApprovalRequested? then w.Lose([ev])
    else w.(vanished := w.vanished + [ev])
  }

  function Append(w: Writer, ev: Sequenced): Writer {
    if w.CanSend() then w.Send(ev)
    else if ev.event.IsLossy() then w.Lose([ev])
    else if ev.event.IsCritical() then
      if w.priority.open then w.(priority := w.priority.Put(ev)) else w.Lose([ev])
    else Defer(w, ev)
  }

  function Route(w: Writer, ev: Sequenced): Writer {
    if ev.event.IsApproval() then SendApproval(w, ev)
    else Append(if ev.event.IsLossy() then w else FlushDeferred(w), ev)
  }

  function PostChunk(w: Writer, chunk: string): Writer {
    w.(next := w.next + 1, mailbox := AppendChunk(w.mailbox, chunk, w.next))
  }

  function Emit(w: Writer, e: OutputEvent): Writer {
    if e.ReasoningChunk? then PostChunk(w, e.chunk)
    else
      var w1 := FlushSnapshot(w);
      Route(Assign(w1, e), Sequenced(w1.next, e))
  }

  // ---- all steps

  datatype Step =
    | EmitStep(event: OutputEvent)
    | FlushStep
    | ReceiverStep(action: ReceiverAction)

  datatype ReceiverAction =
    | ReceiveMain | ReceivePriority | ReceiveApproval
    | CloseMain | ClosePriority | CloseApproval
    | AttachApproval
    | TakeMailbox
    | TakeOverflowSignal

  function Receiver(w: Writer, a: ReceiverAction): Writer {
    match a
    case ReceiveMain => w.(main := w.main.Receive())
    case ReceivePriority => w.(priority := w.priority.Receive())
    case ReceiveApproval => if w.approvalAttached then w.(approval := w.approval.Receive()) else w
    case CloseMain => w.(main := w.main.Close())
    case ClosePriority => w.(priority := w.priority.Close())
    case CloseApproval => if w.approvalAttached then w.(approval := w.approval.Close()) else w
    case AttachApproval => w.(approvalAttached := true)
    case TakeMailbox => w.(mailbox := None)
    case TakeOverflowSignal => w.(reported := |w.lost|)
  }

  function Next(w: Writer, s: Step): Writer {
    match s
    case EmitStep(e) => Emit(w, e)
    case FlushStep => FlushDeferred(w)
    case ReceiverStep(a) => Receiver(w, a)
  }

  function Run(w: Writer, steps: seq<Step>): Writer
    decreases steps
  {
    if steps == [] then w else Run(Next(w, steps[0]), steps[1..])
  }
}
