/** One pass of the drain loop over the main channel (src/cli/interactive.rs, lines 2134-2264), as
    steps among those of the writers: receive while the event budget lasts, then merge the waiters by
    a flush, and start over unless that moved nothing. A pass that runs out of time applies no
    control event at its end (line 2288), so the passes here have time left. */
module DrainPass {
  import opened OutputEvents
  import opened OutputProtocol
  import opened OutputRace
  import opened DrainLoop

  datatype Phase =
    | Receiving(budget: nat)
    | Merging(budget: nat)               // the channel was found empty; waiting for the mutex
    | MovingWaiters(budget: nat, moved: nat)   // holding it
    | Ended(budget: nat)

  datatype Pass = Pass(s: State, phase: Phase)

  datatype Act =
    | Meanwhile(m: Micro)   // somebody else steps
    | Drain                 // the pass performs its next operation

  /** The pass owns the main receiver, and the mutex while it flushes. */
  predicate IsOthers(phase: Phase, m: Micro) {
    m != Env(ReceiveMain) && m != Env(CloseMain) && m != BeginFlush && !(phase.MovingWaiters? && m == Advance)
  }

  function DrainNext(p: Pass): Pass {
    match p.phase
    case Receiving(b) =>
      if b == 0 then p.(phase := Ended(0))
      else if p.s.w.main.queue != [] then Pass(MicroNext(p.s, Env(ReceiveMain)), Receiving(b - 1))
      else p.(phase := Merging(b))
    case Merging(b) => if p.s.pc.Idle? then Pass(MicroNext(p.s, BeginFlush), MovingWaiters(b, 0)) else p
    case MovingWaiters(b, moved) =>
      var s := MicroNext(p.s, Advance);
      if FlushOne(p.s.w).Some? then Pass(s, MovingWaiters(b, moved + 1))
      else Pass(s, if moved == 0 then Ended(b) else Receiving(b))
    case Ended(_) => p
  }

  function PassNext(p: Pass, a: Act): Pass {
    match a
    case Meanwhile(m) => if IsOthers(p.phase, m) then p.(s := MicroNext(p.s, m)) else p
    case Drain => DrainNext(p)
  }

  function PassRun(p: Pass, acts: seq<Act>): Pass
    decreases acts
  {
    if acts == [] then p else PassRun(PassNext(p, acts[0]), acts[1..])
  }

  lemma {:induction false} PassThen(p: Pass, a: seq<Act>, b: seq<Act>)
    ensures PassRun(p, a + b) == PassRun(PassRun(p, a), b)
    decreases a
  {
    if a == [] {
      assert a + b == b;
    } else {
      assert (a + b)[1..] == a[1..] + b;
      PassThen(PassNext(p, a[0]), a[1..], b);
    }
  }

  // ---- once nothing older waits, nothing older appears

  lemma StepKeepsNoneOlder(s: State, m: Micro, c: Sequenced)
    requires Reading(s, c) && m != Env(ReceiveMain) && NoneOlderWaits(s.w, c.sequence)
    ensures Reading(MicroNext(s, m), c) && NoneOlderWaits(MicroNext(s, m).w, c.sequence)
  {
    var w, w' := s.w, MicroNext(s, m).w;
    StepAdds(s, m, c);
    FrontDecides(w, c.sequence);
    forall x | x in w'.main.queue + w'.deferred && x.event.IsOrdered() ensures c.sequence <= x.sequence {
      assert x in w'.main.queue || x in w'.deferred;
      assert x in w.main.queue || x in w.deferred ==> x in w.main.queue + w.deferred;
    }
  }

  lemma {:induction false} NothingOlderAppears(s: State, ms: seq<Micro>, c: Sequenced)
    requires Reading(s, c) && NoReceive(ms) && NoneOlderWaits(s.w, c.sequence)
    ensures NoneOlderWaits(MicroRun(s, ms).w, c.sequence)
    decreases ms
  {
    if ms != [] {
      StepKeepsNoneOlder(s, ms[0], c);
      NothingOlderAppears(MicroNext(s, ms[0]), ms[1..], c);
    }
  }

  // ---- what holds throughout a pass

  /** A pass that ended with budget left had flushed: if the channel is empty since, nothing older
      than the control event waits. */
  ghost predicate InPass(p: Pass, c: Sequenced) {
    && Reading(p.s, c) && p.s.w.main.open
    && (p.phase.MovingWaiters? ==> p.s.pc == FlushingOnly)
    && (p.phase.Ended? && p.phase.budget > 0 && p.s.w.main.queue == [] ==> NoneOlderWaits(p.s.w, c.sequence))
  }

  lemma ReceiveKeepsReading(s: State, c: Sequenced)
    requires Reading(s, c)
    ensures Reading(MicroNext(s, Env(ReceiveMain)), c)
  {
    MicroNextSafe(s, Env(ReceiveMain));
  }

  lemma OtherKeepsPass(p: Pass, m: Micro, c: Sequenced)
    requires InPass(p, c) && IsOthers(p.phase, m)
    ensures InPass(p.(s := MicroNext(p.s, m)), c)
  {
    StepAdds(p.s, m, c);
    OthersLeaveAlone(p, m);
    if p.phase.Ended? && p.phase.budget > 0 && p.s.w.main.queue == [] { StepKeepsNoneOlder(p.s, m, c); }
  }

  lemma OthersLeaveAlone(p: Pass, m: Micro)
    requires IsOthers(p.phase, m)
    ensures MicroNext(p.s, m).w.main.open == p.s.w.main.open
    ensures p.phase.MovingWaiters? && p.s.pc == FlushingOnly ==> MicroNext(p.s, m).pc == FlushingOnly
  {
  }

  lemma FlushKeepsPass(p: Pass, c: Sequenced)
    requires InPass(p, c) && p.phase.MovingWaiters?
    ensures InPass(DrainNext(p), c)
  {
    StepAdds(p.s, Advance, c);
  }

  lemma DrainKeepsPass(p: Pass, c: Sequenced)
    requires InPass(p, c)
    ensures InPass(DrainNext(p), c)
  {
    match p.phase
    case Receiving(b) => if b > 0 && p.s.w.main.queue != [] { ReceiveKeepsReading(p.s, c); }
    case Merging(b) => if p.s.pc.Idle? { StepAdds(p.s, BeginFlush, c); }
    case MovingWaiters(_, _) => FlushKeepsPass(p, c);
    case Ended(_) =>
  }

  lemma {:induction false} RunKeepsPass(p: Pass, acts: seq<Act>, c: Sequenced)
    requires InPass(p, c)
    ensures InPass(PassRun(p, acts), c)
    decreases acts
  {
    if acts != [] {
      match acts[0] {
        case Meanwhile(m) => if IsOthers(p.phase, m) { OtherKeepsPass(p, m, c); }
        case Drain => DrainKeepsPass(p, c);
      }
      RunKeepsPass(PassNext(p, acts[0]), acts[1..], c);
    }
  }

  /** Whatever the budget and whatever the writers do before, between and after the two reads: if a
      pass ends because a flush moved nothing, and the channel is then seen empty, every control
      event received before the pass may be applied. So the test at the end of a pass can only be
      wrong where the pass ended because its event budget was used up. */
  lemma FlushedPassIsRight(s: State, budget: nat, acts: seq<Act>, after: seq<Micro>, c: Sequenced)
    requires Reachable(s) && s.w.main.open && c in s.w.priority.delivered && NoReceive(after)
    ensures var p := PassRun(Pass(s, Receiving(budget)), acts);
            p.phase.Ended? && p.phase.budget > 0 && p.s.w.main.queue == [] ==>
              NoneOlderWaits(MicroRun(p.s, after).w, c.sequence)
  {
    ReachableWaitersSorted(s);
    RunKeepsPass(Pass(s, Receiving(budget)), acts, c);
    var p := PassRun(Pass(s, Receiving(budget)), acts);
    if p.phase.Ended? && p.phase.budget > 0 && p.s.w.main.queue == [] { NothingOlderAppears(p.s, after, c); }
  }
}
