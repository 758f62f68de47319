/** Passes of the drain loop after which a control event overtakes finalized output that was emitted
    before it: one of each kind for every event budget `n`, used up exactly when the channel, of
    capacity `n`, has run empty. The loop's smallest budget is 128. */
module DrainLoopRuns {
  import opened Utf8
  import opened OutputEvents
  import opened OutputProtocol
  import opened OutputRace
  import opened DrainLoop
  import opened DrainPass

  const TURN_END := TurnEnd("")
  const COMPLETION := Completion("")

  function RunConfig(n: nat): Config { Config(n, 4, 100) }

  /** The writer's state with these events numbered, this main lane, these waiters, this control lane. */
  function At(n: nat, sequenced: Events, main: Lane, deferred: Events, priority: Lane, pc: Pc): State {
    State(Init(RunConfig(n)).(next := |sequenced| + 1, sequenced := sequenced, main := main,
                              deferred := deferred, priority := priority), pc)
  }

  const FRESH := Lane([], true, [])
  const EMIT_A: seq<Micro> := [Begin(A), Advance, Advance, Advance]
  const EMIT_B: seq<Micro> := [Begin(B), Advance, Advance, Advance]
  const EMIT_END: seq<Micro> := [Begin(TURN_END), Advance, Advance, Advance]
  const EMIT_COMPLETION: seq<Micro> := [Begin(COMPLETION), Advance, Advance, Advance]
  const EMIT_C: seq<Micro> := [Begin(C), Advance, Advance, Advance] + [Advance]
  const CONTROL: seq<Micro> := [Env(ReceivePriority)]

  ghost predicate Leads(s: State, ms: seq<Micro>, t: State) { MicroRun(s, ms) == t }

  lemma Then(s: State, a: seq<Micro>, t: State, b: seq<Micro>, u: State)
    requires Leads(s, a, t) && Leads(t, b, u)
    ensures Leads(s, a + b, u)
  {
    RunAppend(s, a, b);
  }

  lemma ThenThree(s: State, a: seq<Micro>, t: State, b: seq<Micro>, u: State, c: seq<Micro>, v: State)
    requires Leads(s, a, t) && Leads(t, b, u) && Leads(u, c, v)
    ensures Leads(s, a + (b + c), v)
  {
    Then(t, b, u, c, v);
    Then(s, a, t, b + c, v);
  }

  // ---- filling the channel

  function NumberedLines(k: nat): Events { seq(k, i requires 0 <= i < k => Sequenced(i + 1, A)) }

  function Fill(k: nat): seq<Micro> { if k == 0 then [] else Fill(k - 1) + EMIT_A }

  lemma LineEnters(n: nat, evs: Events, queue: Events)
    requires |queue| < n
    ensures var ev := Sequenced(|evs| + 1, A);
            MicroRun(At(n, evs, Lane(queue, true, []), [], FRESH, Idle), EMIT_A) ==
            At(n, evs + [ev], Lane(queue + [ev], true, []), [], FRESH, Idle)
  {
    RunFour(At(n, evs, Lane(queue, true, []), [], FRESH, Idle), Begin(A), Advance, Advance, Advance);
  }

  lemma {:induction false} Filled(n: nat, k: nat)
    requires k <= n
    ensures Leads(Start(RunConfig(n)), Fill(k), At(n, NumberedLines(k), Lane(NumberedLines(k), true, []), [], FRESH, Idle))
  {
    if k > 0 {
      Filled(n, k - 1);
      RunAppend(Start(RunConfig(n)), Fill(k - 1), EMIT_A);
      LineEnters(n, NumberedLines(k - 1), NumberedLines(k - 1));
      assert NumberedLines(k - 1) + [Sequenced(k, A)] == NumberedLines(k);
    }
  }

  lemma LineIsRefused(n: nat, evs: Events, main: Lane, priority: Lane)
    requires n >= 1 && main.open && |main.queue| == n
    ensures var ev := Sequenced(|evs| + 1, B);
            MicroNext(MicroNext(MicroNext(At(n, evs, main, [], priority, Idle), Begin(B)), Advance), Advance) ==
            At(n, evs + [ev], main, [], priority, Appending(ev))
  {
  }

  /** A finalized line that finds the channel full and nobody waiting waits. */
  lemma LineWaits(n: nat, evs: Events, main: Lane, priority: Lane)
    requires n >= 1 && main.open && |main.queue| == n
    ensures var ev := Sequenced(|evs| + 1, B);
            Leads(At(n, evs, main, [], priority, Idle), EMIT_B, At(n, evs + [ev], main, [ev], priority, Idle))
  {
    var ev := Sequenced(|evs| + 1, B);
    RunFour(At(n, evs, main, [], priority, Idle), Begin(B), Advance, Advance, Advance);
    LineIsRefused(n, evs, main, priority);
    assert B.EstimatedBytes() == ByteLen("b") <= 4;
    DeferIntoEmpty(At(n, evs + [ev], main, [], priority, Appending(ev)).w, ev);
  }

  lemma DeferIntoEmpty(w: Writer, b: Sequenced)
    requires w.cfg.Valid() && w.deferred == [] && b.event.EstimatedBytes() <= w.cfg.maxBytes
    ensures Defer(w, b) == w.(deferred := [b])
  {
    var all := w.deferred + [b];
    assert all == [b] && all[0..] == all && all[1..] == [] && all[..0] == [];
    assert Fits(w.cfg, all);
    assert w.lost + [] == w.lost;
  }

  /** A control event that finds the channel full takes the priority lane. */
  lemma ControlGoesAhead(n: nat, evs: Events, main: Lane, deferred: Events, e: OutputEvent, priority: Lane)
    requires main.open && |main.queue| == n && priority.open && (e == TURN_END || e == COMPLETION)
    ensures var ev := Sequenced(|evs| + 1, e);
            Leads(At(n, evs, main, deferred, priority, Idle), [Begin(e), Advance, Advance, Advance],
                  At(n, evs + [ev], main, deferred, priority.Put(ev), Idle))
  {
    RunFour(At(n, evs, main, deferred, priority, Idle), Begin(e), Advance, Advance, Advance);
  }

  lemma ControlReceived(n: nat, evs: Events, main: Lane, deferred: Events, c: Sequenced, queue: Events, delivered: Events)
    ensures Leads(At(n, evs, main, deferred, Lane([c] + queue, true, delivered), Idle), CONTROL,
                  At(n, evs, main, deferred, Lane(queue, true, delivered + [c]), Idle))
  {
    RunOne(At(n, evs, main, deferred, Lane([c] + queue, true, delivered), Idle), Env(ReceivePriority));
    assert ([c] + queue)[1..] == queue;
  }

  // ---- the pass

  function Drains(k: nat): seq<Act> { seq(k, _ => Drain) }

  /** The budget lasts for what is buffered, and no longer. */
  lemma {:induction false} BudgetUsedUp(n: nat, evs: Events, queue: Events, delivered: Events, deferred: Events, priority: Lane)
    ensures PassRun(Pass(At(n, evs, Lane(queue, true, delivered), deferred, priority, Idle), Receiving(|queue|)), Drains(|queue| + 1)) ==
            Pass(At(n, evs, Lane([], true, delivered + queue), deferred, priority, Idle), Ended(0))
    decreases |queue|
  {
    var p := Pass(At(n, evs, Lane(queue, true, delivered), deferred, priority, Idle), Receiving(|queue|));
    assert Drains(|queue| + 1)[1..] == Drains(|queue|);
    if queue == [] {
      assert delivered + queue == delivered && Drains(0) == [];
    } else {
      var delivered' := delivered + [queue[0]];
      assert PassNext(p, Drain) == Pass(At(n, evs, Lane(queue[1..], true, delivered'), deferred, priority, Idle), Receiving(|queue[1..]|));
      BudgetUsedUp(n, evs, queue[1..], delivered', deferred, priority);
      assert delivered' + queue[1..] == delivered + queue;
    }
  }

  /** A line behind a waiter moves the waiter into the empty channel and follows it, or waits itself. */
  lemma LineMovesWaiter(n: nat, evs: Events, delivered: Events, b: Sequenced, priority: Lane)
    requires n >= 1
    ensures var ev := Sequenced(|evs| + 1, C);
            MicroRun(At(n, evs, Lane([], true, delivered), [b], priority, Idle), EMIT_C) ==
            if n == 1 then At(n, evs + [ev], Lane([b], true, delivered), [ev], priority, Idle)
            else At(n, evs + [ev], Lane([b, ev], true, delivered), [], priority, Idle)
  {
    var ev := Sequenced(|evs| + 1, C);
    var s := At(n, evs, Lane([], true, delivered), [b], priority, Idle);
    RunAppend(s, [Begin(C), Advance, Advance, Advance], [Advance]);
    WaiterMoves(n, evs, delivered, b, priority);
    var s' := At(n, evs + [ev], Lane([b], true, delivered), [], priority, Appending(ev));
    RunOne(s', Advance);
    if n == 1 {
      assert C.EstimatedBytes() == ByteLen("c") <= 4;
      DeferIntoEmpty(s'.w, ev);
    } else {
      assert [b] + [ev] == [b, ev];
    }
  }

  lemma WaiterMoves(n: nat, evs: Events, delivered: Events, b: Sequenced, priority: Lane)
    requires n >= 1
    ensures var ev := Sequenced(|evs| + 1, C);
            MicroRun(At(n, evs, Lane([], true, delivered), [b], priority, Idle), [Begin(C), Advance, Advance, Advance]) ==
            At(n, evs + [ev], Lane([b], true, delivered), [], priority, Appending(ev))
  {
    var s := At(n, evs, Lane([], true, delivered), [b], priority, Idle);
    RunFour(s, Begin(C), Advance, Advance, Advance);
    assert [] + [b] == [b] && [b][1..] == [];
  }

  // ---- the channel is read before the waiters

  /** `n` lines fill the channel, a line waits, and the end of the turn is received ahead of them. */
  lemma BeforeTwoReads(n: nat)
    requires n >= 1
    ensures var b, c := Sequenced(n + 1, B), Sequenced(n + 2, TURN_END);
            MicroRun(Start(RunConfig(n)), Fill(n) + (EMIT_B + (EMIT_END + CONTROL))) ==
            At(n, NumberedLines(n) + [b] + [c], Lane(NumberedLines(n), true, []), [b], Lane([], true, [c]), Idle)
  {
    Filled(n, n);
    TurnEmitted(n, NumberedLines(n));
    var b, c := Sequenced(n + 1, B), Sequenced(n + 2, TURN_END);
    var main := Lane(NumberedLines(n), true, []);
    Then(Start(RunConfig(n)), Fill(n), At(n, NumberedLines(n), main, [], FRESH, Idle), EMIT_B + (EMIT_END + CONTROL),
         At(n, NumberedLines(n) + [b] + [c], main, [b], Lane([], true, [c]), Idle));
  }

  lemma TurnEmitted(n: nat, lines: Events)
    requires n >= 1 && |lines| == n
    ensures var b, c := Sequenced(n + 1, B), Sequenced(n + 2, TURN_END);
            Leads(At(n, lines, Lane(lines, true, []), [], FRESH, Idle), EMIT_B + (EMIT_END + CONTROL),
                  At(n, lines + [b] + [c], Lane(lines, true, []), [b], Lane([], true, [c]), Idle))
  {
    var b, c := Sequenced(n + 1, B), Sequenced(n + 2, TURN_END);
    var main := Lane(lines, true, []);
    var s1 := At(n, lines, main, [], FRESH, Idle);
    var s2 := At(n, lines + [b], main, [b], FRESH, Idle);
    var s3 := At(n, lines + [b] + [c], main, [b], FRESH.Put(c), Idle);
    var s4 := At(n, lines + [b] + [c], main, [b], Lane([], true, [c]), Idle);
    assert Leads(s1, EMIT_B, s2) by { LineWaits(n, lines, main, FRESH); }
    assert Leads(s2, EMIT_END, s3) by { ControlGoesAhead(n, lines + [b], main, [b], TURN_END, FRESH); }
    assert Leads(s3, CONTROL, s4) by { OneReceived(n, lines + [b] + [c], main, [b], c); }
    ThenThree(s1, EMIT_B, s2, EMIT_END, s3, CONTROL, s4);
  }

  lemma OneReceived(n: nat, evs: Events, main: Lane, deferred: Events, c: Sequenced)
    ensures Leads(At(n, evs, main, deferred, FRESH.Put(c), Idle), CONTROL, At(n, evs, main, deferred, Lane([], true, [c]), Idle))
  {
    ControlReceived(n, evs, main, deferred, c, [], []);
    assert FRESH.Put(c) == Lane([c] + [], true, []) && [] + [c] == [c];
  }

  /** The budget ends as the channel runs empty, with "b" waiting. The channel is seen empty, a
      writer's flush moves "b" into it, and then nobody older is seen to wait: the end of the turn
      passes, and "b", emitted before it, is still unread. */
  lemma TwoReadsFail(n: nat)
    requires n >= 1
    ensures var s := MicroRun(Start(RunConfig(n)), Fill(n) + (EMIT_B + (EMIT_END + CONTROL)));
            var p := PassRun(Pass(s, Receiving(n)), Drains(n + 1));
            var t := MicroRun(p.s, EMIT_C);
            && s.w.priority.delivered == [Sequenced(n + 2, TURN_END)]
            && p.phase == Ended(0) && p.s.w.main.queue == []
            && t.pc.Idle? && OldestIsNotBefore(t.w, n + 2)
            && Sequenced(n + 1, B) in t.w.main.queue && !NoneOlderWaits(t.w, n + 2)
  {
    var lines, b, c := NumberedLines(n), Sequenced(n + 1, B), Sequenced(n + 2, TURN_END);
    var evs, priority := lines + [b] + [c], Lane([], true, [c]);
    BeforeTwoReads(n);
    TwoReadsFailFrom(n, evs, lines, b, priority, MicroRun(Start(RunConfig(n)), Fill(n) + (EMIT_B + (EMIT_END + CONTROL))));
  }

  lemma TwoReadsFailFrom(n: nat, evs: Events, lines: Events, b: Sequenced, priority: Lane, s: State)
    requires n >= 1 && |lines| == n && |evs| == n + 2 && b == Sequenced(n + 1, B)
    requires s == At(n, evs, Lane(lines, true, []), [b], priority, Idle)
    ensures var p := PassRun(Pass(s, Receiving(n)), Drains(n + 1));
            var t := MicroRun(p.s, EMIT_C);
            && p.phase == Ended(0) && p.s.w.main.queue == []
            && t.pc.Idle? && OldestIsNotBefore(t.w, n + 2) && b in t.w.main.queue && !NoneOlderWaits(t.w, n + 2)
  {
    BudgetUsedUp(n, evs, lines, [], [b], priority);
    AfterTwoReads(n, evs, [] + lines, b, priority);
  }

  lemma AfterTwoReads(n: nat, evs: Events, delivered: Events, b: Sequenced, priority: Lane)
    requires n >= 1 && |evs| == n + 2 && b == Sequenced(n + 1, B)
    ensures var t := MicroRun(At(n, evs, Lane([], true, delivered), [b], priority, Idle), EMIT_C);
            && t.pc.Idle? && OldestIsNotBefore(t.w, n + 2) && b in t.w.main.queue && !NoneOlderWaits(t.w, n + 2)
  {
    LineMovesWaiter(n, evs, delivered, b, priority);
    UnreadInMain(MicroRun(At(n, evs, Lane([], true, delivered), [b], priority, Idle), EMIT_C).w, b, n + 2);
  }

  lemma UnreadInMain(w: Writer, b: Sequenced, n: nat)
    requires b in w.main.queue && b.event.IsOrdered() && b.sequence < n
    ensures !NoneOlderWaits(w, n)
  {
    assert b in w.main.queue + w.deferred;
  }

  // ---- the test looks at the first control event only

  lemma BeforeBatch(n: nat)
    requires n >= 1
    ensures var c, b, d := Sequenced(n + 1, TURN_END), Sequenced(n + 2, B), Sequenced(n + 3, COMPLETION);
            MicroRun(Start(RunConfig(n)), Fill(n) + (EMIT_END + (EMIT_B + (EMIT_COMPLETION + (CONTROL + CONTROL))))) ==
            At(n, NumberedLines(n) + [c] + [b] + [d], Lane(NumberedLines(n), true, []), [b], Lane([], true, [c, d]), Idle)
  {
    Filled(n, n);
    BatchEmitted(n, NumberedLines(n));
    var c, b, d := Sequenced(n + 1, TURN_END), Sequenced(n + 2, B), Sequenced(n + 3, COMPLETION);
    var main := Lane(NumberedLines(n), true, []);
    Then(Start(RunConfig(n)), Fill(n), At(n, NumberedLines(n), main, [], FRESH, Idle),
         EMIT_END + (EMIT_B + (EMIT_COMPLETION + (CONTROL + CONTROL))),
         At(n, NumberedLines(n) + [c] + [b] + [d], main, [b], Lane([], true, [c, d]), Idle));
  }

  lemma BatchEmitted(n: nat, lines: Events)
    requires n >= 1 && |lines| == n
    ensures var c, b, d := Sequenced(n + 1, TURN_END), Sequenced(n + 2, B), Sequenced(n + 3, COMPLETION);
            Leads(At(n, lines, Lane(lines, true, []), [], FRESH, Idle), EMIT_END + (EMIT_B + (EMIT_COMPLETION + (CONTROL + CONTROL))),
                  At(n, lines + [c] + [b] + [d], Lane(lines, true, []), [b], Lane([], true, [c, d]), Idle))
  {
    var c, b, d := Sequenced(n + 1, TURN_END), Sequenced(n + 2, B), Sequenced(n + 3, COMPLETION);
    var main, one := Lane(lines, true, []), FRESH.Put(c);
    var s1 := At(n, lines, main, [], FRESH, Idle);
    var s2 := At(n, lines + [c], main, [], one, Idle);
    var s5 := At(n, lines + [c] + [b] + [d], main, [b], Lane([], true, [c, d]), Idle);
    assert Leads(s1, EMIT_END, s2) by { ControlGoesAhead(n, lines, main, [], TURN_END, FRESH); }
    assert Leads(s2, EMIT_B + (EMIT_COMPLETION + (CONTROL + CONTROL)), s5) by { SecondControl(n, lines + [c], main, c); }
    Then(s1, EMIT_END, s2, EMIT_B + (EMIT_COMPLETION + (CONTROL + CONTROL)), s5);
  }

  lemma SecondControl(n: nat, evs: Events, main: Lane, c: Sequenced)
    requires n >= 1 && main.open && |main.queue| == n && |evs| == n + 1
    ensures var b, d := Sequenced(n + 2, B), Sequenced(n + 3, COMPLETION);
            Leads(At(n, evs, main, [], FRESH.Put(c), Idle), EMIT_B + (EMIT_COMPLETION + (CONTROL + CONTROL)),
                  At(n, evs + [b] + [d], main, [b], Lane([], true, [c, d]), Idle))
  {
    var b, d, one := Sequenced(n + 2, B), Sequenced(n + 3, COMPLETION), FRESH.Put(c);
    var s2 := At(n, evs, main, [], one, Idle);
    var s3 := At(n, evs + [b], main, [b], one, Idle);
    var s4 := At(n, evs + [b] + [d], main, [b], one.Put(d), Idle);
    var s5 := At(n, evs + [b] + [d], main, [b], Lane([], true, [c, d]), Idle);
    assert Leads(s2, EMIT_B, s3) by { LineWaits(n, evs, main, one); }
    assert Leads(s3, EMIT_COMPLETION, s4) by { ControlGoesAhead(n, evs + [b], main, [b], COMPLETION, one); }
    assert Leads(s4, CONTROL + CONTROL, s5) by {
      BothReceived(n, evs + [b] + [d], main, [b], c, d);
      assert one.Put(d) == Lane([c] + [d], true, []);
    }
    ThenThree(s2, EMIT_B, s3, EMIT_COMPLETION, s4, CONTROL + CONTROL, s5);
  }

  lemma BothReceived(n: nat, evs: Events, main: Lane, deferred: Events, c: Sequenced, d: Sequenced)
    ensures Leads(At(n, evs, main, deferred, Lane([c] + [d], true, []), Idle), CONTROL + CONTROL,
                  At(n, evs, main, deferred, Lane([], true, [c, d]), Idle))
  {
    ControlReceived(n, evs, main, deferred, c, [d], []);
    ControlReceived(n, evs, main, deferred, d, [], [] + [c]);
    assert [d] + [] == [d] && [] + [c] + [d] == [c, d];
    Then(At(n, evs, main, deferred, Lane([c] + [d], true, []), Idle), CONTROL,
         At(n, evs, main, deferred, Lane([d], true, [] + [c]), Idle), CONTROL,
         At(n, evs, main, deferred, Lane([], true, [c, d]), Idle));
  }

  /** No writer interferes: the budget ends as the channel runs empty, with "b" waiting between two
      control events; the first one passes, and the second, applied with it, overtakes "b". */
  lemma BatchFails(n: nat)
    requires n >= 1
    ensures var s := MicroRun(Start(RunConfig(n)), Fill(n) + (EMIT_END + (EMIT_B + (EMIT_COMPLETION + (CONTROL + CONTROL)))));
            var p := PassRun(Pass(s, Receiving(n)), Drains(n + 1));
            && s.w.priority.delivered == [Sequenced(n + 1, TURN_END), Sequenced(n + 3, COMPLETION)]
            && p.phase == Ended(0) && p.s.w.main.queue == [] && p.s.w.deferred == [Sequenced(n + 2, B)]
            && OldestIsNotBefore(p.s.w, n + 1) && !NoneOlderWaits(p.s.w, n + 3)
  {
    var lines, c, b, d := NumberedLines(n), Sequenced(n + 1, TURN_END), Sequenced(n + 2, B), Sequenced(n + 3, COMPLETION);
    var evs, priority := lines + [c] + [b] + [d], Lane([], true, [c, d]);
    BeforeBatch(n);
    BatchFailsFrom(n, evs, lines, b, priority,
                   MicroRun(Start(RunConfig(n)), Fill(n) + (EMIT_END + (EMIT_B + (EMIT_COMPLETION + (CONTROL + CONTROL))))));
  }

  lemma BatchFailsFrom(n: nat, evs: Events, lines: Events, b: Sequenced, priority: Lane, s: State)
    requires |lines| == n && b == Sequenced(n + 2, B)
    requires s == At(n, evs, Lane(lines, true, []), [b], priority, Idle)
    ensures var p := PassRun(Pass(s, Receiving(n)), Drains(n + 1));
            && p.phase == Ended(0) && p.s.w.main.queue == [] && p.s.w.deferred == [b]
            && OldestIsNotBefore(p.s.w, n + 1) && !NoneOlderWaits(p.s.w, n + 3)
  {
    BudgetUsedUp(n, evs, lines, [], [b], priority);
    WaiterIsUnread(At(n, evs, Lane([], true, [] + lines), [b], priority, Idle).w, b, n + 3);
  }

  lemma WaiterIsUnread(w: Writer, b: Sequenced, n: nat)
    requires b in w.deferred && b.event.IsOrdered() && b.sequence < n
    ensures !NoneOlderWaits(w, n)
  {
    assert b in w.main.queue + w.deferred;
  }

  // ---- a snapshot that has overtaken a waiter

  const SNAPSHOT := ModelUpdateLine("m")
  const EMIT_SNAPSHOT: seq<Act> := [Meanwhile(Begin(SNAPSHOT)), Meanwhile(Advance), Meanwhile(Advance)]

  /** A snapshot takes the free slot although somebody waits. */
  lemma SnapshotEnters(n: nat, evs: Events, queue: Events, delivered: Events, deferred: Events, priority: Lane, budget: nat)
    requires |queue| < n
    ensures var ev := Sequenced(|evs| + 1, SNAPSHOT);
            PassRun(Pass(At(n, evs, Lane(queue, true, delivered), deferred, priority, Idle), Receiving(budget)), EMIT_SNAPSHOT) ==
            Pass(At(n, evs + [ev], Lane(queue + [ev], true, delivered), deferred, priority, Idle), Receiving(budget))
  {
    var p := Pass(At(n, evs, Lane(queue, true, delivered), deferred, priority, Idle), Receiving(budget));
    PassThree(p, Meanwhile(Begin(SNAPSHOT)), Meanwhile(Advance), Meanwhile(Advance));
  }

  lemma PassThree(p: Pass, a: Act, b: Act, c: Act)
    ensures PassRun(p, [a, b, c]) == PassNext(PassNext(PassNext(p, a), b), c)
  {
    assert [a, b, c][1..] == [b, c] && [b, c][1..] == [c] && [c][1..] == [];
    assert PassRun(PassNext(PassNext(p, a), b), [c]) == PassNext(PassNext(PassNext(p, a), b), c);
    assert PassRun(PassNext(p, a), [b, c]) == PassRun(PassNext(PassNext(p, a), b), [c]);
  }

  /** Receiving what is in front, with budget to spare. */
  lemma {:induction false} FrontReceived(n: nat, evs: Events, front: Events, queue: Events, delivered: Events,
                                        deferred: Events, priority: Lane, budget: nat)
    requires |front| < budget
    ensures PassRun(Pass(At(n, evs, Lane(front + queue, true, delivered), deferred, priority, Idle), Receiving(budget)), Drains(|front|)) ==
            Pass(At(n, evs, Lane(queue, true, delivered + front), deferred, priority, Idle), Receiving(budget - |front|))
    decreases |front|
  {
    var p := Pass(At(n, evs, Lane(front + queue, true, delivered), deferred, priority, Idle), Receiving(budget));
    if front == [] {
      assert front + queue == queue && delivered + front == delivered && Drains(0) == [];
    } else {
      var delivered' := delivered + [front[0]];
      assert Drains(|front|)[1..] == Drains(|front| - 1) && (front + queue)[1..] == front[1..] + queue;
      assert PassNext(p, Drain) == Pass(At(n, evs, Lane(front[1..] + queue, true, delivered'), deferred, priority, Idle), Receiving(budget - 1));
      FrontReceived(n, evs, front[1..], queue, delivered', deferred, priority, budget - 1);
      assert delivered' + front[1..] == delivered + front;
    }
  }

  /** In the middle of a pass with budget to spare: a snapshot is next in the channel, with a larger
      number than the end of the turn, which is therefore applied before it; and "b", emitted before
      the end of the turn, still waits. */
  lemma SnapshotLetsControlPass(n: nat, budget: nat)
    requires 1 <= n < budget
    ensures var s := MicroRun(Start(RunConfig(n)), Fill(n) + (EMIT_B + (EMIT_END + CONTROL)));
            var p := PassRun(Pass(s, Receiving(budget)), Drains(1) + (EMIT_SNAPSHOT + Drains(n - 1)));
            && s.w.priority.delivered == [Sequenced(n + 2, TURN_END)]
            && p.phase == Receiving(budget - n) && p.s.w.main.queue == [Sequenced(n + 3, SNAPSHOT)]
            && p.s.w.deferred == [Sequenced(n + 1, B)] && !NoneOlderWaits(p.s.w, n + 2)
  {
    var b, c := Sequenced(n + 1, B), Sequenced(n + 2, TURN_END);
    BeforeTwoReads(n);
    SnapshotPassesFrom(n, budget, NumberedLines(n) + [b] + [c], NumberedLines(n), b, Lane([], true, [c]),
                       MicroRun(Start(RunConfig(n)), Fill(n) + (EMIT_B + (EMIT_END + CONTROL))));
  }

  lemma SnapshotPassesFrom(n: nat, budget: nat, evs: Events, lines: Events, b: Sequenced, priority: Lane, s: State)
    requires 1 <= n < budget && |lines| == n && |evs| == n + 2 && b == Sequenced(n + 1, B)
    requires s == At(n, evs, Lane(lines, true, []), [b], priority, Idle)
    ensures var p := PassRun(Pass(s, Receiving(budget)), Drains(1) + (EMIT_SNAPSHOT + Drains(n - 1)));
            && p.phase == Receiving(budget - n) && p.s.w.main.queue == [Sequenced(n + 3, SNAPSHOT)]
            && p.s.w.deferred == [b] && !NoneOlderWaits(p.s.w, n + 2)
  {
    var m, rest := Sequenced(n + 3, SNAPSHOT), lines[1..];
    var p0 := Pass(s, Receiving(budget));
    assert lines == lines[..1] + rest;
    FrontReceived(n, evs, lines[..1], rest, [], [b], priority, budget);
    var p1 := Pass(At(n, evs, Lane(rest, true, [] + lines[..1]), [b], priority, Idle), Receiving(budget - 1));
    SnapshotEnters(n, evs, rest, [] + lines[..1], [b], priority, budget - 1);
    FrontReceived(n, evs + [m], rest, [m], [] + lines[..1], [b], priority, budget - 1);
    PassThen(p0, Drains(1), EMIT_SNAPSHOT + Drains(n - 1));
    PassThen(p1, EMIT_SNAPSHOT, Drains(n - 1));
    WaiterIsUnread(At(n, evs + [m], Lane([m], true, [] + lines[..1] + rest), [b], priority, Idle).w, b, n + 2);
  }
}
