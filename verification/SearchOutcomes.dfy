/** What a search of the workspace index answers (src/core/file_search.rs, lines 297-342), said by the
    states of a run before and after its steps. */
module SearchOutcomes {
  import opened Utf8
  import opened RefreshProtocol

  /** The state after the first `k` steps. */
  ghost function At(s: State, steps: seq<Step>, k: nat): State
    requires k <= |steps|
  {
    Run(s, steps[..k])
  }

  lemma AtNext(s: State, steps: seq<Step>, k: nat)
    requires steps != [] && 1 <= k <= |steps|
    ensures At(s, steps, k) == At(Next(s, steps[0]), steps[1..], k - 1)
  {
    assert steps[..k][1..] == steps[1..][..k - 1] && steps[..k][0] == steps[0];
  }

  /** The cache holds an unexpired index of this workspace. */
  predicate HoldsUnexpired(s: State, path: Path, index: RefreshId) {
    path in s.cache && s.cache[path].index == index && s.clock < s.cache[path].timestamp + CACHE_TTL
  }

  predicate HoldsExpired(s: State, path: Path, index: RefreshId) {
    path in s.cache && s.cache[path].index == index && s.clock >= s.cache[path].timestamp + CACHE_TTL
  }

  predicate IsSearching(s: State, id: SearchId) {
    id in s.searches && !s.searches[id].Done? && !s.searches[id].Preloaded?
  }

  /** One step brings the answer. A fresh answer is in the cache, unexpired, at that step; an empty
      one says that a refresh is pending exactly if one is registered at that step. */
  lemma AnswerIsTrue(s: State, step: Step, id: SearchId)
    requires IsSearching(s, id) && id in Next(s, step).searches && Next(s, step).searches[id].Done?
    ensures step == SearchStep(id)
    ensures var q, a := s.searches[id], Next(s, step).searches[id];
            && (a.index.Some? && !a.refreshPending ==> HoldsUnexpired(s, q.path, a.index.value))
            && (a.index.None? ==> (a.refreshPending <==> q.path in s.refreshing))
            && (a.index.Some? && a.refreshPending ==> q.Returning? && q.stale == a.index)
  {
  }

  lemma AnswersStay(s: State, step: Step, id: SearchId)
    requires id in s.searches
    ensures id in Next(s, step).searches
    ensures s.searches[id].Done? ==> Next(s, step).searches[id] == s.searches[id]
    ensures IsSearching(Next(s, step), id) ==> IsSearching(s, id) && Next(s, step).searches[id].path == s.searches[id].path
  {
  }

  /** In every run that answers a search, the answer was true at the step that gave it. */
  lemma {:induction false} AnswersAreTrue(s: State, steps: seq<Step>, id: SearchId) returns (k: nat)
    requires IsSearching(s, id) && id in Run(s, steps).searches && Run(s, steps).searches[id].Done?
    ensures k < |steps| && steps[k] == SearchStep(id) && IsSearching(At(s, steps, k), id)
    ensures var a, at, path := Run(s, steps).searches[id], At(s, steps, k), s.searches[id].path;
            && (a.index.Some? && !a.refreshPending ==> HoldsUnexpired(at, path, a.index.value))
            && (a.index.None? ==> (a.refreshPending <==> path in at.refreshing))
    decreases steps
  {
    var s1, rest := Next(s, steps[0]), steps[1..];
    AnswersStay(s, steps[0], id);
    if s1.searches[id].Done? {
      k := 0;
      assert steps[..0] == [];
      AnswerIsTrue(s, steps[0], id);
      DoneStays(s1, rest, id);
    } else {
      assert IsSearching(s1, id) by {
        if s1.searches[id].Preloaded? { PreloadedStays(s1, rest, id); }
      }
      var j := AnswersAreTrue(s1, rest, id);
      k := j + 1;
      AtNext(s, steps, k);
    }
  }

  lemma {:induction false} DoneStays(s: State, steps: seq<Step>, id: SearchId)
    requires id in s.searches && s.searches[id].Done?
    ensures id in Run(s, steps).searches && Run(s, steps).searches[id] == s.searches[id]
    decreases steps
  {
    if steps != [] {
      AnswersStay(s, steps[0], id);
      DoneStays(Next(s, steps[0]), steps[1..], id);
    }
  }

  lemma {:induction false} PreloadedStays(s: State, steps: seq<Step>, id: SearchId)
    requires id in s.searches && s.searches[id].Preloaded?
    ensures id in Run(s, steps).searches && Run(s, steps).searches[id] == Preloaded
    decreases steps
  {
    if steps != [] { PreloadedStays(Next(s, steps[0]), steps[1..], id); }
  }

  /** How many steps the search itself takes. */
  function OwnSteps(steps: seq<Step>, id: SearchId): nat {
    if steps == [] then 0 else (if steps[0] == SearchStep(id) then 1 else 0) + OwnSteps(steps[1..], id)
  }

  // ---- a search that finds an unexpired index

  lemma {:induction false} UnmovedSearch(s: State, steps: seq<Step>, id: SearchId)
    requires id in s.searches && !s.searches[id].Waiting? && OwnSteps(steps, id) == 0
    ensures id in Run(s, steps).searches && Run(s, steps).searches[id] == s.searches[id]
    decreases steps
  {
    if steps != [] { UnmovedSearch(Next(s, steps[0]), steps[1..], id); }
  }

  /** A search that starts on an unexpired index answers it, in its first step. */
  lemma FreshSearch(s: State, steps: seq<Step>, id: SearchId, path: Path, index: RefreshId)
    requires id in s.searches && s.searches[id] == Starting(path) && HoldsUnexpired(s, path, index)
    requires steps != [] && steps[0] == SearchStep(id)
    ensures id in Run(s, steps).searches && Run(s, steps).searches[id] == Done(Some(index), false)
  {
    DoneStays(Next(s, steps[0]), steps[1..], id);
  }

  // ---- a search that finds an expired index

  /** It does not wait: it has found an expired index, or is a preload and wants none. `registered`
      says that it has been at the refreshing map. */
  predicate IsPassing(q: Search, path: Path, stale: Option<RefreshId>, registered: bool) {
    || (!registered && q == Ensuring(path, stale, false))
    || (registered && (q.HoldingClone? || q.Returning?) && q.path == path && q.stale == stale && !q.wait)
    || (registered && q == if stale.Some? then Done(stale, true) else Preloaded)
  }

  /** How many own steps are left. */
  function Left(q: Search): nat {
    match q
    case Ensuring(_, _, _) => 3
    case HoldingClone(_, _, _, _, _) => 2
    case Returning(_, _, _, _, _) => 1
    case _ => 0
  }

  lemma PassingStep(s: State, step: Step, id: SearchId, path: Path, stale: Option<RefreshId>, registered: bool)
    requires id in s.searches && IsPassing(s.searches[id], path, stale, registered)
    ensures var s' := Next(s, step);
            && id in s'.searches
            && IsPassing(s'.searches[id], path, stale, registered || step == SearchStep(id))
            && Left(s'.searches[id]) <= Left(s.searches[id])
            && (step == SearchStep(id) && Left(s.searches[id]) > 0 ==> Left(s'.searches[id]) < Left(s.searches[id]))
            && (step == SearchStep(id) && !registered ==> path in s'.refreshing)
  {
  }

  lemma {:induction false} PassingEnds(s: State, steps: seq<Step>, id: SearchId, path: Path, stale: Option<RefreshId>, registered: bool) returns (k: nat)
    requires id in s.searches && IsPassing(s.searches[id], path, stale, registered)
    requires OwnSteps(steps, id) >= Left(s.searches[id])
    ensures id in Run(s, steps).searches && Run(s, steps).searches[id] == if stale.Some? then Done(stale, true) else Preloaded
    ensures !registered ==> 1 <= k <= |steps| && path in At(s, steps, k).refreshing
    decreases steps
  {
    k := 0;
    if steps != [] {
      PassingStep(s, steps[0], id, path, stale, registered);
      var own := steps[0] == SearchStep(id);
      var j := PassingEnds(Next(s, steps[0]), steps[1..], id, path, stale, registered || own);
      if !registered {
        k := if own then 1 else j + 1;
        AtNext(s, steps, k);
        if own { assert steps[1..][..0] == []; }
      }
    }
  }

  /** A search that starts on an expired index answers that index after at most four steps of its own,
      says that a refresh is pending, and has seen to it: at a step between, a refresh of its
      workspace was registered. Nobody else's steps change that. */
  lemma StaleSearch(s: State, steps: seq<Step>, id: SearchId, path: Path, index: RefreshId) returns (k: nat)
    requires id in s.searches && s.searches[id] == Starting(path) && HoldsExpired(s, path, index)
    requires steps != [] && steps[0] == SearchStep(id) && OwnSteps(steps, id) >= 4
    ensures id in Run(s, steps).searches && Run(s, steps).searches[id] == Done(Some(index), true)
    ensures 1 < k <= |steps| && path in At(s, steps, k).refreshing
  {
    var j := PassingEnds(Next(s, steps[0]), steps[1..], id, path, Some(index), false);
    k := j + 1;
    AtNext(s, steps, k);
  }

  /** A preload sees to a refresh of its workspace in the same way, and answers nobody. */
  lemma PreloadRegisters(s: State, steps: seq<Step>, id: SearchId, path: Path) returns (k: nat)
    requires id !in s.searches && steps != [] && steps[0] == Preload(id, path) && OwnSteps(steps, id) >= 3
    ensures id in Run(s, steps).searches && Run(s, steps).searches[id] == Preloaded
    ensures 1 < k <= |steps| && path in At(s, steps, k).refreshing
  {
    var j := PassingEnds(Next(s, steps[0]), steps[1..], id, path, None, false);
    k := j + 1;
    AtNext(s, steps, k);
  }

  // ---- a search that finds no index

  /** It found nothing and is on its way to wait for a refresh; `c` is the refresh it joined. */
  predicate IsJoining(q: Search, path: Path, c: Option<RefreshId>) {
    || (c.None? && q == Ensuring(path, None, true))
    || (c.Some? && (q.HoldingClone? || q.Returning?) && q.path == path && q.stale.None? && q.wait && q.chan == c.value)
  }

  lemma JoiningStep(s: State, step: Step, id: SearchId, path: Path, c: Option<RefreshId>)
    requires id in s.searches && IsJoining(s.searches[id], path, c)
    ensures var q, s' := s.searches[id], Next(s, step);
            && id in s'.searches
            && (step != SearchStep(id) ==> s'.searches[id] == q)
            && (step == SearchStep(id) && q.Ensuring? ==>
                  path in s'.refreshing && IsJoining(s'.searches[id], path, Some(s'.refreshing[path])))
            && (step == SearchStep(id) && q.HoldingClone? ==> IsJoining(s'.searches[id], path, c))
            && (step == SearchStep(id) && q.Returning? ==> s'.searches[id] == Waiting(path, q.chan, q.seen))
            && (step == SearchStep(id) ==> Left(s'.searches[id]) < Left(q))
  {
  }

  /** At step `j` the refresh is registered for the workspace, and at step `k` the search waits for it. */
  ghost predicate JoinsAndWaits(s: State, steps: seq<Step>, id: SearchId, path: Path, c: RefreshId, j: nat, k: nat) {
    && j <= k <= |steps|
    && path in At(s, steps, j).refreshing && At(s, steps, j).refreshing[path] == c
    && WaitsFor(At(s, steps, k), id, path, c)
  }

  predicate WaitsFor(s: State, id: SearchId, path: Path, c: RefreshId) {
    id in s.searches && s.searches[id].Waiting? && s.searches[id].path == path && s.searches[id].chan == c
  }

  /** From its registration on, it comes to wait. */
  lemma {:induction false} JoinedWaits(s: State, steps: seq<Step>, id: SearchId, path: Path, c: RefreshId) returns (k: nat)
    requires id in s.searches && IsJoining(s.searches[id], path, Some(c)) && OwnSteps(steps, id) >= Left(s.searches[id])
    ensures k <= |steps| && WaitsFor(At(s, steps, k), id, path, c)
    decreases steps
  {
    var s1, rest := Next(s, steps[0]), steps[1..];
    JoiningStep(s, steps[0], id, path, Some(c));
    if s1.searches[id].Waiting? {
      k := 1;
      assert rest[..0] == [];
    } else {
      var j := JoinedWaits(s1, rest, id, path, c);
      k := j + 1;
    }
    AtNext(s, steps, k);
  }

  lemma {:induction false} JoinsFrom(s: State, steps: seq<Step>, id: SearchId, path: Path) returns (c: RefreshId, j: nat, k: nat)
    requires id in s.searches && IsJoining(s.searches[id], path, None) && OwnSteps(steps, id) >= 3
    ensures JoinsAndWaits(s, steps, id, path, c, j, k) && 1 <= j
    decreases steps
  {
    var s1, rest := Next(s, steps[0]), steps[1..];
    JoiningStep(s, steps[0], id, path, None);
    if steps[0] == SearchStep(id) {
      c := s1.refreshing[path];
      j := 1;
      var k' := JoinedWaits(s1, rest, id, path, c);
      k := k' + 1;
      assert rest[..0] == [];
    } else {
      var j', k';
      c, j', k' := JoinsFrom(s1, rest, id, path);
      j, k := j' + 1, k' + 1;
    }
    AtNext(s, steps, j);
    AtNext(s, steps, k);
  }

  /** A search that starts without an index registers a refresh or joins the registered one, and then
      waits for that refresh, within four steps of its own. */
  lemma MissingSearch(s: State, steps: seq<Step>, id: SearchId, path: Path) returns (c: RefreshId, j: nat, k: nat)
    requires id in s.searches && s.searches[id] == Starting(path) && path !in s.cache
    requires steps != [] && steps[0] == SearchStep(id) && OwnSteps(steps, id) >= 4
    ensures JoinsAndWaits(s, steps, id, path, c, j, k) && 1 < j
  {
    var j', k';
    c, j', k' := JoinsFrom(Next(s, steps[0]), steps[1..], id, path);
    j, k := j' + 1, k' + 1;
    AtNext(s, steps, j);
    AtNext(s, steps, k);
  }

  // ---- every wait ends

  /** The value is there for the search, or nobody is left who could send one. */
  ghost predicate CanGoOn(s: State, c: RefreshId, seen: bool) {
    || (c in s.channels && s.channels[c].value.Some? && !seen)
    || (c !in s.refreshing.Values && c !in s.tasks && forall i | i in s.searches :: !HoldsClone(s, i, c))
  }

  lemma GoOnStays(s: State, step: Step, c: RefreshId, seen: bool)
    requires Inv(s) && c in s.channels && CanGoOn(s, c, seen)
    ensures c in Next(s, step).channels && CanGoOn(Next(s, step), c, seen)
  {
    match step
    case SearchStep(i) => if i in s.searches { GoOnStaysAtSearch(s, i, c, seen); }
    case TaskStep(d, ok) => if d in s.tasks { GoOnStaysAtTask(s, d, ok, c, seen); }
    case _ =>
  }

  lemma GoOnStaysAtSearch(s: State, i: SearchId, c: RefreshId, seen: bool)
    requires Inv(s) && i in s.searches && c in s.channels && CanGoOn(s, c, seen)
    ensures c in AdvanceSearch(s, i).channels && CanGoOn(AdvanceSearch(s, i), c, seen)
  {
    var q := s.searches[i];
    assert c < s.nextId;
    if q.Ensuring? && q.path in s.refreshing { assert s.refreshing[q.path] in s.refreshing.Values; }
    if c !in s.refreshing.Values && q.Ensuring? && q.path !in s.refreshing {
      var r := s.refreshing[q.path := s.nextId];
      assert forall v | v in r.Values :: v in s.refreshing.Values || v == s.nextId;
    }
  }

  lemma GoOnStaysAtTask(s: State, d: RefreshId, ok: bool, c: RefreshId, seen: bool)
    requires Inv(s) && d in s.tasks && c in s.channels && CanGoOn(s, c, seen)
    ensures c in AdvanceTask(s, d, ok).channels && CanGoOn(AdvanceTask(s, d, ok), c, seen)
  {
    var s' := AdvanceTask(s, d, ok);
    assert forall v | v in s'.refreshing.Values :: v in s.refreshing.Values;
  }

  /** Once a waiting search can go on, three steps of its own end it. */
  function StepsToEnd(q: Search): nat {
    match q case Waiting(_, _, _) => 3 case Woken(_, _) => 2 case CheckingPending(_, _) => 1 case _ => 0
  }

  /** The search waits and can go on, or is past waiting. */
  ghost predicate IsEnding(s: State, id: SearchId) {
    && id in s.searches
    && (PastWaiting(s.searches[id]) ||
        (&& s.searches[id].Waiting? && s.searches[id].chan in s.channels
         && CanGoOn(s, s.searches[id].chan, s.searches[id].seen)))
  }

  lemma EndingStep(s: State, step: Step, id: SearchId)
    requires Inv(s) && IsEnding(s, id)
    ensures IsEnding(Next(s, step), id)
    ensures var n := StepsToEnd(s.searches[id]);
            StepsToEnd(Next(s, step).searches[id]) <= if step == SearchStep(id) && n > 0 then n - 1 else n
  {
    var q := s.searches[id];
    if q.Waiting? {
      GoOnStays(s, step, q.chan, q.seen);
      if step == SearchStep(id) { assert !HasSender(s, q.chan) || s.channels[q.chan].value.Some?; }
    }
  }

  lemma {:induction false} EndingEnds(s: State, steps: seq<Step>, id: SearchId)
    requires Inv(s) && IsEnding(s, id) && OwnSteps(steps, id) >= StepsToEnd(s.searches[id])
    ensures id in Run(s, steps).searches && Run(s, steps).searches[id].Done?
    decreases steps
  {
    if steps != [] {
      NextKeepsInv(s, steps[0]);
      EndingStep(s, steps[0], id);
      EndingEnds(Next(s, steps[0]), steps[1..], id);
    }
  }

  /** No search waits for ever: after the refresh's six steps, one of everybody who still holds its
      sender, and three of its own, a waiting search has its answer, however all of them are
      interleaved with anybody else's. */
  lemma WaitingSearchEnds(s: State, steps: seq<Step>, more: seq<Step>, last: seq<Step>, id: SearchId)
    requires Inv(s) && id in s.searches && s.searches[id].Waiting?
    requires TaskSteps(steps, s.searches[id].chan) >= 6
    requires forall i | HoldsClone(Run(s, steps), i, s.searches[id].chan) :: SearchStep(i) in more
    requires OwnSteps(last, id) >= 3
    ensures var t := Run(Run(Run(s, steps), more), last); id in t.searches && t.searches[id].Done?
  {
    var c, seen := s.searches[id].chan, s.searches[id].seen;
    assert SearchMatches(s, s.searches[id]);
    var u := Run(Run(s, steps), more);
    WaiterWakes(s, steps, more, id);
    RunKeepsInv(s, steps);
    RunKeepsInv(Run(s, steps), more);
    WaitingStays(s, steps, id, c, seen);
    WaitingStays(Run(s, steps), more, id, c, seen);
    WakeableGoesOn(u, id, c, seen);
    EndingEnds(u, last, id);
  }

  ghost predicate WaitsOrPast(s: State, id: SearchId, c: RefreshId, seen: bool) {
    && c in s.channels && id in s.searches
    && (PastWaiting(s.searches[id]) || (s.searches[id].Waiting? && s.searches[id].chan == c && s.searches[id].seen == seen))
  }

  lemma WaitingStep(s: State, step: Step, id: SearchId, c: RefreshId, seen: bool)
    requires Inv(s) && WaitsOrPast(s, id, c, seen)
    ensures WaitsOrPast(Next(s, step), id, c, seen)
  {
    StepReducesRemaining(s, step, c);
    if step.SearchStep? && step.id in s.searches && step.id != id { assert Next(s, step).searches[id] == s.searches[id]; }
  }

  lemma {:induction false} WaitingStays(s: State, steps: seq<Step>, id: SearchId, c: RefreshId, seen: bool)
    requires Inv(s) && WaitsOrPast(s, id, c, seen)
    ensures WaitsOrPast(Run(s, steps), id, c, seen)
    decreases steps
  {
    if steps != [] {
      NextKeepsInv(s, steps[0]);
      WaitingStep(s, steps[0], id, c, seen);
      WaitingStays(Next(s, steps[0]), steps[1..], id, c, seen);
    }
  }

  lemma WakeableGoesOn(s: State, id: SearchId, c: RefreshId, seen: bool)
    requires WaitsOrPast(s, id, c, seen) && Wakeable(s, c, seen)
    ensures IsEnding(s, id)
  {
  }

  // ---- what a refresh leaves behind

  /** The state in which step `k` of a run is taken. */
  ghost function Before(steps: seq<Step>, k: nat): State
    requires k < |steps|
  {
    At(Init(), steps, k)
  }

  lemma {:induction false} RunSnoc(s: State, steps: seq<Step>, step: Step)
    ensures Run(s, steps + [step]) == Next(Run(s, steps), step)
    decreases steps
  {
    if steps == [] {
      assert steps + [step] == [step] && [step][1..] == [];
    } else {
      assert (steps + [step])[1..] == steps[1..] + [step];
      RunSnoc(Next(s, steps[0]), steps[1..], step);
    }
  }

  /** The last step of a run, and the run before it. */
  lemma LastStep(steps: seq<Step>)
    requires steps != []
    ensures var n := |steps| - 1;
            Run(Init(), steps) == Next(Before(steps, n), steps[n]) && Before(steps, n) == Run(Init(), steps[..n])
  {
    var n := |steps| - 1;
    assert steps == steps[..n] + [steps[n]];
    RunSnoc(Init(), steps[..n], steps[n]);
  }

  lemma EarlierStep(steps: seq<Step>, n: nat, k: nat)
    requires k < n <= |steps|
    ensures Before(steps[..n], k) == Before(steps, k) && steps[..n][k] == steps[k]
  {
    assert steps[..n][..k] == steps[..k];
  }

  /** Step `k` is the end of the walk of refresh `c`, with this outcome. */
  ghost predicate WalkEnds(steps: seq<Step>, k: nat, c: RefreshId, path: Path, ok: bool) {
    k < |steps| && steps[k] == TaskStep(c, ok) && c in Before(steps, k).tasks && Before(steps, k).tasks[c] == Task(path, Walking)
  }

  /** The state knows how the walk of refresh `c` ended. */
  predicate KnowsOutcome(s: State, c: RefreshId, path: Path, ok: bool) {
    || (c in s.tasks && (s.tasks[c] == Task(path, Walked(ok)) || s.tasks[c] == Task(path, Stored(ok))))
    || (c in s.channels && s.channels[c] == Channel(path, Some(ok)))
  }

  lemma OutcomeStep(s: State, step: Step, c: RefreshId, path: Path, ok: bool)
    requires KnowsOutcome(Next(s, step), c, path, ok)
    ensures KnowsOutcome(s, c, path, ok) || (step == TaskStep(c, ok) && c in s.tasks && s.tasks[c] == Task(path, Walking))
  {
  }

  /** What a refresh tells its waiters is how its walk ended. */
  lemma {:induction false} OutcomeIsTrue(steps: seq<Step>, c: RefreshId, path: Path, ok: bool) returns (k: nat)
    requires KnowsOutcome(Run(Init(), steps), c, path, ok)
    ensures WalkEnds(steps, k, c, path, ok)
    decreases |steps|
  {
    var n := |steps| - 1;
    LastStep(steps);
    OutcomeStep(Before(steps, n), steps[n], c, path, ok);
    if KnowsOutcome(Before(steps, n), c, path, ok) {
      k := OutcomeIsTrue(steps[..n], c, path, ok);
      EarlierStep(steps, n, k);
    } else {
      k := n;
    }
  }

  lemma CacheStep(s: State, step: Step, path: Path)
    requires path in Next(s, step).cache && !(path in s.cache && s.cache[path] == Next(s, step).cache[path])
    ensures var c := Next(s, step).cache[path].index;
            && step.TaskStep? && step.chan == c && c in s.tasks && s.tasks[c] == Task(path, Walked(true))
            && Next(s, step).cache[path].timestamp == s.clock
  {
  }

  /** Whatever is cached was found by a walk of this workspace that succeeded, and is dated by the
      step that stored it, which came after the walk; so a failed walk changes no index. */
  lemma {:induction false} CachedWasWalked(steps: seq<Step>, path: Path) returns (k: nat, j: nat)
    requires path in Run(Init(), steps).cache
    ensures var e := Run(Init(), steps).cache[path];
            && k < j < |steps| && WalkEnds(steps, k, e.index, path, true)
            && steps[j].TaskStep? && steps[j].chan == e.index && Before(steps, j).clock == e.timestamp
    decreases |steps|
  {
    var n := |steps| - 1;
    LastStep(steps);
    var e, s := Run(Init(), steps).cache[path], Before(steps, n);
    if path in s.cache && s.cache[path] == e {
      k, j := CachedWasWalked(steps[..n], path);
      EarlierStep(steps, n, j);
    } else {
      CacheStep(s, steps[n], path);
      k := OutcomeIsTrue(steps[..n], e.index, path, true);
      j := n;
    }
    EarlierStep(steps, n, k);
  }
}
