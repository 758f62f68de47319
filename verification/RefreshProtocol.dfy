/** The single-flight, stale-while-revalidate workspace index (src/core/file_search.rs) as a
    transition system. A step is what one task does between two points where another task can
    interfere: one critical section of a lock, one channel operation, or the passing of time. */
module RefreshProtocol {
  import opened Utf8

  const CACHE_TTL: nat := 300

  type Path = string
  type RefreshId = nat   // a refresh is named by its watch channel; later registrations have larger ids
  type SearchId = nat

  /** `index` is what the walk of that refresh found. */
  datatype Entry = Entry(index: RefreshId, timestamp: nat)

  datatype Phase =
    | Registered           // in the refreshing map, not yet spawned
    | Walking
    | Walked(ok: bool)
    | Stored(ok: bool)     // the cache insert, if any, is done
    | Sent
    | Removed              // out of the refreshing map; the task still owns its sender

  datatype Task = Task(path: Path, phase: Phase)

  datatype Channel = Channel(path: Path, value: Option<bool>)

  datatype Search =
    | Starting(path: Path)
    | Ensuring(path: Path, stale: Option<RefreshId>, wait: bool)
    | HoldingClone(path: Path, stale: Option<RefreshId>, wait: bool, chan: RefreshId, seen: bool)
    | Returning(path: Path, stale: Option<RefreshId>, wait: bool, chan: RefreshId, seen: bool)
    | Waiting(path: Path, chan: RefreshId, seen: bool)
    | Woken(path: Path, chan: RefreshId)
    | CheckingPending(path: Path, chan: RefreshId)
    | Done(index: Option<RefreshId>, refreshPending: bool)
    | Preloaded

  datatype State = State(
    clock: nat,
    nextId: RefreshId,
    cache: map<Path, Entry>,
    refreshing: map<Path, RefreshId>,
    channels: map<RefreshId, Channel>,
    tasks: map<RefreshId, Task>,
    searches: map<SearchId, Search>)

  function Init(): State { State(0, 0, map[], map[], map[], map[], map[]) }

  predicate Fresh(s: State, path: Path) {
    path in s.cache && s.clock < s.cache[path].timestamp + CACHE_TTL
  }

  /** The search holds a clone of the sender of refresh `c`. */
  predicate HoldsClone(s: State, id: SearchId, c: RefreshId) {
    id in s.searches && s.searches[id].HoldingClone? && s.searches[id].chan == c
  }

  /** Some sender of the channel is still alive. */
  ghost predicate HasSender(s: State, c: RefreshId) {
    || c in s.refreshing.Values
    || c in s.tasks
    || exists id :: HoldsClone(s, id, c)
  }

  predicate Receives(q: Search, c: RefreshId) {
    (q.HoldingClone? || q.Returning? || q.Waiting? || q.Woken? || q.CheckingPending?) && q.chan == c
  }

  /** Some receiver of the channel is still alive. */
  predicate HasReceiver(s: State, c: RefreshId) {
    exists id :: id in s.searches && Receives(s.searches[id], c)
  }

  /** `changed()` returns: a value arrived after the subscription, or every sender is gone. */
  ghost predicate Wakeable(s: State, c: RefreshId, seen: bool) {
    (c in s.channels && s.channels[c].value.Some? && !seen) || !HasSender(s, c)
  }

  datatype Step =
    | Tick
    | StartSearch(id: SearchId, path: Path)
    | Preload(id: SearchId, path: Path)
    | SearchStep(id: SearchId)
    | Timeout(id: SearchId)
    | TaskStep(chan: RefreshId, walkOk: bool)

  /** ensure_workspace_refresh under the lock, if nothing is registered. */
  function Register(s: State, path: Path): State {
    s.(nextId := s.nextId + 1,
       refreshing := s.refreshing[path := s.nextId],
       channels := s.channels[s.nextId := Channel(path, None)],
       tasks := s.tasks[s.nextId := Task(path, Registered)])
  }

  /** What a search becomes by its next step. Whoever subscribes to a registered refresh holds a
      clone of its sender until it returns; whoever registers hands its sender to the task. A stale
      index is returned at once and a preload has no use for the receiver; the rest wait. */
  ghost function MovedSearch(s: State, q: Search): Search {
    match q
    case Starting(path) =>
      if Fresh(s, path) then Done(Some(s.cache[path].index), false)
      else if path in s.cache then Ensuring(path, Some(s.cache[path].index), false)
      else Ensuring(path, None, true)
    case Ensuring(path, stale, wait) =>
      if path in s.refreshing then
        var c := s.refreshing[path];
        HoldingClone(path, stale, wait, c, c in s.channels && s.channels[c].value.Some?)
      else Returning(path, stale, wait, s.nextId, false)
    case HoldingClone(path, stale, wait, c, seen) => Returning(path, stale, wait, c, seen)
    case Returning(path, stale, wait, c, seen) =>
      if wait then Waiting(path, c, seen) else if stale.Some? then Done(stale, true) else Preloaded
    case Waiting(path, c, seen) => if Wakeable(s, c, seen) then Woken(path, c) else q
    case Woken(path, c) => if Fresh(s, path) then Done(Some(s.cache[path].index), false) else CheckingPending(path, c)
    case CheckingPending(path, _) => Done(None, path in s.refreshing)
    case Done(_, _) => q
    case Preloaded => q
  }

  ghost function AdvanceSearch(s: State, id: SearchId): State
    requires id in s.searches
  {
    var q := s.searches[id];
    var s' := if q.Ensuring? && q.path !in s.refreshing then Register(s, q.path) else s;
    s'.(searches := s.searches[id := MovedSearch(s, q)])
  }

  function PhaseAfter(ph: Phase, walkOk: bool): Phase {
    match ph
    case Registered => Walking
    case Walking => Walked(walkOk)
    case Walked(ok) => Stored(ok)
    case Stored(_) => Sent
    case Sent => Removed
    case Removed => Removed
  }

  /** A refresh's task: it stores what the walk found, sends the outcome, removes the registration,
      and drops its sender. `send` keeps the old value when nobody receives. */
  function AdvanceTask(s: State, c: RefreshId, walkOk: bool): State
    requires c in s.tasks
  {
    var t := s.tasks[c];
    s.(tasks := if t.phase.Removed? then s.tasks - {c} else s.tasks[c := t.(phase := PhaseAfter(t.phase, walkOk))],
       cache := if t.phase == Walked(true) then s.cache[t.path := Entry(c, s.clock)] else s.cache,
       channels := if t.phase.Stored? && HasReceiver(s, c) then s.channels[c := Channel(t.path, Some(t.phase.ok))] else s.channels,
       refreshing := if t.phase.Sent? then s.refreshing - {t.path} else s.refreshing)
  }

  ghost function Next(s: State, step: Step): State {
    match step
    case Tick => s.(clock := s.clock + 1)
    case StartSearch(id, path) => if id in s.searches then s else s.(searches := s.searches[id := Starting(path)])
    case Preload(id, path) => if id in s.searches then s else s.(searches := s.searches[id := Ensuring(path, None, false)])
    case SearchStep(id) => if id in s.searches then AdvanceSearch(s, id) else s
    case Timeout(id) =>
      if id in s.searches && s.searches[id].Waiting?
      then s.(searches := s.searches[id := Woken(s.searches[id].path, s.searches[id].chan)]) else s
    case TaskStep(c, ok) => if c in s.tasks then AdvanceTask(s, c, ok) else s
  }

  ghost function Run(s: State, steps: seq<Step>): State
    decreases steps
  {
    if steps == [] then s else Run(Next(s, steps[0]), steps[1..])
  }

  // ---- invariants

  predicate Live(t: Task) { t.phase != Removed }

  /** A refresh is registered exactly while its task lives: no registration outlives its task, and
      at most one live task per workspace. */
  ghost predicate SingleFlight(s: State) {
    && (forall p | p in s.refreshing ::
          s.refreshing[p] in s.tasks && s.tasks[s.refreshing[p]].path == p && Live(s.tasks[s.refreshing[p]]))
    && (forall c | c in s.tasks && Live(s.tasks[c]) :: s.tasks[c].path in s.refreshing && s.refreshing[s.tasks[c].path] == c)
  }

  predicate IsUnsent(ph: Phase) { ph.Registered? || ph.Walking? || ph.Walked? || ph.Stored? }

  /** A channel has no value before its task sends one. */
  ghost predicate ChannelsMatch(s: State) {
    && (forall c | c in s.tasks :: c in s.channels && s.channels[c].path == s.tasks[c].path)
    && (forall c | c in s.channels :: c < s.nextId)
    && (forall c | c in s.tasks && IsUnsent(s.tasks[c].phase) :: s.channels[c].value.None?)
  }

  /** The cached index is older than every unfinished walk and newest once stored. */
  ghost predicate CacheOrder(s: State) {
    && (forall p | p in s.cache :: s.cache[p].index < s.nextId)
    && (forall c | c in s.tasks && s.tasks[c].path in s.cache && NotStored(s.tasks[c].phase) ::
          s.cache[s.tasks[c].path].index < c)
    && (forall c | c in s.tasks && s.tasks[c].phase == Stored(true) ::
          s.tasks[c].path in s.cache && s.cache[s.tasks[c].path].index >= c)
    && (forall c | c in s.channels && s.channels[c].value == Some(true) ::
          s.channels[c].path in s.cache && s.cache[s.channels[c].path].index >= c)
  }

  predicate NotStored(ph: Phase) { ph.Registered? || ph.Walking? || ph.Walked? }

  /** Whoever holds or waits on a channel does so for its workspace, and a value counts as seen
      only when it is there. */
  ghost predicate SearchesMatch(s: State) {
    forall id | id in s.searches :: SearchMatches(s, s.searches[id])
  }

  ghost predicate SearchMatches(s: State, q: Search) {
    match q
    case HoldingClone(p, _, _, c, seen) => c in s.channels && s.channels[c].path == p && (seen ==> s.channels[c].value.Some?)
    case Returning(p, _, _, c, seen) => c in s.channels && s.channels[c].path == p && (seen ==> s.channels[c].value.Some?)
    case Waiting(p, c, seen) => c in s.channels && s.channels[c].path == p && (seen ==> s.channels[c].value.Some?)
    case Woken(p, c) => c in s.channels && s.channels[c].path == p
    case _ => true
  }

  ghost predicate Inv(s: State) {
    SingleFlight(s) && ChannelsMatch(s) && CacheOrder(s) && SearchesMatch(s)
  }

  lemma RegisterKeepsInv(s: State, path: Path)
    requires Inv(s) && path !in s.refreshing
    ensures Inv(Register(s, path)) && s.nextId in Register(s, path).channels && Register(s, path).channels[s.nextId].path == path
  {
    assert s.nextId !in s.channels && s.nextId !in s.tasks;
    RegisterKeepsCacheOrder(s, path);
  }

  lemma RegisterKeepsCacheOrder(s: State, path: Path)
    requires Inv(s) && path !in s.refreshing
    ensures CacheOrder(Register(s, path))
  {
  }

  lemma SearchOnlyKeepsInv(s: State, s': State, id: SearchId, q: Search)
    requires Inv(s) && s' == s.(searches := s.searches[id := q]) && SearchMatches(s, q)
    ensures Inv(s')
  {
    assert forall i | i in s'.searches :: SearchMatches(s', s'.searches[i]);
  }

  lemma SearchStepKeepsInv(s: State, id: SearchId)
    requires Inv(s) && id in s.searches
    ensures Inv(AdvanceSearch(s, id))
  {
    var q := s.searches[id];
    assert SearchMatches(s, q);
    if q.Ensuring? && q.path !in s.refreshing {
      RegisterKeepsInv(s, q.path);
      SearchOnlyKeepsInv(Register(s, q.path), AdvanceSearch(s, id), id, MovedSearch(s, q));
    } else {
      SearchOnlyKeepsInv(s, AdvanceSearch(s, id), id, MovedSearch(s, q));
    }
  }

  lemma TaskStepKeepsSingleFlight(s: State, c: RefreshId, ok: bool)
    requires Inv(s) && c in s.tasks
    ensures SingleFlight(AdvanceTask(s, c, ok))
  {
    var s' := AdvanceTask(s, c, ok);
    var t := s.tasks[c];
    if t.phase == Sent {
      forall d | d in s'.tasks && Live(s'.tasks[d]) ensures s'.tasks[d].path in s'.refreshing && s'.refreshing[s'.tasks[d].path] == d {
        assert d != c && d in s.tasks && Live(s.tasks[d]);
        assert s.tasks[d].path != t.path;
      }
    }
  }

  lemma TaskStepKeepsChannels(s: State, c: RefreshId, ok: bool)
    requires Inv(s) && c in s.tasks
    ensures ChannelsMatch(AdvanceTask(s, c, ok))
  {
  }

  /** Storing is the only write to the cache, and it always replaces an older index. */
  lemma TaskStepKeepsCacheOrder(s: State, c: RefreshId, ok: bool)
    requires Inv(s) && c in s.tasks
    ensures CacheOrder(AdvanceTask(s, c, ok))
    ensures forall p | p in s.cache :: p in AdvanceTask(s, c, ok).cache && AdvanceTask(s, c, ok).cache[p].index >= s.cache[p].index
  {
    if s.tasks[c].phase == Walked(true) { StoreKeepsCacheOrder(s, c, ok); } else { OtherPhasesKeepCache(s, c, ok); }
  }

  lemma StoreKeepsCacheOrder(s: State, c: RefreshId, ok: bool)
    requires Inv(s) && c in s.tasks && s.tasks[c].phase == Walked(true)
    ensures CacheOrder(AdvanceTask(s, c, ok))
    ensures forall p | p in s.cache :: p in AdvanceTask(s, c, ok).cache && AdvanceTask(s, c, ok).cache[p].index >= s.cache[p].index
  {
    var s' := AdvanceTask(s, c, ok);
    var t := s.tasks[c];
    forall d | d in s'.tasks && s'.tasks[d].path in s'.cache && NotStored(s'.tasks[d].phase)
      ensures s'.cache[s'.tasks[d].path].index < d
    {
      assert d != c && d in s.tasks && Live(s.tasks[d]) && Live(t);
      assert s.tasks[d].path != t.path;
    }
  }

  lemma OtherPhasesKeepCache(s: State, c: RefreshId, ok: bool)
    requires Inv(s) && c in s.tasks && s.tasks[c].phase != Walked(true)
    ensures AdvanceTask(s, c, ok).cache == s.cache && CacheOrder(AdvanceTask(s, c, ok))
  {
    if s.tasks[c].phase.Stored? { SendKeepsCacheOrder(s, c, ok); }
  }

  /** A refresh sends success only after its index, or a newer one, is in the cache. */
  lemma SendKeepsCacheOrder(s: State, c: RefreshId, ok: bool)
    requires Inv(s) && c in s.tasks && s.tasks[c].phase.Stored?
    ensures AdvanceTask(s, c, ok).cache == s.cache && CacheOrder(AdvanceTask(s, c, ok))
  {
  }

  lemma NextKeepsInv(s: State, step: Step)
    requires Inv(s)
    ensures Inv(Next(s, step))
  {
    match step
    case Tick =>
    case StartSearch(id, path) => if id !in s.searches { SearchOnlyKeepsInv(s, Next(s, step), id, Starting(path)); }
    case Preload(id, path) => if id !in s.searches { SearchOnlyKeepsInv(s, Next(s, step), id, Ensuring(path, None, false)); }
    case SearchStep(id) => if id in s.searches { SearchStepKeepsInv(s, id); }
    case Timeout(id) =>
      if id in s.searches && s.searches[id].Waiting? {
        assert SearchMatches(s, s.searches[id]);
        SearchOnlyKeepsInv(s, Next(s, step), id, Woken(s.searches[id].path, s.searches[id].chan));
      }
    case TaskStep(c, ok) =>
      if c in s.tasks {
        TaskStepKeepsSingleFlight(s, c, ok);
        TaskStepKeepsChannels(s, c, ok);
        TaskStepKeepsCacheOrder(s, c, ok);
      }
  }

  lemma {:induction false} RunKeepsInv(s: State, steps: seq<Step>)
    requires Inv(s)
    ensures Inv(Run(s, steps))
    decreases steps
  {
    if steps != [] {
      NextKeepsInv(s, steps[0]);
      RunKeepsInv(Next(s, steps[0]), steps[1..]);
    }
  }

  // ---- main results

  /** In every interleaving two unfinished refreshes of one workspace are the same refresh, and a
      registered refresh always has a live task. */
  lemma AtMostOneWalk(steps: seq<Step>, c: RefreshId, d: RefreshId)
    ensures var s := Run(Init(), steps);
            && (c in s.tasks && d in s.tasks && Live(s.tasks[c]) && Live(s.tasks[d]) && s.tasks[c].path == s.tasks[d].path ==> c == d)
            && (forall p | p in s.refreshing :: s.refreshing[p] in s.tasks && Live(s.tasks[s.refreshing[p]]))
  {
    RunKeepsInv(Init(), steps);
  }

  lemma NextKeepsNewest(s: State, step: Step, p: Path)
    requires Inv(s) && p in s.cache
    ensures p in Next(s, step).cache && Next(s, step).cache[p].index >= s.cache[p].index
  {
    if step.TaskStep? && step.chan in s.tasks { TaskStepKeepsCacheOrder(s, step.chan, step.walkOk); }
  }

  /** No run replaces a cached index by the result of an older walk. */
  lemma {:induction false} OlderWalkNeverOverwrites(s: State, steps: seq<Step>, p: Path)
    requires Inv(s) && p in s.cache
    ensures p in Run(s, steps).cache && Run(s, steps).cache[p].index >= s.cache[p].index
    decreases steps
  {
    if steps != [] {
      NextKeepsInv(s, steps[0]);
      NextKeepsNewest(s, steps[0], p);
      OlderWalkNeverOverwrites(Next(s, steps[0]), steps[1..], p);
    }
  }

  /** A search woken after a successful refresh reads the index of that walk, or of a later one,
      exactly as long as the entry has not expired. */
  lemma WokenFindsIndex(s: State, id: SearchId)
    requires Inv(s) && id in s.searches && s.searches[id].Woken?
    requires s.channels[s.searches[id].chan].value == Some(true)
    ensures var q := s.searches[id];
            && q.path in s.cache && s.cache[q.path].index >= q.chan
            && (Next(s, SearchStep(id)).searches[id].Done? <==> s.clock < s.cache[q.path].timestamp + CACHE_TTL)
            && (Next(s, SearchStep(id)).searches[id].Done? ==>
                  Next(s, SearchStep(id)).searches[id] == Done(Some(s.cache[q.path].index), false))
  {
    assert SearchMatches(s, s.searches[id]);
  }

  /** How many steps its task still has to take. */
  function Remaining(s: State, c: RefreshId): nat {
    if c !in s.tasks then 0 else
    match s.tasks[c].phase
    case Registered => 6 case Walking => 5 case Walked(_) => 4 case Stored(_) => 3 case Sent => 2 case Removed => 1
  }

  function TaskSteps(steps: seq<Step>, c: RefreshId): nat {
    if steps == [] then 0 else (if steps[0].TaskStep? && steps[0].chan == c then 1 else 0) + TaskSteps(steps[1..], c)
  }

  lemma StepReducesRemaining(s: State, step: Step, c: RefreshId)
    requires Inv(s) && c in s.channels
    ensures c in Next(s, step).channels
    ensures Remaining(Next(s, step), c) <=
            if step.TaskStep? && step.chan == c && Remaining(s, c) > 0 then Remaining(s, c) - 1 else Remaining(s, c)
  {
    if !step.TaskStep? {
    } else if step.chan in s.tasks {
      TaskStepReducesRemaining(s, step.chan, step.walkOk, c);
    }
  }

  lemma TaskStepReducesRemaining(s: State, d: RefreshId, ok: bool, c: RefreshId)
    requires d in s.tasks && c in s.channels
    ensures c in AdvanceTask(s, d, ok).channels
    ensures Remaining(AdvanceTask(s, d, ok), c) == if c == d then Remaining(s, c) - 1 else Remaining(s, c)
  {
  }

  lemma {:induction false} TaskFinishes(s: State, steps: seq<Step>, c: RefreshId)
    requires Inv(s) && c in s.channels && TaskSteps(steps, c) >= Remaining(s, c)
    ensures c in Run(s, steps).channels && c !in Run(s, steps).tasks
    ensures forall p | p in Run(s, steps).refreshing :: Run(s, steps).refreshing[p] != c
    decreases steps
  {
    if steps != [] {
      NextKeepsInv(s, steps[0]);
      StepReducesRemaining(s, steps[0], c);
      TaskFinishes(Next(s, steps[0]), steps[1..], c);
    }
  }

  /** Nobody takes a new clone of a finished refresh, and a step of a holder drops its clone. */
  lemma NoNewClones(s: State, step: Step, c: RefreshId, id: SearchId)
    requires Inv(s) && c !in s.tasks
    requires HoldsClone(Next(s, step), id, c)
    ensures HoldsClone(s, id, c) && step != SearchStep(id)
  {
    assert forall p | p in s.refreshing :: s.refreshing[p] != c;
  }

  /** Whoever still holds a clone at the end of a run has held it throughout and has not moved. */
  lemma {:induction false} HolderNeverMoved(s: State, steps: seq<Step>, c: RefreshId, id: SearchId)
    requires Inv(s) && c in s.channels && c !in s.tasks
    requires HoldsClone(Run(s, steps), id, c)
    ensures HoldsClone(s, id, c) && SearchStep(id) !in steps
    decreases steps
  {
    if steps != [] {
      NextKeepsInv(s, steps[0]);
      StepReducesRemaining(s, steps[0], c);
      HolderNeverMoved(Next(s, steps[0]), steps[1..], c, id);
      NoNewClones(s, steps[0], c, id);
    }
  }

  /** Every waiter wakes: once the refresh's task has taken its six steps, and then whoever still
      holds a clone of its sender has taken one, a search that still waits can go on, however all
      of them are interleaved with each other and with anybody else. */
  lemma WaiterWakes(s: State, steps: seq<Step>, more: seq<Step>, id: SearchId)
    requires Inv(s) && id in s.searches && s.searches[id].Waiting?
    requires TaskSteps(steps, s.searches[id].chan) >= 6
    requires forall i | HoldsClone(Run(s, steps), i, s.searches[id].chan) :: SearchStep(i) in more
    ensures Wakeable(Run(Run(s, steps), more), s.searches[id].chan, s.searches[id].seen)
  {
    var c := s.searches[id].chan;
    var t := Run(s, steps);
    assert SearchMatches(s, s.searches[id]);
    assert Remaining(s, c) <= 6;
    TaskFinishes(s, steps, c);
    RunKeepsInv(s, steps);
    TaskFinishes(t, more, c);
    var u := Run(t, more);
    forall i ensures !HoldsClone(u, i, c) {
      if HoldsClone(u, i, c) { HolderNeverMoved(t, more, c, i); }
    }
    assert c !in u.refreshing.Values;
  }

  predicate PastWaiting(q: Search) { q.Woken? || q.CheckingPending? || q.Done? }

  /** The search is through waiting, or its value is there, or its value is still to be sent. */
  predicate ValueIsComing(s: State, id: SearchId, c: RefreshId) {
    && id in s.searches
    && (|| PastWaiting(s.searches[id])
        || (&& s.searches[id].Waiting? && s.searches[id].chan == c && !s.searches[id].seen && c in s.channels
            && (s.channels[c].value.Some? || (c in s.tasks && IsUnsent(s.tasks[c].phase)))))
  }

  lemma TaskStepDelivers(s: State, c: RefreshId, ok: bool, id: SearchId, d: RefreshId)
    requires Inv(s) && c in s.tasks && ValueIsComing(s, id, d)
    ensures ValueIsComing(AdvanceTask(s, c, ok), id, d)
  {
    if s.searches[id].Waiting? { assert Receives(s.searches[id], d); }
  }

  lemma SearchStepKeepsValueComing(s: State, i: SearchId, id: SearchId, c: RefreshId)
    requires Inv(s) && i in s.searches && ValueIsComing(s, id, c)
    ensures ValueIsComing(AdvanceSearch(s, i), id, c)
  {
    assert s.nextId !in s.channels;
  }

  lemma StepKeepsValueComing(s: State, step: Step, id: SearchId, c: RefreshId)
    requires Inv(s) && ValueIsComing(s, id, c)
    ensures ValueIsComing(Next(s, step), id, c)
  {
    match step
    case TaskStep(d, ok) => if d in s.tasks { TaskStepDelivers(s, d, ok, id, c); }
    case SearchStep(i) => if i in s.searches { SearchStepKeepsValueComing(s, i, id, c); }
    case _ =>
  }

  lemma {:induction false} ValueKeepsComing(s: State, steps: seq<Step>, id: SearchId, c: RefreshId)
    requires Inv(s) && ValueIsComing(s, id, c)
    ensures ValueIsComing(Run(s, steps), id, c)
    decreases steps
  {
    if steps != [] {
      NextKeepsInv(s, steps[0]);
      StepKeepsValueComing(s, steps[0], id, c);
      ValueKeepsComing(Next(s, steps[0]), steps[1..], id, c);
    }
  }

  /** A search that subscribed before the value was sent needs nobody else: six steps of the task,
      however interleaved, and it is past waiting or the value is there for it. */
  lemma EarlyWaiterGetsValue(s: State, steps: seq<Step>, id: SearchId)
    requires Inv(s) && id in s.searches && s.searches[id].Waiting?
    requires var c := s.searches[id].chan; c in s.tasks && IsUnsent(s.tasks[c].phase) && TaskSteps(steps, c) >= 6
    ensures var t := Run(s, steps);
            && id in t.searches
            && (PastWaiting(t.searches[id]) ||
                (t.searches[id].Waiting? && Wakeable(t, t.searches[id].chan, t.searches[id].seen)))
  {
    var c := s.searches[id].chan;
    assert SearchMatches(s, s.searches[id]);
    assert Remaining(s, c) <= 6;
    TaskFinishes(s, steps, c);
    ValueKeepsComing(s, steps, id, c);
  }
}
