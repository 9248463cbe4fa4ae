/** What the model host promises over every run: any sequence of API calls, thread steps,
    failed saves and restarts, in any interleaving, from any residency file. */
module HostTheorems {
  import opened Wrappers
  import opened Lifecycles
  import opened Admissions
  import opened Hosts
  import opened HostInvariants
  import R = Residencies

  // ----- Threads and weights

  function LoadTasksOf(s: HostState, id: Id): set<TaskId> {
    set t | t in s.loadTasks && s.loadTasks[t].id == id
  }

  function UnloadTasksOf(s: HostState, id: Id): set<TaskId> {
    set t | t in s.unloadTasks && s.unloadTasks[t].id == id
  }

  lemma LoadThreads(s: HostState, id: Id)
    requires LoadIsRun(s.entries, s.loadTasks, id) && LoadsMatch(s.entries, s.loadTasks, s.nextTask)
    ensures |LoadTasksOf(s, id)| == if StateOf(s, id).Loading? then 1 else 0
  {
    if StateOf(s, id).Loading? {
      var t :| t in s.loadTasks && s.loadTasks[t].id == id;
      assert LoadTasksOf(s, id) == {t};
    } else {
      assert LoadTasksOf(s, id) == {};
    }
  }

  lemma UnloadThreads(s: HostState, id: Id)
    requires UnloadIsRun(s.entries, s.unloadTasks, id) && UnloadsMatch(s.entries, s.unloadTasks, s.nextTask)
    ensures |UnloadTasksOf(s, id)| == if StateOf(s, id).Unloading? then 1 else 0
  {
    if StateOf(s, id).Unloading? {
      var t :| t in s.unloadTasks && s.unloadTasks[t].id == id;
      assert UnloadTasksOf(s, id) == {t};
    } else {
      assert UnloadTasksOf(s, id) == {};
    }
  }

  /** Exactly one load thread while loading, exactly one unload thread while unloading, none
      otherwise; weights in memory exactly while loaded or unloading; a deferred unload only
      while loading.  So a load and an unload of one model never run at the same time. */
  lemma OneThreadPerTransition(cat: Catalog, path: bool, file: R.FileState, q: bool, es: seq<Event>, id: Id)
    ensures var s := Exec(cat, Start(path, file, q), es);
            && |LoadTasksOf(s, id)| == (if StateOf(s, id).Loading? then 1 else 0)
            && |UnloadTasksOf(s, id)| == (if StateOf(s, id).Unloading? then 1 else 0)
            && (EntryOf(s, id).loaded.Some? <==> StateOf(s, id).Loaded? || StateOf(s, id).Unloading?)
            && (EntryOf(s, id).lifecycle.unloadPending ==> StateOf(s, id).Loading?)
  {
    StartInv(cat, path, file, q);
    ExecKeeps(cat, Start(path, file, q), es);
    var s := Exec(cat, Start(path, file, q), es);
    assert EntryMatches(At(s.entries, id));
    assert LoadIsRun(s.entries, s.loadTasks, id) && UnloadIsRun(s.entries, s.unloadTasks, id);
    LoadThreads(s, id);
    UnloadThreads(s, id);
  }

  /** Neither "finished in a state that never started it" branch is ever reached. */
  lemma FinishesAreExpected(cat: Catalog, path: bool, file: R.FileState, q: bool, es: seq<Event>, t: TaskId,
                            outcome: Result<Weights, string>)
    ensures var s := Exec(cat, Start(path, file, q), es);
            && (t in s.loadTasks ==>
                  FinishLoad(s.(loadTasks := s.loadTasks - {t}), s.loadTasks[t].id, outcome).1)
            && (t in s.unloadTasks && s.unloadTasks[t].phase.Finishing? ==>
                  FinishUnload(s.(unloadTasks := s.unloadTasks - {t}), s.unloadTasks[t].id).1)
  {
    StartInv(cat, path, file, q);
    ExecKeeps(cat, Start(path, file, q), es);
    var s := Exec(cat, Start(path, file, q), es);
    if t in s.loadTasks {
      EndLoadKeeps(cat, s, t, outcome);
    }
    if t in s.unloadTasks && s.unloadTasks[t].phase.Finishing? {
      EndUnloadKeeps(cat, s, t);
    }
  }

  // ----- Exclusive groups and residency

  /** Two members of an exclusive group are never both live (loaded, or loading with no unload
      deferred), and every live model is resident in memory and, when residency is persisted,
      in what the next start would restore. */
  lemma LiveModelsAreApartAndResident(cat: Catalog, path: bool, file: R.FileState, q: bool, es: seq<Event>)
    ensures var s := Exec(cat, Start(path, file, q), es);
            && (forall a, b {:trigger IsLive(s, a), IsLive(s, b)} |
                  IsLive(s, a) && IsLive(s, b) && SameGroup(cat, a, b) :: a == b)
            && (forall id | IsLive(s, id) ::
                  IsResident(s, id) && (s.residency.persists ==> id in R.Reloaded(s.file)))
  {
    StartInv(cat, path, file, q);
    ExecKeeps(cat, Start(path, file, q), es);
  }

  /** A load that is refused, or asks for an unknown or disabled model, changes nothing.  One
      that fails to save makes nobody live or resident but (on its first save's success) the
      model itself resident, and starts no load. */
  lemma FailedLoadChangesLittle(cat: Catalog, s: HostState, id: Id, probe: Probe, failing: set<Id>)
    requires R.Agree(s.residency, s.file)
    ensures var (s', r) := Load(cat, s, id, probe, failing);
            r.Err? ==>
              && (!r.error.Persist? ==> s' == s)
              && s'.loadTasks == s.loadTasks
              && EntryOf(s', id) == EntryOf(s, id)
              && (forall x | IsLive(s', x) :: IsLive(s, x))
              && (forall x | x != id && IsResident(s', x) :: IsResident(s, x))
              && R.Agree(s'.residency, s'.file)
  {
    if Get(cat, id).Some? {
      GetFinds(cat, id);
      var model := Get(cat, id).value;
      var others := SwapOut(cat, s, model);
      var (s1, saved) := SetResident(s, id, true, id !in failing);
      R.SetIsAtomic(s.residency, s.file, id, true, id !in failing);
      SwapAllEffect(s1, others, failing);
      SwapAllStartsNoLoad(s1, others, failing);
      SwapOutHasAll(cat, s, model, id);
    }
  }

  /** A load that goes through. */
  predicate Goes(cat: Catalog, s: HostState, e: Event) {
    e.DoLoad? && Load(cat, s, e.id, e.probe, e.failing).1.Ok?
  }

  /** A load that goes through leaves the model resident, and live exactly if it was not being
      unloaded: a load asked for meanwhile is dropped, though the model is marked resident. */
  lemma LoadTakesEffect(cat: Catalog, s: HostState, id: Id, probe: Probe, failing: set<Id>)
    requires Inv(cat, s)
    ensures var (s', r) := Load(cat, s, id, probe, failing);
            r.Ok? ==>
              && Get(cat, id).Some? && Get(cat, id).value.enabled
              && IsResident(s', id)
              && r.value == StateOf(s', id)
              && (IsLive(s', id) <==> !StateOf(s, id).Unloading?)
              && (StateOf(s, id).Loaded? || StateOf(s, id).Unloading? ==> StateOf(s', id) == StateOf(s, id))
  {
    if Load(cat, s, id, probe, failing).1.Ok? {
      GetFinds(cat, id);
      assert EntryMatches(At(s.entries, id));
      var model := Get(cat, id).value;
      var others := SwapOut(cat, s, model);
      var s1 := SetResident(s, id, true, id !in failing).0;
      R.SetIsAtomic(s.residency, s.file, id, true, id !in failing);
      SwapOutHasAll(cat, s, model, id);
      SwapAllEffect(s1, others, failing);
    }
  }

  /** An unload either changes nothing, for an unknown model or a failed save, or leaves the model
      neither live nor resident, and every other as it was. */
  lemma UnloadTakesEffect(cat: Catalog, s: HostState, id: Id, saves: bool)
    requires R.Agree(s.residency, s.file)
    ensures var (s', r) := Unload(cat, s, id, saves);
            && (r.Err? ==> s' == s && (r.error.UnknownModel? <==> Get(cat, id).None?))
            && (r.Ok? ==>
                  && r.value == StateOf(s', id)
                  && !IsLive(s', id) && !IsResident(s', id)
                  && (StateOf(s, id).Loaded? ==> StateOf(s', id).Unloading?)
                  && (StateOf(s, id).Loading? ==> StateOf(s', id).Loading?))
            && (forall x | x != id ::
                  EntryOf(s', x) == EntryOf(s, x) && (IsResident(s', x) <==> IsResident(s, x)))
  {
    if Get(cat, id).Some? {
      R.SetIsAtomic(s.residency, s.file, id, false, saves);
      DropEffect(s, id, saves);
    }
  }

  lemma {:induction false} SwapAllStartsNoLoad(s: HostState, others: seq<Id>, failing: set<Id>)
    ensures SwapAll(s, others, failing).0.loadTasks == s.loadTasks
    decreases others
  {
    if others != [] {
      var (s1, ok) := SetResident(s, others[0], false, others[0] !in failing);
      if ok {
        SwapAllStartsNoLoad(RequestUnloadLocked(s1, others[0]), others[1..], failing);
      }
    }
  }

  /** What dropping one model does to states. */
  lemma DropStates(s: HostState, id: Id, saves: bool, x: Id)
    requires R.Agree(s.residency, s.file) && Drop(s, id, saves).1
    ensures var s' := Drop(s, id, saves).0;
            && (x == id ==> StateOf(s', x) == RequestUnload(EntryOf(s, x).lifecycle).0.state)
            && (x != id ==> StateOf(s', x) == StateOf(s, x))
            && R.Agree(s'.residency, s'.file)
  {
    DropEffect(s, id, saves);
  }

  /** What a swap does to the states of the outgoing models. */
  lemma {:induction false} SwapAllStates(s: HostState, others: seq<Id>, failing: set<Id>, x: Id)
    requires R.Agree(s.residency, s.file)
    requires SwapAll(s, others, failing).1
    ensures var s' := SwapAll(s, others, failing).0;
            && (x in others && StateOf(s, x).Loaded? ==> !StateOf(s', x).Loaded?)
            && (!StateOf(s, x).Loaded? ==> !StateOf(s', x).Loaded?)
            && (StateOf(s', x).Loading? <==> StateOf(s, x).Loading?)
    decreases others
  {
    if others != [] {
      var id := others[0];
      var s1 := Drop(s, id, id !in failing).0;
      DropStates(s, id, id !in failing, x);
      SwapAllStates(s1, others[1..], failing, x);
    }
  }

  predicate IsBusy(s: HostState, id: Id) {
    StateOf(s, id).Loading? || StateOf(s, id).Loaded?
  }

  /** The documented claim for the group of `id`: at most one member is loading or loaded. */
  ghost predicate AtMostOneIsBusy(cat: Catalog, s: HostState, id: Id) {
    forall x, y {:trigger SameGroup(cat, id, x), SameGroup(cat, id, y)} |
      SameGroup(cat, id, x) && SameGroup(cat, id, y) && IsBusy(s, x) && IsBusy(s, y) :: x == y
  }

  /** Another member of the group of `id` is loading. */
  ghost predicate MateLoads(cat: Catalog, s: HostState, id: Id, x: Id) {
    x != id && SameGroup(cat, id, x) && StateOf(s, x).Loading?
  }

  lemma RequestMakesBusy(s: HostState, id: Id, swapOut: seq<Id>, x: Id)
    ensures IsBusy(RequestLoadLocked(s, id, swapOut), x) <==>
              if x == id then !StateOf(s, x).Unloading? else IsBusy(s, x)
  {
  }

  /** What a load that goes through leaves of its group: it is loading or loaded itself unless it
      was unloading, and of the others exactly those that were loading still are. */
  lemma BusyAfterLoad(cat: Catalog, s: HostState, id: Id, probe: Probe, failing: set<Id>, x: Id)
    requires R.Agree(s.residency, s.file)
    requires Load(cat, s, id, probe, failing).1.Ok?
    ensures var s' := Load(cat, s, id, probe, failing).0;
            && (x == id ==> (IsBusy(s', x) <==> !StateOf(s, x).Unloading?))
            && (x != id && SameGroup(cat, id, x) ==> (IsBusy(s', x) <==> StateOf(s, x).Loading?))
  {
    GetFinds(cat, id);
    var model := Get(cat, id).value;
    var others := SwapOut(cat, s, model);
    var s1 := SetResident(s, id, true, id !in failing).0;
    var s2 := SwapAll(s1, others, failing).0;
    R.SetIsAtomic(s.residency, s.file, id, true, id !in failing);
    SwapOutHasAll(cat, s, model, x);
    SwapAllStates(s1, others, failing, x);
    SwapAllEffect(s1, others, failing);
    RequestMakesBusy(s2, id, others, x);
  }

  /** No other member of the group of `id` is loading, or only one is and `id` is unloading. */
  ghost predicate IsTimely(cat: Catalog, s: HostState, id: Id) {
    || (forall x :: !MateLoads(cat, s, id, x))
    || (&& StateOf(s, id).Unloading?
        && forall x, y | MateLoads(cat, s, id, x) && MateLoads(cat, s, id, y) :: x == y)
  }

  /** "At most one member of an exclusive group is loading or loaded" holds after a load of `id`
      that went through exactly when the load was timely: a loaded member starts unloading at once,
      a loading one only once its load has ended, and a load asked for while unloading is dropped. */
  lemma GroupIsExclusiveAfterLoadIff(cat: Catalog, s: HostState, id: Id, probe: Probe, failing: set<Id>)
    requires R.Agree(s.residency, s.file)
    requires Load(cat, s, id, probe, failing).1.Ok?
    ensures AtMostOneIsBusy(cat, Load(cat, s, id, probe, failing).0, id) <==> IsTimely(cat, s, id)
  {
    var s' := Load(cat, s, id, probe, failing).0;
    forall x
      ensures x == id ==> (IsBusy(s', x) <==> !StateOf(s, x).Unloading?)
      ensures x != id && SameGroup(cat, id, x) ==> (IsBusy(s', x) <==> StateOf(s, x).Loading?)
    {
      BusyAfterLoad(cat, s, id, probe, failing, x);
    }
    forall x | MateLoads(cat, s, id, x)
      ensures SameGroup(cat, id, id) && SameGroup(cat, id, x) && IsBusy(s', x)
    {
    }
    assert forall x | SameGroup(cat, id, x) && IsBusy(s', x) && x != id :: MateLoads(cat, s, id, x);
  }

  // ----- Lanes

  ghost predicate RunsOn(s: HostState, r: RequestId, lane: LaneId) {
    r in s.requests && s.requests[r].phase.Running? && s.requests[r].handle.lane == lane
  }

  /** No two requests ever run on one lane. */
  lemma OneClosurePerLane(cat: Catalog, path: bool, file: R.FileState, q: bool, es: seq<Event>,
                          lane: LaneId, r1: RequestId, r2: RequestId)
    ensures var s := Exec(cat, Start(path, file, q), es);
            RunsOn(s, r1, lane) && RunsOn(s, r2, lane) ==> r1 == r2
  {
    StartInv(cat, path, file, q);
    ExecKeeps(cat, Start(path, file, q), es);
  }

  /** A closure that starts runs on its model's current handle, hence on the weights in memory
      now, however long ago the request looked it up. */
  lemma ClosuresStartOnCurrentWeights(cat: Catalog, path: bool, file: R.FileState, q: bool, es: seq<Event>,
                                      r: RequestId)
    ensures var s := Exec(cat, Start(path, file, q), es);
            var s' := Next(cat, s, CheckCancel(r));
            r in s.requests && s.requests[r].phase.Holding?
            && r in s'.requests && s'.requests[r].phase.Running? ==>
              var h := s.requests[r].handle;
              && h.lane < |s.lanes|
              && EntryOf(s, s.lanes[h.lane].owner).loaded == Some(h)
  {
    StartInv(cat, path, file, q);
    ExecKeeps(cat, Start(path, file, q), es);
    var s := Exec(cat, Start(path, file, q), es);
    if r in s.requests {
      assert IsCurrent(s.entries, s.lanes, s.requests[r].handle.lane);
    }
  }

  lemma EndedLoadHasNewLane(s: HostState, t: TaskId, weights: Weights)
    requires t in s.loadTasks && RequestsMatch(s.lanes, s.requests)
    ensures var id := s.loadTasks[t].id;
            var s' := FinishLoad(s.(loadTasks := s.loadTasks - {t}), id, Ok(weights)).0;
            StateOf(s, id).Loading? ==>
              && EntryOf(s', id).loaded == Some(Handle(weights, |s.lanes|))
              && s'.lanes == s.lanes + [Lane(id, weights, None, false)]
              && s'.requests == s.requests
              && forall r | r in s'.requests :: s'.requests[r].handle.lane != |s.lanes|
  {
  }

  lemma EndedLoadIsLoaded(s: HostState, t: TaskId, weights: Weights)
    requires t in s.loadTasks && StateOf(s, s.loadTasks[t].id).Loading?
    requires !EntryOf(s, s.loadTasks[t].id).lifecycle.unloadPending
    ensures var s' := FinishLoad(s.(loadTasks := s.loadTasks - {t}), s.loadTasks[t].id, Ok(weights)).0;
            StateOf(s', s.loadTasks[t].id).Loaded?
  {
  }

  /** A load that ends well gives the model a lane no request knows, free and not cancelled,
      serving exactly the weights just loaded. */
  lemma ReloadGetsFreshLane(cat: Catalog, path: bool, file: R.FileState, q: bool, es: seq<Event>,
                            t: TaskId, weights: Weights)
    ensures var s := Exec(cat, Start(path, file, q), es);
            var s' := Next(cat, s, EndLoad(t, Ok(weights)));
            t in s.loadTasks && s.loadTasks[t].waiting == [] ==>
              var id := s.loadTasks[t].id;
              && EntryOf(s', id).loaded == Some(Handle(weights, |s.lanes|))
              && s'.lanes == s.lanes + [Lane(id, weights, None, false)]
              && (forall r | r in s'.requests :: s'.requests[r].handle.lane != |s.lanes|)
  {
    StartInv(cat, path, file, q);
    ExecKeeps(cat, Start(path, file, q), es);
    var s := Exec(cat, Start(path, file, q), es);
    if t in s.loadTasks {
      assert LoadIsRun(s.entries, s.loadTasks, s.loadTasks[t].id);
      EndedLoadHasNewLane(s, t, weights);
    }
  }

  // ----- Who is served

  lemma LooksUp(cat: Catalog, s: HostState, id: Id, req: RequestId, waits: bool)
    requires EntryMatches(EntryOf(s, id)) && req !in s.requests
    ensures Next(cat, s, LookUp(req, id, waits)) ==
              if StateOf(s, id).Loaded? then
                s.(requests := s.requests[req := Request(EntryOf(s, id).loaded.value, waits, LookedUp)])
              else s
  {
  }

  lemma EntryIsMatched(cat: Catalog, path: bool, file: R.FileState, q: bool, es: seq<Event>, id: Id)
    ensures EntryMatches(EntryOf(Exec(cat, Start(path, file, q), es), id))
  {
    StartInv(cat, path, file, q);
    ExecKeeps(cat, Start(path, file, q), es);
  }

  /** In every reachable state a new request for a model gets exactly the model's current weights
      and lane if the model is loaded, and nothing if it is not. */
  lemma LoadedIsServed(cat: Catalog, path: bool, file: R.FileState, q: bool, es: seq<Event>, id: Id, req: RequestId,
                       waits: bool)
    ensures var s := Exec(cat, Start(path, file, q), es);
            && (StateOf(s, id).Loaded? ==> EntryOf(s, id).loaded.Some?)
            && (req !in s.requests ==>
                  Next(cat, s, LookUp(req, id, waits)) ==
                    if StateOf(s, id).Loaded? then
                      s.(requests := s.requests[req := Request(EntryOf(s, id).loaded.value, waits, LookedUp)])
                    else s)
  {
    var s := Exec(cat, Start(path, file, q), es);
    EntryIsMatched(cat, path, file, q, es, id);
    if req !in s.requests {
      LooksUp(cat, s, id, req, waits);
    }
  }

  /** A request that finds its lane's mutex free takes it, and runs unless the lane is cancelled. */
  lemma FreeLaneRuns(cat: Catalog, s: HostState, req: RequestId)
    requires req in s.requests && s.requests[req].phase.LookedUp?
    requires s.requests[req].handle.lane < |s.lanes|
    requires s.lanes[s.requests[req].handle.lane].busy.None?
    ensures var s' := Next(cat, Next(cat, s, LockLane(req)), CheckCancel(req));
            if s.lanes[s.requests[req].handle.lane].cancel then
              req !in s'.requests && s'.lanes == s.lanes
            else
              && req in s'.requests && s'.requests[req] == s.requests[req].(phase := Running)
              && s'.lanes[s.requests[req].handle.lane].busy == Some(req)
  {
    var n := s.requests[req].handle.lane;
    var s1 := Next(cat, s, LockLane(req));
    assert s1 == SetLane(s.(requests := s.requests[req := s.requests[req].(phase := Holding)]),
                         n, s.lanes[n].(busy := Some(req)));
  }

  lemma LoadedServes(cat: Catalog, s: HostState, id: Id, req: RequestId, waits: bool)
    requires StateOf(s, id).Loaded? && EntryMatches(EntryOf(s, id)) && req !in s.requests
    requires var h := EntryOf(s, id).loaded.value;
             h.lane < |s.lanes| && s.lanes[h.lane].busy.None? && !s.lanes[h.lane].cancel
    ensures var s' := Next(cat, Next(cat, Next(cat, s, LookUp(req, id, waits)), LockLane(req)), CheckCancel(req));
            && req in s'.requests && s'.requests[req].phase.Running?
            && s'.requests[req].handle == EntryOf(s, id).loaded.value
  {
    LooksUp(cat, s, id, req, waits);
    FreeLaneRuns(cat, Next(cat, s, LookUp(req, id, waits)), req);
  }

  lemma EndsLoaded(cat: Catalog, s: HostState, t: TaskId, weights: Weights)
    requires Inv(cat, s) && t in s.loadTasks && s.loadTasks[t].waiting == []
    requires !EntryOf(s, s.loadTasks[t].id).lifecycle.unloadPending
    ensures var id := s.loadTasks[t].id;
            var s' := Next(cat, s, EndLoad(t, Ok(weights)));
            && StateOf(s', id).Loaded? && EntryOf(s', id).loaded == Some(Handle(weights, |s.lanes|))
            && EntryMatches(EntryOf(s', id))
            && s'.lanes == s.lanes + [Lane(id, weights, None, false)] && s'.requests == s.requests
  {
    EndedLoadHasNewLane(s, t, weights);
    EndedLoadIsLoaded(s, t, weights);
    assert EntryMatches(At(s.entries, s.loadTasks[t].id));
  }

  /** So a model whose load ends well, with no unload deferred, serves: a request that comes next
      runs on the weights just loaded. */
  lemma ReloadedServes(cat: Catalog, path: bool, file: R.FileState, q: bool, es: seq<Event>, t: TaskId,
                       weights: Weights, req: RequestId, waits: bool)
    requires var s := Exec(cat, Start(path, file, q), es);
             && t in s.loadTasks && s.loadTasks[t].waiting == []
             && !EntryOf(s, s.loadTasks[t].id).lifecycle.unloadPending && req !in s.requests
    ensures var s := Exec(cat, Start(path, file, q), es);
            var s1 := Next(cat, s, EndLoad(t, Ok(weights)));
            var s2 := Next(cat, s1, LookUp(req, s.loadTasks[t].id, waits));
            var s3 := Next(cat, Next(cat, s2, LockLane(req)), CheckCancel(req));
            && req in s3.requests && s3.requests[req].phase.Running?
            && s3.requests[req].handle == Handle(weights, |s.lanes|)
  {
    var s := Exec(cat, Start(path, file, q), es);
    var s1 := Next(cat, s, EndLoad(t, Ok(weights)));
    StartInv(cat, path, file, q);
    ExecKeeps(cat, Start(path, file, q), es);
    EndsLoaded(cat, s, t, weights);
    LoadedServes(cat, s1, s.loadTasks[t].id, req, waits);
  }

  /** The lane's unload has begun and nothing runs on it. */
  ghost predicate IsQuiet(s: HostState, lane: LaneId) {
    lane < |s.lanes| && s.lanes[lane].cancel && forall r :: !RunsOn(s, r, lane)
  }

  /** Loads and unloads touch lanes and requests only through the threads they start. */
  lemma LoadLeavesLanes(cat: Catalog, s: HostState, id: Id, probe: Probe, failing: set<Id>)
    requires R.Agree(s.residency, s.file)
    ensures var s' := Load(cat, s, id, probe, failing).0;
            s'.lanes == s.lanes && s'.requests == s.requests
  {
    if Get(cat, id).Some? {
      R.SetIsAtomic(s.residency, s.file, id, true, id !in failing);
      SwapAllEffect(SetResident(s, id, true, id !in failing).0,
                    SwapOut(cat, s, Get(cat, id).value), failing);
    }
  }

  lemma UnloadLeavesLanes(cat: Catalog, s: HostState, id: Id, saves: bool)
    ensures var s' := Unload(cat, s, id, saves).0;
            s'.lanes == s.lanes && s'.requests == s.requests
  {
  }

  lemma FinishesLeaveLanes(s: HostState, id: Id, outcome: Result<Weights, string>)
    ensures var s' := FinishLoad(s, id, outcome).0; s.lanes <= s'.lanes && s'.requests == s.requests
    ensures var s' := FinishUnload(s, id).0; s'.lanes == s.lanes && s'.requests == s.requests
  {
  }

  /** Calls, and steps of their threads but for raising the flag. */
  predicate LeavesRequests(e: Event) {
    IsCall(e) || (IsThreadStep(e) && !e.RaiseCancel?)
  }

  lemma ThreadStepsLeaveRequests(cat: Catalog, s: HostState, e: Event)
    requires R.Agree(s.residency, s.file) && LeavesRequests(e)
    ensures var s' := Next(cat, s, e); s.lanes <= s'.lanes && s'.requests == s.requests
  {
    match e {
      case DoLoad(id, probe, failing) => LoadLeavesLanes(cat, s, id, probe, failing);
      case DoUnload(id, saves) => UnloadLeavesLanes(cat, s, id, saves);
      case EndLoad(t, outcome) =>
        if t in s.loadTasks {
          FinishesLeaveLanes(s.(loadTasks := s.loadTasks - {t}), s.loadTasks[t].id, outcome);
        }
      case EndUnload(t) =>
        if t in s.unloadTasks {
          FinishesLeaveLanes(s.(unloadTasks := s.unloadTasks - {t}), s.unloadTasks[t].id, Ok(0));
        }
      case _ =>
    }
  }

  /** Raising a flag leaves the requests and every flag that is up. */
  lemma RaisingStartsNothing(cat: Catalog, s: HostState, t: TaskId, lane: LaneId)
    requires lane < |s.lanes| && s.lanes[lane].cancel
    ensures var s' := Next(cat, s, RaiseCancel(t));
            lane < |s'.lanes| && s'.lanes[lane].cancel && s'.requests == s.requests
  {
  }

  lemma RequestStepsKeepFlags(cat: Catalog, s: HostState, e: Event, lane: LaneId)
    requires IsRequestStep(e) && lane < |s.lanes| && s.lanes[lane].cancel
    ensures var s' := Next(cat, s, e);
            lane < |s'.lanes| && s'.lanes[lane].cancel
  {
  }

  lemma RequestStepsStartNothing(cat: Catalog, s: HostState, e: Event, lane: LaneId)
    requires IsRequestStep(e) && lane < |s.lanes| && s.lanes[lane].cancel
    ensures forall r | RunsOn(Next(cat, s, e), r, lane) :: RunsOn(s, r, lane)
  {
  }

  /** Once a lane is cancelled it stays so, and no closure starts on it: at most the one that
      was running then still runs. */
  lemma NoClosureStartsOnCancelled(cat: Catalog, s: HostState, e: Event, lane: LaneId)
    requires R.Agree(s.residency, s.file) && !EndsProcess(e)
    requires lane < |s.lanes| && s.lanes[lane].cancel
    ensures var s' := Next(cat, s, e);
            && lane < |s'.lanes| && s'.lanes[lane].cancel
            && (forall r | RunsOn(s', r, lane) :: RunsOn(s, r, lane))
  {
    if LeavesRequests(e) {
      ThreadStepsLeaveRequests(cat, s, e);
    } else if e.RaiseCancel? {
      RaisingStartsNothing(cat, s, e.task, lane);
    } else {
      RequestStepsKeepFlags(cat, s, e, lane);
      RequestStepsStartNothing(cat, s, e, lane);
    }
  }

  lemma {:induction false} QuietForEver(cat: Catalog, s: HostState, es: seq<Event>, lane: LaneId)
    requires Inv(cat, s) && IsQuiet(s, lane)
    requires forall e | e in es :: !EndsProcess(e)
    ensures IsQuiet(Exec(cat, s, es), lane)
  {
    if es != [] {
      QuietForEver(cat, s, es[..|es| - 1], lane);
      ExecKeeps(cat, s, es[..|es| - 1]);
      NoClosureStartsOnCancelled(cat, Exec(cat, s, es[..|es| - 1]), es[|es| - 1], lane);
    }
  }

  /** After an unload whose drain got the lane's mutex, nothing runs on that lane, then or at
      any later point of the process, not even a request that took its handle before. */
  lemma DrainedLaneNeverServes(cat: Catalog, path: bool, file: R.FileState, q: bool,
                               before: seq<Event>, t: TaskId, after: seq<Event>)
    requires forall e | e in after :: !EndsProcess(e)
    ensures var s := Exec(cat, Start(path, file, q), before);
            var s' := Next(cat, s, EndDrain(t, false));
            t in s.unloadTasks && s' != s ==>
              && s.unloadTasks[t].lane.Some?
              && IsQuiet(Exec(cat, s', after), s.unloadTasks[t].lane.value)
  {
    StartInv(cat, path, file, q);
    ExecKeeps(cat, Start(path, file, q), before);
    var s := Exec(cat, Start(path, file, q), before);
    var s' := Next(cat, s, EndDrain(t, false));
    if t in s.unloadTasks && s' != s {
      var lane := s.unloadTasks[t].lane.value;
      NextKeeps(cat, s, EndDrain(t, false));
      forall r
        ensures !RunsOn(s', r, lane)
      {
      }
      QuietForEver(cat, s', after, lane);
    }
  }
}
