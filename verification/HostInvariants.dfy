/** What every step of the model host keeps.  Each part of the invariant speaks only of the
    fields it relates, so a step that leaves those fields alone keeps it outright. */
module HostInvariants {
  import opened Wrappers
  import opened Lifecycles
  import opened Admissions
  import opened Hosts
  import R = Residencies

  type Entries = map<Id, Entry>

  // ----- Tasks

  ghost predicate LoadIsRun(es: Entries, tasks: map<TaskId, LoadTask>, id: Id) {
    At(es, id).lifecycle.state.Loading? ==> exists t :: t in tasks && tasks[t].id == id
  }

  ghost predicate UnloadIsRun(es: Entries, tasks: map<TaskId, UnloadTask>, id: Id) {
    At(es, id).lifecycle.state.Unloading? ==> exists t :: t in tasks && tasks[t].id == id
  }

  /** A load thread runs exactly for the loading models, at most one each. */
  ghost predicate LoadsMatch(es: Entries, tasks: map<TaskId, LoadTask>, next: TaskId) {
    && (forall t | t in tasks :: t < next && At(es, tasks[t].id).lifecycle.state.Loading?)
    && (forall t, u | t in tasks && u in tasks && t != u :: tasks[t].id != tasks[u].id)
    && (forall id :: LoadIsRun(es, tasks, id))
  }

  /** An unload thread runs exactly for the unloading models, at most one each. */
  ghost predicate UnloadsMatch(es: Entries, tasks: map<TaskId, UnloadTask>, next: TaskId) {
    && (forall t | t in tasks :: t < next && At(es, tasks[t].id).lifecycle.state.Unloading?)
    && (forall t, u | t in tasks && u in tasks && t != u :: tasks[t].id != tasks[u].id)
    && (forall id :: UnloadIsRun(es, tasks, id))
  }

  /** Weights are held exactly while loaded or unloading; an unload is deferred only while
      loading. */
  ghost predicate EntryMatches(e: Entry) {
    && (e.loaded.Some? <==> e.lifecycle.state.Loaded? || e.lifecycle.state.Unloading?)
    && (e.lifecycle.unloadPending ==> e.lifecycle.state.Loading?)
  }

  ghost predicate EntriesMatch(es: Entries) {
    forall id :: EntryMatches(At(es, id))
  }

  // ----- Lanes

  /** A handle of `id` names a lane made for it, with its weights. */
  ghost predicate HandleMatches(lanes: seq<Lane>, id: Id, h: Handle) {
    h.lane < |lanes| && lanes[h.lane].owner == id && lanes[h.lane].weights == h.weights
  }

  /** The lane, unless cancelled, is the current handle of the model it was made for. */
  ghost predicate IsCurrent(es: Entries, lanes: seq<Lane>, n: LaneId)
    requires n < |lanes|
  {
    !lanes[n].cancel ==> At(es, lanes[n].owner).loaded == Some(Handle(lanes[n].weights, n))
  }

  /** Handles name their own lanes, a loaded model's uncancelled; and a lane that is not
      cancelled is the current handle of the model it was made for. */
  ghost predicate LanesMatch(es: Entries, lanes: seq<Lane>) {
    && (forall id | At(es, id).loaded.Some? :: HandleMatches(lanes, id, At(es, id).loaded.value))
    && (forall id | At(es, id).loaded.Some? && At(es, id).lifecycle.state.Loaded? ::
          !lanes[At(es, id).loaded.value.lane].cancel)
    && (forall n: nat | n < |lanes| :: IsCurrent(es, lanes, n))
  }

  /** An unload thread works on its model's current lane, and has raised the cancel flag
      unless it has only just started. */
  ghost predicate DrainsMatch(es: Entries, lanes: seq<Lane>, tasks: map<TaskId, UnloadTask>) {
    forall t | t in tasks ::
      && tasks[t].lane.Some?
      && tasks[t].lane.value < |lanes|
      && At(es, tasks[t].id).loaded.Some?
      && At(es, tasks[t].id).loaded.value.lane == tasks[t].lane.value
      && (lanes[tasks[t].lane.value].cancel <==> !tasks[t].phase.Spawned?)
  }

  // ----- Requests

  /** A request's weights are its lane's; it holds the lane's mutex exactly from taking it
      until it leaves. */
  ghost predicate RequestsMatch(lanes: seq<Lane>, reqs: map<RequestId, Request>) {
    && (forall r | r in reqs ::
          && reqs[r].handle.lane < |lanes|
          && reqs[r].handle.weights == lanes[reqs[r].handle.lane].weights
          && (!reqs[r].phase.LookedUp? ==> lanes[reqs[r].handle.lane].busy == Some(r)))
    && (forall n: nat | n < |lanes| && lanes[n].busy.Some? ::
          && lanes[n].busy.value in reqs
          && reqs[lanes[n].busy.value].handle.lane == n
          && !reqs[lanes[n].busy.value].phase.LookedUp?)
  }

  // ----- Wishes

  ghost predicate SameGroup(cat: Catalog, a: Id, b: Id) {
    && Get(cat, a).Some? && Get(cat, b).Some?
    && Get(cat, a).value.exclusiveGroup.Some?
    && Get(cat, a).value.exclusiveGroup == Get(cat, b).value.exclusiveGroup
  }

  /** Live models are resident. */
  ghost predicate LiveAreResident(es: Entries, resident: set<Id>) {
    forall id | At(es, id).lifecycle.Live() :: id in resident
  }

  /** Live models share no exclusive group. */
  ghost predicate LiveAreApart(cat: Catalog, es: Entries) {
    forall a, b {:trigger SameGroup(cat, a, b)} |
      At(es, a).lifecycle.Live() && At(es, b).lifecycle.Live() && SameGroup(cat, a, b) :: a == b
  }

  ghost predicate Inv(cat: Catalog, s: HostState) {
    && LoadsMatch(s.entries, s.loadTasks, s.nextTask)
    && UnloadsMatch(s.entries, s.unloadTasks, s.nextTask)
    && EntriesMatch(s.entries)
    && LanesMatch(s.entries, s.lanes)
    && DrainsMatch(s.entries, s.lanes, s.unloadTasks)
    && RequestsMatch(s.lanes, s.requests)
    && LiveAreResident(s.entries, s.residency.resident)
    && LiveAreApart(cat, s.entries)
    && R.Agree(s.residency, s.file)
  }

  lemma StartInv(cat: Catalog, path: bool, file: R.FileState, canQuarantine: bool)
    ensures Inv(cat, Start(path, file, canQuarantine))
  {
  }

  // ----- The pieces of load and unload

  lemma AddUnloadTask(es: Entries, es': Entries, tasks: map<TaskId, UnloadTask>, next: TaskId, id: Id,
                      lane: Option<LaneId>)
    requires UnloadsMatch(es, tasks, next)
    requires !At(es, id).lifecycle.state.Unloading? && At(es', id).lifecycle.state.Unloading?
    requires forall x | x != id :: At(es', x) == At(es, x)
    ensures UnloadsMatch(es', tasks[next := UnloadTask(id, lane, Spawned)], next + 1)
  {
    var tasks' := tasks[next := UnloadTask(id, lane, Spawned)];
    forall x
      ensures UnloadIsRun(es', tasks', x)
    {
      if x == id {
        assert tasks'[next].id == id;
      } else if At(es', x).lifecycle.state.Unloading? {
        assert UnloadIsRun(es, tasks, x);
        var t :| t in tasks && tasks[t].id == x;
        assert tasks'[t].id == x;
      }
    }
  }

  lemma AddLoadTask(es: Entries, es': Entries, tasks: map<TaskId, LoadTask>, next: TaskId, id: Id,
                    waiting: seq<Id>)
    requires LoadsMatch(es, tasks, next)
    requires !At(es, id).lifecycle.state.Loading? && At(es', id).lifecycle.state.Loading?
    requires forall x | x != id :: At(es', x) == At(es, x)
    ensures LoadsMatch(es', tasks[next := LoadTask(id, waiting)], next + 1)
  {
    var tasks' := tasks[next := LoadTask(id, waiting)];
    forall x
      ensures LoadIsRun(es', tasks', x)
    {
      if x == id {
        assert tasks'[next].id == id;
      } else if At(es', x).lifecycle.state.Loading? {
        assert LoadIsRun(es, tasks, x);
        var t :| t in tasks && tasks[t].id == x;
        assert tasks'[t].id == x;
      }
    }
  }

  /** The entries after only `id`'s lifecycle changed. */
  function Relabel(es: Entries, id: Id, l: LifecycleView): Entries {
    es[id := At(es, id).(lifecycle := l)]
  }

  lemma RelabelLanes(es: Entries, lanes: seq<Lane>, tasks: map<TaskId, UnloadTask>, id: Id,
                     l: LifecycleView)
    requires LanesMatch(es, lanes) && DrainsMatch(es, lanes, tasks)
    requires l.state.Loaded? ==> At(es, id).lifecycle.state.Loaded?
    ensures LanesMatch(Relabel(es, id, l), lanes) && DrainsMatch(Relabel(es, id, l), lanes, tasks)
  {
    var es' := Relabel(es, id, l);
    assert forall x :: At(es', x).loaded == At(es, x).loaded;
    forall n: nat | n < |lanes|
      ensures IsCurrent(es', lanes, n)
    {
      assert IsCurrent(es, lanes, n);
    }
  }

  lemma RelabelEntries(es: Entries, id: Id, l: LifecycleView)
    requires EntriesMatch(es) && EntryMatches(At(es, id).(lifecycle := l))
    ensures EntriesMatch(Relabel(es, id, l))
  {
    forall x
      ensures EntryMatches(At(Relabel(es, id, l), x))
    {
      assert EntryMatches(At(es, x));
    }
  }

  lemma RelabelTasks(es: Entries, loads: map<TaskId, LoadTask>, unloads: map<TaskId, UnloadTask>,
                     next: TaskId, next': TaskId, id: Id,
                     l: LifecycleView)
    requires next <= next'
    requires LoadsMatch(es, loads, next) && UnloadsMatch(es, unloads, next)
    ensures (l.state.Loading? <==> At(es, id).lifecycle.state.Loading?)
            ==> LoadsMatch(Relabel(es, id, l), loads, next')
    ensures (l.state.Unloading? <==> At(es, id).lifecycle.state.Unloading?)
            ==> UnloadsMatch(Relabel(es, id, l), unloads, next')
  {
    forall x
      ensures (l.state.Loading? <==> At(es, id).lifecycle.state.Loading?)
              ==> LoadIsRun(Relabel(es, id, l), loads, x)
      ensures (l.state.Unloading? <==> At(es, id).lifecycle.state.Unloading?)
              ==> UnloadIsRun(Relabel(es, id, l), unloads, x)
    {
      assert LoadIsRun(es, loads, x) && UnloadIsRun(es, unloads, x);
    }
  }

  lemma RequestUnloadTasks(s: HostState, id: Id)
    requires LoadsMatch(s.entries, s.loadTasks, s.nextTask)
    requires UnloadsMatch(s.entries, s.unloadTasks, s.nextTask)
    requires EntriesMatch(s.entries)
    ensures var s' := RequestUnloadLocked(s, id);
            && LoadsMatch(s'.entries, s'.loadTasks, s'.nextTask)
            && UnloadsMatch(s'.entries, s'.unloadTasks, s'.nextTask)
            && EntriesMatch(s'.entries)
  {
    var s' := RequestUnloadLocked(s, id);
    var e := EntryOf(s, id);
    var l := RequestUnload(e.lifecycle).0;
    assert EntryMatches(e);
    RelabelEntries(s.entries, id, l);
    RelabelTasks(s.entries, s.loadTasks, s.unloadTasks, s.nextTask, s'.nextTask, id, l);
    if e.lifecycle.state.Loaded? {
      AddUnloadTask(s.entries, s'.entries, s.unloadTasks, s.nextTask, id, Some(e.loaded.value.lane));
    }
  }

  lemma RequestUnloadLanes(s: HostState, id: Id)
    requires EntriesMatch(s.entries)
    requires LanesMatch(s.entries, s.lanes)
    requires DrainsMatch(s.entries, s.lanes, s.unloadTasks)
    ensures var s' := RequestUnloadLocked(s, id);
            && LanesMatch(s'.entries, s.lanes)
            && DrainsMatch(s'.entries, s.lanes, s'.unloadTasks)
  {
    var e := EntryOf(s, id);
    assert EntryMatches(e);
    RelabelLanes(s.entries, s.lanes, s.unloadTasks, id, RequestUnload(e.lifecycle).0);
  }

  lemma RequestUnloadEffect(s: HostState, id: Id)
    ensures var s' := RequestUnloadLocked(s, id);
            && !IsLive(s', id)
            && s'.residency == s.residency
            && (forall x | x != id :: EntryOf(s', x) == EntryOf(s, x))
  {
  }

  // ----- Dropping one model: residency cleared, then unload requested

  function Drop(s: HostState, id: Id, saves: bool): (HostState, bool) {
    var (s1, ok) := SetResident(s, id, false, saves);
    if ok then (RequestUnloadLocked(s1, id), true) else (s1, false)
  }

  lemma DropEffect(s: HostState, id: Id, saves: bool)
    requires R.Agree(s.residency, s.file)
    ensures var (s', ok) := Drop(s, id, saves);
            && R.Agree(s'.residency, s'.file)
            && (!ok ==> s' == s)
            && (ok ==> !IsLive(s', id) && !IsResident(s', id))
            && (forall x | x != id ::
                  EntryOf(s', x) == EntryOf(s, x) && (IsResident(s', x) <==> IsResident(s, x)))
            && (forall x | IsLive(s', x) :: IsLive(s, x))
            && s'.lanes == s.lanes && s'.requests == s.requests
            && s'.residency.persists == s.residency.persists
  {
    var (s1, ok) := SetResident(s, id, false, saves);
    R.SetIsAtomic(s.residency, s.file, id, false, saves);
    if ok {
      RequestUnloadEffect(s1, id);
    }
  }

  lemma DropWishes(cat: Catalog, s: HostState, id: Id, saves: bool)
    requires R.Agree(s.residency, s.file)
    requires LiveAreResident(s.entries, s.residency.resident) && LiveAreApart(cat, s.entries)
    ensures var s' := Drop(s, id, saves).0;
            LiveAreResident(s'.entries, s'.residency.resident) && LiveAreApart(cat, s'.entries)
  {
    var s' := Drop(s, id, saves).0;
    DropEffect(s, id, saves);
    forall x | At(s'.entries, x).lifecycle.Live()
      ensures x in s'.residency.resident && At(s.entries, x).lifecycle.Live()
    {
      assert IsLive(s', x) && IsLive(s, x) && IsResident(s, x);
      assert IsResident(s', x) <==> IsResident(s, x);
    }
  }

  lemma DropKeeps(cat: Catalog, s: HostState, id: Id, saves: bool)
    requires Inv(cat, s)
    ensures Inv(cat, Drop(s, id, saves).0)
  {
    var (s1, ok) := SetResident(s, id, false, saves);
    if ok {
      RequestUnloadTasks(s1, id);
      RequestUnloadLanes(s1, id);
    }
    DropEffect(s, id, saves);
    DropWishes(cat, s, id, saves);
  }

  // ----- Swapping a group's members out

  lemma {:induction false} SwapAllKeeps(cat: Catalog, s: HostState, others: seq<Id>, failing: set<Id>)
    requires Inv(cat, s)
    ensures Inv(cat, SwapAll(s, others, failing).0)
    decreases others
  {
    if others != [] {
      DropKeeps(cat, s, others[0], others[0] !in failing);
      var (s1, ok) := Drop(s, others[0], others[0] !in failing);
      if ok {
        SwapAllKeeps(cat, s1, others[1..], failing);
      }
    }
  }

  /** Whether or not a save fails on the way: nothing outside `others` changes and nobody
      becomes live; and when none fails, none of `others` stays live or resident. */
  lemma {:induction false} SwapAllEffect(s: HostState, others: seq<Id>, failing: set<Id>)
    requires R.Agree(s.residency, s.file)
    ensures var (s', ok) := SwapAll(s, others, failing);
            && R.Agree(s'.residency, s'.file)
            && (forall x | x !in others ::
                  EntryOf(s', x) == EntryOf(s, x) && (IsResident(s', x) <==> IsResident(s, x)))
            && (forall x | IsLive(s', x) :: IsLive(s, x))
            && (forall x | IsResident(s', x) :: IsResident(s, x))
            && (ok ==> forall x | x in others :: !IsLive(s', x) && !IsResident(s', x))
            && s'.lanes == s.lanes && s'.requests == s.requests
            && s'.residency.persists == s.residency.persists
    decreases others
  {
    if others != [] {
      var id := others[0];
      DropEffect(s, id, id !in failing);
      var (s1, ok) := Drop(s, id, id !in failing);
      if ok {
        SwapAllEffect(s1, others[1..], failing);
        var s' := SwapAll(s1, others[1..], failing).0;
        assert SwapAll(s, others, failing).0 == s';
        assert forall x | x in others :: x == id || x in others[1..];
        assert forall x | x in others[1..] :: x in others;
      }
    }
  }

  // ----- Starting a load

  lemma RequestLoadTasks(s: HostState, id: Id, swapOut: seq<Id>)
    requires LoadsMatch(s.entries, s.loadTasks, s.nextTask)
    requires UnloadsMatch(s.entries, s.unloadTasks, s.nextTask)
    requires EntriesMatch(s.entries)
    ensures var s' := RequestLoadLocked(s, id, swapOut);
            && LoadsMatch(s'.entries, s'.loadTasks, s'.nextTask)
            && UnloadsMatch(s'.entries, s'.unloadTasks, s'.nextTask)
            && EntriesMatch(s'.entries)
  {
    var s' := RequestLoadLocked(s, id, swapOut);
    var e := EntryOf(s, id);
    var l := RequestLoad(e.lifecycle).0;
    assert EntryMatches(e);
    RelabelEntries(s.entries, id, l);
    RelabelTasks(s.entries, s.loadTasks, s.unloadTasks, s.nextTask, s'.nextTask, id, l);
    if NeedsLoad(s, id) {
      AddLoadTask(s.entries, s'.entries, s.loadTasks, s.nextTask, id, swapOut);
    }
  }

  lemma RequestLoadLanes(s: HostState, id: Id, swapOut: seq<Id>)
    requires LanesMatch(s.entries, s.lanes)
    requires DrainsMatch(s.entries, s.lanes, s.unloadTasks)
    ensures var s' := RequestLoadLocked(s, id, swapOut);
            && LanesMatch(s'.entries, s.lanes)
            && DrainsMatch(s'.entries, s.lanes, s.unloadTasks)
  {
    RelabelLanes(s.entries, s.lanes, s.unloadTasks, id, RequestLoad(EntryOf(s, id).lifecycle).0);
  }

  lemma RequestLoadWishes(cat: Catalog, s: HostState, id: Id, swapOut: seq<Id>)
    requires LiveAreResident(s.entries, s.residency.resident) && LiveAreApart(cat, s.entries)
    requires IsResident(s, id)
    requires forall x | x != id && SameGroup(cat, id, x) :: !IsLive(s, x)
    ensures var s' := RequestLoadLocked(s, id, swapOut);
            LiveAreResident(s'.entries, s.residency.resident) && LiveAreApart(cat, s'.entries)
  {
    var s' := RequestLoadLocked(s, id, swapOut);
    assert forall x | x != id :: At(s'.entries, x) == At(s.entries, x);
    forall a, b | At(s'.entries, a).lifecycle.Live() && At(s'.entries, b).lifecycle.Live()
                  && SameGroup(cat, a, b)
      ensures a == b
    {
      assert SameGroup(cat, b, a);
      assert IsLive(s', a) && IsLive(s', b);
      assert a != id ==> IsLive(s, a);
      assert b != id ==> IsLive(s, b);
    }
  }

  /** Every loading or loaded member of the model's group is swapped out. */
  lemma {:induction false} GroupBusyHasAll(cat: Catalog, s: HostState, id: Id, group: string, x: Id)
    ensures x in GroupBusy(cat, s, id, group) ==>
              x != id && (StateOf(s, x).Loading? || StateOf(s, x).Loaded?)
    ensures x != id && Get(cat, x).Some? && Get(cat, x).value.exclusiveGroup == Some(group)
            && (StateOf(s, x).Loading? || StateOf(s, x).Loaded?)
            ==> x in GroupBusy(cat, s, id, group)
  {
    if cat != [] {
      GroupBusyHasAll(cat[1..], s, id, group, x);
    }
  }

  lemma {:induction false} GetFinds(cat: Catalog, id: Id)
    ensures Get(cat, id).Some? ==> Get(cat, id).value in cat && Get(cat, id).value.id == id
  {
    if cat != [] {
      GetFinds(cat[1..], id);
    }
  }

  lemma {:induction false} GetIsThere(cat: Catalog, m: CatalogModel)
    requires WellFormed(cat) && m in cat
    ensures Get(cat, m.id) == Some(m)
  {
    if cat[0] != m {
      assert m in cat[1..];
      GetIsThere(cat[1..], m);
    }
  }

  lemma SwapOutHasAll(cat: Catalog, s: HostState, model: CatalogModel, x: Id)
    requires Get(cat, model.id) == Some(model)
    ensures x in SwapOut(cat, s, model) ==>
              x != model.id && (StateOf(s, x).Loading? || StateOf(s, x).Loaded?)
    ensures x != model.id && SameGroup(cat, model.id, x)
            && (StateOf(s, x).Loading? || StateOf(s, x).Loaded?)
            ==> x in SwapOut(cat, s, model)
  {
    if model.exclusiveGroup.Some? {
      GroupBusyHasAll(cat, s, model.id, model.exclusiveGroup.value, x);
    }
  }

  /** After a swap without a failed save, no other member of the model's group is live. */
  lemma SwapClearsGroup(cat: Catalog, s: HostState, s1: HostState, model: CatalogModel, failing: set<Id>)
    requires Get(cat, model.id) == Some(model)
    requires R.Agree(s1.residency, s1.file) && s1.entries == s.entries
    requires SwapAll(s1, SwapOut(cat, s, model), failing).1
    ensures var s2 := SwapAll(s1, SwapOut(cat, s, model), failing).0;
            && EntryOf(s2, model.id) == EntryOf(s, model.id)
            && (IsResident(s2, model.id) <==> IsResident(s1, model.id))
            && forall x | x != model.id && SameGroup(cat, model.id, x) :: !IsLive(s2, x)
  {
    var others := SwapOut(cat, s, model);
    SwapAllEffect(s1, others, failing);
    SwapOutHasAll(cat, s, model, model.id);
    var s2 := SwapAll(s1, others, failing).0;
    forall x | x != model.id && SameGroup(cat, model.id, x)
      ensures !IsLive(s2, x)
    {
      SwapOutHasAll(cat, s, model, x);
      if x !in others {
        assert EntryOf(s2, x) == EntryOf(s1, x);
      }
    }
  }

  lemma LoadKeeps(cat: Catalog, s: HostState, id: Id, probe: Probe, failing: set<Id>)
    requires Inv(cat, s)
    ensures Inv(cat, Load(cat, s, id, probe, failing).0)
  {
    if Get(cat, id).Some? {
      GetFinds(cat, id);
      var model := Get(cat, id).value;
      var others := SwapOut(cat, s, model);
      var (s1, saved) := SetResident(s, id, true, id !in failing);
      R.SetIsAtomic(s.residency, s.file, id, true, id !in failing);
      assert Inv(cat, s1);
      var (s2, swapped) := SwapAll(s1, others, failing);
      SwapAllKeeps(cat, s1, others, failing);
      if saved && swapped {
        SwapClearsGroup(cat, s, s1, model, failing);
        RequestLoadKeeps(cat, s2, id, others);
      }
    }
  }

  lemma RequestLoadKeeps(cat: Catalog, s: HostState, id: Id, swapOut: seq<Id>)
    requires Inv(cat, s)
    requires IsResident(s, id)
    requires forall x | x != id && SameGroup(cat, id, x) :: !IsLive(s, x)
    ensures Inv(cat, RequestLoadLocked(s, id, swapOut))
  {
    RequestLoadTasks(s, id, swapOut);
    RequestLoadLanes(s, id, swapOut);
    RequestLoadWishes(cat, s, id, swapOut);
  }

  lemma UnloadKeeps(cat: Catalog, s: HostState, id: Id, saves: bool)
    requires Inv(cat, s)
    ensures Inv(cat, Unload(cat, s, id, saves).0)
  {
    DropKeeps(cat, s, id, saves);
  }

  // ----- The threads report back

  /** When nobody becomes live, the wishes stay met. */
  lemma FewerLive(cat: Catalog, es: Entries, es': Entries, resident: set<Id>)
    requires LiveAreResident(es, resident) && LiveAreApart(cat, es)
    requires forall x | At(es', x).lifecycle.Live() :: At(es, x).lifecycle.Live()
    ensures LiveAreResident(es', resident) && LiveAreApart(cat, es')
  {
  }

  lemma PutEntry(es: Entries, id: Id, e: Entry)
    requires EntriesMatch(es) && EntryMatches(e)
    ensures EntriesMatch(es[id := e])
  {
    var es' := es[id := e];
    forall x
      ensures EntryMatches(At(es', x))
    {
      assert EntryMatches(At(es, x));
    }
  }

  lemma EndLoadTask(es: Entries, tasks: map<TaskId, LoadTask>, next: TaskId, next': TaskId, t: TaskId, e: Entry)
    requires LoadsMatch(es, tasks, next) && next <= next'
    requires t in tasks && !e.lifecycle.state.Loading?
    ensures LoadsMatch(es[tasks[t].id := e], tasks - {t}, next')
  {
    var es', tasks' := es[tasks[t].id := e], tasks - {t};
    forall x
      ensures LoadIsRun(es', tasks', x)
    {
      if At(es', x).lifecycle.state.Loading? {
        assert LoadIsRun(es, tasks, x);
        var u :| u in tasks && tasks[u].id == x;
        assert tasks'[u].id == x;
      }
    }
  }

  lemma EndUnloadTask(es: Entries, tasks: map<TaskId, UnloadTask>, next: TaskId, t: TaskId, e: Entry)
    requires UnloadsMatch(es, tasks, next)
    requires t in tasks && !e.lifecycle.state.Unloading?
    ensures UnloadsMatch(es[tasks[t].id := e], tasks - {t}, next)
  {
    var es', tasks' := es[tasks[t].id := e], tasks - {t};
    forall x
      ensures UnloadIsRun(es', tasks', x)
    {
      if At(es', x).lifecycle.state.Unloading? {
        assert UnloadIsRun(es, tasks, x);
        var u :| u in tasks && tasks[u].id == x;
        assert tasks'[u].id == x;
      }
    }
  }

  /** Changing one entry leaves the threads of the other kind matched. */
  lemma OtherLoads(es: Entries, tasks: map<TaskId, LoadTask>, next: TaskId, id: Id, e: Entry)
    requires LoadsMatch(es, tasks, next)
    requires !e.lifecycle.state.Loading? && !At(es, id).lifecycle.state.Loading?
    ensures LoadsMatch(es[id := e], tasks, next)
  {
    var es' := es[id := e];
    forall x
      ensures LoadIsRun(es', tasks, x)
    {
      assert LoadIsRun(es, tasks, x);
    }
  }

  lemma OtherUnloads(es: Entries, tasks: map<TaskId, UnloadTask>, next: TaskId, id: Id, e: Entry)
    requires UnloadsMatch(es, tasks, next)
    requires !e.lifecycle.state.Unloading? && !At(es, id).lifecycle.state.Unloading?
    ensures UnloadsMatch(es[id := e], tasks, next)
  {
    var es' := es[id := e];
    forall x
      ensures UnloadIsRun(es', tasks, x)
    {
      assert UnloadIsRun(es, tasks, x);
    }
  }

  lemma EndLoadTasks(s: HostState, t: TaskId, outcome: Result<Weights, string>)
    requires LoadsMatch(s.entries, s.loadTasks, s.nextTask)
    requires UnloadsMatch(s.entries, s.unloadTasks, s.nextTask)
    requires EntriesMatch(s.entries)
    requires t in s.loadTasks
    ensures var s' := FinishLoad(s.(loadTasks := s.loadTasks - {t}), s.loadTasks[t].id, outcome).0;
            && LoadsMatch(s'.entries, s'.loadTasks, s'.nextTask)
            && UnloadsMatch(s'.entries, s'.unloadTasks, s'.nextTask)
            && EntriesMatch(s'.entries)
  {
    var id := s.loadTasks[t].id;
    var s' := FinishLoad(s.(loadTasks := s.loadTasks - {t}), id, outcome).0;
    var e := At(s'.entries, id);
    assert s'.entries == s.entries[id := e];
    EndLoadTask(s.entries, s.loadTasks, s.nextTask, s'.nextTask, t, e);
    PutEntry(s.entries, id, e);
    if e.lifecycle.state.Unloading? {
      AddUnloadTask(s.entries, s'.entries, s.unloadTasks, s.nextTask, id, Some(|s.lanes|));
    } else {
      OtherUnloads(s.entries, s.unloadTasks, s.nextTask, id, e);
    }
  }

  /** A model that is loaded anew gets a lane of its own: last made, not cancelled, nobody's. */
  lemma NewLane(es: Entries, lanes: seq<Lane>, tasks: map<TaskId, UnloadTask>, id: Id, e: Entry,
                weights: Weights)
    requires LanesMatch(es, lanes) && DrainsMatch(es, lanes, tasks)
    requires At(es, id).loaded == None
    requires e.loaded == Some(Handle(weights, |lanes|))
    ensures LanesMatch(es[id := e], lanes + [Lane(id, weights, None, false)])
    ensures DrainsMatch(es[id := e], lanes + [Lane(id, weights, None, false)], tasks)
  {
    var es' := es[id := e];
    var lanes' := lanes + [Lane(id, weights, None, false)];
    forall n: nat | n < |lanes'|
      ensures IsCurrent(es', lanes', n)
    {
      if n < |lanes| {
        assert IsCurrent(es, lanes, n);
      }
    }
    assert forall x | x != id :: At(es', x) == At(es, x);
  }

  /** A model that gives its weights up had its lane cancelled before. */
  lemma NoLane(es: Entries, lanes: seq<Lane>, tasks: map<TaskId, UnloadTask>, id: Id, e: Entry)
    requires LanesMatch(es, lanes) && DrainsMatch(es, lanes, tasks)
    requires forall t | t in tasks :: tasks[t].id != id
    requires At(es, id).loaded.Some? ==> lanes[At(es, id).loaded.value.lane].cancel
    requires e.loaded == None
    ensures LanesMatch(es[id := e], lanes) && DrainsMatch(es[id := e], lanes, tasks)
  {
    var es' := es[id := e];
    forall n: nat | n < |lanes|
      ensures IsCurrent(es', lanes, n)
    {
      assert IsCurrent(es, lanes, n);
    }
    assert forall x | x != id :: At(es', x) == At(es, x);
  }

  lemma EndLoadLanes(s: HostState, t: TaskId, outcome: Result<Weights, string>)
    requires LoadsMatch(s.entries, s.loadTasks, s.nextTask)
    requires EntriesMatch(s.entries)
    requires LanesMatch(s.entries, s.lanes)
    requires DrainsMatch(s.entries, s.lanes, s.unloadTasks)
    requires UnloadsMatch(s.entries, s.unloadTasks, s.nextTask)
    requires t in s.loadTasks
    ensures var s' := FinishLoad(s.(loadTasks := s.loadTasks - {t}), s.loadTasks[t].id, outcome).0;
            && LanesMatch(s'.entries, s'.lanes)
            && DrainsMatch(s'.entries, s'.lanes, s'.unloadTasks)
  {
    var id := s.loadTasks[t].id;
    assert EntryMatches(At(s.entries, id));
    var s' := FinishLoad(s.(loadTasks := s.loadTasks - {t}), id, outcome).0;
    var e := At(s'.entries, id);
    assert s'.entries == s.entries[id := e];
    match outcome
    case Ok(weights) => NewLane(s.entries, s.lanes, s.unloadTasks, id, e, weights);
    case Err(_) => NoLane(s.entries, s.lanes, s.unloadTasks, id, e);
  }

  /** A finished load makes nobody live and leaves residency and requests alone. */
  lemma EndLoadRest(cat: Catalog, s: HostState, t: TaskId, outcome: Result<Weights, string>)
    requires LoadsMatch(s.entries, s.loadTasks, s.nextTask) && EntriesMatch(s.entries)
    requires LiveAreResident(s.entries, s.residency.resident) && LiveAreApart(cat, s.entries)
    requires t in s.loadTasks
    ensures var (s', expected) := FinishLoad(s.(loadTasks := s.loadTasks - {t}), s.loadTasks[t].id, outcome);
            && expected
            && s'.residency == s.residency && s'.file == s.file && s'.requests == s.requests
            && s.lanes <= s'.lanes && (forall n | |s.lanes| <= n < |s'.lanes| :: s'.lanes[n].busy.None?)
            && LiveAreResident(s'.entries, s.residency.resident) && LiveAreApart(cat, s'.entries)
  {
    var id := s.loadTasks[t].id;
    var s' := FinishLoad(s.(loadTasks := s.loadTasks - {t}), id, outcome).0;
    assert LoadIsRun(s.entries, s.loadTasks, id) && EntryMatches(At(s.entries, id));
    FewerLive(cat, s.entries, s'.entries, s.residency.resident);
  }

  lemma MoreLanes(lanes: seq<Lane>, lanes': seq<Lane>, reqs: map<RequestId, Request>)
    requires RequestsMatch(lanes, reqs)
    requires lanes <= lanes' && forall n | |lanes| <= n < |lanes'| :: lanes'[n].busy.None?
    ensures RequestsMatch(lanes', reqs)
  {
  }

  lemma EndLoadKeeps(cat: Catalog, s: HostState, t: TaskId, outcome: Result<Weights, string>)
    requires Inv(cat, s)
    requires t in s.loadTasks
    ensures Inv(cat, FinishLoad(s.(loadTasks := s.loadTasks - {t}), s.loadTasks[t].id, outcome).0)
    ensures FinishLoad(s.(loadTasks := s.loadTasks - {t}), s.loadTasks[t].id, outcome).1
  {
    var s' := FinishLoad(s.(loadTasks := s.loadTasks - {t}), s.loadTasks[t].id, outcome).0;
    EndLoadTasks(s, t, outcome);
    EndLoadLanes(s, t, outcome);
    EndLoadRest(cat, s, t, outcome);
    MoreLanes(s.lanes, s'.lanes, s.requests);
  }

  lemma EndUnloadKeeps(cat: Catalog, s: HostState, t: TaskId)
    requires Inv(cat, s)
    requires t in s.unloadTasks && s.unloadTasks[t].phase.Finishing?
    ensures Inv(cat, FinishUnload(s.(unloadTasks := s.unloadTasks - {t}), s.unloadTasks[t].id).0)
    ensures FinishUnload(s.(unloadTasks := s.unloadTasks - {t}), s.unloadTasks[t].id).1
  {
    var id := s.unloadTasks[t].id;
    var s' := FinishUnload(s.(unloadTasks := s.unloadTasks - {t}), id).0;
    assert EntryMatches(At(s.entries, id));
    var e := At(s'.entries, id);
    EndUnloadTask(s.entries, s.unloadTasks, s.nextTask, t, e);
    OtherLoads(s.entries, s.loadTasks, s.nextTask, id, e);
    PutEntry(s.entries, id, e);
    NoLane(s.entries, s.lanes, s.unloadTasks - {t}, id, e);
    FewerLive(cat, s.entries, s'.entries, s.residency.resident);
  }

  // ----- Draining

  /** Raising a lane's flag leaves it with its request. */
  lemma FlagLeavesRequests(lanes: seq<Lane>, lane: LaneId, reqs: map<RequestId, Request>)
    requires RequestsMatch(lanes, reqs) && lane < |lanes|
    ensures RequestsMatch(lanes[lane := lanes[lane].(cancel := true)], reqs)
  {
  }

  /** Raising the cancel flag of the lane an unload thread works on. */
  lemma RaiseCancelKeeps(cat: Catalog, s: HostState, t: TaskId)
    requires Inv(cat, s)
    ensures Inv(cat, Next(cat, s, RaiseCancel(t)))
  {
    var s' := Next(cat, s, RaiseCancel(t));
    if s' != s {
      RaiseCancelLanes(s, t);
      PhaseChange(s.entries, s.unloadTasks, s.nextTask, t, Draining);
      FlagLeavesRequests(s.lanes, s.unloadTasks[t].lane.value, s.requests);
    }
  }

  lemma PhaseChange(es: Entries, tasks: map<TaskId, UnloadTask>, next: TaskId, t: TaskId,
                    phase: UnloadPhase)
    requires UnloadsMatch(es, tasks, next) && t in tasks
    ensures UnloadsMatch(es, tasks[t := tasks[t].(phase := phase)], next)
  {
    var tasks' := tasks[t := tasks[t].(phase := phase)];
    forall x
      ensures UnloadIsRun(es, tasks', x)
    {
      if At(es, x).lifecycle.state.Unloading? {
        assert UnloadIsRun(es, tasks, x);
        var u :| u in tasks && tasks[u].id == x;
        assert tasks'[u].id == x;
      }
    }
  }

  lemma RaiseCancelLanes(s: HostState, t: TaskId)
    requires EntriesMatch(s.entries)
    requires UnloadsMatch(s.entries, s.unloadTasks, s.nextTask)
    requires LanesMatch(s.entries, s.lanes)
    requires DrainsMatch(s.entries, s.lanes, s.unloadTasks)
    requires t in s.unloadTasks && s.unloadTasks[t].phase.Spawned?
    ensures var lane := s.unloadTasks[t].lane.value;
            var lanes' := s.lanes[lane := s.lanes[lane].(cancel := true)];
            && LanesMatch(s.entries, lanes')
            && DrainsMatch(s.entries, lanes', s.unloadTasks[t := s.unloadTasks[t].(phase := Draining)])
  {
    var lane := s.unloadTasks[t].lane.value;
    var lanes' := s.lanes[lane := s.lanes[lane].(cancel := true)];
    assert s.lanes[lane].owner == s.unloadTasks[t].id;
    forall n: nat | n < |lanes'|
      ensures IsCurrent(s.entries, lanes', n)
    {
      assert IsCurrent(s.entries, s.lanes, n);
    }
  }

  lemma DrainEnds(es: Entries, lanes: seq<Lane>, tasks: map<TaskId, UnloadTask>, t: TaskId)
    requires DrainsMatch(es, lanes, tasks) && t in tasks && tasks[t].phase.Draining?
    ensures DrainsMatch(es, lanes, tasks[t := tasks[t].(phase := Finishing)])
  {
  }

  lemma EndDrainKeeps(cat: Catalog, s: HostState, t: TaskId, timedOut: bool)
    requires Inv(cat, s)
    ensures Inv(cat, Next(cat, s, EndDrain(t, timedOut)))
  {
    var s' := Next(cat, s, EndDrain(t, timedOut));
    if s' != s {
      PhaseChange(s.entries, s.unloadTasks, s.nextTask, t, Finishing);
      DrainEnds(s.entries, s.lanes, s.unloadTasks, t);
    }
  }

  lemma EndWaitKeeps(cat: Catalog, s: HostState, t: TaskId, timedOut: bool)
    requires Inv(cat, s)
    ensures Inv(cat, Next(cat, s, EndWait(t, timedOut)))
  {
    var s' := Next(cat, s, EndWait(t, timedOut));
    if s' != s {
      forall x
        ensures LoadIsRun(s.entries, s'.loadTasks, x)
      {
        if At(s.entries, x).lifecycle.state.Loading? {
          assert LoadIsRun(s.entries, s.loadTasks, x);
          var u :| u in s.loadTasks && s.loadTasks[u].id == x;
          assert s'.loadTasks[u].id == x;
        }
      }
      assert LoadsMatch(s'.entries, s'.loadTasks, s'.nextTask);
    }
  }

  // ----- Requests

  /** Changing who holds a lane changes nothing else about it. */
  lemma RebusyLanes(es: Entries, lanes: seq<Lane>, tasks: map<TaskId, UnloadTask>, lane: LaneId,
                    busy: Option<RequestId>)
    requires LanesMatch(es, lanes) && DrainsMatch(es, lanes, tasks)
    requires lane < |lanes|
    ensures var lanes' := lanes[lane := lanes[lane].(busy := busy)];
            LanesMatch(es, lanes') && DrainsMatch(es, lanes', tasks)
  {
    var lanes' := lanes[lane := lanes[lane].(busy := busy)];
    forall n: nat | n < |lanes'|
      ensures IsCurrent(es, lanes', n)
    {
      assert IsCurrent(es, lanes, n);
    }
  }

  lemma LeaveKeeps(cat: Catalog, s: HostState, r: RequestId)
    requires Inv(cat, s)
    requires r in s.requests && !s.requests[r].phase.LookedUp?
    ensures Inv(cat, Leave(s, r))
  {
    RebusyLanes(s.entries, s.lanes, s.unloadTasks, s.requests[r].handle.lane, None);
    LeaveRequests(s, r);
  }

  lemma LeaveRequests(s: HostState, r: RequestId)
    requires RequestsMatch(s.lanes, s.requests)
    requires r in s.requests && !s.requests[r].phase.LookedUp?
    ensures RequestsMatch(Leave(s, r).lanes, Leave(s, r).requests)
  {
  }

  lemma LookUpKeeps(cat: Catalog, s: HostState, r: RequestId, id: Id, waits: bool)
    requires Inv(cat, s)
    ensures Inv(cat, Next(cat, s, LookUp(r, id, waits)))
  {
    var s' := Next(cat, s, LookUp(r, id, waits));
    if s' != s {
      assert At(s.entries, id).loaded.Some?;
      assert RequestsMatch(s'.lanes, s'.requests);
    }
  }

  lemma LockRequests(s: HostState, r: RequestId)
    requires RequestsMatch(s.lanes, s.requests)
    requires r in s.requests && s.requests[r].phase.LookedUp?
    ensures RequestsMatch(s.lanes, s.requests - {r})
    ensures LaneFree(s, s.requests[r].handle.lane) ==>
              var lane := s.requests[r].handle.lane;
              RequestsMatch(s.lanes[lane := s.lanes[lane].(busy := Some(r))],
                            s.requests[r := s.requests[r].(phase := Holding)])
  {
  }

  lemma LockLaneKeeps(cat: Catalog, s: HostState, r: RequestId)
    requires Inv(cat, s)
    ensures Inv(cat, Next(cat, s, LockLane(r)))
  {
    if r in s.requests && s.requests[r].phase.LookedUp? {
      LockRequests(s, r);
      RebusyLanes(s.entries, s.lanes, s.unloadTasks, s.requests[r].handle.lane, Some(r));
    }
  }

  lemma CheckCancelKeeps(cat: Catalog, s: HostState, r: RequestId)
    requires Inv(cat, s)
    ensures Inv(cat, Next(cat, s, CheckCancel(r)))
  {
    var s' := Next(cat, s, CheckCancel(r));
    if r in s.requests && s.requests[r].phase.Holding? {
      if s.lanes[s.requests[r].handle.lane].cancel {
        LeaveKeeps(cat, s, r);
      } else {
        assert RequestsMatch(s'.lanes, s'.requests);
      }
    }
  }

  // ----- Every step, every run

  lemma CallKeeps(cat: Catalog, s: HostState, e: Event)
    requires Inv(cat, s) && IsCall(e)
    ensures Inv(cat, Next(cat, s, e))
  {
    match e
    case DoLoad(id, probe, failing) => LoadKeeps(cat, s, id, probe, failing);
    case DoUnload(id, saves) => UnloadKeeps(cat, s, id, saves);
  }

  lemma ThreadStepKeeps(cat: Catalog, s: HostState, e: Event)
    requires Inv(cat, s) && IsThreadStep(e)
    ensures Inv(cat, Next(cat, s, e))
  {
    match e
    case EndWait(t, timedOut) => EndWaitKeeps(cat, s, t, timedOut);
    case EndLoad(t, outcome) => if t in s.loadTasks { EndLoadKeeps(cat, s, t, outcome); }
    case RaiseCancel(t) => RaiseCancelKeeps(cat, s, t);
    case EndDrain(t, timedOut) => EndDrainKeeps(cat, s, t, timedOut);
    case EndUnload(t) =>
      if t in s.unloadTasks && s.unloadTasks[t].phase.Finishing? { EndUnloadKeeps(cat, s, t); }
  }

  lemma RequestStepKeeps(cat: Catalog, s: HostState, e: Event)
    requires Inv(cat, s) && IsRequestStep(e)
    ensures Inv(cat, Next(cat, s, e))
  {
    match e
    case LookUp(r, id, waits) => LookUpKeeps(cat, s, r, id, waits);
    case LockLane(r) => LockLaneKeeps(cat, s, r);
    case CheckCancel(r) => CheckCancelKeeps(cat, s, r);
    case Return(r) => if r in s.requests && s.requests[r].phase.Running? { LeaveKeeps(cat, s, r); }
  }

  /** Whatever file the last process left, the next starts right. */
  lemma NewProcessKeeps(cat: Catalog, s: HostState, e: Event)
    requires EndsProcess(e)
    ensures Inv(cat, Next(cat, s, e))
  {
    match e
    case Restart(path, canQuarantine) => StartInv(cat, path, s.file, canQuarantine);
    case CrashInLoad(id, probe, failing, sets, path, canQuarantine) =>
      StartInv(cat, path, s.file, canQuarantine);
      if PassesAdmission(cat, s, id, probe) {
        StartInv(cat, path, LoadSets(cat, s, id, failing, sets).0.file, canQuarantine);
      }
  }

  lemma NextKeeps(cat: Catalog, s: HostState, e: Event)
    requires Inv(cat, s)
    ensures Inv(cat, Next(cat, s, e))
  {
    if IsCall(e) {
      CallKeeps(cat, s, e);
    } else if IsThreadStep(e) {
      ThreadStepKeeps(cat, s, e);
    } else if IsRequestStep(e) {
      RequestStepKeeps(cat, s, e);
    } else {
      NewProcessKeeps(cat, s, e);
    }
  }

  lemma {:induction false} ExecKeeps(cat: Catalog, s: HostState, es: seq<Event>)
    requires Inv(cat, s)
    ensures Inv(cat, Exec(cat, s, es))
  {
    if es != [] {
      ExecKeeps(cat, s, es[..|es| - 1]);
      NextKeeps(cat, Exec(cat, s, es[..|es| - 1]), es[|es| - 1]);
    }
  }
}
