/** The model host (src/host.rs) as a state machine.  Each step is one critical section under
    the `entries` lock, or one step of a detached load, unload or request thread; any
    interleaving of them is a sequence of events. */
module Hosts {
  import opened Wrappers
  import opened Lifecycles
  import opened Admissions
  import R = Residencies

  type Id = R.Id
  /** What the runtime's `load` answers: weights in memory. */
  type Weights = nat
  type LaneId = nat
  type TaskId = nat
  type RequestId = nat

  // ----- The catalogue, fixed while the host runs

  datatype CatalogModel = CatalogModel(
    id: Id,
    vramGbEstimate: real,
    enabled: bool,
    exclusiveGroup: Option<string>)

  type Catalog = seq<CatalogModel>

  /** Ids are unique (the catalogue replaces an entry of the same id) and estimates are sizes. */
  ghost predicate WellFormed(cat: Catalog) {
    && (forall i, j | 0 <= i < j < |cat| :: cat[i].id != cat[j].id)
    && (forall i | 0 <= i < |cat| :: cat[i].vramGbEstimate >= 0.0)
  }

  function Get(cat: Catalog, id: Id): Option<CatalogModel> {
    if cat == [] then None
    else if cat[0].id == id then Some(cat[0])
    else Get(cat[1..], id)
  }

  // ----- The host's state

  /** A loaded model's weights, and the lane that serves them. */
  datatype Handle = Handle(weights: Weights, lane: LaneId)

  datatype Entry = Entry(lifecycle: LifecycleView, loaded: Option<Handle>)

  const NEW_ENTRY := Entry(NEW, None)

  /** A lane: the mutex `busy` (and who holds it) and the cancel flag.  `owner` and `weights`
      record what it was created for. */
  datatype Lane = Lane(owner: Id, weights: Weights, busy: Option<RequestId>, cancel: bool)

  /** A detached load thread, still to wait for the models it swaps out. */
  datatype LoadTask = LoadTask(id: Id, waiting: seq<Id>)

  datatype UnloadPhase = Spawned | Draining | Finishing

  datatype UnloadTask = UnloadTask(id: Id, lane: Option<LaneId>, phase: UnloadPhase)

  datatype RequestPhase = LookedUp | Holding | Running

  /** A request that cloned its handle; `waits` for a busy lane, or gives up at once. */
  datatype Request = Request(handle: Handle, waits: bool, phase: RequestPhase)

  datatype HostState = HostState(
    entries: map<Id, Entry>,
    residency: R.ResidencyView,
    file: R.FileState,
    lanes: seq<Lane>,
    loadTasks: map<TaskId, LoadTask>,
    unloadTasks: map<TaskId, UnloadTask>,
    nextTask: TaskId,
    requests: map<RequestId, Request>)

  /** An entry is created on first use, so a missing one is a new one. */
  function At(entries: map<Id, Entry>, id: Id): Entry {
    if id in entries then entries[id] else NEW_ENTRY
  }

  function EntryOf(s: HostState, id: Id): Entry {
    At(s.entries, id)
  }

  function StateOf(s: HostState, id: Id): ModelState {
    EntryOf(s, id).lifecycle.state
  }

  predicate IsLive(s: HostState, id: Id) {
    EntryOf(s, id).lifecycle.Live()
  }

  predicate IsResident(s: HostState, id: Id) {
    id in s.residency.resident
  }

  /** Holding, or about to hold, memory. */
  predicate IsCounted(s: HostState, id: Id) {
    StateOf(s, id).Loading? || StateOf(s, id).Loaded? || StateOf(s, id).Unloading?
  }

  // ----- Sums over the catalogue

  function LoadedGib(cat: Catalog, s: HostState): (sum: real) {
    if cat == [] then 0.0
    else (if IsCounted(s, cat[0].id) then cat[0].vramGbEstimate else 0.0) + LoadedGib(cat[1..], s)
  }

  function EstimateOf(cat: Catalog, ids: seq<Id>): real {
    if cat == [] then 0.0
    else (if cat[0].id in ids then cat[0].vramGbEstimate else 0.0) + EstimateOf(cat[1..], ids)
  }

  // ----- Steps under the `entries` lock

  datatype HostError =
    | UnknownModel
    | Disabled
    | Refused(neededGib: real, freeGib: real)
    | NotLoaded(state: string)
    | LaneBusy
    | Persist

  function Put(s: HostState, id: Id, e: Entry): HostState {
    s.(entries := s.entries[id := e])
  }

  function SetResident(s: HostState, id: Id, resident: bool, saves: bool): (HostState, bool) {
    var (r, file, changed) := R.Set(s.residency, s.file, id, resident, saves);
    (s.(residency := r, file := file), changed.Some?)
  }

  function SpawnLoad(s: HostState, id: Id, waiting: seq<Id>): HostState {
    s.(loadTasks := s.loadTasks[s.nextTask := LoadTask(id, waiting)], nextTask := s.nextTask + 1)
  }

  function SpawnUnload(s: HostState, id: Id): HostState {
    var lane := match EntryOf(s, id).loaded case Some(h) => Some(h.lane) case None => None;
    s.(unloadTasks := s.unloadTasks[s.nextTask := UnloadTask(id, lane, Spawned)],
       nextTask := s.nextTask + 1)
  }

  function RequestUnloadLocked(s: HostState, id: Id): HostState {
    var e := EntryOf(s, id);
    var (l, command) := RequestUnload(e.lifecycle);
    var s' := Put(s, id, e.(lifecycle := l));
    if command.BeginUnload? then SpawnUnload(s', id) else s'
  }

  function RequestLoadLocked(s: HostState, id: Id, swapOut: seq<Id>): HostState {
    var e := EntryOf(s, id);
    var (l, command) := RequestLoad(e.lifecycle);
    var s' := Put(s, id, e.(lifecycle := l));
    if command.BeginLoad? then SpawnLoad(s', id, swapOut) else s'
  }

  /** The other members of `group` that are loading or loaded, in catalogue order. */
  function GroupBusy(cat: Catalog, s: HostState, id: Id, group: string): seq<Id> {
    if cat == [] then []
    else
      var m := cat[0];
      (if m.id != id && m.exclusiveGroup == Some(group)
          && (StateOf(s, m.id).Loading? || StateOf(s, m.id).Loaded?) then [m.id] else [])
      + GroupBusy(cat[1..], s, id, group)
  }

  function SwapOut(cat: Catalog, s: HostState, model: CatalogModel): seq<Id> {
    match model.exclusiveGroup
    case Some(group) => GroupBusy(cat, s, model.id, group)
    case None => []
  }

  /** Clear residency and request the unload of each of `others`, in order; stops at the first
      failed save.  `failing` are the ids whose save fails during this call. */
  function SwapAll(s: HostState, others: seq<Id>, failing: set<Id>): (HostState, bool)
    decreases others
  {
    if others == [] then (s, true)
    else
      var (s1, ok) := SetResident(s, others[0], false, others[0] !in failing);
      if !ok then (s1, false)
      else SwapAll(RequestUnloadLocked(s1, others[0]), others[1..], failing)
  }

  predicate NeedsLoad(s: HostState, id: Id) {
    StateOf(s, id).Unloaded? || StateOf(s, id).Failed?
  }

  function FreeForSwap(cat: Catalog, s: HostState, swapOut: seq<Id>, probe: Probe): FreeMemory {
    Credit(FreeNow(probe, LoadedGib(cat, s)), EstimateOf(cat, swapOut))
  }

  /** The load gets as far as its first save. */
  predicate PassesAdmission(cat: Catalog, s: HostState, id: Id, probe: Probe) {
    match Get(cat, id)
    case None => false
    case Some(model) =>
      && model.enabled
      && (NeedsLoad(s, id) ==> Admit(model.vramGbEstimate, FreeForSwap(cat, s, SwapOut(cat, s, model), probe)))
  }

  /** A load interrupted after `sets` of its residency changes: the model's own, then the outgoing
      members', each followed by their unload request.  Answers whether all those saves succeeded. */
  function LoadSets(cat: Catalog, s: HostState, id: Id, failing: set<Id>, sets: nat): (HostState, bool)
    requires Get(cat, id).Some?
  {
    if sets == 0 then (s, true)
    else
      var swapOut := SwapOut(cat, s, Get(cat, id).value);
      var (s1, saved) := SetResident(s, id, true, id !in failing);
      if !saved then (s1, false)
      else SwapAll(s1, if sets - 1 < |swapOut| then swapOut[..sets - 1] else swapOut, failing)
  }

  /** `load`: the state after, and the model's state or why not. */
  function Load(cat: Catalog, s: HostState, id: Id, probe: Probe, failing: set<Id>)
    : (HostState, Result<ModelState, HostError>)
  {
    match Get(cat, id)
    case None => (s, Err(UnknownModel))
    case Some(model) =>
      if !model.enabled then (s, Err(Disabled)) else
      var swapOut := SwapOut(cat, s, model);
      var free := FreeForSwap(cat, s, swapOut, probe);
      if NeedsLoad(s, id) && !Admit(model.vramGbEstimate, free) then
        (s, Err(Refused(model.vramGbEstimate, free.Gib())))
      else
        var (s1, saved) := SetResident(s, id, true, id !in failing);
        if !saved then (s1, Err(Persist)) else
        var (s2, swapped) := SwapAll(s1, swapOut, failing);
        if !swapped then (s2, Err(Persist)) else
        var s3 := RequestLoadLocked(s2, id, swapOut);
        (s3, Ok(StateOf(s3, id)))
  }

  function Unload(cat: Catalog, s: HostState, id: Id, saves: bool)
    : (HostState, Result<ModelState, HostError>)
  {
    if Get(cat, id) == None then (s, Err(UnknownModel))
    else
      var (s1, saved) := SetResident(s, id, false, saves);
      if !saved then (s1, Err(Persist)) else
      var s2 := RequestUnloadLocked(s1, id);
      (s2, Ok(StateOf(s2, id)))
  }

  /** The load thread reports back.  Answers whether the finish was expected. */
  function FinishLoad(s: HostState, id: Id, outcome: Result<Weights, string>): (HostState, bool) {
    var e := EntryOf(s, id);
    var o := match outcome case Ok(_) => Ok(()) case Err(reason) => Err(reason);
    var (l, command) := LoadFinished(e.lifecycle, o);
    match command
    case Err(_) => (s, false)
    case Ok(c) =>
      var s1 := match outcome
        case Ok(weights) =>
          Put(s, id, Entry(l, Some(Handle(weights, |s.lanes|))))
            .(lanes := s.lanes + [Lane(id, weights, None, false)])
        case Err(_) => Put(s, id, Entry(l, None));
      (if c.BeginUnload? then SpawnUnload(s1, id) else s1, true)
  }

  /** The unload thread reports back.  Answers whether the finish was expected. */
  function FinishUnload(s: HostState, id: Id): (HostState, bool) {
    var e := EntryOf(s, id);
    var (l, r) := UnloadFinished(e.lifecycle, Ok(()));
    (Put(s, id, Entry(l, None)), r.Ok?)
  }

  function SetLane(s: HostState, lane: LaneId, l: Lane): HostState
    requires lane < |s.lanes|
  {
    s.(lanes := s.lanes[lane := l])
  }

  /** Look up a serving model's handle. */
  function LaneOf(s: HostState, id: Id): Result<Handle, HostError> {
    var e := EntryOf(s, id);
    if e.loaded.Some? && e.lifecycle.state.Serves() then Ok(e.loaded.value)
    else Err(NotLoaded(e.lifecycle.state.Name()))
  }

  // ----- Events

  datatype Event =
    | DoLoad(id: Id, probe: Probe, failing: set<Id>)
    | DoUnload(id: Id, saves: bool)
    | EndWait(task: TaskId, timedOut: bool)
    | EndLoad(task: TaskId, outcome: Result<Weights, string>)
    | RaiseCancel(task: TaskId)
    | EndDrain(task: TaskId, timedOut: bool)
    | EndUnload(task: TaskId)
    | LookUp(req: RequestId, id: Id, waits: bool)
    | LockLane(req: RequestId)
    | CheckCancel(req: RequestId)
    | Return(req: RequestId)
    | Restart(path: bool, canQuarantine: bool)
    | CrashInLoad(id: Id, probe: Probe, failing: set<Id>, sets: nat, path: bool, canQuarantine: bool)

  predicate IsCall(e: Event) {
    e.DoLoad? || e.DoUnload?
  }

  /** A step of a detached load or unload thread. */
  predicate IsThreadStep(e: Event) {
    e.EndWait? || e.EndLoad? || e.RaiseCancel? || e.EndDrain? || e.EndUnload?
  }

  predicate IsRequestStep(e: Event) {
    e.LookUp? || e.LockLane? || e.CheckCancel? || e.Return?
  }

  /** The process ends and another starts. */
  predicate EndsProcess(e: Event) {
    e.Restart? || e.CrashInLoad?
  }

  predicate LaneFree(s: HostState, lane: LaneId) {
    lane < |s.lanes| && s.lanes[lane].busy.None?
  }

  /** The request gives the lane's mutex back and is over. */
  function Leave(s: HostState, req: RequestId): HostState
    requires req in s.requests
  {
    var lane := s.requests[req].handle.lane;
    var s' := s.(requests := s.requests - {req});
    if lane < |s.lanes| then SetLane(s', lane, s.lanes[lane].(busy := None)) else s'
  }

  /** One step.  An event that cannot happen in `s` changes nothing. */
  function Next(cat: Catalog, s: HostState, e: Event): HostState {
    match e
    case DoLoad(id, probe, failing) => Load(cat, s, id, probe, failing).0
    case DoUnload(id, saves) => Unload(cat, s, id, saves).0
    case EndWait(t, timedOut) =>
      if t in s.loadTasks && s.loadTasks[t].waiting != [] && (timedOut || NeedsLoad(s, s.loadTasks[t].waiting[0])) then
        s.(loadTasks := s.loadTasks[t := s.loadTasks[t].(waiting := s.loadTasks[t].waiting[1..])])
      else s
    case EndLoad(t, outcome) =>
      if t in s.loadTasks && s.loadTasks[t].waiting == [] then
        FinishLoad(s.(loadTasks := s.loadTasks - {t}), s.loadTasks[t].id, outcome).0
      else s
    case RaiseCancel(t) =>
      if t in s.unloadTasks && s.unloadTasks[t].phase.Spawned? then
        (match s.unloadTasks[t].lane
         case Some(lane) =>
           if lane < |s.lanes| then
             SetLane(s.(unloadTasks := s.unloadTasks[t := s.unloadTasks[t].(phase := Draining)]),
                     lane, s.lanes[lane].(cancel := true))
           else s
         case None =>
           s.(unloadTasks := s.unloadTasks[t := s.unloadTasks[t].(phase := Finishing)]))
      else s
    case EndDrain(t, timedOut) =>
      if t in s.unloadTasks && s.unloadTasks[t].phase.Draining?
         && s.unloadTasks[t].lane.Some? && (timedOut || LaneFree(s, s.unloadTasks[t].lane.value)) then
        s.(unloadTasks := s.unloadTasks[t := s.unloadTasks[t].(phase := Finishing)])
      else s
    case EndUnload(t) =>
      if t in s.unloadTasks && s.unloadTasks[t].phase.Finishing? then
        FinishUnload(s.(unloadTasks := s.unloadTasks - {t}), s.unloadTasks[t].id).0
      else s
    case LookUp(req, id, waits) =>
      (match LaneOf(s, id)
       case Ok(handle) =>
         if req !in s.requests then
           s.(requests := s.requests[req := Request(handle, waits, LookedUp)])
         else s
       case Err(_) => s)
    case LockLane(req) =>
      if req in s.requests && s.requests[req].phase.LookedUp? then
        var r := s.requests[req];
        if LaneFree(s, r.handle.lane) then
          SetLane(s.(requests := s.requests[req := r.(phase := Holding)]),
                  r.handle.lane, s.lanes[r.handle.lane].(busy := Some(req)))
        else if r.waits then s
        else s.(requests := s.requests - {req})
      else s
    case CheckCancel(req) =>
      if req in s.requests && s.requests[req].phase.Holding? then
        var r := s.requests[req];
        if r.handle.lane < |s.lanes| && !s.lanes[r.handle.lane].cancel then
          s.(requests := s.requests[req := r.(phase := Running)])
        else Leave(s, req)
      else s
    case Return(req) =>
      if req in s.requests && s.requests[req].phase.Running? then Leave(s, req) else s
    case Restart(path, canQuarantine) => Start(path, s.file, canQuarantine)
    case CrashInLoad(id, probe, failing, sets, path, canQuarantine) =>
      var file := if PassesAdmission(cat, s, id, probe) then LoadSets(cat, s, id, failing, sets).0.file else s.file;
      Start(path, file, canQuarantine)
  }

  /** A process that has just loaded its residency. */
  function Start(path: bool, file: R.FileState, canQuarantine: bool): HostState {
    var (r, file') := R.LoadForServing(path, file, canQuarantine);
    HostState(map[], r, file', [], map[], map[], 0, map[])
  }

  function Exec(cat: Catalog, s: HostState, es: seq<Event>): HostState {
    if es == [] then s else Next(cat, Exec(cat, s, es[..|es| - 1]), es[|es| - 1])
  }
}
