/** The model host as the object the API and its threads share: each method is one critical
    section under the `entries` lock, updating the fields in place, and is proved to take the
    step of the state machine in `Hosts`. */
module HostObject {
  import opened Wrappers
  import opened Lifecycles
  import opened Admissions
  import opened Hosts
  import opened HostInvariants
  import R = Residencies

  /** The loads that restoring asks for, in catalogue order; each may meet another probe answer
      and other failing saves. */
  function RestoreEvents(cat: Catalog, resident: set<Id>, probes: seq<Probe>, failing: seq<set<Id>>)
    : seq<Event>
    requires |probes| == |failing| == |cat|
  {
    if cat == [] then []
    else
      var n := |cat| - 1;
      RestoreEvents(cat[..n], resident, probes[..n], failing[..n])
      + if cat[n].id in resident then [DoLoad(cat[n].id, probes[n], failing[n])] else []
  }

  class ModelHost {
    const cat: Catalog
    var entries: map<Id, Entry>
    var residency: R.ResidencyView
    var file: R.FileState
    var lanes: seq<Lane>
    var loadTasks: map<TaskId, LoadTask>
    var unloadTasks: map<TaskId, UnloadTask>
    var nextTask: TaskId
    var requests: map<RequestId, Request>

    function View(): HostState
      reads this
    {
      HostState(entries, residency, file, lanes, loadTasks, unloadTasks, nextTask, requests)
    }

    constructor (cat: Catalog, path: bool, file: R.FileState, canQuarantine: bool)
      ensures View() == Start(path, file, canQuarantine) && this.cat == cat
    {
      this.cat := cat;
      var (r, file') := R.LoadForServing(path, file, canQuarantine);
      this.residency, this.file := r, file';
      entries, lanes, requests := map[], [], map[];
      loadTasks, unloadTasks, nextTask := map[], map[], 0;
    }

    method SetResident(id: Id, resident: bool, saves: bool) returns (ok: bool)
      modifies this`residency, this`file
      ensures (View(), ok) == Hosts.SetResident(old(View()), id, resident, saves)
    {
      if (id in residency.resident) == resident {
        return true;
      }
      var next := if resident then residency.resident + {id} else residency.resident - {id};
      if residency.persists {
        if !saves {
          return false;
        }
        file := R.Readable(R.Json(R.VERSION, next));
      }
      residency := residency.(resident := next);
      ok := true;
    }

    method SpawnUnload(id: Id)
      modifies this`unloadTasks, this`nextTask
      ensures View() == Hosts.SpawnUnload(old(View()), id)
    {
      var lane := None;
      var e := At(entries, id);
      if e.loaded.Some? {
        lane := Some(e.loaded.value.lane);
      }
      unloadTasks := unloadTasks[nextTask := UnloadTask(id, lane, Spawned)];
      nextTask := nextTask + 1;
    }

    method RequestUnloadLocked(id: Id)
      modifies this`entries, this`unloadTasks, this`nextTask
      ensures View() == Hosts.RequestUnloadLocked(old(View()), id)
    {
      var e := At(entries, id);
      var (l, command) := RequestUnload(e.lifecycle);
      entries := entries[id := e.(lifecycle := l)];
      if command == BeginUnload {
        SpawnUnload(id);
      }
    }

    method RequestLoadLocked(id: Id, swapOut: seq<Id>)
      modifies this`entries, this`loadTasks, this`nextTask
      ensures View() == Hosts.RequestLoadLocked(old(View()), id, swapOut)
    {
      var e := At(entries, id);
      var (l, command) := RequestLoad(e.lifecycle);
      entries := entries[id := e.(lifecycle := l)];
      if command == BeginLoad {
        loadTasks := loadTasks[nextTask := LoadTask(id, swapOut)];
        nextTask := nextTask + 1;
      }
    }

    /** The swap loop of `load`: stops at the first residency that cannot be saved. */
    method SwapAllOut(others: seq<Id>, failing: set<Id>) returns (ok: bool)
      modifies this
      ensures (View(), ok) == SwapAll(old(View()), others, failing)
    {
      var i := 0;
      while i < |others|
        invariant 0 <= i <= |others|
        invariant SwapAll(View(), others[i..], failing) == SwapAll(old(View()), others, failing)
      {
        var other := others[i];
        assert others[i..][0] == other && others[i..][1..] == others[i + 1..];
        ok := SetResident(other, false, other !in failing);
        if !ok {
          return;
        }
        RequestUnloadLocked(other);
        i := i + 1;
      }
      ok := true;
    }

    method Load(id: Id, probe: Probe, failing: set<Id>) returns (r: Result<ModelState, HostError>)
      modifies this
      ensures (View(), r) == Hosts.Load(cat, old(View()), id, probe, failing)
    {
      var found := Get(cat, id);
      if found == None {
        return Err(UnknownModel);
      }
      var model := found.value;
      if !model.enabled {
        return Err(Disabled);
      }
      var needsLoad := At(entries, id).lifecycle.state.Unloaded? || At(entries, id).lifecycle.state.Failed?;
      var swapOut := SwapOut(cat, View(), model);
      if needsLoad {
        var free := Credit(FreeNow(probe, LoadedGib(cat, View())), EstimateOf(cat, swapOut));
        if !Admit(model.vramGbEstimate, free) {
          return Err(Refused(model.vramGbEstimate, free.Gib()));
        }
      }
      var saved := SetResident(id, true, id !in failing);
      if !saved {
        return Err(Persist);
      }
      var swapped := SwapAllOut(swapOut, failing);
      if !swapped {
        return Err(Persist);
      }
      RequestLoadLocked(id, swapOut);
      r := Ok(At(entries, id).lifecycle.state);
    }

    method Unload(id: Id, saves: bool) returns (r: Result<ModelState, HostError>)
      modifies this
      ensures (View(), r) == Hosts.Unload(cat, old(View()), id, saves)
    {
      if Get(cat, id) == None {
        return Err(UnknownModel);
      }
      var saved := SetResident(id, false, saves);
      if !saved {
        return Err(Persist);
      }
      RequestUnloadLocked(id);
      r := Ok(At(entries, id).lifecycle.state);
    }

    /** The end of a load thread; `expected` is false when its result is dropped. */
    method FinishLoad(t: TaskId, outcome: Result<Weights, string>) returns (expected: bool)
      requires t in loadTasks && loadTasks[t].waiting == []
      modifies this
      ensures View() == Next(cat, old(View()), EndLoad(t, outcome))
      ensures Inv(cat, old(View())) ==> expected
    {
      assert Inv(cat, View()) ==> LoadsMatch(entries, loadTasks, nextTask);
      var id := loadTasks[t].id;
      loadTasks := loadTasks - {t};
      var e := At(entries, id);
      if !e.lifecycle.state.Loading? {
        return false;
      }
      var loaded := None;
      var o := Ok(());
      match outcome {
        case Ok(weights) =>
          loaded := Some(Handle(weights, |lanes|));
          lanes := lanes + [Lane(id, weights, None, false)];
        case Err(reason) =>
          o := Err(reason);
      }
      var (l, command) := LoadFinished(e.lifecycle, o);
      entries := entries[id := Entry(l, loaded)];
      if command == Ok(BeginUnload) {
        SpawnUnload(id);
      }
      expected := true;
    }

    /** The end of an unload thread. */
    method FinishUnload(t: TaskId) returns (expected: bool)
      requires t in unloadTasks && unloadTasks[t].phase.Finishing?
      modifies this
      ensures View() == Next(cat, old(View()), EndUnload(t))
      ensures Inv(cat, old(View())) ==> expected
    {
      assert Inv(cat, View()) ==> UnloadsMatch(entries, unloadTasks, nextTask);
      var id := unloadTasks[t].id;
      unloadTasks := unloadTasks - {t};
      var (l, r) := UnloadFinished(At(entries, id).lifecycle, Ok(()));
      entries := entries[id := Entry(l, None)];
      expected := r.Ok?;
    }

    /** The unload thread raises its lane's cancel flag, if the model has a lane. */
    method StoreCancel(t: TaskId)
      requires t in unloadTasks && unloadTasks[t].phase.Spawned?
      requires unloadTasks[t].lane.Some? ==> unloadTasks[t].lane.value < |lanes|
      modifies this`unloadTasks, this`lanes
      ensures View() == Next(cat, old(View()), RaiseCancel(t))
    {
      var task := unloadTasks[t];
      if task.lane.Some? {
        var n := task.lane.value;
        lanes := lanes[n := lanes[n].(cancel := true)];
        unloadTasks := unloadTasks[t := task.(phase := Draining)];
      } else {
        unloadTasks := unloadTasks[t := task.(phase := Finishing)];
      }
    }

    /** A request looks up a serving model's weights and lane. */
    method CloneLane(req: RequestId, id: Id, waits: bool) returns (r: Result<Handle, HostError>)
      requires req !in requests
      modifies this`requests
      ensures var e := EntryOf(old(View()), id);
              r == if e.loaded.Some? && e.lifecycle.state.Loaded? then Ok(e.loaded.value)
                   else Err(NotLoaded(e.lifecycle.state.Name()))
      ensures View() == Next(cat, old(View()), LookUp(req, id, waits))
    {
      var e := At(entries, id);
      if e.loaded.Some? && e.lifecycle.state.Serves() {
        requests := requests[req := Request(e.loaded.value, waits, LookedUp)];
        r := Ok(e.loaded.value);
      } else {
        r := Err(NotLoaded(e.lifecycle.state.Name()));
      }
    }

    /** It takes the lane's mutex; one that does not wait for a busy lane is over. */
    method LockBusy(req: RequestId) returns (locked: bool)
      requires req in requests && requests[req].phase.LookedUp?
      modifies this`requests, this`lanes
      ensures View() == Next(cat, old(View()), LockLane(req))
      ensures locked == LaneFree(old(View()), old(requests)[req].handle.lane)
    {
      var r := requests[req];
      var n := r.handle.lane;
      locked := n < |lanes| && lanes[n].busy.None?;
      if locked {
        lanes := lanes[n := lanes[n].(busy := Some(req))];
        requests := requests[req := r.(phase := Holding)];
      } else if !r.waits {
        requests := requests - {req};
      }
    }

    method Unlock(req: RequestId)
      requires req in requests
      modifies this`requests, this`lanes
      ensures View() == Leave(old(View()), req)
    {
      var n := requests[req].handle.lane;
      requests := requests - {req};
      if n < |lanes| {
        lanes := lanes[n := lanes[n].(busy := None)];
      }
    }

    /** With the mutex it serves, unless the lane was cancelled meanwhile. */
    method Serve(req: RequestId) returns (serves: bool)
      requires req in requests && requests[req].phase.Holding? && requests[req].handle.lane < |lanes|
      modifies this`requests, this`lanes
      ensures View() == Next(cat, old(View()), CheckCancel(req))
      ensures serves == !old(lanes)[old(requests)[req].handle.lane].cancel
    {
      var r := requests[req];
      serves := !lanes[r.handle.lane].cancel;
      if serves {
        requests := requests[req := r.(phase := Running)];
      } else {
        Unlock(req);
      }
    }

    /** Load every resident model of the catalogue, in catalogue order, whatever each answers. */
    method RestoreResidents(probes: seq<Probe>, failing: seq<set<Id>>)
      requires |probes| == |failing| == |cat|
      modifies this
      ensures View() == Exec(cat, old(View()), RestoreEvents(cat, old(residency.resident), probes, failing))
    {
      var resident := residency.resident;
      ghost var es := [];
      var i := 0;
      while i < |cat|
        invariant 0 <= i <= |cat|
        invariant es == RestoreEvents(cat[..i], resident, probes[..i], failing[..i])
        invariant View() == Exec(cat, old(View()), es)
      {
        ghost var n := i + 1;
        assert cat[..n][..i] == cat[..i] && probes[..n][..i] == probes[..i] && failing[..n][..i] == failing[..i];
        if cat[i].id in resident {
          var _ := Load(cat[i].id, probes[i], failing[i]);
          ghost var e := DoLoad(cat[i].id, probes[i], failing[i]);
          assert (es + [e])[..|es|] == es;
          es := es + [e];
        }
        i := i + 1;
      }
      assert cat[..i] == cat && probes[..i] == probes && failing[..i] == failing;
    }
  }
}
