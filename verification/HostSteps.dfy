/** What each step of a detached thread or a request does (src/host.rs), in every state that the
    invariant allows: who moves on and when, what of the model and its lane changes, and that
    nothing else does. */
module HostSteps {
  import opened Wrappers
  import opened Lifecycles
  import opened Hosts
  import opened HostInvariants
  import R = Residencies

  /** No other model's entry changes, and nothing of residency, lanes or requests. */
  ghost predicate OnlyEntry(s: HostState, s': HostState, id: Id) {
    && (forall x | x != id :: EntryOf(s', x) == EntryOf(s, x))
    && s'.residency == s.residency && s'.file == s.file && s'.requests == s.requests
  }

  // ----- Load threads

  /** A load thread goes on behind an outgoing model that is unloaded or failed, or after a time-out,
      and not before. */
  lemma EndWaitIs(cat: Catalog, s: HostState, t: TaskId, timedOut: bool)
    requires t in s.loadTasks && s.loadTasks[t].waiting != []
    ensures var first, s' := s.loadTasks[t].waiting[0], Next(cat, s, EndWait(t, timedOut));
            if timedOut || StateOf(s, first).Unloaded? || StateOf(s, first).Failed? then
              s' == s.(loadTasks := s.loadTasks[t := LoadTask(s.loadTasks[t].id, s.loadTasks[t].waiting[1..])])
            else s' == s
  {
  }

  /** A load that ends well installs the weights behind a new lane, free and not cancelled; the model
      is loaded, or unloading at once, by a thread that has its lane, if its unload was deferred. */
  lemma EndGoodLoadIs(cat: Catalog, s: HostState, t: TaskId, weights: Weights)
    requires Inv(cat, s) && t in s.loadTasks && s.loadTasks[t].waiting == []
    ensures var id := s.loadTasks[t].id;
            var s' := Next(cat, s, EndLoad(t, Ok(weights)));
            var pending := EntryOf(s, id).lifecycle.unloadPending;
            && OnlyEntry(s, s', id)
            && s'.lanes == s.lanes + [Lane(id, weights, None, false)]
            && EntryOf(s', id) == Entry(LifecycleView(if pending then Unloading else Loaded, false),
                                        Some(Handle(weights, |s.lanes|)))
            && s'.loadTasks == s.loadTasks - {t}
            && s'.unloadTasks ==
                 (if pending then s.unloadTasks[s.nextTask := UnloadTask(id, Some(|s.lanes|), Spawned)]
                  else s.unloadTasks)
  {
    assert At(s.entries, s.loadTasks[t].id).lifecycle.state.Loading?;
  }

  /** One that fails leaves the model failed for that reason, whatever was deferred. */
  lemma EndBadLoadIs(cat: Catalog, s: HostState, t: TaskId, reason: string)
    requires Inv(cat, s) && t in s.loadTasks && s.loadTasks[t].waiting == []
    ensures var id := s.loadTasks[t].id;
            var s' := Next(cat, s, EndLoad(t, Err(reason)));
            && OnlyEntry(s, s', id) && s'.lanes == s.lanes
            && EntryOf(s', id) == Entry(LifecycleView(Failed(reason), false), None)
            && s'.loadTasks == s.loadTasks - {t} && s'.unloadTasks == s.unloadTasks
  {
    assert At(s.entries, s.loadTasks[t].id).lifecycle.state.Loading?;
  }

  // ----- Unload threads

  /** The unload thread first raises the flag of its model's lane, and of no other. */
  lemma RaiseCancelIs(cat: Catalog, s: HostState, t: TaskId)
    requires Inv(cat, s) && t in s.unloadTasks && s.unloadTasks[t].phase.Spawned?
    ensures var id := s.unloadTasks[t].id;
            var n := s.unloadTasks[t].lane.value;
            && EntryOf(s, id).loaded.Some? && EntryOf(s, id).loaded.value.lane == n < |s.lanes|
            && Next(cat, s, RaiseCancel(t)) ==
                 s.(lanes := s.lanes[n := s.lanes[n].(cancel := true)],
                    unloadTasks := s.unloadTasks[t := UnloadTask(id, Some(n), Draining)])
  {
  }

  /** Then it waits until nobody holds the lane's mutex, or for a time-out. */
  lemma EndDrainIs(cat: Catalog, s: HostState, t: TaskId, timedOut: bool)
    requires Inv(cat, s) && t in s.unloadTasks && s.unloadTasks[t].phase.Draining?
    ensures var s' := Next(cat, s, EndDrain(t, timedOut));
            var task := s.unloadTasks[t];
            if timedOut || s.lanes[task.lane.value].busy.None? then
              s' == s.(unloadTasks := s.unloadTasks[t := UnloadTask(task.id, task.lane, Finishing)])
            else s' == s
  {
  }

  /** At last it drops the weights, and the model is unloaded. */
  lemma EndUnloadIs(cat: Catalog, s: HostState, t: TaskId)
    requires Inv(cat, s) && t in s.unloadTasks && s.unloadTasks[t].phase.Finishing?
    ensures var id, s' := s.unloadTasks[t].id, Next(cat, s, EndUnload(t));
            && OnlyEntry(s, s', id) && s'.lanes == s.lanes
            && EntryOf(s', id) == NEW_ENTRY
            && s'.loadTasks == s.loadTasks && s'.unloadTasks == s.unloadTasks - {t}
  {
    assert At(s.entries, s.unloadTasks[t].id).lifecycle.state.Unloading?;
    assert EntryMatches(At(s.entries, s.unloadTasks[t].id));
  }

  // ----- Requests

  /** A request takes a free lane's mutex; for a busy one it waits, or is over, as it was asked. */
  lemma LockLaneIs(cat: Catalog, s: HostState, req: RequestId)
    requires Inv(cat, s) && req in s.requests && s.requests[req].phase.LookedUp?
    ensures var r := s.requests[req];
            var n, s' := r.handle.lane, Next(cat, s, LockLane(req));
            if s.lanes[n].busy.None? then
              s' == s.(lanes := s.lanes[n := s.lanes[n].(busy := Some(req))],
                       requests := s.requests[req := Request(r.handle, r.waits, Holding)])
            else s' == if r.waits then s else s.(requests := s.requests - {req})
  {
  }

  /** With the mutex it runs, unless its lane was cancelled meanwhile; then it gives the mutex back. */
  lemma CheckCancelIs(cat: Catalog, s: HostState, req: RequestId)
    requires Inv(cat, s) && req in s.requests && s.requests[req].phase.Holding?
    ensures var r := s.requests[req];
            var n, s' := r.handle.lane, Next(cat, s, CheckCancel(req));
            if !s.lanes[n].cancel then s' == s.(requests := s.requests[req := Request(r.handle, r.waits, Running)])
            else s' == s.(lanes := s.lanes[n := s.lanes[n].(busy := None)], requests := s.requests - {req})
  {
  }

  /** A request that returns gives the mutex back. */
  lemma ReturnIs(cat: Catalog, s: HostState, req: RequestId)
    requires Inv(cat, s) && req in s.requests && s.requests[req].phase.Running?
    ensures var n := s.requests[req].handle.lane;
            Next(cat, s, Return(req)) ==
              s.(lanes := s.lanes[n := s.lanes[n].(busy := None)], requests := s.requests - {req})
  {
  }

  // ----- Processes

  /** A new process holds no model, runs nothing, and is resident as its file says. */
  lemma NewProcessIs(cat: Catalog, s: HostState, path: bool, canQuarantine: bool)
    ensures var s' := Next(cat, s, Restart(path, canQuarantine));
            && (forall x :: EntryOf(s', x) == NEW_ENTRY)
            && s'.lanes == [] && s'.loadTasks == map[] && s'.unloadTasks == map[] && s'.requests == map[]
            && (s'.residency, s'.file) == R.LoadForServing(path, s.file, canQuarantine)
  {
  }
}
