/** The wait of an incoming load for the models it swaps out (src/host.rs), over whole runs. */
module SwapWaits {
  import opened Wrappers
  import opened Admissions
  import opened Hosts
  import opened HostInvariants
  import opened HostTheorems
  import R = Residencies

  // ----- What a step does to a load thread

  /** The thread, if still there, is as it was, and task numbers only grow. */
  predicate IsUntouched(s: HostState, s': HostState, t: TaskId) {
    && s.nextTask <= s'.nextTask
    && (t in s'.loadTasks ==> t in s.loadTasks && s'.loadTasks[t] == s.loadTasks[t])
  }

  /** The thread sees the first model it waits for unloaded or failed, or gives up on it. */
  predicate EndsWait(s: HostState, e: Event, t: TaskId) {
    && e.EndWait? && e.task == t && t in s.loadTasks && s.loadTasks[t].waiting != []
    && (e.timedOut || NeedsLoad(s, s.loadTasks[t].waiting[0]))
  }

  lemma {:induction false} SwapLeavesThreads(s: HostState, others: seq<Id>, failing: set<Id>, t: TaskId)
    ensures IsUntouched(s, SwapAll(s, others, failing).0, t)
    decreases others
  {
    if others != [] {
      var (s1, ok) := SetResident(s, others[0], false, others[0] !in failing);
      if ok {
        SwapLeavesThreads(RequestUnloadLocked(s1, others[0]), others[1..], failing, t);
      }
    }
  }

  lemma RequestLeavesThreads(s: HostState, id: Id, swapOut: seq<Id>, t: TaskId)
    requires t < s.nextTask
    ensures IsUntouched(s, RequestLoadLocked(s, id, swapOut), t)
  {
  }

  lemma LoadLeavesThreads(cat: Catalog, s: HostState, id: Id, probe: Probe, failing: set<Id>, t: TaskId)
    requires t < s.nextTask
    ensures IsUntouched(s, Load(cat, s, id, probe, failing).0, t)
  {
    if Get(cat, id).Some? {
      var others := SwapOut(cat, s, Get(cat, id).value);
      var s1 := SetResident(s, id, true, id !in failing).0;
      SwapLeavesThreads(s1, others, failing, t);
      RequestLeavesThreads(SwapAll(s1, others, failing).0, id, others, t);
    }
  }

  lemma UnloadLeavesThreads(cat: Catalog, s: HostState, id: Id, saves: bool, t: TaskId)
    ensures IsUntouched(s, Unload(cat, s, id, saves).0, t)
  {
  }

  lemma FinishLeavesThreads(s: HostState, id: Id, outcome: Result<Weights, string>, t: TaskId)
    ensures IsUntouched(s, FinishLoad(s, id, outcome).0, t)
    ensures IsUntouched(s, FinishUnload(s, id).0, t)
  {
  }

  lemma ThreadsLeaveEachOther(cat: Catalog, s: HostState, e: Event, t: TaskId)
    requires IsThreadStep(e) && !EndsWait(s, e, t)
    ensures IsUntouched(s, Next(cat, s, e), t)
  {
    match e {
      case EndLoad(u, outcome) =>
        if u in s.loadTasks {
          FinishLeavesThreads(s.(loadTasks := s.loadTasks - {u}), s.loadTasks[u].id, outcome, t);
        }
      case EndUnload(u) =>
        if u in s.unloadTasks {
          FinishLeavesThreads(s.(unloadTasks := s.unloadTasks - {u}), s.unloadTasks[u].id, Ok(0), t);
        }
      case _ =>
    }
  }

  lemma RequestsLeaveThreads(cat: Catalog, s: HostState, e: Event, t: TaskId)
    requires IsRequestStep(e)
    ensures IsUntouched(s, Next(cat, s, e), t)
  {
  }

  lemma OthersLeaveThreads(cat: Catalog, s: HostState, e: Event, t: TaskId)
    requires t < s.nextTask && !EndsProcess(e) && !EndsWait(s, e, t)
    ensures IsUntouched(s, Next(cat, s, e), t)
  {
    if e.DoLoad? {
      LoadLeavesThreads(cat, s, e.id, e.probe, e.failing, t);
    } else if e.DoUnload? {
      UnloadLeavesThreads(cat, s, e.id, e.saves, t);
    } else if IsThreadStep(e) {
      ThreadsLeaveEachOther(cat, s, e, t);
    } else {
      RequestsLeaveThreads(cat, s, e, t);
    }
  }

  // ----- What a thread has waited for

  /** At step `j` of the run the thread ends its wait for `x`. */
  predicate EndsWaitAt(cat: Catalog, s: HostState, es: seq<Event>, t: TaskId, x: Id, j: nat)
    requires j < |es|
  {
    var s' := Exec(cat, s, es[..j]);
    EndsWait(s', es[j], t) && s'.loadTasks[t].waiting[0] == x
  }

  ghost predicate HasWaitedFor(cat: Catalog, s: HostState, es: seq<Event>, t: TaskId, x: Id) {
    exists j :: 0 <= j < |es| && EndsWaitAt(cat, s, es, t, x, j)
  }

  lemma WaitedBefore(cat: Catalog, s: HostState, es: seq<Event>, t: TaskId, x: Id)
    requires es != [] && HasWaitedFor(cat, s, es[..|es| - 1], t, x)
    ensures HasWaitedFor(cat, s, es, t, x)
  {
    var before := es[..|es| - 1];
    var j :| 0 <= j < |before| && EndsWaitAt(cat, s, before, t, x, j);
    assert before[..j] == es[..j];
    assert EndsWaitAt(cat, s, es, t, x, j);
  }

  /** The thread, if still there, has waited for all of `outgoing` but those it has yet to wait for. */
  ghost predicate IsWaiting(cat: Catalog, s: HostState, es: seq<Event>, t: TaskId, outgoing: seq<Id>) {
    var s' := Exec(cat, s, es);
    && t < s'.nextTask
    && (t in s'.loadTasks ==>
          forall x | x in outgoing :: x in s'.loadTasks[t].waiting || HasWaitedFor(cat, s, es, t, x))
  }

  lemma WaitEnds(cat: Catalog, s: HostState, e: Event, t: TaskId)
    requires EndsWait(s, e, t)
    ensures var s' := Next(cat, s, e);
            && s'.nextTask == s.nextTask
            && t in s'.loadTasks && s'.loadTasks[t].waiting == s.loadTasks[t].waiting[1..]
  {
  }

  lemma OneMoreStep(cat: Catalog, s: HostState, es: seq<Event>, t: TaskId, outgoing: seq<Id>)
    requires es != [] && !EndsProcess(es[|es| - 1]) && IsWaiting(cat, s, es[..|es| - 1], t, outgoing)
    ensures IsWaiting(cat, s, es, t, outgoing)
  {
    var before, e := es[..|es| - 1], es[|es| - 1];
    var s1, s2 := Exec(cat, s, before), Exec(cat, s, es);
    if EndsWait(s1, e, t) {
      WaitEnds(cat, s1, e, t);
    } else {
      OthersLeaveThreads(cat, s1, e, t);
    }
    forall x | t in s2.loadTasks && x in outgoing
      ensures x in s2.loadTasks[t].waiting || HasWaitedFor(cat, s, es, t, x)
    {
      if HasWaitedFor(cat, s, before, t, x) {
        WaitedBefore(cat, s, es, t, x);
      } else if EndsWait(s1, e, t) && s1.loadTasks[t].waiting[0] == x {
        assert EndsWaitAt(cat, s, es, t, x, |before|);
      }
    }
  }

  lemma {:induction false} WaitsInTurn(cat: Catalog, s: HostState, es: seq<Event>, t: TaskId)
    requires t in s.loadTasks && t < s.nextTask && forall i | 0 <= i < |es| :: !EndsProcess(es[i])
    ensures IsWaiting(cat, s, es, t, s.loadTasks[t].waiting)
  {
    if es != [] {
      WaitsInTurn(cat, s, es[..|es| - 1], t);
      OneMoreStep(cat, s, es, t, s.loadTasks[t].waiting);
    }
  }

  // ----- The bounded wait

  /** A load that goes through for a model not loaded starts a thread to wait for the models that
      the load swaps out. */
  lemma LoadStartsThread(cat: Catalog, s: HostState, e: Event) returns (t: TaskId)
    requires Inv(cat, s) && Goes(cat, s, e) && NeedsLoad(s, e.id)
    ensures var s' := Next(cat, s, e);
            && t in s'.loadTasks && t < s'.nextTask && t !in s.loadTasks
            && s'.loadTasks[t] == LoadTask(e.id, SwapOut(cat, s, Get(cat, e.id).value))
  {
    var s1 := SetResident(s, e.id, true, e.id !in e.failing).0;
    var others := SwapOut(cat, s, Get(cat, e.id).value);
    var s2 := SwapAll(s1, others, e.failing).0;
    GetFinds(cat, e.id);
    R.SetIsAtomic(s.residency, s.file, e.id, true, e.id !in e.failing);
    SwapOutHasAll(cat, s, Get(cat, e.id).value, e.id);
    SwapAllEffect(s1, others, e.failing);
    SwapLeavesThreads(s1, others, e.failing, s.nextTask);
    SwapAllStartsNoLoad(s1, others, e.failing);
    t := s2.nextTask;
  }

  /** A load thread asks the engine for its model only after it has ended its wait for every model
      its load swapped out, whatever else happens meanwhile. */
  lemma SwapsWait(cat: Catalog, path: bool, file: R.FileState, q: bool, before: seq<Event>, t: TaskId,
                  after: seq<Event>, x: Id)
    requires forall i | 0 <= i < |after| :: !EndsProcess(after[i])
    ensures var s := Exec(cat, Start(path, file, q), before);
            var s' := Exec(cat, s, after);
            t in s.loadTasks && x in s.loadTasks[t].waiting && t in s'.loadTasks && s'.loadTasks[t].waiting == [] ==>
              HasWaitedFor(cat, s, after, t, x)
  {
    var s := Exec(cat, Start(path, file, q), before);
    StartInv(cat, path, file, q);
    ExecKeeps(cat, Start(path, file, q), before);
    if t in s.loadTasks {
      WaitsInTurn(cat, s, after, t);
    }
  }

  /** If none of its waits timed out, it found every one of them unloaded or failed. */
  lemma WaitedForIsGone(cat: Catalog, s: HostState, es: seq<Event>, t: TaskId, x: Id)
    requires HasWaitedFor(cat, s, es, t, x)
    requires forall i | 0 <= i < |es| :: es[i] != EndWait(t, true)
    ensures exists j :: 0 <= j < |es| && NeedsLoad(Exec(cat, s, es[..j]), x)
  {
    var j :| 0 <= j < |es| && EndsWaitAt(cat, s, es, t, x, j);
    assert NeedsLoad(Exec(cat, s, es[..j]), x);
  }

  /** So the incoming load waits: unless one of its waits timed out, by the time its thread asks the
      engine for the model, every model it swapped out has been unloaded or failed. */
  lemma IncomingLoadWaits(cat: Catalog, path: bool, file: R.FileState, q: bool, before: seq<Event>, e: Event,
                          t: TaskId, after: seq<Event>, x: Id)
    requires var s := Exec(cat, Start(path, file, q), before);
             && Goes(cat, s, e) && NeedsLoad(s, e.id)
             && t in Next(cat, s, e).loadTasks && Next(cat, s, e).loadTasks[t].id == e.id
             && x in SwapOut(cat, s, Get(cat, e.id).value)
    requires forall i | 0 <= i < |after| :: !EndsProcess(after[i]) && after[i] != EndWait(t, true)
    ensures var s1 := Next(cat, Exec(cat, Start(path, file, q), before), e);
            var s2 := Exec(cat, s1, after);
            t in s2.loadTasks && s2.loadTasks[t].waiting == [] ==>
              exists j :: 0 <= j < |after| && NeedsLoad(Exec(cat, s1, after[..j]), x)
  {
    var s0 := Start(path, file, q);
    var s := Exec(cat, s0, before);
    var s1 := Next(cat, s, e);
    StartInv(cat, path, file, q);
    ExecKeeps(cat, s0, before);
    NextKeeps(cat, s, e);
    var u := LoadStartsThread(cat, s, e);
    assert u == t;
    WaitsInTurn(cat, s1, after, t);
    if t in Exec(cat, s1, after).loadTasks && Exec(cat, s1, after).loadTasks[t].waiting == [] {
      WaitedForIsGone(cat, s1, after, t, x);
    }
  }
}
