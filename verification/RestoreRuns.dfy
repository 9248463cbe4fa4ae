/** What a start restores (src/host.rs): the loads of the resident models, in catalogue order, with
    the threads they start and any requests in between. */
module RestoreRuns {
  import opened Wrappers
  import opened Admissions
  import opened Hosts
  import opened HostInvariants
  import opened HostMemory
  import opened HostRestores
  import opened HostTheorems
  import R = Residencies

  // ----- Swaps while restoring

  lemma {:induction false} NobodysSwap(s: HostState, others: seq<Id>, failing: set<Id>)
    requires R.Agree(s.residency, s.file) && forall y | y in others :: !IsResident(s, y)
    ensures SwapAll(s, others, failing).1
    decreases others
  {
    if others != [] {
      DropEffect(s, others[0], others[0] !in failing);
      assert forall y | y in others[1..] :: y in others;
      assert !IsResident(s, others[0]) && Drop(s, others[0], others[0] !in failing).1;
      NobodysSwap(Drop(s, others[0], others[0] !in failing).0, others[1..], failing);
    }
  }

  /** If only `x` of the outgoing models is resident, a swap whose save fails leaves it alone. */
  lemma {:induction false} FailedSwapLeaves(s: HostState, others: seq<Id>, failing: set<Id>, x: Id)
    requires R.Agree(s.residency, s.file) && forall y | y in others && y != x :: !IsResident(s, y)
    requires !SwapAll(s, others, failing).1
    ensures var s' := SwapAll(s, others, failing).0;
            EntryOf(s', x) == EntryOf(s, x) && (IsResident(s', x) <==> IsResident(s, x))
    decreases others
  {
    var id := others[0];
    var (s1, ok) := Drop(s, id, id !in failing);
    DropEffect(s, id, id !in failing);
    if ok {
      assert forall y | y in others[1..] :: y in others;
      if id == x {
        NobodysSwap(s1, others[1..], failing);
      } else {
        FailedSwapLeaves(s1, others[1..], failing, x);
      }
    }
  }

  // ----- One step

  /** The load of another member of its group goes through. */
  ghost predicate MateGoes(cat: Catalog, s: HostState, e: Event, x: Id) {
    Goes(cat, s, e) && e.id != x && SameGroup(cat, e.id, x)
  }

  /** Its load thread ends with an error. */
  predicate EndsInError(s: HostState, e: Event, x: Id) {
    && e.EndLoad? && e.outcome.Err? && e.task in s.loadTasks
    && s.loadTasks[e.task].waiting == [] && s.loadTasks[e.task].id == x
  }

  /** A loading model that is resident has no unload deferred. */
  ghost predicate IsOrderly(s: HostState) {
    forall x | StateOf(s, x).Loading? && IsResident(s, x) :: IsLive(s, x)
  }

  /** What a step of a restore does to a model. */
  ghost predicate IsRestoreStep(cat: Catalog, s: HostState, s': HostState, e: Event, x: Id) {
    && (IsLive(s', x) <==>
          || (Goes(cat, s, e) && e.id == x)
          || (IsLive(s, x) && !MateGoes(cat, s, e, x) && !EndsInError(s, e, x)))
    && (IsResident(s', x) <==> IsResident(s, x) && !(MateGoes(cat, s, e, x) && IsLive(s, x)))
    && (StateOf(s', x).Failed? <==> StateOf(s, x).Failed? || EndsInError(s, e, x))
    && (StateOf(s, x).Unloaded? && !(Goes(cat, s, e) && e.id == x) ==> StateOf(s', x).Unloaded?)
    && (StateOf(s', x).Loading? && IsResident(s', x) ==> IsLive(s', x))
  }

  lemma RequestStepLeavesAll(cat: Catalog, s: HostState, e: Event)
    requires IsRequestStep(e)
    ensures Next(cat, s, e).entries == s.entries && Next(cat, s, e).residency == s.residency
  {
  }

  lemma FinishLeavesOthers(s: HostState, id: Id, outcome: Result<Weights, string>, x: Id)
    ensures var s' := FinishLoad(s, id, outcome).0;
            s'.residency == s.residency && (x != id ==> EntryOf(s', x) == EntryOf(s, x))
  {
  }

  lemma FinishEndsLoad(s: HostState, id: Id, outcome: Result<Weights, string>)
    requires StateOf(s, id).Loading?
    ensures var s' := FinishLoad(s, id, outcome).0;
            && (outcome.Err? ==> StateOf(s', id).Failed?)
            && (outcome.Ok? ==>
                  if EntryOf(s, id).lifecycle.unloadPending then StateOf(s', id).Unloading?
                  else StateOf(s', id).Loaded?)
  {
  }

  lemma LoadEndIsStep(cat: Catalog, s: HostState, e: Event, x: Id)
    requires Inv(cat, s) && IsOrderly(s) && e.EndLoad?
    ensures IsRestoreStep(cat, s, Next(cat, s, e), e, x)
  {
    if e.task in s.loadTasks && s.loadTasks[e.task].waiting == [] {
      var id := s.loadTasks[e.task].id;
      var s1 := s.(loadTasks := s.loadTasks - {e.task});
      assert EntryMatches(At(s.entries, x));
      FinishLeavesOthers(s1, id, e.outcome, x);
      FinishEndsLoad(s1, id, e.outcome);
    }
  }

  lemma UnloadEndIsStep(cat: Catalog, s: HostState, e: Event, x: Id)
    requires Inv(cat, s) && IsOrderly(s) && e.EndUnload?
    ensures IsRestoreStep(cat, s, Next(cat, s, e), e, x)
  {
  }

  lemma OtherThreadStep(cat: Catalog, s: HostState, e: Event)
    requires e.EndWait? || e.RaiseCancel? || e.EndDrain?
    ensures Next(cat, s, e).entries == s.entries && Next(cat, s, e).residency == s.residency
  {
  }

  lemma ThreadStepIsStep(cat: Catalog, s: HostState, e: Event, x: Id)
    requires Inv(cat, s) && IsOrderly(s) && (IsThreadStep(e) || IsRequestStep(e))
    ensures IsRestoreStep(cat, s, Next(cat, s, e), e, x)
  {
    if e.EndLoad? {
      LoadEndIsStep(cat, s, e, x);
    } else if e.EndUnload? {
      UnloadEndIsStep(cat, s, e, x);
    } else if IsThreadStep(e) {
      OtherThreadStep(cat, s, e);
    } else {
      RequestStepLeavesAll(cat, s, e);
    }
  }

  lemma ResidentSetsNothing(s: HostState, id: Id, saves: bool)
    requires IsResident(s, id)
    ensures SetResident(s, id, true, saves) == (s, true)
  {
  }

  /** A load of an unloaded resident model is its swap and, if that goes through, its request. */
  lemma RestoreLoadIs(cat: Catalog, s: HostState, id: Id, probe: Probe, failing: set<Id>)
    requires IsResident(s, id)
    ensures var (s', r) := Load(cat, s, id, probe, failing);
            if !PassesAdmission(cat, s, id, probe) then s' == s && r.Err?
            else
              var swapOut := SwapOut(cat, s, Get(cat, id).value);
              var (s2, swapped) := SwapAll(s, swapOut, failing);
              r.Ok? == swapped && s' == if swapped then RequestLoadLocked(s2, id, swapOut) else s2
  {
    ResidentSetsNothing(s, id, id !in failing);
  }

  /** Of the outgoing members at most one is resident: the live one. */
  lemma OnlyOneIsResident(cat: Catalog, s: HostState, id: Id, x: Id)
    requires WellFormed(cat) && Inv(cat, s) && IsOrderly(s) && Get(cat, id).Some?
    requires x in SwapOut(cat, s, Get(cat, id).value) && IsLive(s, x)
    ensures forall y | y in SwapOut(cat, s, Get(cat, id).value) && y != x :: !IsResident(s, y)
  {
    GetFinds(cat, id);
    SwapOutIsGroup(cat, s, id, x);
    forall y | y in SwapOut(cat, s, Get(cat, id).value) && y != x
      ensures !IsResident(s, y)
    {
      SwapOutIsGroup(cat, s, id, y);
      SwapOutHasAll(cat, s, Get(cat, id).value, y);
      assert SameGroup(cat, x, y);
    }
  }

  /** An outgoing member that is not live is not resident either. */
  lemma PendingIsNotResident(cat: Catalog, s: HostState, id: Id, x: Id)
    requires IsOrderly(s) && Get(cat, id).Some? && x in SwapOut(cat, s, Get(cat, id).value) && !IsLive(s, x)
    ensures !IsResident(s, x)
  {
    GetFinds(cat, id);
    SwapOutHasAll(cat, s, Get(cat, id).value, x);
  }

  /** A swap whose save fails leaves liveness and wishes. */
  lemma FailedSwapIsNothing(cat: Catalog, s: HostState, id: Id, failing: set<Id>, x: Id)
    requires WellFormed(cat) && Inv(cat, s) && IsOrderly(s) && Get(cat, id).Some?
    requires !SwapAll(s, SwapOut(cat, s, Get(cat, id).value), failing).1
    ensures var s' := SwapAll(s, SwapOut(cat, s, Get(cat, id).value), failing).0;
            && (IsLive(s', x) <==> IsLive(s, x)) && (IsResident(s', x) <==> IsResident(s, x))
            && (StateOf(s', x).Failed? <==> StateOf(s, x).Failed?)
            && (StateOf(s, x).Unloaded? ==> StateOf(s', x).Unloaded?)
            && (StateOf(s', x).Loading? && IsResident(s', x) ==> IsLive(s', x))
  {
    var others := SwapOut(cat, s, Get(cat, id).value);
    GetFinds(cat, id);
    SwapAllEffect(s, others, failing);
    if x in others {
      SwapAllCounts(s, others, failing, x);
      SwapOutHasAll(cat, s, Get(cat, id).value, x);
      if IsLive(s, x) {
        OnlyOneIsResident(cat, s, id, x);
        FailedSwapLeaves(s, others, failing, x);
      } else {
        PendingIsNotResident(cat, s, id, x);
      }
    }
  }

  lemma LoadFailsIsStep(cat: Catalog, s: HostState, e: Event, x: Id)
    requires WellFormed(cat) && Inv(cat, s) && IsOrderly(s)
    requires e.DoLoad? && IsResident(s, e.id) && StateOf(s, e.id).Unloaded? && !Goes(cat, s, e)
    ensures IsRestoreStep(cat, s, Next(cat, s, e), e, x)
  {
    RestoreLoadIs(cat, s, e.id, e.probe, e.failing);
    if PassesAdmission(cat, s, e.id, e.probe) {
      FailedSwapIsNothing(cat, s, e.id, e.failing, x);
    }
  }

  lemma RequestMakesLive(s: HostState, id: Id, swapOut: seq<Id>, x: Id)
    requires EntryMatches(At(s.entries, id)) && StateOf(s, id).Unloaded?
    ensures var s' := RequestLoadLocked(s, id, swapOut);
            && s'.residency == s.residency
            && StateOf(s', id).Loading? && IsLive(s', id)
            && (x != id ==> EntryOf(s', x) == EntryOf(s, x))
  {
  }

  lemma LoadGoesIsStep(cat: Catalog, s: HostState, e: Event, x: Id)
    requires WellFormed(cat) && Inv(cat, s) && IsOrderly(s)
    requires e.DoLoad? && IsResident(s, e.id) && StateOf(s, e.id).Unloaded? && Goes(cat, s, e)
    ensures IsRestoreStep(cat, s, Next(cat, s, e), e, x)
  {
    RestoreLoadIs(cat, s, e.id, e.probe, e.failing);
    var others := SwapOut(cat, s, Get(cat, e.id).value);
    var s2 := SwapAll(s, others, e.failing).0;
    GetFinds(cat, e.id);
    SwapOutHasAll(cat, s, Get(cat, e.id).value, e.id);
    SwapOutHasAll(cat, s, Get(cat, e.id).value, x);
    SwapOutIsGroup(cat, s, e.id, x);
    SwapAllEffect(s, others, e.failing);
    SwapAllCounts(s, others, e.failing, x);
    assert EntryMatches(At(s.entries, e.id));
    RequestMakesLive(s2, e.id, others, x);
    if x in others && !IsLive(s, x) {
      PendingIsNotResident(cat, s, e.id, x);
    }
  }

  /** A load of a resident model not loaded yet, or a step of a thread or a request. */
  predicate IsRestoreEvent(s: HostState, e: Event) {
    (e.DoLoad? && IsResident(s, e.id) && StateOf(s, e.id).Unloaded?) || IsThreadStep(e) || IsRequestStep(e)
  }

  lemma EventIsStep(cat: Catalog, s: HostState, e: Event, x: Id)
    requires WellFormed(cat) && Inv(cat, s) && IsOrderly(s) && IsRestoreEvent(s, e)
    ensures IsRestoreStep(cat, s, Next(cat, s, e), e, x)
  {
    if !e.DoLoad? {
      ThreadStepIsStep(cat, s, e, x);
    } else if Goes(cat, s, e) {
      LoadGoesIsStep(cat, s, e, x);
    } else {
      LoadFailsIsStep(cat, s, e, x);
    }
  }

  // ----- Runs

  /** The models a start asks for, in catalogue order. */
  function Wished(cat: Catalog, resident: set<Id>): seq<Id> {
    if cat == [] then []
    else
      var n := |cat| - 1;
      Wished(cat[..n], resident) + if cat[n].id in resident then [cat[n].id] else []
  }

  function LoadIds(es: seq<Event>): seq<Id> {
    if es == [] then [] else LoadIds(es[..|es| - 1]) + if es[|es| - 1].DoLoad? then [es[|es| - 1].id] else []
  }

  /** A restore as far as it got: loads of the wished models in order, and steps of threads and
      requests anywhere between them. */
  predicate IsRestoreRun(cat: Catalog, resident: set<Id>, es: seq<Event>) {
    && (forall i | 0 <= i < |es| :: es[i].DoLoad? || IsThreadStep(es[i]) || IsRequestStep(es[i]))
    && LoadIds(es) <= Wished(cat, resident)
  }

  lemma {:induction false} WishedAreDistinct(cat: Catalog, resident: set<Id>)
    requires WellFormed(cat)
    ensures forall i, j | 0 <= i < j < |Wished(cat, resident)| :: Wished(cat, resident)[i] != Wished(cat, resident)[j]
    ensures forall x | x in Wished(cat, resident) :: x in resident && exists i :: 0 <= i < |cat| && cat[i].id == x
  {
    if cat != [] {
      var n := |cat| - 1;
      WishedAreDistinct(cat[..n], resident);
      assert forall i | 0 <= i < n :: cat[..n][i] == cat[i];
    }
  }

  /** They come in the order of the catalogue, and none that is resident and in it is left out. */
  lemma {:induction false} WishedAreInOrder(cat: Catalog, resident: set<Id>) returns (places: seq<nat>)
    ensures |places| == |Wished(cat, resident)|
    ensures forall i | 0 <= i < |places| :: places[i] < |cat| && cat[places[i]].id == Wished(cat, resident)[i]
    ensures forall i, j | 0 <= i < j < |places| :: places[i] < places[j]
    ensures forall k: nat | k < |cat| && cat[k].id in resident :: k in places
  {
    if cat == [] {
      places := [];
    } else {
      var n := |cat| - 1;
      var before := WishedAreInOrder(cat[..n], resident);
      assert forall k | 0 <= k < n :: cat[..n][k] == cat[k];
      places := before + if cat[n].id in resident then [n] else [];
      assert forall k | k in before :: k in places;
      assert cat[n].id in resident ==> places[|before|] == n;
    }
  }

  lemma RunBefore(cat: Catalog, resident: set<Id>, es: seq<Event>)
    requires WellFormed(cat) && IsRestoreRun(cat, resident, es) && es != []
    ensures IsRestoreRun(cat, resident, es[..|es| - 1])
    ensures es[|es| - 1].DoLoad? ==> es[|es| - 1].id in resident && es[|es| - 1].id !in LoadIds(es[..|es| - 1])
  {
    var before, e, wished := LoadIds(es[..|es| - 1]), es[|es| - 1], Wished(cat, resident);
    WishedAreDistinct(cat, resident);
    if e.DoLoad? {
      assert LoadIds(es)[|before|] == e.id;
      assert wished[|before|] == e.id;
      assert forall i | 0 <= i < |before| :: before[i] == LoadIds(es)[i] == wished[i];
    }
  }

  /** Models not asked for yet are as at first. */
  ghost predicate Waits(s0: HostState, s: HostState, es: seq<Event>) {
    forall x | x !in LoadIds(es) :: StateOf(s, x).Unloaded? && (IsResident(s, x) <==> IsResident(s0, x))
  }

  lemma StartIsOrderly(path: bool, file: R.FileState, q: bool)
    ensures IsOrderly(Start(path, file, q)) && Waits(Start(path, file, q), Start(path, file, q), [])
  {
  }

  ghost predicate AreRestoreSteps(cat: Catalog, s: HostState, s': HostState, e: Event) {
    forall x {:trigger IsRestoreStep(cat, s, s', e, x)} :: IsRestoreStep(cat, s, s', e, x)
  }

  lemma RunGoesOn(cat: Catalog, s0: HostState, es: seq<Event>)
    requires WellFormed(cat) && IsRestoreRun(cat, s0.residency.resident, es) && es != []
    requires var s := Exec(cat, s0, es[..|es| - 1]); Inv(cat, s) && IsOrderly(s) && Waits(s0, s, es[..|es| - 1])
    ensures var s := Exec(cat, s0, es[..|es| - 1]);
            && IsRestoreEvent(s, es[|es| - 1])
            && AreRestoreSteps(cat, s, Exec(cat, s0, es), es[|es| - 1])
  {
    var s, e := Exec(cat, s0, es[..|es| - 1]), es[|es| - 1];
    RunBefore(cat, s0.residency.resident, es);
    forall x
      ensures IsRestoreStep(cat, s, Next(cat, s, e), e, x)
    {
      EventIsStep(cat, s, e, x);
    }
  }

  lemma StepKeepsWaiting(cat: Catalog, s0: HostState, es: seq<Event>)
    requires es != []
    requires var s := Exec(cat, s0, es[..|es| - 1]);
             && Waits(s0, s, es[..|es| - 1])
             && AreRestoreSteps(cat, s, Exec(cat, s0, es), es[|es| - 1])
    ensures IsOrderly(Exec(cat, s0, es)) && Waits(s0, Exec(cat, s0, es), es)
  {
    var s, s', e := Exec(cat, s0, es[..|es| - 1]), Exec(cat, s0, es), es[|es| - 1];
    forall x | StateOf(s', x).Loading? && IsResident(s', x)
      ensures IsLive(s', x)
    {
      assert IsRestoreStep(cat, s, s', e, x);
    }
    forall x | x !in LoadIds(es)
      ensures StateOf(s', x).Unloaded? && (IsResident(s', x) <==> IsResident(s0, x))
    {
      assert IsRestoreStep(cat, s, s', e, x);
      assert x !in LoadIds(es[..|es| - 1]) && !(e.DoLoad? && e.id == x);
      assert !IsLive(s, x);
    }
  }

  lemma {:induction false} RunIsOrderly(cat: Catalog, path: bool, file: R.FileState, q: bool, es: seq<Event>)
    requires WellFormed(cat) && IsRestoreRun(cat, Start(path, file, q).residency.resident, es)
    ensures var s0 := Start(path, file, q);
            var s := Exec(cat, s0, es);
            Inv(cat, s) && IsOrderly(s) && Waits(s0, s, es)
  {
    var s0 := Start(path, file, q);
    StartInv(cat, path, file, q);
    ExecKeeps(cat, s0, es);
    if es == [] {
      StartIsOrderly(path, file, q);
    } else {
      RunBefore(cat, s0.residency.resident, es);
      RunIsOrderly(cat, path, file, q, es[..|es| - 1]);
      RunGoesOn(cat, s0, es);
      StepKeepsWaiting(cat, s0, es);
    }
  }

  lemma RunSteps(cat: Catalog, path: bool, file: R.FileState, q: bool, es: seq<Event>, x: Id)
    requires WellFormed(cat) && IsRestoreRun(cat, Start(path, file, q).residency.resident, es) && es != []
    ensures var s0 := Start(path, file, q);
            && IsRestoreRun(cat, s0.residency.resident, es[..|es| - 1])
            && IsRestoreStep(cat, Exec(cat, s0, es[..|es| - 1]), Exec(cat, s0, es), es[|es| - 1], x)
  {
    RunBefore(cat, Start(path, file, q).residency.resident, es);
    RunIsOrderly(cat, path, file, q, es[..|es| - 1]);
    RunGoesOn(cat, Start(path, file, q), es);
  }

  // ----- What a restore makes of a wish

  /** What an event of a run is to a model: its load goes through; another of its group's does; its
      load thread ends with an error; and whether it was live just before. */
  datatype Turn = Turn(goes: bool, mateGoes: bool, fails: bool, whileLive: bool)

  ghost function TurnOf(cat: Catalog, s: HostState, e: Event, x: Id): Turn {
    Turn(Goes(cat, s, e) && e.id == x, MateGoes(cat, s, e, x), EndsInError(s, e, x), IsLive(s, x))
  }

  ghost function Turns(cat: Catalog, s0: HostState, es: seq<Event>, x: Id): (ts: seq<Turn>)
    ensures |ts| == |es|
  {
    if es == [] then []
    else
      var before := es[..|es| - 1];
      Turns(cat, s0, before, x) + [TurnOf(cat, Exec(cat, s0, before), es[|es| - 1], x)]
  }

  lemma {:induction false} TurnAt(cat: Catalog, s0: HostState, es: seq<Event>, x: Id, k: nat)
    requires k < |es|
    ensures Turns(cat, s0, es, x)[k] == TurnOf(cat, Exec(cat, s0, es[..k]), es[k], x)
  {
    if k < |es| - 1 {
      var before := es[..|es| - 1];
      TurnAt(cat, s0, before, x, k);
      assert before[..k] == es[..k];
    }
  }

  /** Its load went through, and since then no other of its group's did and its own load thread did
      not end with an error. */
  ghost predicate StaysUp(ts: seq<Turn>) {
    exists k :: 0 <= k < |ts| && ts[k].goes && forall j | k < j < |ts| :: !ts[j].mateGoes && !ts[j].fails
  }

  /** Another of its group's loads went through while it was live. */
  ghost predicate WishIsTaken(ts: seq<Turn>) {
    exists k :: 0 <= k < |ts| && ts[k].mateGoes && ts[k].whileLive
  }

  ghost predicate HasFailed(ts: seq<Turn>) {
    exists k :: 0 <= k < |ts| && ts[k].fails
  }

  ghost predicate HasGone(ts: seq<Turn>) {
    exists k :: 0 <= k < |ts| && ts[k].goes
  }

  lemma UpOneMore(ts: seq<Turn>, t: Turn)
    ensures StaysUp(ts + [t]) <==> t.goes || (StaysUp(ts) && !t.mateGoes && !t.fails)
  {
    var more, n := ts + [t], |ts|;
    assert more[n] == t;
    if k :| 0 <= k < n && ts[k].goes && forall j | k < j < n :: !ts[j].mateGoes && !ts[j].fails {
      assert more[k].goes;
      assert forall j | k < j < n :: more[j] == ts[j];
    }
    if k :| 0 <= k < n && more[k].goes && forall j | k < j < |more| :: !more[j].mateGoes && !more[j].fails {
      assert ts[k].goes;
      assert forall j | k < j < n :: ts[j] == more[j];
    }
  }

  lemma TakenOneMore(ts: seq<Turn>, t: Turn)
    ensures WishIsTaken(ts + [t]) <==> WishIsTaken(ts) || (t.mateGoes && t.whileLive)
    ensures HasFailed(ts + [t]) <==> HasFailed(ts) || t.fails
    ensures HasGone(ts + [t]) <==> HasGone(ts) || t.goes
  {
    assert (ts + [t])[|ts|] == t;
    assert forall k | 0 <= k < |ts| :: (ts + [t])[k] == ts[k];
  }

  /** What a restore makes of every model, however its loads, the ends of their threads and requests
      interleave.  It is live exactly if its load went through and since then no other of its group's
      did and its own did not end with an error.  It is resident exactly if it was and no other of
      its group's went through while it was live.  It is failed exactly if its load ended with an
      error; and unloaded if its load did not go through. */
  lemma {:induction false} RestoreKeepsWishes(cat: Catalog, path: bool, file: R.FileState, q: bool, es: seq<Event>,
                                              x: Id)
    requires WellFormed(cat) && IsRestoreRun(cat, Start(path, file, q).residency.resident, es)
    ensures var s0 := Start(path, file, q);
            var s := Exec(cat, s0, es);
            var ts := Turns(cat, s0, es, x);
            && (IsLive(s, x) <==> StaysUp(ts))
            && (IsResident(s, x) <==> IsResident(s0, x) && !WishIsTaken(ts))
            && (StateOf(s, x).Failed? <==> HasFailed(ts))
            && (!HasGone(ts) ==> StateOf(s, x).Unloaded?)
  {
    var s0 := Start(path, file, q);
    if es == [] {
      assert StateOf(s0, x).Unloaded?;
    } else {
      var before, e := es[..|es| - 1], es[|es| - 1];
      var t := TurnOf(cat, Exec(cat, s0, before), e, x);
      RunSteps(cat, path, file, q, es, x);
      RestoreKeepsWishes(cat, path, file, q, before, x);
      UpOneMore(Turns(cat, s0, before, x), t);
      TakenOneMore(Turns(cat, s0, before, x), t);
    }
  }
}
