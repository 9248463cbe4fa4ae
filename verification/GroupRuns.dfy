/** Exclusive groups over whole runs of the model host (src/host.rs): when at most one member of
    each is loading or loaded, at every point. */
module GroupRuns {
  import opened Wrappers
  import opened Admissions
  import opened Hosts
  import opened HostInvariants
  import opened HostRestores
  import opened HostTheorems
  import R = Residencies

  /** Of every exclusive group at most one member is loading or loaded. */
  ghost predicate AreExclusive(cat: Catalog, s: HostState) {
    forall id :: AtMostOneIsBusy(cat, s, id)
  }

  // ----- Steps that start no load

  lemma {:induction false} SwapStartsNobody(s: HostState, others: seq<Id>, failing: set<Id>, x: Id)
    ensures IsBusy(SwapAll(s, others, failing).0, x) ==> IsBusy(s, x)
    decreases others
  {
    if others != [] {
      var (s1, ok) := SetResident(s, others[0], false, others[0] !in failing);
      if ok {
        SwapStartsNobody(RequestUnloadLocked(s1, others[0]), others[1..], failing, x);
      }
    }
  }

  lemma FailedLoadStartsNobody(cat: Catalog, s: HostState, id: Id, probe: Probe, failing: set<Id>, x: Id)
    requires Load(cat, s, id, probe, failing).1.Err?
    ensures IsBusy(Load(cat, s, id, probe, failing).0, x) ==> IsBusy(s, x)
  {
    if Get(cat, id).Some? {
      var s1 := SetResident(s, id, true, id !in failing).0;
      SwapStartsNobody(s1, SwapOut(cat, s, Get(cat, id).value), failing, x);
    }
  }

  lemma FinishStartsNobody(s: HostState, id: Id, outcome: Result<Weights, string>, x: Id)
    ensures IsBusy(FinishLoad(s, id, outcome).0, x) ==> IsBusy(s, x)
    ensures IsBusy(FinishUnload(s, id).0, x) ==> IsBusy(s, x)
  {
  }

  lemma ThreadStepStartsNobody(cat: Catalog, s: HostState, e: Event, x: Id)
    requires IsThreadStep(e)
    ensures IsBusy(Next(cat, s, e), x) ==> IsBusy(s, x)
  {
    match e {
      case EndLoad(t, outcome) =>
        if t in s.loadTasks {
          FinishStartsNobody(s.(loadTasks := s.loadTasks - {t}), s.loadTasks[t].id, outcome, x);
        }
      case EndUnload(t) =>
        if t in s.unloadTasks {
          FinishStartsNobody(s.(unloadTasks := s.unloadTasks - {t}), s.unloadTasks[t].id, Ok(0), x);
        }
      case _ =>
    }
  }

  lemma RequestStepStartsNobody(cat: Catalog, s: HostState, e: Event)
    requires IsRequestStep(e)
    ensures Next(cat, s, e).entries == s.entries
  {
  }

  lemma NewProcessIsIdle(cat: Catalog, s: HostState, e: Event)
    requires EndsProcess(e)
    ensures Next(cat, s, e).entries == map[]
  {
  }

  lemma UnloadStartsNobody(cat: Catalog, s: HostState, id: Id, saves: bool, x: Id)
    ensures IsBusy(Unload(cat, s, id, saves).0, x) ==> IsBusy(s, x)
  {
  }

  /** Only a load that goes through makes a model loading or loaded that was neither. */
  lemma OnlyLoadsStart(cat: Catalog, s: HostState, e: Event, x: Id)
    requires !Goes(cat, s, e)
    ensures IsBusy(Next(cat, s, e), x) ==> IsBusy(s, x)
  {
    if e.DoLoad? {
      FailedLoadStartsNobody(cat, s, e.id, e.probe, e.failing, x);
    } else if e.DoUnload? {
      UnloadStartsNobody(cat, s, e.id, e.saves, x);
    } else if IsThreadStep(e) {
      ThreadStepStartsNobody(cat, s, e, x);
    } else if IsRequestStep(e) {
      RequestStepStartsNobody(cat, s, e);
    } else {
      NewProcessIsIdle(cat, s, e);
    }
  }

  // ----- Runs

  lemma OtherGroupsStay(cat: Catalog, s: HostState, id: Id, probe: Probe, failing: set<Id>, k: Id)
    requires WellFormed(cat) && R.Agree(s.residency, s.file)
    requires AtMostOneIsBusy(cat, s, k) && !SameGroup(cat, id, k)
    ensures AtMostOneIsBusy(cat, Load(cat, s, id, probe, failing).0, k)
  {
    var s' := Load(cat, s, id, probe, failing).0;
    forall x | SameGroup(cat, k, x)
      ensures EntryOf(s', x) == EntryOf(s, x)
    {
      LoadLeavesOthers(cat, s, id, probe, failing, x);
    }
  }

  lemma GroupIsOne(cat: Catalog, s: HostState, id: Id, k: Id)
    requires SameGroup(cat, id, k)
    ensures AtMostOneIsBusy(cat, s, k) <==> AtMostOneIsBusy(cat, s, id)
  {
    assert forall x :: SameGroup(cat, id, x) <==> SameGroup(cat, k, x);
  }

  /** A load that goes through keeps all groups exclusive exactly if it is timely. */
  lemma LoadKeepsExclusiveIff(cat: Catalog, s: HostState, id: Id, probe: Probe, failing: set<Id>)
    requires WellFormed(cat) && R.Agree(s.residency, s.file)
    requires AreExclusive(cat, s) && Load(cat, s, id, probe, failing).1.Ok?
    ensures AreExclusive(cat, Load(cat, s, id, probe, failing).0) <==> IsTimely(cat, s, id)
  {
    var s' := Load(cat, s, id, probe, failing).0;
    GroupIsExclusiveAfterLoadIff(cat, s, id, probe, failing);
    forall k
      ensures AtMostOneIsBusy(cat, s', id) ==> AtMostOneIsBusy(cat, s', k)
    {
      if SameGroup(cat, id, k) {
        GroupIsOne(cat, s', id, k);
      } else {
        OtherGroupsStay(cat, s, id, probe, failing, k);
      }
    }
  }

  lemma StepKeepsExclusiveIff(cat: Catalog, s: HostState, e: Event)
    requires WellFormed(cat) && Inv(cat, s) && AreExclusive(cat, s)
    ensures AreExclusive(cat, Next(cat, s, e)) <==> (Goes(cat, s, e) ==> IsTimely(cat, s, e.id))
  {
    if Goes(cat, s, e) {
      LoadKeepsExclusiveIff(cat, s, e.id, e.probe, e.failing);
    } else {
      forall x | IsBusy(Next(cat, s, e), x)
        ensures IsBusy(s, x)
      {
        OnlyLoadsStart(cat, s, e, x);
      }
      forall id
        ensures AtMostOneIsBusy(cat, Next(cat, s, e), id)
      {
        assert AtMostOneIsBusy(cat, s, id);
      }
    }
  }

  ghost predicate AreExclusiveAt(cat: Catalog, s: HostState, es: seq<Event>, n: nat)
    requires n <= |es|
  {
    AreExclusive(cat, Exec(cat, s, es[..n]))
  }

  /** All groups are exclusive at every point of the run. */
  ghost predicate StayExclusive(cat: Catalog, s: HostState, es: seq<Event>) {
    forall n | 0 <= n <= |es| :: AreExclusiveAt(cat, s, es, n)
  }

  ghost predicate IsTimelyAt(cat: Catalog, s: HostState, es: seq<Event>, n: nat)
    requires n < |es|
  {
    var s' := Exec(cat, s, es[..n]);
    Goes(cat, s', es[n]) ==> IsTimely(cat, s', es[n].id)
  }

  /** Every load that goes through is timely. */
  ghost predicate AreTimely(cat: Catalog, s: HostState, es: seq<Event>) {
    forall n | 0 <= n < |es| :: IsTimelyAt(cat, s, es, n)
  }

  lemma ExclusiveBefore(cat: Catalog, s: HostState, es: seq<Event>, m: nat, n: nat)
    requires n <= m <= |es|
    ensures AreExclusiveAt(cat, s, es[..m], n) <==> AreExclusiveAt(cat, s, es, n)
  {
    assert es[..m][..n] == es[..n];
  }

  lemma ExclusiveOneMore(cat: Catalog, s: HostState, es: seq<Event>)
    requires es != []
    ensures StayExclusive(cat, s, es) <==>
              StayExclusive(cat, s, es[..|es| - 1]) && AreExclusiveAt(cat, s, es, |es|)
  {
    var m := |es| - 1;
    forall n | 0 <= n <= m
      ensures AreExclusiveAt(cat, s, es[..m], n) <==> AreExclusiveAt(cat, s, es, n)
    {
      ExclusiveBefore(cat, s, es, m, n);
    }
  }

  lemma TimelyOneMore(cat: Catalog, s: HostState, es: seq<Event>)
    requires es != []
    ensures AreTimely(cat, s, es) <==> AreTimely(cat, s, es[..|es| - 1]) && IsTimelyAt(cat, s, es, |es| - 1)
  {
    var m := |es| - 1;
    forall n | 0 <= n < m
      ensures IsTimelyAt(cat, s, es[..m], n) <==> IsTimelyAt(cat, s, es, n)
    {
      assert es[..m][..n] == es[..n];
    }
  }

  lemma StartIsExclusive(cat: Catalog, path: bool, file: R.FileState, q: bool)
    ensures StayExclusive(cat, Start(path, file, q), []) && AreTimely(cat, Start(path, file, q), [])
  {
    assert forall id :: !IsBusy(Start(path, file, q), id);
  }

  lemma NextIsExclusiveIff(cat: Catalog, s: HostState, es: seq<Event>)
    requires WellFormed(cat) && es != [] && StayExclusive(cat, s, es[..|es| - 1])
    requires Inv(cat, Exec(cat, s, es[..|es| - 1]))
    ensures AreExclusiveAt(cat, s, es, |es|) <==> IsTimelyAt(cat, s, es, |es| - 1)
  {
    var before := es[..|es| - 1];
    assert AreExclusiveAt(cat, s, before, |before|);
    assert es[..|es|] == es && before[..|before|] == before;
    StepKeepsExclusiveIff(cat, Exec(cat, s, before), es[|es| - 1]);
  }

  /** Along a run, at most one member of every exclusive group is loading or loaded at all times if
      and only if every load that goes through is timely: asked for while no other member of its
      group is loading, or only one is and the model itself is unloading. */
  lemma {:induction false} GroupsStayExclusiveIff(cat: Catalog, path: bool, file: R.FileState, q: bool,
                                                  es: seq<Event>)
    requires WellFormed(cat)
    ensures StayExclusive(cat, Start(path, file, q), es) <==> AreTimely(cat, Start(path, file, q), es)
  {
    var s := Start(path, file, q);
    if es == [] {
      StartIsExclusive(cat, path, file, q);
    } else {
      var before := es[..|es| - 1];
      GroupsStayExclusiveIff(cat, path, file, q, before);
      ExclusiveOneMore(cat, s, es);
      TimelyOneMore(cat, s, es);
      if StayExclusive(cat, s, before) {
        StartInv(cat, path, file, q);
        ExecKeeps(cat, s, before);
        NextIsExclusiveIff(cat, s, es);
      }
    }
  }
}
