/** Accounted device memory over runs of the model host. */
module HostMemory {
  import opened Wrappers
  import opened Lifecycles
  import opened Admissions
  import opened Hosts
  import opened HostInvariants
  import opened HostRestores
  import R = Residencies

  /** The estimates of the models of the catalogue that are picked. */
  ghost function SizeOf(cat: Catalog, picked: CatalogModel -> bool): real {
    if cat == [] then 0.0
    else (if picked(cat[0]) then cat[0].vramGbEstimate else 0.0) + SizeOf(cat[1..], picked)
  }

  /** The estimates of the models that hold memory, or are about to: those loading, loaded or
      unloading. */
  ghost function UsedGib(cat: Catalog, s: HostState): real {
    SizeOf(cat, (m: CatalogModel) => StateOf(s, m.id) in {Loading, Loaded, Unloading})
  }

  lemma {:induction false} CountedIsSize(cat: Catalog, s: HostState, picked: CatalogModel -> bool)
    requires forall m | m in cat :: IsCounted(s, m.id) <==> picked(m)
    ensures LoadedGib(cat, s) == SizeOf(cat, picked)
  {
    if cat != [] {
      CountedIsSize(cat[1..], s, picked);
    }
  }

  lemma LoadedIsUsed(cat: Catalog, s: HostState)
    ensures LoadedGib(cat, s) == UsedGib(cat, s)
  {
    CountedIsSize(cat, s, (m: CatalogModel) => StateOf(s, m.id) in {Loading, Loaded, Unloading});
  }

  /** A load of `m` swaps `x` out: another member of its group, loading or loaded. */
  ghost predicate IsOutgoing(s: HostState, m: CatalogModel, x: CatalogModel) {
    && x.id != m.id && m.exclusiveGroup.Some? && x.exclusiveGroup == m.exclusiveGroup
    && (StateOf(s, x.id).Loading? || StateOf(s, x.id).Loaded?)
  }

  /** What the swap gives back. */
  ghost function OutgoingGib(cat: Catalog, s: HostState, m: CatalogModel): real {
    SizeOf(cat, (x: CatalogModel) => IsOutgoing(s, m, x))
  }

  lemma OutgoingIff(cat: Catalog, s: HostState, m: CatalogModel, x: CatalogModel)
    requires WellFormed(cat) && m in cat && x in cat
    ensures x.id in SwapOut(cat, s, m) <==> IsOutgoing(s, m, x)
  {
    GetIsThere(cat, m);
    GetIsThere(cat, x);
    SwapOutHasAll(cat, s, m, x.id);
    if m.exclusiveGroup.Some? {
      GroupBusyAreMates(cat, s, m.id, m.exclusiveGroup.value, x.id);
    }
  }

  lemma {:induction false} EstimateIsSize(cat: Catalog, ids: seq<Id>, f: CatalogModel -> bool)
    requires forall x | x in cat :: x.id in ids <==> f(x)
    ensures EstimateOf(cat, ids) == SizeOf(cat, f)
  {
    if cat != [] {
      EstimateIsSize(cat[1..], ids, f);
    }
  }

  lemma SwapGivesBack(cat: Catalog, s: HostState, m: CatalogModel)
    requires WellFormed(cat) && m in cat
    ensures EstimateOf(cat, SwapOut(cat, s, m)) == OutgoingGib(cat, s, m)
  {
    forall x | x in cat
      ensures x.id in SwapOut(cat, s, m) <==> IsOutgoing(s, m, x)
    {
      OutgoingIff(cat, s, m, x);
    }
    EstimateIsSize(cat, SwapOut(cat, s, m), (x: CatalogModel) => IsOutgoing(s, m, x));
  }

  /** The sum never grows when no model starts to count. */
  lemma {:induction false} FewerCountLess(cat: Catalog, s: HostState, s': HostState)
    requires WellFormed(cat)
    requires forall x | IsCounted(s', x) :: IsCounted(s, x)
    ensures 0.0 <= LoadedGib(cat, s') <= LoadedGib(cat, s)
  {
    if cat != [] {
      assert cat[0].vramGbEstimate >= 0.0;
      FewerCountLess(cat[1..], s, s');
    }
  }

  /** Counting one more model of the catalogue adds exactly its estimate. */
  lemma {:induction false} OneMoreCounts(cat: Catalog, s: HostState, s': HostState, id: Id)
    requires WellFormed(cat)
    requires !IsCounted(s, id) && IsCounted(s', id)
    requires forall x | x != id :: IsCounted(s', x) <==> IsCounted(s, x)
    ensures LoadedGib(cat, s')
            == LoadedGib(cat, s) + match Get(cat, id) case Some(m) => m.vramGbEstimate case None => 0.0
  {
    if cat != [] {
      OneMoreCounts(cat[1..], s, s', id);
      if cat[0].id == id {
        assert forall m | m in cat[1..] :: m.id != id;
        GetFinds(cat[1..], id);
        assert Get(cat[1..], id) == None;
      }
    }
  }

  lemma {:induction false} SwapAllCounts(s: HostState, others: seq<Id>, failing: set<Id>, x: Id)
    requires R.Agree(s.residency, s.file)
    ensures var s' := SwapAll(s, others, failing).0;
            IsCounted(s', x) <==> IsCounted(s, x)
    decreases others
  {
    if others != [] {
      DropEffect(s, others[0], others[0] !in failing);
      var (s1, ok) := Drop(s, others[0], others[0] !in failing);
      if ok {
        SwapAllCounts(s1, others[1..], failing, x);
      }
    }
  }

  lemma RequestLoadCounts(s: HostState, id: Id, swapOut: seq<Id>, x: Id)
    ensures IsCounted(RequestLoadLocked(s, id, swapOut), x)
            <==> IsCounted(s, x) || (x == id && NeedsLoad(s, id))
  {
  }

  /** A load counts one more model when it starts one, and else nothing changes the count: the
      models it swaps out count until their unloads end. */
  lemma LoadCounts(cat: Catalog, s: HostState, id: Id, probe: Probe, failing: set<Id>, x: Id)
    requires R.Agree(s.residency, s.file)
    ensures var (s', r) := Load(cat, s, id, probe, failing);
            && (x != id || r.Err? || !NeedsLoad(s, id) ==> (IsCounted(s', x) <==> IsCounted(s, x)))
            && (r.Ok? && NeedsLoad(s, id) ==> IsCounted(s', id) && !IsCounted(s, id))
  {
    if Get(cat, id).Some? {
      GetFinds(cat, id);
      var model := Get(cat, id).value;
      var others := SwapOut(cat, s, model);
      var s1 := SetResident(s, id, true, id !in failing).0;
      R.SetIsAtomic(s.residency, s.file, id, true, id !in failing);
      SwapAllCounts(s1, others, failing, x);
      SwapAllCounts(s1, others, failing, id);
      var s2 := SwapAll(s1, others, failing).0;
      RequestLoadCounts(s2, id, others, x);
      RequestLoadCounts(s2, id, others, id);
      SwapOutHasAll(cat, s, model, id);
      SwapAllEffect(s1, others, failing);
      assert EntryOf(s2, id) == EntryOf(s, id);
    }
  }

  lemma CountedAfterLoad(cat: Catalog, s: HostState, id: Id, probe: Probe, failing: set<Id>)
    requires WellFormed(cat) && R.Agree(s.residency, s.file)
    ensures var (s', r) := Load(cat, s, id, probe, failing);
            LoadedGib(cat, s') == LoadedGib(cat, s)
              + if r.Ok? && NeedsLoad(s, id) then Get(cat, id).value.vramGbEstimate else 0.0
  {
    var (s', r) := Load(cat, s, id, probe, failing);
    forall x
      ensures x != id || r.Err? || !NeedsLoad(s, id) ==> (IsCounted(s', x) <==> IsCounted(s, x))
    {
      LoadCounts(cat, s, id, probe, failing, x);
    }
    if r.Ok? && NeedsLoad(s, id) {
      LoadCounts(cat, s, id, probe, failing, id);
      OneMoreCounts(cat, s, s', id);
    } else {
      FewerCountLess(cat, s, s');
      FewerCountLess(cat, s', s);
    }
  }

  /** The load of `m` goes through, and starts one. */
  ghost predicate Starts(cat: Catalog, s: HostState, m: CatalogModel, probe: Probe, failing: set<Id>) {
    && Load(cat, s, m.id, probe, failing).1.Ok?
    && (StateOf(s, m.id).Unloaded? || StateOf(s, m.id).Failed?)
  }

  /** A load takes exactly its model's estimate, if it starts one: what it swaps out is not given
      back yet. */
  lemma LoadedAfterLoad(cat: Catalog, s: HostState, m: CatalogModel, probe: Probe, failing: set<Id>)
    requires WellFormed(cat) && R.Agree(s.residency, s.file) && m in cat
    ensures UsedGib(cat, Load(cat, s, m.id, probe, failing).0)
            == UsedGib(cat, s) + if Starts(cat, s, m, probe, failing) then m.vramGbEstimate else 0.0
  {
    GetIsThere(cat, m);
    CountedAfterLoad(cat, s, m.id, probe, failing);
    LoadedIsUsed(cat, s);
    LoadedIsUsed(cat, Load(cat, s, m.id, probe, failing).0);
  }

  /** A load that starts keeps the accounted bound exactly when its model fits into what is left
      of the total, without the credit for the models it swaps out. */
  lemma LoadKeepsBoundIff(cat: Catalog, s: HostState, m: CatalogModel, total: real, failing: set<Id>)
    requires WellFormed(cat) && R.Agree(s.residency, s.file) && m in cat
    requires Starts(cat, s, m, Probe(None, Some(total)), failing)
    ensures UsedGib(cat, Load(cat, s, m.id, Probe(None, Some(total)), failing).0) + ADMISSION_MARGIN_GIB <= total
            <==> Admit(m.vramGbEstimate, FreeNow(Probe(None, Some(total)), UsedGib(cat, s)))
  {
    LoadedAfterLoad(cat, s, m, Probe(None, Some(total)), failing);
    assert m.vramGbEstimate >= 0.0;
  }

  lemma {:induction false} EstimatesAreSizes(cat: Catalog, ids: seq<Id>)
    requires WellFormed(cat)
    ensures EstimateOf(cat, ids) >= 0.0
  {
    if cat != [] {
      assert cat[0].vramGbEstimate >= 0.0;
      EstimatesAreSizes(cat[1..], ids);
    }
  }

  /** Once the outgoing models are gone, a load that swapped them out fits the device with the
      margin, unless the device was over-committed before and they give back at least the margin:
      by `SwapFitsIff` there is then an estimate that is admitted and does not fit. */
  lemma SwapLoadFits(cat: Catalog, s: HostState, m: CatalogModel, total: real, failing: set<Id>)
    requires WellFormed(cat) && R.Agree(s.residency, s.file) && m in cat
    requires Starts(cat, s, m, Probe(None, Some(total)), failing)
    requires UsedGib(cat, s) <= total || OutgoingGib(cat, s, m) < ADMISSION_MARGIN_GIB
    ensures UsedGib(cat, Load(cat, s, m.id, Probe(None, Some(total)), failing).0)
            - OutgoingGib(cat, s, m) + ADMISSION_MARGIN_GIB <= total
  {
    var freed := EstimateOf(cat, SwapOut(cat, s, m));
    LoadedAfterLoad(cat, s, m, Probe(None, Some(total)), failing);
    LoadedIsUsed(cat, s);
    SwapGivesBack(cat, s, m);
    EstimatesAreSizes(cat, SwapOut(cat, s, m));
    SwapFitsIff(total, LoadedGib(cat, s), freed);
    GetIsThere(cat, m);
    assert Admit(m.vramGbEstimate, Credit(FreeNow(Probe(None, Some(total)), LoadedGib(cat, s)), freed));
  }

  // ----- The accounted bound over runs

  lemma FinishCountsNoMore(s: HostState, id: Id, outcome: Result<Weights, string>, x: Id)
    ensures IsCounted(FinishLoad(s, id, outcome).0, x) ==> IsCounted(s, x)
    ensures IsCounted(FinishUnload(s, id).0, x) ==> IsCounted(s, x)
  {
  }

  lemma ThreadStepCountsNoMore(cat: Catalog, s: HostState, e: Event, x: Id)
    requires IsThreadStep(e)
    ensures IsCounted(Next(cat, s, e), x) ==> IsCounted(s, x)
  {
    match e {
      case EndLoad(t, outcome) =>
        if t in s.loadTasks {
          FinishCountsNoMore(s.(loadTasks := s.loadTasks - {t}), s.loadTasks[t].id, outcome, x);
        }
      case EndUnload(t) =>
        if t in s.unloadTasks {
          FinishCountsNoMore(s.(unloadTasks := s.unloadTasks - {t}), s.unloadTasks[t].id, Ok(0), x);
        }
      case _ =>
    }
  }

  lemma RequestStepCountsNoMore(cat: Catalog, s: HostState, e: Event, x: Id)
    requires IsRequestStep(e)
    ensures IsCounted(Next(cat, s, e), x) ==> IsCounted(s, x)
  {
  }

  /** No event but a load makes a model count that did not. */
  lemma OtherEventsCountNoMore(cat: Catalog, s: HostState, e: Event, x: Id)
    requires !e.DoLoad?
    ensures IsCounted(Next(cat, s, e), x) ==> IsCounted(s, x)
  {
    if IsThreadStep(e) {
      ThreadStepCountsNoMore(cat, s, e, x);
    } else if IsRequestStep(e) {
      RequestStepCountsNoMore(cat, s, e, x);
    }
  }

  /** The accounted bound: no model of the catalogue is loading, loaded or unloading, or all that
      are fit the total with the margin. */
  ghost predicate Fits(cat: Catalog, s: HostState, total: real) {
    || (forall i | 0 <= i < |cat| :: StateOf(s, cat[i].id) !in {Loading, Loaded, Unloading})
    || UsedGib(cat, s) + ADMISSION_MARGIN_GIB <= total
  }

  /** The device cannot be probed but its total is known, and the load swaps nobody out. */
  ghost predicate IsPlainLoad(cat: Catalog, s: HostState, total: real, e: Event) {
    e.DoLoad? ==>
      && e.probe == Probe(None, Some(total))
      && forall m, x | m in cat && m.id == e.id && x in cat :: !IsOutgoing(s, m, x)
  }

  lemma {:induction false} NoneFreesNothing(cat: Catalog)
    ensures EstimateOf(cat, []) == 0.0
  {
    if cat != [] {
      NoneFreesNothing(cat[1..]);
    }
  }

  lemma PlainSwapsNobody(cat: Catalog, s: HostState, m: CatalogModel)
    requires WellFormed(cat) && m in cat && forall x | x in cat :: !IsOutgoing(s, m, x)
    ensures SwapOut(cat, s, m) == []
  {
    var others := SwapOut(cat, s, m);
    if others != [] {
      GetIsThere(cat, m);
      SwapOutIsGroup(cat, s, m.id, others[0]);
      GetFinds(cat, others[0]);
      OutgoingIff(cat, s, m, Get(cat, others[0]).value);
    }
  }

  /** Whoever counts after a step that starts no load counted before. */
  lemma StillFits(cat: Catalog, s: HostState, s': HostState, total: real)
    requires WellFormed(cat) && Fits(cat, s, total)
    requires forall x | IsCounted(s', x) :: IsCounted(s, x)
    ensures Fits(cat, s', total)
  {
    FewerCountLess(cat, s, s');
    LoadedIsUsed(cat, s);
    LoadedIsUsed(cat, s');
    assert forall x :: IsCounted(s, x) <==> StateOf(s, x) in {Loading, Loaded, Unloading};
    assert forall x :: IsCounted(s', x) <==> StateOf(s', x) in {Loading, Loaded, Unloading};
  }

  lemma LoadFits(cat: Catalog, s: HostState, total: real, m: CatalogModel, failing: set<Id>)
    requires WellFormed(cat) && R.Agree(s.residency, s.file) && m in cat
    requires Fits(cat, s, total) && forall x | x in cat :: !IsOutgoing(s, m, x)
    ensures Fits(cat, Load(cat, s, m.id, Probe(None, Some(total)), failing).0, total)
  {
    var probe := Probe(None, Some(total));
    var s' := Load(cat, s, m.id, probe, failing).0;
    GetIsThere(cat, m);
    if Starts(cat, s, m, probe, failing) {
      PlainSwapsNobody(cat, s, m);
      NoneFreesNothing(cat);
      LoadedIsUsed(cat, s);
      LoadKeepsBoundIff(cat, s, m, total, failing);
    } else {
      forall x | IsCounted(s', x)
        ensures IsCounted(s, x)
      {
        LoadCounts(cat, s, m.id, probe, failing, x);
      }
      StillFits(cat, s, s', total);
    }
  }

  lemma OtherEventFits(cat: Catalog, s: HostState, total: real, e: Event)
    requires WellFormed(cat) && Fits(cat, s, total) && !e.DoLoad?
    ensures Fits(cat, Next(cat, s, e), total)
  {
    forall x | IsCounted(Next(cat, s, e), x)
      ensures IsCounted(s, x)
    {
      OtherEventsCountNoMore(cat, s, e, x);
    }
    StillFits(cat, s, Next(cat, s, e), total);
  }

  lemma StepFits(cat: Catalog, s: HostState, total: real, e: Event)
    requires WellFormed(cat) && R.Agree(s.residency, s.file)
    requires Fits(cat, s, total) && IsPlainLoad(cat, s, total, e)
    ensures Fits(cat, Next(cat, s, e), total)
  {
    if !e.DoLoad? {
      OtherEventFits(cat, s, total, e);
    } else if Get(cat, e.id).Some? {
      GetFinds(cat, e.id);
      LoadFits(cat, s, total, Get(cat, e.id).value, e.failing);
    }
  }

  /** With memory accounted and no swaps: along every run, the estimates of all loading, loaded
      and unloading models plus the margin never exceed the device's total. */
  lemma {:induction false} AccountedMemoryFits(cat: Catalog, path: bool, file: R.FileState, q: bool, total: real,
                                               es: seq<Event>)
    requires WellFormed(cat)
    requires forall i | 0 <= i < |es| ::
               IsPlainLoad(cat, Exec(cat, Start(path, file, q), es[..i]), total, es[i])
    ensures Fits(cat, Exec(cat, Start(path, file, q), es), total)
  {
    var init := Start(path, file, q);
    if es != [] {
      var es' := es[..|es| - 1];
      forall i | 0 <= i < |es'|
        ensures IsPlainLoad(cat, Exec(cat, init, es'[..i]), total, es'[i])
      {
        assert es'[..i] == es[..i];
        assert IsPlainLoad(cat, Exec(cat, init, es[..i]), total, es[i]);
      }
      AccountedMemoryFits(cat, path, file, q, total, es');
      StartInv(cat, path, file, q);
      ExecKeeps(cat, init, es');
      StepFits(cat, Exec(cat, init, es'), total, es[|es| - 1]);
    }
  }

  // ----- Two documented claims that a swap breaks

  const A := CatalogModel("a", 6.0, true, Some("g"))
  const B := CatalogModel("b", 5.0, true, Some("g"))
  const PAIR: Catalog := [A, B]

  /** Two loads of one exclusive group in a row on a 10 GiB device: both models are loading at
      once, and what counts exceeds the device. */
  lemma SwapOverlaps()
    ensures var es := [DoLoad("a", Probe(None, Some(10.0)), {}), DoLoad("b", Probe(None, Some(10.0)), {})];
            var s := Exec(PAIR, Start(false, R.Missing, true), es);
            && StateOf(s, "a").Loading? && StateOf(s, "b").Loading? && SameGroup(PAIR, "a", "b")
            && UsedGib(PAIR, s) > 10.0
  {
    var loadA := DoLoad("a", Probe(None, Some(10.0)), {});
    var loadB := DoLoad("b", Probe(None, Some(10.0)), {});
    var s0 := Start(false, R.Missing, true);
    var es := [loadA, loadB];
    assert es[..1] == [loadA] && es[..1][..0] == [];
    assert Exec(PAIR, s0, []) == s0;
    assert PAIR[1..] == [B] && PAIR[1..][1..] == [];
    assert Get(PAIR, "a") == Some(A) && Get([B], "b") == Some(B) && Get(PAIR, "b") == Some(B);
    assert GroupBusy([B], s0, "a", "g") == [];
    assert SwapOut(PAIR, s0, A) == [];
    NoneFreesNothing(PAIR);
    assert LoadedGib([B], s0) == 0.0;
    assert LoadedGib(PAIR, s0) == 0.0;
    var s1 := Next(PAIR, s0, loadA);
    assert StateOf(s1, "a").Loading? && StateOf(s1, "b").Unloaded?;
    assert Exec(PAIR, s0, [loadA]) == s1;
    assert GroupBusy([B], s1, "b", "g") == [];
    assert SwapOut(PAIR, s1, B) == ["a"];
    assert EstimateOf([B], ["a"]) == 0.0;
    assert EstimateOf(PAIR, ["a"]) == 6.0;
    assert LoadedGib([B], s1) == 0.0;
    assert LoadedGib(PAIR, s1) == 6.0;
    var s2 := Next(PAIR, s1, loadB);
    assert Exec(PAIR, s0, es) == s2;
    assert LoadedGib([B], s2) == 5.0;
    LoadedIsUsed(PAIR, s2);
  }
}
