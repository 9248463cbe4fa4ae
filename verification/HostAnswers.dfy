/** What a load and an unload answer and do (src/host.rs), in terms of the models' states and sizes
    alone. */
module HostAnswers {
  import opened Wrappers
  import opened Lifecycles
  import opened Admissions
  import opened Hosts
  import opened HostInvariants
  import opened HostMemory
  import opened HostRestores
  import R = Residencies

  // ----- Memory

  /** What a load of `m` may count on: what is free, by measurement if there is one and else by
      account, and what the swap gives back; nothing if the device's total is not known either. */
  ghost function AvailableGib(cat: Catalog, s: HostState, m: CatalogModel, probe: Probe): Option<real> {
    match probe
    case Probe(Some(free), _) => Some(free + OutgoingGib(cat, s, m))
    case Probe(None, Some(total)) =>
      var left := total - UsedGib(cat, s);
      Some((if left >= 0.0 then left else 0.0) + OutgoingGib(cat, s, m))
    case Probe(None, None) => None
  }

  ghost predicate IsShort(cat: Catalog, s: HostState, m: CatalogModel, probe: Probe) {
    var available := AvailableGib(cat, s, m, probe);
    available.None? || m.vramGbEstimate + ADMISSION_MARGIN_GIB > available.value
  }

  lemma {:induction false} GetSome(cat: Catalog, id: Id)
    ensures Get(cat, id).None? <==> forall m | m in cat :: m.id != id
  {
    if cat != [] {
      GetSome(cat[1..], id);
      assert forall m :: m in cat <==> m == cat[0] || m in cat[1..];
    }
  }

  lemma ShortIff(cat: Catalog, s: HostState, m: CatalogModel, probe: Probe)
    requires WellFormed(cat) && m in cat
    ensures var free := FreeForSwap(cat, s, SwapOut(cat, s, m), probe);
            && (IsShort(cat, s, m, probe) <==> !Admit(m.vramGbEstimate, free))
            && free.Gib() == match AvailableGib(cat, s, m, probe) case Some(gib) => gib case None => 0.0
  {
    SwapGivesBack(cat, s, m);
    LoadedIsUsed(cat, s);
  }

  // ----- What a load answers

  lemma SetFailsIff(s: HostState, id: Id, resident: bool, saves: bool)
    ensures var (s', ok) := SetResident(s, id, resident, saves);
            && (ok <==> !(s.residency.persists && (id in s.residency.resident) != resident && !saves))
            && s'.residency.persists == s.residency.persists
            && forall x | x != id :: x in s'.residency.resident <==> x in s.residency.resident
  {
  }

  lemma DropFailsIff(s: HostState, id: Id, saves: bool)
    ensures var (s', ok) := Drop(s, id, saves);
            && (ok <==> !(s.residency.persists && id in s.residency.resident && !saves))
            && s'.residency.persists == s.residency.persists
            && (ok ==> s'.residency.resident == s.residency.resident - {id})
  {
  }

  /** A save of the swap fails. */
  ghost predicate SwapSaveFails(s: HostState, others: seq<Id>, failing: set<Id>) {
    s.residency.persists && exists x :: x in others && x in s.residency.resident && x in failing
  }

  lemma {:induction false} SwapFailsIff(s: HostState, others: seq<Id>, failing: set<Id>)
    ensures SwapAll(s, others, failing).1 <==> !SwapSaveFails(s, others, failing)
    decreases others
  {
    if others != [] {
      var id := others[0];
      var (s1, ok) := Drop(s, id, id !in failing);
      DropFailsIff(s, id, id !in failing);
      assert forall x :: x in others <==> x == id || x in others[1..];
      if ok {
        SwapFailsIff(s1, others[1..], failing);
      }
    }
  }

  /** `x` is swapped out for `m`, and saving that, in `s1`, fails. */
  ghost predicate OutgoingSaveFails(s: HostState, s1: HostState, m: CatalogModel, failing: set<Id>, x: CatalogModel) {
    IsOutgoing(s, m, x) && x.id in s1.residency.resident && x.id in failing
  }

  /** A save fails in the course of a load of `m`: its own, or that of a model it swaps out. */
  ghost predicate SaveFails(cat: Catalog, s: HostState, m: CatalogModel, failing: set<Id>) {
    && s.residency.persists
    && (|| (m.id !in s.residency.resident && m.id in failing)
        || exists i :: 0 <= i < |cat| && OutgoingSaveFails(s, s, m, failing, cat[i]))
  }

  lemma OutgoingAt(cat: Catalog, s: HostState, m: CatalogModel, x: Id) returns (i: nat)
    requires WellFormed(cat) && m in cat && x in SwapOut(cat, s, m)
    ensures i < |cat| && IsOutgoing(s, m, cat[i]) && cat[i].id == x
  {
    GetIsThere(cat, m);
    SwapOutIsGroup(cat, s, m.id, x);
    GetFinds(cat, x);
    i :| 0 <= i < |cat| && cat[i] == Get(cat, x).value;
    OutgoingIff(cat, s, m, cat[i]);
  }

  lemma SwapSaveFailsIff(cat: Catalog, s: HostState, s1: HostState, m: CatalogModel, failing: set<Id>)
    requires WellFormed(cat) && m in cat
    ensures SwapSaveFails(s1, SwapOut(cat, s, m), failing) <==>
              && s1.residency.persists
              && exists i :: 0 <= i < |cat| && OutgoingSaveFails(s, s1, m, failing, cat[i])
  {
    var others := SwapOut(cat, s, m);
    if x :| x in others && x in s1.residency.resident && x in failing {
      var i := OutgoingAt(cat, s, m, x);
      assert OutgoingSaveFails(s, s1, m, failing, cat[i]);
    }
    if i: nat :| 0 <= i < |cat| && OutgoingSaveFails(s, s1, m, failing, cat[i]) {
      OutgoingIff(cat, s, m, cat[i]);
    }
  }

  lemma {:induction false} SaveFailsIff(cat: Catalog, s: HostState, m: CatalogModel, failing: set<Id>)
    requires WellFormed(cat) && m in cat
    ensures var (s1, saved) := SetResident(s, m.id, true, m.id !in failing);
            SaveFails(cat, s, m, failing) <==> !(saved && SwapAll(s1, SwapOut(cat, s, m), failing).1)
  {
    var (s1, saved) := SetResident(s, m.id, true, m.id !in failing);
    SetFailsIff(s, m.id, true, m.id !in failing);
    SwapFailsIff(s1, SwapOut(cat, s, m), failing);
    SwapSaveFailsIff(cat, s, s1, m, failing);
    assert forall i | 0 <= i < |cat| :: OutgoingSaveFails(s, s1, m, failing, cat[i])
                                        == OutgoingSaveFails(s, s, m, failing, cat[i]);
  }

  lemma AnswerOfUnknown(cat: Catalog, s: HostState, id: Id, probe: Probe, failing: set<Id>)
    requires forall m | m in cat :: m.id != id
    ensures Load(cat, s, id, probe, failing) == (s, Err(UnknownModel))
  {
    GetSome(cat, id);
  }

  /** What a load of a model of the catalogue answers: that it is disabled, if it is; else, if it is
      unloaded or failed, that it is refused exactly if its estimate and the margin exceed what it may
      count on, and both numbers; else whether a save failed. */
  lemma LoadAnswers(cat: Catalog, s: HostState, m: CatalogModel, probe: Probe, failing: set<Id>)
    requires WellFormed(cat) && m in cat
    ensures var r := Load(cat, s, m.id, probe, failing).1;
            if !m.enabled then r == Err(Disabled)
            else if (StateOf(s, m.id).Unloaded? || StateOf(s, m.id).Failed?) && IsShort(cat, s, m, probe) then
              r == Err(Refused(m.vramGbEstimate,
                               match AvailableGib(cat, s, m, probe) case Some(gib) => gib case None => 0.0))
            else if SaveFails(cat, s, m, failing) then r == Err(Persist)
            else r.Ok?
  {
    GetIsThere(cat, m);
    ShortIff(cat, s, m, probe);
    SaveFailsIff(cat, s, m, failing);
  }

  // ----- What a load does

  /** An entry once its unload was asked for. */
  function Asked(e: Entry): Entry {
    e.(lifecycle := RequestUnload(e.lifecycle).0)
  }

  lemma DropAsks(s: HostState, id: Id, saves: bool, x: Id)
    requires Drop(s, id, saves).1
    ensures EntryOf(Drop(s, id, saves).0, x) == if x == id then Asked(EntryOf(s, x)) else EntryOf(s, x)
  {
  }

  lemma {:induction false} SwapAsks(s: HostState, others: seq<Id>, failing: set<Id>, x: Id)
    requires SwapAll(s, others, failing).1
    ensures EntryOf(SwapAll(s, others, failing).0, x) ==
              if x in others then Asked(EntryOf(s, x)) else EntryOf(s, x)
    decreases others
  {
    if others != [] {
      var id := others[0];
      var s1 := Drop(s, id, id !in failing).0;
      DropAsks(s, id, id !in failing, x);
      SwapAsks(s1, others[1..], failing, x);
      assert x in others <==> x == id || x in others[1..];
    }
  }

  /** A load of `m` swaps the model of that id out. */
  ghost predicate SwapsOut(cat: Catalog, s: HostState, m: CatalogModel, id: Id) {
    exists i :: 0 <= i < |cat| && IsOutgoingAs(s, m, cat[i], id)
  }

  ghost predicate IsOutgoingAs(s: HostState, m: CatalogModel, x: CatalogModel, id: Id) {
    x.id == id && IsOutgoing(s, m, x)
  }

  lemma SwapsOutIff(cat: Catalog, s: HostState, m: CatalogModel, id: Id)
    requires WellFormed(cat) && m in cat
    ensures SwapsOut(cat, s, m, id) <==> id in SwapOut(cat, s, m)
  {
    if id in SwapOut(cat, s, m) {
      var i := OutgoingAt(cat, s, m, id);
      assert IsOutgoingAs(s, m, cat[i], id);
    }
    if i :| 0 <= i < |cat| && IsOutgoingAs(s, m, cat[i], id) {
      OutgoingIff(cat, s, m, cat[i]);
    }
  }

  /** The state a load of `m` leaves the model `x` in. */
  ghost function StateAfterLoad(cat: Catalog, s: HostState, m: CatalogModel, x: Id): ModelState {
    var state := StateOf(s, x);
    if x == m.id && (state.Unloaded? || state.Failed?) then Loading
    else if SwapsOut(cat, s, m, x) && state.Loaded? then Unloading
    else state
  }

  lemma LoadIsSteps(cat: Catalog, s: HostState, m: CatalogModel, probe: Probe, failing: set<Id>)
    returns (s1: HostState, s2: HostState)
    requires WellFormed(cat) && m in cat && Load(cat, s, m.id, probe, failing).1.Ok?
    ensures s1 == SetResident(s, m.id, true, m.id !in failing).0 && SetResident(s, m.id, true, m.id !in failing).1
    ensures SwapAll(s1, SwapOut(cat, s, m), failing) == (s2, true)
    ensures Load(cat, s, m.id, probe, failing).0 == RequestLoadLocked(s2, m.id, SwapOut(cat, s, m))
  {
    GetIsThere(cat, m);
    s1 := SetResident(s, m.id, true, m.id !in failing).0;
    s2 := SwapAll(s1, SwapOut(cat, s, m), failing).0;
  }

  lemma RequestEffect(s: HostState, id: Id, swapOut: seq<Id>, x: Id)
    requires EntryMatches(EntryOf(s, id))
    ensures var s', e := RequestLoadLocked(s, id, swapOut), EntryOf(s, x);
            && s'.residency == s.residency
            && (x != id ==> EntryOf(s', x) == e)
            && (x == id ==>
                  var state := if NeedsLoad(s, x) then Loading else e.lifecycle.state;
                  EntryOf(s', x) == Entry(LifecycleView(state, false), e.loaded))
  {
  }

  lemma SwapAllIsSet(s: HostState, others: seq<Id>, failing: set<Id>, x: Id)
    requires R.Agree(s.residency, s.file) && SwapAll(s, others, failing).1
    ensures IsResident(SwapAll(s, others, failing).0, x) <==> IsResident(s, x) && x !in others
  {
    SwapAllResidents(s, others, failing);
    assert x in SwapAll(s, others, failing).0.residency.resident <==>
             x in s.residency.resident && x !in (set y | y in others);
  }

  /** What a load of `m` that goes through does to every model.  Exactly `m` becomes resident, and
      exactly the models it swaps out cease to be.  `m`, if it was unloaded or failed, is loading, and
      whatever unload was deferred for it is not any more.  Of the models swapped out those loaded are
      unloading, and those loading have their unload deferred.  Nothing else changes, and nobody's
      weights do. */
  lemma LoadEffect(cat: Catalog, s: HostState, m: CatalogModel, probe: Probe, failing: set<Id>, x: Id)
    requires WellFormed(cat) && m in cat && Inv(cat, s)
    requires Load(cat, s, m.id, probe, failing).1.Ok?
    ensures var s' := Load(cat, s, m.id, probe, failing).0;
            && (IsResident(s', x) <==> x == m.id || (IsResident(s, x) && !SwapsOut(cat, s, m, x)))
            && StateOf(s', x) == StateAfterLoad(cat, s, m, x)
            && EntryOf(s', x).loaded == EntryOf(s, x).loaded
            && (EntryOf(s', x).lifecycle.unloadPending <==>
                  && x != m.id
                  && (EntryOf(s, x).lifecycle.unloadPending || (SwapsOut(cat, s, m, x) && StateOf(s, x).Loading?)))
  {
    var s1, s2 := LoadIsSteps(cat, s, m, probe, failing);
    var others := SwapOut(cat, s, m);
    GetIsThere(cat, m);
    SwapOutHasAll(cat, s, m, m.id);
    SwapOutHasAll(cat, s, m, x);
    SwapsOutIff(cat, s, m, x);
    SetFailsIff(s, m.id, true, m.id !in failing);
    R.SetIsAtomic(s.residency, s.file, m.id, true, m.id !in failing);
    SwapAsks(s1, others, failing, x);
    SwapAsks(s1, others, failing, m.id);
    SwapAllIsSet(s1, others, failing, x);
    assert EntryMatches(At(s.entries, m.id)) && EntryMatches(At(s.entries, x));
    RequestEffect(s2, m.id, others, x);
  }

  // ----- Unloads

  lemma UnloadIsDrop(cat: Catalog, s: HostState, id: Id, saves: bool)
    ensures var (s', ok) := Drop(s, id, saves);
            Unload(cat, s, id, saves) ==
              if Get(cat, id).None? then (s, Err(UnknownModel))
              else (s', if ok then Ok(StateOf(s', id)) else Err(Persist))
  {
  }

  lemma AskedIs(e: Entry)
    ensures Asked(e).loaded == e.loaded
    ensures Asked(e).lifecycle.state == match e.lifecycle.state
                                        case Loaded => Unloading
                                        case Failed(_) => Unloaded
                                        case state => state
    ensures Asked(e).lifecycle.unloadPending <==> e.lifecycle.unloadPending || e.lifecycle.state.Loading?
  {
  }

  /** What an unload answers and does: an unknown model is refused and a failed save ends it there;
      else the model is not resident any more, it is unloading if it was loaded, unloaded if it had
      failed, and its unload is deferred if it was loading; nothing else changes. */
  lemma UnloadEffect(cat: Catalog, s: HostState, id: Id, saves: bool, x: Id)
    requires R.Agree(s.residency, s.file)
    ensures var (s', r) := Unload(cat, s, id, saves);
            if forall m | m in cat :: m.id != id then r == Err(UnknownModel) && s' == s
            else if s.residency.persists && IsResident(s, id) && !saves then r == Err(Persist) && s' == s
            else
              && r.Ok? && r.value == StateOf(s', id)
              && (IsResident(s', x) <==> IsResident(s, x) && x != id)
              && (x != id ==> EntryOf(s', x) == EntryOf(s, x))
              && EntryOf(s', id).loaded == EntryOf(s, id).loaded
              && StateOf(s', id) == (match StateOf(s, id)
                                     case Loaded => Unloading
                                     case Failed(_) => Unloaded
                                     case state => state)
              && (EntryOf(s', id).lifecycle.unloadPending <==>
                    EntryOf(s, id).lifecycle.unloadPending || StateOf(s, id).Loading?)
  {
    GetSome(cat, id);
    UnloadIsDrop(cat, s, id, saves);
    DropEffect(s, id, saves);
    DropFailsIff(s, id, saves);
    if Drop(s, id, saves).1 {
      DropAsks(s, id, saves, x);
      DropAsks(s, id, saves, id);
      AskedIs(EntryOf(s, id));
    }
  }
}
