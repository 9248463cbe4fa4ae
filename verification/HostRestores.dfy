/** The wishes a crash in the middle of a load leaves on file for the next start, and whom a load
    leaves alone (src/host.rs, src/residency.rs). */
module HostRestores {
  import opened Wrappers
  import opened Admissions
  import opened Hosts
  import opened HostInvariants
  import R = Residencies

  // ----- A crash inside a load

  lemma {:induction false} SwapAllJoins(s: HostState, a: seq<Id>, b: seq<Id>, failing: set<Id>)
    ensures SwapAll(s, a + b, failing) ==
              var (s1, ok) := SwapAll(s, a, failing);
              if ok then SwapAll(s1, b, failing) else (s1, false)
    decreases a
  {
    if a == [] {
      assert a + b == b;
    } else {
      var (s1, ok) := Drop(s, a[0], a[0] !in failing);
      assert (a + b)[0] == a[0] && (a + b)[1..] == a[1..] + b;
      if ok {
        SwapAllJoins(s1, a[1..], b, failing);
      }
    }
  }

  /** A swap whose saves succeed takes exactly the outgoing models' wishes away. */
  lemma {:induction false} SwapAllResidents(s: HostState, others: seq<Id>, failing: set<Id>)
    requires R.Agree(s.residency, s.file) && SwapAll(s, others, failing).1
    ensures SwapAll(s, others, failing).0.residency.resident == s.residency.resident - (set x | x in others)
    decreases others
  {
    if others != [] {
      var id := others[0];
      var s1 := Drop(s, id, id !in failing).0;
      DropEffect(s, id, id !in failing);
      SwapAllResidents(s1, others[1..], failing);
      assert forall x :: IsResident(s1, x) <==> IsResident(s, x) && x != id;
      assert s1.residency.resident == s.residency.resident - {id};
      assert forall x :: x in others <==> x == id || x in others[1..];
    }
  }

  /** The outgoing members whose wishes `sets` residency changes have taken away. */
  function SwappedBy(cat: Catalog, s: HostState, id: Id, sets: nat): seq<Id>
    requires Get(cat, id).Some?
  {
    var swapOut := SwapOut(cat, s, Get(cat, id).value);
    if sets == 0 then [] else if sets - 1 < |swapOut| then swapOut[..sets - 1] else swapOut
  }

  lemma LoadSetsResidents(cat: Catalog, s: HostState, id: Id, failing: set<Id>, sets: nat)
    requires R.Agree(s.residency, s.file) && Get(cat, id).Some? && LoadSets(cat, s, id, failing, sets).1
    ensures var s' := LoadSets(cat, s, id, failing, sets).0;
            && R.Agree(s'.residency, s'.file) && s'.residency.persists == s.residency.persists
            && s'.residency.resident ==
                 if sets == 0 then s.residency.resident
                 else s.residency.resident + {id} - (set x | x in SwappedBy(cat, s, id, sets))
  {
    if sets > 0 {
      var s1 := SetResident(s, id, true, id !in failing).0;
      R.SetIsAtomic(s.residency, s.file, id, true, id !in failing);
      assert forall x :: IsResident(s1, x) <==> IsResident(s, x) || x == id;
      assert s1.residency.resident == s.residency.resident + {id};
      SwapAllResidents(s1, SwappedBy(cat, s, id, sets), failing);
      SwapAllEffect(s1, SwappedBy(cat, s, id, sets), failing);
    }
  }

  /** A process that dies inside a load, after any number of its saves: the next starts with the old
      wishes, and the loaded model's with the first save, less those of the outgoing members
      saved since; so every other model that was live is still restored. */
  lemma CrashInLoadRestores(cat: Catalog, s: HostState, id: Id, probe: Probe, failing: set<Id>, sets: nat, q: bool)
    requires Inv(cat, s) && s.residency.persists
    requires PassesAdmission(cat, s, id, probe) && LoadSets(cat, s, id, failing, sets).1
    ensures var s' := Next(cat, s, CrashInLoad(id, probe, failing, sets, true, q));
            && s'.residency.persists
            && s'.residency.resident ==
                 (if sets == 0 then s.residency.resident
                  else s.residency.resident + {id} - (set x | x in SwappedBy(cat, s, id, sets)))
            && forall x | IsLive(s, x) && x !in SwappedBy(cat, s, id, sets) :: IsResident(s', x)
  {
    var s1 := LoadSets(cat, s, id, failing, sets).0;
    LoadSetsResidents(cat, s, id, failing, sets);
    R.LoadingAgrees(true, s1.file, q);
  }

  lemma OneSetFails(s: HostState, ids: seq<Id>, failing: set<Id>)
    requires |ids| <= 1 && !SwapAll(s, ids, failing).1
    ensures SwapAll(s, ids, failing) == (s, false)
  {
  }

  lemma SetFails(s: HostState, id: Id, failing: set<Id>)
    ensures var (s1, saved) := SetResident(s, id, true, id !in failing); !saved ==> s1 == s
  {
  }

  lemma PrefixFails(s: HostState, a: seq<Id>, b: seq<Id>, c: seq<Id>, failing: set<Id>)
    requires |b| <= 1 && SwapAll(s, a, failing).1 && !SwapAll(s, a + b, failing).1
    ensures SwapAll(s, a + b + c, failing) == (SwapAll(s, a, failing).0, false)
  {
    SwapAllJoins(s, a, b, failing);
    SwapAllJoins(s, a + b, c, failing);
    OneSetFails(SwapAll(s, a, failing).0, b, failing);
  }

  lemma SwappedByGrows(cat: Catalog, s: HostState, id: Id, sets: nat, more: nat)
    returns (next: seq<Id>, rest: seq<Id>)
    requires Get(cat, id).Some? && 0 < sets < more
    ensures |next| <= 1
    ensures SwappedBy(cat, s, id, sets + 1) == SwappedBy(cat, s, id, sets) + next
    ensures SwappedBy(cat, s, id, more) == SwappedBy(cat, s, id, sets) + next + rest
  {
    next := SwappedBy(cat, s, id, sets + 1)[|SwappedBy(cat, s, id, sets)|..];
    rest := SwappedBy(cat, s, id, more)[|SwappedBy(cat, s, id, sets + 1)|..];
  }

  /** A save that fails ends the load there: no later number of saves leaves another file. */
  lemma FailedSaveEndsLoad(cat: Catalog, s: HostState, id: Id, failing: set<Id>, sets: nat, more: nat)
    requires Get(cat, id).Some? && sets < more
    requires LoadSets(cat, s, id, failing, sets).1 && !LoadSets(cat, s, id, failing, sets + 1).1
    ensures LoadSets(cat, s, id, failing, more) == (LoadSets(cat, s, id, failing, sets).0, false)
  {
    SetFails(s, id, failing);
    if sets > 0 {
      var next, rest := SwappedByGrows(cat, s, id, sets, more);
      PrefixFails(SetResident(s, id, true, id !in failing).0, SwappedBy(cat, s, id, sets), next, rest, failing);
    }
  }

  /** A load that passes admission is its saves and, when all succeeded, the load request. */
  lemma LoadIsItsSets(cat: Catalog, s: HostState, id: Id, probe: Probe, failing: set<Id>)
    requires PassesAdmission(cat, s, id, probe)
    ensures var swapOut := SwapOut(cat, s, Get(cat, id).value);
            var (s1, saved) := LoadSets(cat, s, id, failing, |swapOut| + 1);
            Load(cat, s, id, probe, failing).0 == if saved then RequestLoadLocked(s1, id, swapOut) else s1
  {
    var swapOut := SwapOut(cat, s, Get(cat, id).value);
    assert swapOut[..|swapOut|] == swapOut;
  }

  // ----- Who is left alone

  lemma {:induction false} GroupBusyAreMates(cat: Catalog, s: HostState, id: Id, group: string, x: Id)
    requires WellFormed(cat)
    ensures x in GroupBusy(cat, s, id, group) ==>
              Get(cat, x).Some? && Get(cat, x).value.exclusiveGroup == Some(group)
  {
    if cat != [] {
      GroupBusyAreMates(cat[1..], s, id, group, x);
      GetFinds(cat[1..], x);
    }
  }

  lemma SwapOutIsGroup(cat: Catalog, s: HostState, id: Id, x: Id)
    requires WellFormed(cat) && Get(cat, id).Some?
    ensures x in SwapOut(cat, s, Get(cat, id).value) ==> SameGroup(cat, id, x)
  {
    var model := Get(cat, id).value;
    GetFinds(cat, id);
    if model.exclusiveGroup.Some? {
      GroupBusyAreMates(cat, s, id, model.exclusiveGroup.value, x);
    }
  }

  /** A load leaves every model alone that is neither its own nor of its group. */
  lemma LoadLeavesOthers(cat: Catalog, s: HostState, id: Id, probe: Probe, failing: set<Id>, x: Id)
    requires WellFormed(cat) && R.Agree(s.residency, s.file)
    requires x != id && !SameGroup(cat, id, x)
    ensures var s' := Load(cat, s, id, probe, failing).0;
            EntryOf(s', x) == EntryOf(s, x) && (IsResident(s', x) <==> IsResident(s, x))
  {
    if Get(cat, id).Some? {
      SwapOutIsGroup(cat, s, id, x);
      GetFinds(cat, id);
      R.SetIsAtomic(s.residency, s.file, id, true, id !in failing);
      SwapAllEffect(SetResident(s, id, true, id !in failing).0, SwapOut(cat, s, Get(cat, id).value), failing);
    }
  }
}
