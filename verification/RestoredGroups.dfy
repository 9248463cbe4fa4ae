/** Whose wishes a start keeps (src/host.rs), as the file and the catalogue decide it beforehand:
    a restore takes a resident model's wish away only for the sake of another of its exclusive
    group. */
module RestoredGroups {
  import opened Wrappers
  import opened Lifecycles
  import opened Admissions
  import opened Hosts
  import opened HostInvariants
  import opened HostMemory
  import opened HostObject
  import opened HostTheorems
  import opened RestoreRuns
  import R = Residencies

  predicate IsEnabled(cat: Catalog, id: Id) {
    Get(cat, id).Some? && Get(cat, id).value.enabled
  }

  /** No two enabled residents share an exclusive group. */
  ghost predicate AreCompatible(cat: Catalog, resident: set<Id>) {
    forall x, y {:trigger SameGroup(cat, x, y)} |
      x in resident && y in resident && IsEnabled(cat, x) && IsEnabled(cat, y) && SameGroup(cat, x, y) :: x == y
  }

  // ----- Compatible wishes are kept

  lemma {:induction false} StartOfRun(cat: Catalog, resident: set<Id>, es: seq<Event>, k: nat)
    requires WellFormed(cat) && IsRestoreRun(cat, resident, es) && k <= |es|
    ensures IsRestoreRun(cat, resident, es[..k])
    decreases |es|
  {
    if k == |es| {
      assert es[..k] == es;
    } else {
      RunBefore(cat, resident, es);
      StartOfRun(cat, resident, es[..|es| - 1], k);
      assert es[..|es| - 1][..k] == es[..k];
    }
  }

  /** What is loaded in a restore is a wish not asked for before. */
  lemma LoadIsWish(cat: Catalog, resident: set<Id>, es: seq<Event>, k: nat)
    requires WellFormed(cat) && IsRestoreRun(cat, resident, es) && k < |es| && es[k].DoLoad?
    ensures es[k].id in resident && es[k].id !in LoadIds(es[..k])
  {
    StartOfRun(cat, resident, es, k + 1);
    assert es[..k + 1][..k] == es[..k] && es[..k + 1][k] == es[k];
    RunBefore(cat, resident, es[..k + 1]);
  }

  /** Whose load went through is enabled. */
  lemma GoesIsEnabled(cat: Catalog, s: HostState, e: Event)
    requires Goes(cat, s, e)
    ensures IsEnabled(cat, e.id)
  {
  }

  /** Whoever is live in a restore was a wish, and is enabled. */
  lemma LiveIsWish(cat: Catalog, path: bool, file: R.FileState, q: bool, es: seq<Event>, x: Id)
    requires WellFormed(cat) && IsRestoreRun(cat, Start(path, file, q).residency.resident, es)
    requires IsLive(Exec(cat, Start(path, file, q), es), x)
    ensures x in Start(path, file, q).residency.resident && IsEnabled(cat, x)
  {
    var s0 := Start(path, file, q);
    RestoreKeepsWishes(cat, path, file, q, es, x);
    var ts := Turns(cat, s0, es, x);
    var k :| 0 <= k < |ts| && ts[k].goes;
    TurnAt(cat, s0, es, x, k);
    LoadIsWish(cat, s0.residency.resident, es, k);
    GoesIsEnabled(cat, Exec(cat, s0, es[..k]), es[k]);
  }

  lemma CompatibleTakesNothing(cat: Catalog, path: bool, file: R.FileState, q: bool, es: seq<Event>, x: Id)
    requires WellFormed(cat) && AreCompatible(cat, Start(path, file, q).residency.resident)
    requires IsRestoreRun(cat, Start(path, file, q).residency.resident, es)
    ensures !WishIsTaken(Turns(cat, Start(path, file, q), es, x))
  {
    var s0 := Start(path, file, q);
    var ts := Turns(cat, s0, es, x);
    forall k | 0 <= k < |ts|
      ensures !(ts[k].mateGoes && ts[k].whileLive)
    {
      TurnAt(cat, s0, es, x, k);
      if ts[k].mateGoes && ts[k].whileLive {
        StartOfRun(cat, s0.residency.resident, es, k);
        LiveIsWish(cat, path, file, q, es[..k], x);
        LoadIsWish(cat, s0.residency.resident, es, k);
        GoesIsEnabled(cat, Exec(cat, s0, es[..k]), es[k]);
      }
    }
  }

  /** Compatible wishes are all kept, at every point of a restore. */
  lemma CompatibleAreKept(cat: Catalog, path: bool, file: R.FileState, q: bool, es: seq<Event>)
    requires WellFormed(cat) && AreCompatible(cat, Start(path, file, q).residency.resident)
    requires IsRestoreRun(cat, Start(path, file, q).residency.resident, es)
    ensures Exec(cat, Start(path, file, q), es).residency.resident == Start(path, file, q).residency.resident
  {
    var s0 := Start(path, file, q);
    var s := Exec(cat, s0, es);
    forall x
      ensures x in s.residency.resident <==> x in s0.residency.resident
    {
      RestoreKeepsWishes(cat, path, file, q, es, x);
      CompatibleTakesNothing(cat, path, file, q, es, x);
    }
  }

  // ----- Of two that are not, one is lost

  /** Two wishes meet plenty of memory, the others a device that cannot be measured. */
  function ProbeFor(cat: Catalog, id: Id, picks: set<Id>): Probe {
    match Get(cat, id)
    case Some(m) =>
      if id in picks then Probe(Some(m.vramGbEstimate + ADMISSION_MARGIN_GIB), None) else Probe(None, None)
    case None => Probe(None, None)
  }

  /** One restore: all loads, one after the other, and no save fails. */
  function PickLoads(cat: Catalog, wished: seq<Id>, picks: set<Id>): (es: seq<Event>)
    ensures |es| == |wished|
    ensures forall k | 0 <= k < |es| :: es[k] == DoLoad(wished[k], ProbeFor(cat, wished[k], picks), {})
  {
    seq(|wished|, k requires 0 <= k < |wished| => DoLoad(wished[k], ProbeFor(cat, wished[k], picks), {}))
  }

  lemma {:induction false} OnlyLoads(es: seq<Event>)
    requires forall k | 0 <= k < |es| :: es[k].DoLoad?
    ensures |LoadIds(es)| == |es| && forall k | 0 <= k < |es| :: LoadIds(es)[k] == es[k].id
  {
    if es != [] {
      OnlyLoads(es[..|es| - 1]);
    }
  }

  lemma PicksAreRestore(cat: Catalog, resident: set<Id>, picks: set<Id>)
    ensures var es := PickLoads(cat, Wished(cat, resident), picks);
            IsRestoreRun(cat, resident, es) && LoadIds(es) == Wished(cat, resident)
  {
    OnlyLoads(PickLoads(cat, Wished(cat, resident), picks));
  }

  lemma {:induction false} SwapSucceeds(s: HostState, others: seq<Id>)
    ensures SwapAll(s, others, {}).1
    decreases others
  {
    if others != [] {
      SwapSucceeds(Drop(s, others[0], true).0, others[1..]);
    }
  }

  /** A pick is admitted, nobody else is. */
  lemma OnlyPicksPass(cat: Catalog, s: HostState, id: Id, picks: set<Id>)
    requires WellFormed(cat) && NeedsLoad(s, id)
    requires id in picks ==> IsEnabled(cat, id)
    ensures PassesAdmission(cat, s, id, ProbeFor(cat, id, picks)) <==> id in picks
  {
    if id in picks {
      EstimatesAreSizes(cat, SwapOut(cat, s, Get(cat, id).value));
    }
  }

  lemma OnlyPicksGo(cat: Catalog, path: bool, file: R.FileState, q: bool, picks: set<Id>, k: nat)
    requires WellFormed(cat) && forall x | x in picks :: IsEnabled(cat, x)
    requires k < |Wished(cat, Start(path, file, q).residency.resident)|
    ensures var s0 := Start(path, file, q);
            var es := PickLoads(cat, Wished(cat, s0.residency.resident), picks);
            Goes(cat, Exec(cat, s0, es[..k]), es[k]) <==> es[k].id in picks
  {
    var s0 := Start(path, file, q);
    var resident := s0.residency.resident;
    var es := PickLoads(cat, Wished(cat, resident), picks);
    PicksAreRestore(cat, resident, picks);
    StartOfRun(cat, resident, es, k);
    RunIsOrderly(cat, path, file, q, es[..k]);
    LoadIsWish(cat, resident, es, k);
    var s, id := Exec(cat, s0, es[..k]), es[k].id;
    OnlyPicksPass(cat, s, id, picks);
    RestoreLoadIs(cat, s, id, es[k].probe, {});
    if id in picks {
      SwapSucceeds(s, SwapOut(cat, s, Get(cat, id).value));
    }
  }

  lemma {:induction false} WishedHasAll(cat: Catalog, resident: set<Id>, i: nat)
    requires i < |cat| && cat[i].id in resident
    ensures cat[i].id in Wished(cat, resident)
  {
    if i < |cat| - 1 {
      assert cat[..|cat| - 1][i] == cat[i];
      WishedHasAll(cat[..|cat| - 1], resident, i);
    }
  }

  lemma TurnBefore(cat: Catalog, s0: HostState, es: seq<Event>, x: Id, n: nat, k: nat)
    requires k < n <= |es|
    ensures Turns(cat, s0, es[..n], x)[k] == Turns(cat, s0, es, x)[k]
  {
    TurnAt(cat, s0, es[..n], x, k);
    TurnAt(cat, s0, es, x, k);
    assert es[..n][..k] == es[..k];
  }

  /** Where `x` goes at `i`, and its mate at `j`, and nothing else happens. */
  ghost predicate IsOvertaken(ts: seq<Turn>, i: nat, j: nat) {
    forall k | 0 <= k < |ts| :: (ts[k].goes <==> k == i) && (ts[k].mateGoes <==> k == j) && !ts[k].fails
  }

  lemma OvertakenIsUp(ts: seq<Turn>, before: seq<Turn>, i: nat, j: nat)
    requires i < j < |ts| && IsOvertaken(ts, i, j)
    requires |before| == j && forall k | 0 <= k < j :: before[k] == ts[k]
    ensures StaysUp(before)
  {
    assert before[i].goes;
  }

  predicate AreDistinct(ids: seq<Id>) {
    forall i, j | 0 <= i < j < |ids| :: ids[i] != ids[j]
  }

  lemma LoadTurn(cat: Catalog, s: HostState, e: Event, ids: seq<Id>, i: nat, j: nat, k: nat)
    requires AreDistinct(ids) && i < j < |ids| && k < |ids| && SameGroup(cat, ids[j], ids[i])
    requires e.DoLoad? && e.id == ids[k] && (Goes(cat, s, e) <==> ids[k] in {ids[i], ids[j]})
    ensures var t := TurnOf(cat, s, e, ids[i]);
            (t.goes <==> k == i) && (t.mateGoes <==> k == j) && !t.fails
  {
  }

  lemma PickTurn(cat: Catalog, path: bool, file: R.FileState, q: bool, i: nat, j: nat, k: nat)
    requires WellFormed(cat)
    requires var n := |Wished(cat, Start(path, file, q).residency.resident)|; i < j < n && k < n
    requires var wished := Wished(cat, Start(path, file, q).residency.resident);
             IsEnabled(cat, wished[i]) && IsEnabled(cat, wished[j]) && SameGroup(cat, wished[j], wished[i])
    ensures var s0 := Start(path, file, q);
            var wished := Wished(cat, s0.residency.resident);
            var es := PickLoads(cat, wished, {wished[i], wished[j]});
            var t := TurnOf(cat, Exec(cat, s0, es[..k]), es[k], wished[i]);
            (t.goes <==> k == i) && (t.mateGoes <==> k == j) && !t.fails
  {
    var s0 := Start(path, file, q);
    var wished := Wished(cat, s0.residency.resident);
    var es := PickLoads(cat, wished, {wished[i], wished[j]});
    WishedAreDistinct(cat, s0.residency.resident);
    OnlyPicksGo(cat, path, file, q, {wished[i], wished[j]}, k);
    LoadTurn(cat, Exec(cat, s0, es[..k]), es[k], wished, i, j, k);
  }

  lemma PicksOvertake(cat: Catalog, path: bool, file: R.FileState, q: bool, i: nat, j: nat)
    requires WellFormed(cat)
    requires i < j < |Wished(cat, Start(path, file, q).residency.resident)|
    requires var wished := Wished(cat, Start(path, file, q).residency.resident);
             IsEnabled(cat, wished[i]) && IsEnabled(cat, wished[j]) && SameGroup(cat, wished[j], wished[i])
    ensures var s0 := Start(path, file, q);
            var wished := Wished(cat, s0.residency.resident);
            IsOvertaken(Turns(cat, s0, PickLoads(cat, wished, {wished[i], wished[j]}), wished[i]), i, j)
  {
    var s0 := Start(path, file, q);
    var wished := Wished(cat, s0.residency.resident);
    var es := PickLoads(cat, wished, {wished[i], wished[j]});
    var ts := Turns(cat, s0, es, wished[i]);
    forall k | 0 <= k < |ts|
      ensures (ts[k].goes <==> k == i) && (ts[k].mateGoes <==> k == j) && !ts[k].fails
    {
      TurnAt(cat, s0, es, wished[i], k);
      PickTurn(cat, path, file, q, i, j, k);
    }
  }

  /** Overtaken while it is live, it loses its wish. */
  lemma OvertakenIsLost(cat: Catalog, path: bool, file: R.FileState, q: bool, es: seq<Event>, x: Id, i: nat, j: nat)
    requires WellFormed(cat) && IsRestoreRun(cat, Start(path, file, q).residency.resident, es)
    requires i < j < |es| && IsOvertaken(Turns(cat, Start(path, file, q), es, x), i, j)
    ensures !IsResident(Exec(cat, Start(path, file, q), es), x)
  {
    var s0 := Start(path, file, q);
    var ts := Turns(cat, s0, es, x);
    forall k | 0 <= k < j
      ensures Turns(cat, s0, es[..j], x)[k] == ts[k]
    {
      TurnBefore(cat, s0, es, x, j, k);
    }
    OvertakenIsUp(ts, Turns(cat, s0, es[..j], x), i, j);
    StartOfRun(cat, s0.residency.resident, es, j);
    RestoreKeepsWishes(cat, path, file, q, es[..j], x);
    TurnAt(cat, s0, es, x, j);
    assert ts[j].mateGoes && ts[j].whileLive;
    RestoreKeepsWishes(cat, path, file, q, es, x);
  }

  /** Of two picks of one group the first loses its wish. */
  lemma FirstPickIsLost(cat: Catalog, path: bool, file: R.FileState, q: bool, i: nat, j: nat)
    requires WellFormed(cat)
    requires i < j < |Wished(cat, Start(path, file, q).residency.resident)|
    requires var wished := Wished(cat, Start(path, file, q).residency.resident);
             IsEnabled(cat, wished[i]) && IsEnabled(cat, wished[j]) && SameGroup(cat, wished[j], wished[i])
    ensures var s0 := Start(path, file, q);
            var wished := Wished(cat, s0.residency.resident);
            !IsResident(Exec(cat, s0, PickLoads(cat, wished, {wished[i], wished[j]})), wished[i])
  {
    var s0 := Start(path, file, q);
    var wished := Wished(cat, s0.residency.resident);
    var es := PickLoads(cat, wished, {wished[i], wished[j]});
    PicksAreRestore(cat, s0.residency.resident, {wished[i], wished[j]});
    PicksOvertake(cat, path, file, q, i, j);
    OvertakenIsLost(cat, path, file, q, es, wished[i], i, j);
  }

  lemma MatesAreWished(cat: Catalog, resident: set<Id>, x: Id)
    requires Get(cat, x).Some? && x in resident
    ensures x in Wished(cat, resident)
  {
    GetFinds(cat, x);
    var i :| 0 <= i < |cat| && cat[i] == Get(cat, x).value;
    WishedHasAll(cat, resident, i);
  }

  lemma RivalsLoseWish(cat: Catalog, path: bool, file: R.FileState, q: bool, x: Id, y: Id) returns (es: seq<Event>)
    requires WellFormed(cat)
    requires x in Start(path, file, q).residency.resident && y in Start(path, file, q).residency.resident
    requires IsEnabled(cat, x) && IsEnabled(cat, y) && SameGroup(cat, x, y) && x != y
    ensures IsRestoreRun(cat, Start(path, file, q).residency.resident, es)
    ensures LoadIds(es) == Wished(cat, Start(path, file, q).residency.resident)
    ensures Exec(cat, Start(path, file, q), es).residency.resident != Start(path, file, q).residency.resident
  {
    var s0 := Start(path, file, q);
    var wished := Wished(cat, s0.residency.resident);
    MatesAreWished(cat, s0.residency.resident, x);
    MatesAreWished(cat, s0.residency.resident, y);
    var i :| 0 <= i < |wished| && wished[i] == x;
    var j :| 0 <= j < |wished| && wished[j] == y;
    var first, second := if i < j then i else j, if i < j then j else i;
    es := PickLoads(cat, wished, {wished[first], wished[second]});
    PicksAreRestore(cat, s0.residency.resident, {wished[first], wished[second]});
    FirstPickIsLost(cat, path, file, q, first, second);
  }

  /** Every restore, however its loads, their threads and requests interleave and whichever of them
      fail, keeps all wishes if and only if no two enabled residents share an exclusive group. */
  lemma WishesAreKeptIff(cat: Catalog, path: bool, file: R.FileState, q: bool)
    requires WellFormed(cat)
    ensures var s0 := Start(path, file, q);
            var resident := s0.residency.resident;
            AreCompatible(cat, resident) <==>
            forall es | IsRestoreRun(cat, resident, es) && LoadIds(es) == Wished(cat, resident) ::
              Exec(cat, s0, es).residency.resident == resident
  {
    var s0 := Start(path, file, q);
    var resident := s0.residency.resident;
    if AreCompatible(cat, resident) {
      forall es | IsRestoreRun(cat, resident, es) && LoadIds(es) == Wished(cat, resident)
        ensures Exec(cat, s0, es).residency.resident == resident
      {
        CompatibleAreKept(cat, path, file, q, es);
      }
    } else {
      var x, y :| x in resident && y in resident && IsEnabled(cat, x) && IsEnabled(cat, y) && SameGroup(cat, x, y)
                  && x != y;
      var _ := RivalsLoseWish(cat, path, file, q, x, y);
    }
  }

  /** The loads a start makes, nothing happening between them, are a whole restore. */
  lemma {:induction false} RestoreEventsAreRestore(cat: Catalog, resident: set<Id>, probes: seq<Probe>,
                                                   failing: seq<set<Id>>)
    requires |probes| == |failing| == |cat|
    ensures var es := RestoreEvents(cat, resident, probes, failing);
            IsRestoreRun(cat, resident, es) && LoadIds(es) == Wished(cat, resident)
  {
    if cat != [] {
      var n := |cat| - 1;
      var before := RestoreEvents(cat[..n], resident, probes[..n], failing[..n]);
      RestoreEventsAreRestore(cat[..n], resident, probes[..n], failing[..n]);
      var es := RestoreEvents(cat, resident, probes, failing);
      if cat[n].id in resident {
        assert es[..|es| - 1] == before;
      } else {
        assert es == before;
      }
    }
  }

  // ----- Two residents of one group

  const JUST_LOADING := LifecycleView(Loading, false)
  const ROOMY := Probe(Some(20.0), None)

  lemma ExecThree(cat: Catalog, s: HostState, a: Event, b: Event, c: Event)
    ensures Exec(cat, s, [a, b, c]) == Next(cat, Next(cat, Next(cat, s, a), b), c)
  {
    assert [a, b, c][..2] == [a, b] && [a, b][..1] == [a] && [a][..0] == [];
    assert Exec(cat, s, []) == s;
    assert Exec(cat, s, [a]) == Next(cat, s, a);
    assert Exec(cat, s, [a, b]) == Next(cat, Next(cat, s, a), b);
  }

  lemma PairIs()
    ensures Get(PAIR, "a") == Some(A) && Get(PAIR, "b") == Some(B)
  {
    assert PAIR[1..] == [B];
    assert Get([B], "b") == Some(B);
  }

  /** While neither is loading or loaded, either is loaded without a swap. */
  lemma PairSwapsNobody(s: HostState, m: CatalogModel)
    requires m == A || m == B
    requires NeedsLoad(s, "a") && NeedsLoad(s, "b")
    ensures Get(PAIR, m.id) == Some(m) && SwapOut(PAIR, s, m) == []
    ensures PassesAdmission(PAIR, s, m.id, ROOMY)
  {
    PairIs();
    assert PAIR[1..] == [B] && [B][1..] == [];
    assert GroupBusy([B], s, m.id, "g") == [];
    NoneFreesNothing(PAIR);
  }

  lemma LoadWithoutSwap(cat: Catalog, s: HostState, id: Id, probe: Probe)
    requires PassesAdmission(cat, s, id, probe) && SwapOut(cat, s, Get(cat, id).value) == []
    ensures Load(cat, s, id, probe, {}).0 == RequestLoadLocked(SetResident(s, id, true, true).0, id, [])
  {
  }

  lemma FirstSet(s: HostState, id: Id)
    ensures SetResident(s, id, true, true).0.residency == s.residency.(resident := s.residency.resident + {id})
  {
    assert s.residency.resident + {id} == if id in s.residency.resident then s.residency.resident
                                          else s.residency.resident + {id};
  }

  lemma OneOfPairLoads(s: HostState, m: CatalogModel)
    requires m == A || m == B
    requires NeedsLoad(s, "a") && NeedsLoad(s, "b")
    requires !EntryOf(s, m.id).lifecycle.unloadPending
    ensures var s' := Next(PAIR, s, DoLoad(m.id, ROOMY, {}));
            && s'.entries == s.entries[m.id := Entry(JUST_LOADING, EntryOf(s, m.id).loaded)]
            && s'.residency == s.residency.(resident := s.residency.resident + {m.id})
            && s'.loadTasks == s.loadTasks[s.nextTask := LoadTask(m.id, [])]
  {
    PairSwapsNobody(s, m);
    LoadWithoutSwap(PAIR, s, m.id, ROOMY);
    FirstSet(s, m.id);
  }

  lemma LoadOfPairFails(s: HostState)
    requires s.loadTasks == map[0 := LoadTask("a", [])]
    requires s.entries == map["a" := Entry(JUST_LOADING, None)]
    ensures var s' := Next(PAIR, s, EndLoad(0, Err("out of memory")));
            && StateOf(s', "a").Failed? && EntryOf(s', "b") == NEW_ENTRY && s'.residency == s.residency
  {
  }

  /** Whoever is resident and saved is so at the next start. */
  lemma SavedIsRestored(cat: Catalog, s: HostState)
    requires Inv(cat, s) && s.residency.persists
    ensures Start(true, s.file, true).residency.resident == s.residency.resident
  {
  }

  const RIVALRY := [DoLoad("a", ROOMY, {}), EndLoad(0, Err("out of memory")), DoLoad("b", ROOMY, {})]

  lemma RivalryMakesTwo(s0: HostState)
    requires s0 == Start(true, R.Missing, true)
    ensures var s := Exec(PAIR, s0, RIVALRY);
            && StateOf(s, "a").Failed? && IsLive(s, "b")
            && s.residency.resident == {"a", "b"} && s.residency.persists
  {
    var s1 := Next(PAIR, s0, RIVALRY[0]);
    ExecThree(PAIR, s0, RIVALRY[0], RIVALRY[1], RIVALRY[2]);
    OneOfPairLoads(s0, A);
    LoadOfPairFails(s1);
    OneOfPairLoads(Next(PAIR, s1, RIVALRY[1]), B);
  }

  /** A failed load leaves its model resident, so the next of its group makes two. */
  lemma RivalsCanBeResident()
    ensures var s := Exec(PAIR, Start(true, R.Missing, true), RIVALRY);
            && StateOf(s, "a").Failed? && IsLive(s, "b") && s.residency.resident == {"a", "b"}
            && !AreCompatible(PAIR, Start(true, s.file, true).residency.resident)
  {
    var s0 := Start(true, R.Missing, true);
    RivalryMakesTwo(s0);
    StartInv(PAIR, true, R.Missing, true);
    ExecKeeps(PAIR, s0, RIVALRY);
    SavedIsRestored(PAIR, Exec(PAIR, s0, RIVALRY));
    PairIs();
    assert SameGroup(PAIR, "a", "b");
  }
}
