/** When the tray UI restarts on a replaced executable (src/exe_watch.rs). */
module ExeWatches {
  import opened Wrappers

  /** One version of a file: size, modification time, device and inode. */
  datatype ExeIdentity = ExeIdentity(len: nat, modified: Option<int>, dev: nat, ino: nat)

  /** What was read at a time: the file's identity, or that it is missing. */
  datatype Observation = Observation(at: int, now: Option<ExeIdentity>)

  datatype WatchStep = Unchanged | Missing(first: bool) | Settling | Restart

  datatype Sighting = NotPending | PendingSince(identity: ExeIdentity, since: int)

  datatype WatchView = WatchView(baseline: Option<ExeIdentity>, pending: Sighting, missing: bool)

  function Elapsed(now: int, since: int): nat {
    if now >= since then now - since else 0
  }

  /** The new identity was seen before and has held still long enough. */
  predicate HasSettled(w: WatchView, o: Observation, settle: nat) {
    && o.now.Some? && w.pending.PendingSince? && w.pending.identity == o.now.value
    && Elapsed(o.at, w.pending.since) >= settle
  }

  function Decide(w: WatchView, o: Observation, settle: nat): WatchStep {
    if o.now.None? then Missing(!w.missing)
    else if o.now == w.baseline then Unchanged
    else if HasSettled(w, o, settle) then Restart
    else Settling
  }

  function Next(w: WatchView, o: Observation, settle: nat): WatchView {
    match Decide(w, o, settle)
    case Missing(_) => WatchView(w.baseline, NotPending, true)
    case Unchanged => WatchView(w.baseline, NotPending, false)
    case Restart => WatchView(o.now, NotPending, false)
    case Settling =>
      if w.pending.PendingSince? && w.pending.identity == o.now.value then w.(missing := false)
      else WatchView(w.baseline, PendingSince(o.now.value, o.at), false)
  }

  function Start(baseline: Option<ExeIdentity>): WatchView {
    WatchView(baseline, NotPending, false)
  }

  function Exec(baseline: Option<ExeIdentity>, os: seq<Observation>, settle: nat): WatchView {
    if os == [] then Start(baseline)
    else Next(Exec(baseline, os[..|os| - 1], settle), os[|os| - 1], settle)
  }

  function StepAt(baseline: Option<ExeIdentity>, os: seq<Observation>, settle: nat, j: nat): WatchStep
    requires j < |os|
  {
    Decide(Exec(baseline, os[..j], settle), os[j], settle)
  }

  predicate RestartsAt(baseline: Option<ExeIdentity>, os: seq<Observation>, settle: nat, j: nat)
    requires j < |os|
  {
    StepAt(baseline, os, settle, j).Restart?
  }

  ghost predicate IsMonotone(os: seq<Observation>) {
    forall i, j | 0 <= i <= j < |os| :: os[i].at <= os[j].at
  }

  /** Every observation from `i` to before `n` saw this identity. */
  ghost predicate SawOnly(os: seq<Observation>, i: nat, n: nat, identity: ExeIdentity)
    requires n <= |os|
  {
    i < n && forall k | i <= k < n :: os[k].now == Some(identity)
  }

  // ----- What the watch remembers

  /** `pending` is the first sighting of the identity last seen without a break, if it is not the
      baseline. */
  ghost predicate KnowsPending(os: seq<Observation>, w: WatchView) {
    && (w.pending.PendingSince? ==>
          && w.baseline != Some(w.pending.identity)
          && exists i: nat :: SawOnly(os, i, |os|, w.pending.identity) && os[i].at == w.pending.since)
    && (forall i: nat, identity |
          SawOnly(os, i, |os|, identity) && w.baseline != Some(identity) ::
          && w.pending.PendingSince? && w.pending.identity == identity && w.pending.since <= os[i].at)
  }

  lemma SawBefore(os: seq<Observation>, n: nat, i: nat, identity: ExeIdentity)
    requires n < |os|
    ensures SawOnly(os[..n], i, n, identity) <==> SawOnly(os, i, n, identity)
    ensures i < n ==> (SawOnly(os, i, n + 1, identity) <==>
              SawOnly(os, i, n, identity) && os[n].now == Some(identity))
  {
    assert forall k | 0 <= k < n :: os[..n][k] == os[k];
  }

  /** The pending sighting survives one more observation of it. */
  lemma PendingGoesOn(os: seq<Observation>, n: nat, w: WatchView)
    requires |os| == n + 1 && KnowsPending(os[..n], w)
    requires w.pending.PendingSince? && os[n].now == Some(w.pending.identity)
    ensures exists i: nat :: SawOnly(os, i, n + 1, w.pending.identity) && os[i].at == w.pending.since
  {
    var i: nat :| SawOnly(os[..n], i, n, w.pending.identity) && os[..n][i].at == w.pending.since;
    SawBefore(os, n, i, w.pending.identity);
    assert SawOnly(os, i, n + 1, w.pending.identity);
  }

  lemma NextKnowsPending(os: seq<Observation>, n: nat, w: WatchView, settle: nat)
    requires |os| == n + 1 && IsMonotone(os) && KnowsPending(os[..n], w)
    ensures KnowsPending(os, Next(w, os[n], settle))
  {
    var w' := Next(w, os[n], settle);
    if w'.pending.PendingSince? {
      if w.pending == w'.pending {
        PendingGoesOn(os, n, w);
      } else {
        assert SawOnly(os, n, n + 1, w'.pending.identity);
      }
    }
    forall i: nat, identity | SawOnly(os, i, n + 1, identity) && w'.baseline != Some(identity)
      ensures w'.pending.PendingSince? && w'.pending.identity == identity && w'.pending.since <= os[i].at
    {
      assert os[n].now == Some(identity);
      SawBefore(os, n, i, identity);
      if i < n {
        assert SawOnly(os[..n], i, n, identity);
        assert os[..n][i] == os[i];
      }
    }
  }

  lemma {:induction false} WatchKnows(baseline: Option<ExeIdentity>, os: seq<Observation>, settle: nat)
    requires IsMonotone(os)
    ensures KnowsPending(os, Exec(baseline, os, settle))
  {
    if os != [] {
      var n := |os| - 1;
      WatchKnows(baseline, os[..n], settle);
      NextKnowsPending(os, n, Exec(baseline, os[..n], settle), settle);
    }
  }

  lemma RestartFor(os: seq<Observation>, j: nat, w: WatchView, settle: nat)
    requires IsMonotone(os) && j < |os| && KnowsPending(os[..j], w)
    ensures Decide(w, os[j], settle).Restart? <==>
              && os[j].now.Some? && os[j].now != w.baseline
              && exists i: nat :: && i < j && SawOnly(os, i, j + 1, os[j].now.value)
                                  && os[j].at - os[i].at >= settle
  {
    var before := os[..j];
    assert forall k | 0 <= k < j :: before[k] == os[k];
    if os[j].now.Some? {
      var x := os[j].now.value;
      forall i: nat
        ensures i < j ==> (SawOnly(before, i, j, x) <==> SawOnly(os, i, j + 1, x))
      {
        SawBefore(os, j, i, x);
      }
    }
  }

  /** Over any observations in order of time: the watch says to restart exactly when the file is
      another than the baseline and nothing but that identity was seen since an earlier
      observation at least the settle time ago. */
  lemma RestartsIff(baseline: Option<ExeIdentity>, os: seq<Observation>, settle: nat, j: nat)
    requires IsMonotone(os) && j < |os|
    ensures RestartsAt(baseline, os, settle, j) <==>
              && os[j].now.Some? && os[j].now != Exec(baseline, os[..j], settle).baseline
              && exists i: nat :: && i < j && SawOnly(os, i, j + 1, os[j].now.value)
                                  && os[j].at - os[i].at >= settle
  {
    WatchKnows(baseline, os[..j], settle);
    RestartFor(os, j, Exec(baseline, os[..j], settle), settle);
  }

  // ----- The baseline

  /** The baseline is what was last restarted on, or what the process started from. */
  lemma {:induction false} BaselineIsLastRestart(baseline: Option<ExeIdentity>, os: seq<Observation>, settle: nat,
                                                 r: nat)
    requires r <= |os|
    requires forall k | r <= k < |os| :: !RestartsAt(baseline, os, settle, k)
    ensures Exec(baseline, os, settle).baseline == Exec(baseline, os[..r], settle).baseline
  {
    if r == |os| {
      assert os[..r] == os;
    } else {
      var n := |os| - 1;
      var before := os[..n];
      forall k | r <= k < n
        ensures !RestartsAt(baseline, before, settle, k)
      {
        assert before[..k] == os[..k];
        assert !RestartsAt(baseline, os, settle, k);
      }
      BaselineIsLastRestart(baseline, before, settle, r);
      assert before[..r] == os[..r];
      assert !RestartsAt(baseline, os, settle, n);
    }
  }

  /** Restarts one after the other are always on different identities, and the first is not on the
      one the process started from: a restart that fails is not tried again. */
  lemma RestartsDiffer(baseline: Option<ExeIdentity>, os: seq<Observation>, settle: nat, i: nat, j: nat)
    requires i < j < |os|
    requires RestartsAt(baseline, os, settle, i) && RestartsAt(baseline, os, settle, j)
    requires forall k | i < k < j :: !RestartsAt(baseline, os, settle, k)
    ensures os[i].now != os[j].now
  {
    var before := os[..j];
    forall k | i + 1 <= k < j
      ensures !RestartsAt(baseline, before, settle, k)
    {
      assert before[..k] == os[..k];
      assert !RestartsAt(baseline, os, settle, k);
    }
    BaselineIsLastRestart(baseline, before, settle, i + 1);
    assert before[..i + 1] == os[..i + 1] && os[..i + 1][..i] == os[..i];
  }

  lemma FirstRestartDiffers(baseline: Option<ExeIdentity>, os: seq<Observation>, settle: nat, j: nat)
    requires j < |os| && RestartsAt(baseline, os, settle, j)
    requires forall k | 0 <= k < j :: !RestartsAt(baseline, os, settle, k)
    ensures os[j].now != baseline
  {
    var before := os[..j];
    forall k | 0 <= k < j
      ensures !RestartsAt(baseline, before, settle, k)
    {
      assert before[..k] == os[..k];
      assert !RestartsAt(baseline, os, settle, k);
    }
    BaselineIsLastRestart(baseline, before, settle, 0);
    assert before[..0] == [];
  }

  lemma {:induction false} MissingIsLast(baseline: Option<ExeIdentity>, os: seq<Observation>, settle: nat)
    ensures Exec(baseline, os, settle).missing <==> os != [] && os[|os| - 1].now.None?
  {
    if os != [] {
      MissingIsLast(baseline, os[..|os| - 1], settle);
    }
  }

  /** A missing file is reported as first exactly when the observation before found one. */
  lemma FirstMissingIff(baseline: Option<ExeIdentity>, os: seq<Observation>, settle: nat, j: nat)
    requires j < |os|
    ensures StepAt(baseline, os, settle, j) == Missing(true) <==>
              os[j].now.None? && (j == 0 || os[j - 1].now.Some?)
  {
    MissingIsLast(baseline, os[..j], settle);
  }

  // ----- The watch

  class ExeWatch {
    var baseline: Option<ExeIdentity>
    var pending: Sighting
    var missing: bool
    const settle: nat

    function View(): WatchView
      reads this
    {
      WatchView(baseline, pending, missing)
    }

    constructor (baseline: Option<ExeIdentity>, settle: nat)
      ensures View() == Start(baseline) && this.settle == settle
    {
      this.baseline, this.settle := baseline, settle;
      pending, missing := NotPending, false;
    }

    method Observe(now: Option<ExeIdentity>, at: int) returns (step: WatchStep)
      modifies this
      ensures step == Decide(old(View()), Observation(at, now), settle)
      ensures View() == Next(old(View()), Observation(at, now), settle)
    {
      if now.None? {
        pending := NotPending;
        var first := !missing;
        missing := true;
        return Missing(first);
      }
      missing := false;
      if now == baseline {
        pending := NotPending;
        return Unchanged;
      }
      if pending.PendingSince? && pending.identity == now.value {
        if Elapsed(at, pending.since) >= settle {
          baseline := now;
          pending := NotPending;
          step := Restart;
        } else {
          step := Settling;
        }
      } else {
        pending := PendingSince(now.value, at);
        step := Settling;
      }
    }
  }
}
