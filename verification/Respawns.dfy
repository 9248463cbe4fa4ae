/** When the tray UI's poller starts a daemon (src/daemon_link.rs). */
module Respawns {
  import opened Wrappers

  /** What one tick found: the daemon answered; or it did not, and its lock is held, free (the
      start, if one is due, may fail), or cannot be read. */
  datatype Found = Reached | LockHeld | LockFree(starts: bool) | LockUnreadable

  datatype Tick = Tick(at: int, found: Found)

  /** Minimum times in the clock's unit. */
  datatype Limits = Limits(backoff: nat, grace: nat)

  datatype PollerView = PollerView(absentSince: Option<int>, lastSpawn: Option<int>)

  datatype LinkState = Connected | Starting | Unreachable(startedDaemon: bool)

  /** The time since, or zero if that is ahead (`Instant::duration_since`). */
  function Elapsed(now: int, since: int): nat {
    if now >= since then now - since else 0
  }

  function AbsentSince(p: PollerView, now: int): int {
    match p.absentSince case Some(since) => since case None => now
  }

  /** The daemon has been absent for the grace. */
  predicate PastGrace(p: PollerView, t: Tick, l: Limits) {
    Elapsed(t.at, AbsentSince(p, t.at)) >= l.grace
  }

  /** Whether the tick tries to start a daemon. */
  predicate Tries(p: PollerView, t: Tick, l: Limits) {
    && t.found.LockFree?
    && PastGrace(p, t, l)
    && (p.lastSpawn.Some? ==> Elapsed(t.at, p.lastSpawn.value) >= l.backoff)
  }

  function Next(p: PollerView, t: Tick, l: Limits): PollerView {
    match t.found
    case Reached => p.(absentSince := None)
    case LockHeld => p.(absentSince := None)
    case LockUnreadable => p
    case LockFree(_) =>
      PollerView(Some(AbsentSince(p, t.at)), if Tries(p, t, l) then Some(t.at) else p.lastSpawn)
  }

  const START := PollerView(None, None)

  function Exec(ts: seq<Tick>, l: Limits): PollerView {
    if ts == [] then START else Next(Exec(ts[..|ts| - 1], l), ts[|ts| - 1], l)
  }

  predicate TriesAt(ts: seq<Tick>, l: Limits, j: nat)
    requires j < |ts|
  {
    Tries(Exec(ts[..j], l), ts[j], l)
  }

  /** The clock does not run backwards. */
  ghost predicate IsMonotone(ts: seq<Tick>) {
    forall i, j | 0 <= i <= j < |ts| :: ts[i].at <= ts[j].at
  }

  /** No tick from `i` to before `j` reached a daemon or saw its lock held. */
  ghost predicate NoneSeen(ts: seq<Tick>, i: nat, j: nat)
    requires j <= |ts|
  {
    forall k | i <= k < j :: !ts[k].found.Reached? && !ts[k].found.LockHeld?
  }

  /** The lock was free at `i`, and nothing was seen from then to before `n`. */
  ghost predicate IsAbsent(ts: seq<Tick>, i: nat, n: nat)
    requires n <= |ts|
  {
    i < n && ts[i].found.LockFree? && NoneSeen(ts, i, n)
  }

  // ----- What the poller's two times mean

  /** `absentSince` is the earliest free tick since something was last seen. */
  ghost predicate KnowsAbsence(ts: seq<Tick>, p: PollerView) {
    && (forall i: nat | IsAbsent(ts, i, |ts|) :: p.absentSince.Some? && p.absentSince.value <= ts[i].at)
    && (p.absentSince.Some? ==> exists i: nat :: IsAbsent(ts, i, |ts|) && ts[i].at == p.absentSince.value)
  }

  /** `lastSpawn` is the time of the last try. */
  ghost predicate KnowsTries(ts: seq<Tick>, l: Limits, p: PollerView) {
    && (forall i | 0 <= i < |ts| && TriesAt(ts, l, i) :: p.lastSpawn.Some? && ts[i].at <= p.lastSpawn.value)
    && (p.lastSpawn.Some? ==> exists i :: 0 <= i < |ts| && TriesAt(ts, l, i) && ts[i].at == p.lastSpawn.value)
  }

  lemma AbsenceBefore(ts: seq<Tick>, n: nat, i: nat)
    requires n < |ts|
    ensures IsAbsent(ts[..n], i, n) <==> IsAbsent(ts, i, n)
    ensures i < n ==> (IsAbsent(ts, i, n + 1) <==>
              IsAbsent(ts, i, n) && !ts[n].found.Reached? && !ts[n].found.LockHeld?)
  {
    assert forall k | 0 <= k < n :: ts[..n][k] == ts[k];
  }

  lemma NextKnowsAbsence(ts: seq<Tick>, n: nat, p: PollerView, l: Limits)
    requires |ts| == n + 1 && IsMonotone(ts) && KnowsAbsence(ts[..n], p)
    ensures KnowsAbsence(ts, Next(p, ts[n], l))
  {
    var p' := Next(p, ts[n], l);
    forall i: nat | IsAbsent(ts, i, n + 1)
      ensures p'.absentSince.Some? && p'.absentSince.value <= ts[i].at
    {
      AbsenceBefore(ts, n, i);
      if i < n {
        assert IsAbsent(ts[..n], i, n);
      } else if p.absentSince.Some? {
        var k: nat :| IsAbsent(ts[..n], k, n) && ts[..n][k].at == p.absentSince.value;
      }
    }
    if p'.absentSince.Some? {
      if p.absentSince.Some? {
        var k: nat :| IsAbsent(ts[..n], k, n) && ts[..n][k].at == p.absentSince.value;
        AbsenceBefore(ts, n, k);
        assert IsAbsent(ts, k, n + 1);
      } else {
        assert IsAbsent(ts, n, n + 1);
      }
    }
  }

  lemma TriesBefore(ts: seq<Tick>, l: Limits, n: nat, i: nat)
    requires i < n <= |ts|
    ensures TriesAt(ts[..n], l, i) == TriesAt(ts, l, i)
  {
    assert ts[..n][..i] == ts[..i];
  }

  lemma NextKnowsTries(ts: seq<Tick>, n: nat, l: Limits)
    requires |ts| == n + 1 && IsMonotone(ts) && KnowsTries(ts[..n], l, Exec(ts[..n], l))
    ensures KnowsTries(ts, l, Next(Exec(ts[..n], l), ts[n], l))
  {
    var p := Exec(ts[..n], l);
    var p' := Next(p, ts[n], l);
    forall i | 0 <= i < |ts| && TriesAt(ts, l, i)
      ensures p'.lastSpawn.Some? && ts[i].at <= p'.lastSpawn.value
    {
      if i < n {
        TriesBefore(ts, l, n, i);
        assert ts[..n][i].at <= p.lastSpawn.value;
      }
    }
    if p'.lastSpawn.Some? {
      if TriesAt(ts, l, n) {
        assert ts[n].at == p'.lastSpawn.value;
      } else {
        var k :| 0 <= k < n && TriesAt(ts[..n], l, k) && ts[..n][k].at == p.lastSpawn.value;
        TriesBefore(ts, l, n, k);
      }
    }
  }

  lemma {:induction false} PollerKnows(ts: seq<Tick>, l: Limits)
    requires IsMonotone(ts)
    ensures KnowsAbsence(ts, Exec(ts, l)) && KnowsTries(ts, l, Exec(ts, l))
  {
    if ts != [] {
      var n := |ts| - 1;
      PollerKnows(ts[..n], l);
      NextKnowsAbsence(ts, n, Exec(ts[..n], l), l);
      NextKnowsTries(ts, n, l);
    }
  }

  /** Over any run of ticks on a monotone clock, a tick tries to start a daemon exactly when the
      lock is free, nothing was reached or held since a free tick at least the grace ago, and
      every earlier try is at least the backoff ago. */
  lemma TriesIff(ts: seq<Tick>, l: Limits, j: nat)
    requires IsMonotone(ts) && j < |ts|
    ensures TriesAt(ts, l, j) <==>
              && ts[j].found.LockFree?
              && (exists i: nat :: IsAbsent(ts, i, j + 1) && ts[j].at - ts[i].at >= l.grace)
              && (forall i | 0 <= i < j && TriesAt(ts, l, i) :: ts[j].at - ts[i].at >= l.backoff)
  {
    PollerKnows(ts[..j], l);
    BackoffIff(ts, j, l);
    if ts[j].found.LockFree? {
      SpanIff(ts, j, Exec(ts[..j], l), l);
    }
  }

  lemma SpanIff(ts: seq<Tick>, j: nat, p: PollerView, l: Limits)
    requires IsMonotone(ts) && j < |ts| && ts[j].found.LockFree? && KnowsAbsence(ts[..j], p)
    ensures Elapsed(ts[j].at, AbsentSince(p, ts[j].at)) >= l.grace <==>
              exists i: nat :: IsAbsent(ts, i, j + 1) && ts[j].at - ts[i].at >= l.grace
  {
  }

  lemma BackoffIff(ts: seq<Tick>, j: nat, l: Limits)
    requires IsMonotone(ts) && j < |ts| && KnowsTries(ts[..j], l, Exec(ts[..j], l))
    ensures var p := Exec(ts[..j], l);
            (p.lastSpawn.Some? ==> Elapsed(ts[j].at, p.lastSpawn.value) >= l.backoff) <==>
              forall i | 0 <= i < j && TriesAt(ts, l, i) :: ts[j].at - ts[i].at >= l.backoff
  {
    var before, p := ts[..j], Exec(ts[..j], l);
    forall i | 0 <= i < j
      ensures TriesAt(before, l, i) == TriesAt(ts, l, i) && before[i] == ts[i]
    {
      TriesBefore(ts, l, j, i);
    }
    if p.lastSpawn.Some? {
      var k :| 0 <= k < j && TriesAt(before, l, k) && before[k].at == p.lastSpawn.value;
      assert TriesAt(ts, l, k) && ts[k].at == p.lastSpawn.value;
      assert forall i | 0 <= i < j && TriesAt(ts, l, i) :: TriesAt(before, l, i) && ts[i].at <= p.lastSpawn.value;
    } else {
      assert forall i | 0 <= i < j :: !TriesAt(before, l, i);
    }
  }

  // ----- How often

  function Count(ts: seq<Tick>, l: Limits): (n: nat)
    ensures n <= |ts|
  {
    if ts == [] then 0
    else
      var n := |ts| - 1;
      Count(ts[..n], l) + if TriesAt(ts, l, n) then 1 else 0
  }

  lemma TryIsLater(ts: seq<Tick>, l: Limits, j: nat)
    requires IsMonotone(ts) && j < |ts| && TriesAt(ts, l, j)
    ensures forall i | 0 <= i < j && TriesAt(ts, l, i) :: ts[j].at - ts[i].at >= l.backoff
  {
    TriesIff(ts, l, j);
  }

  function Times(n: nat, d: nat): nat {
    if n == 0 then 0 else Times(n - 1, d) + d
  }

  lemma {:induction false} TimesIsProduct(n: nat, d: nat)
    ensures Times(n, d) == n * d
  {
    if n > 0 {
      TimesIsProduct(n - 1, d);
    }
  }

  /** One more try is a backoff after the last. */
  lemma OneMoreTry(ts: seq<Tick>, l: Limits, n: nat, i: nat, j: nat, count: nat)
    requires IsMonotone(ts) && i <= j < n < |ts| && TriesAt(ts, l, j) && TriesAt(ts, l, n)
    requires count > 0 && ts[j].at - ts[i].at >= Times(count - 1, l.backoff)
    ensures ts[n].at - ts[i].at >= Times(count, l.backoff)
  {
    TryIsLater(ts, l, n);
  }

  /** The tries of a run are spread out over it by at least the backoff; `i` is the first of them
      and `j` the last. */
  lemma {:induction false} TriesSpread(ts: seq<Tick>, l: Limits) returns (i: nat, j: nat)
    requires IsMonotone(ts) && Count(ts, l) > 0
    ensures i <= j < |ts| && TriesAt(ts, l, i) && TriesAt(ts, l, j)
    ensures ts[j].at - ts[i].at >= Times(Count(ts, l) - 1, l.backoff)
  {
    var n := |ts| - 1;
    var before := ts[..n];
    var count := Count(before, l);
    if count == 0 {
      return n, n;
    }
    i, j := TriesSpread(before, l);
    TriesBefore(ts, l, n, i);
    TriesBefore(ts, l, n, j);
    if TriesAt(ts, l, n) {
      OneMoreTry(ts, l, n, i, j, count);
      j := n;
    }
  }

  /** In a run that spans a time T there are at most T / backoff + 1 tries. */
  lemma TriesAreFew(ts: seq<Tick>, l: Limits, span: nat)
    requires IsMonotone(ts) && l.backoff > 0
    requires ts != [] ==> ts[|ts| - 1].at - ts[0].at <= span
    ensures Count(ts, l) <= span / l.backoff + 1
  {
    var n := Count(ts, l);
    if n > 0 {
      var i, j := TriesSpread(ts, l);
      TimesIsProduct(n - 1, l.backoff);
      QuotientBounds(n - 1, l.backoff, span);
    }
  }

  lemma QuotientBounds(n: nat, d: nat, span: nat)
    requires d > 0 && n * d <= span
    ensures n <= span / d
  {
    var q := span / d;
    assert span < (q + 1) * d;
    assert q < n ==> (q + 1) * d <= n * d;
  }

  // ----- The poller

  class Poller {
    const limits: Limits
    var absentSince: Option<int>
    var lastSpawn: Option<int>

    function View(): PollerView
      reads this
    {
      PollerView(absentSince, lastSpawn)
    }

    constructor (limits: Limits)
      ensures this.limits == limits && View() == START
    {
      this.limits := limits;
      absentSince, lastSpawn := None, None;
    }

    /** One tick; `tried` tells whether it tried to start a daemon.  The answer names a daemon as
        started once the grace is over, unless this very tick tried and failed. */
    method TickOnce(t: Tick) returns (state: LinkState, tried: bool)
      modifies this
      ensures View() == Next(old(View()), t, limits)
      ensures tried == Tries(old(View()), t, limits)
      ensures state ==
                match t.found
                case Reached => Connected
                case LockHeld => Starting
                case LockUnreadable => Unreachable(false)
                case LockFree(starts) => Unreachable(PastGrace(View(), t, limits) && (tried ==> starts))
    {
      tried := false;
      match t.found {
        case Reached =>
          absentSince := None;
          state := Connected;
        case LockHeld =>
          absentSince := None;
          state := Starting;
        case LockUnreadable =>
          state := Unreachable(false);
        case LockFree(starts) =>
          if absentSince.None? {
            absentSince := Some(t.at);
          }
          if Elapsed(t.at, absentSince.value) < limits.grace {
            return Unreachable(false), false;
          }
          if lastSpawn.Some? && Elapsed(t.at, lastSpawn.value) < limits.backoff {
            return Unreachable(true), false;
          }
          lastSpawn := Some(t.at);
          tried := true;
          state := Unreachable(starts);
      }
    }
  }
}
