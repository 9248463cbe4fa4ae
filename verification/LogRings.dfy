/** The worker log ring and its copy in the tray UI (src/job_log.rs, src/runtime.rs,
    src/daemon_link.rs): the daemon keeps the newest entries under a sequence number, the UI
    polls what is new and appends it to its own ring. */
module LogRings {
  import opened Wrappers

  const RECENT_LOGS_CAP: nat := 1000

  /** Values of the source's 64-bit counters; its arithmetic wraps (in a release build). */
  const U64: nat := 0x1_0000_0000_0000_0000

  datatype LogEntry = LogEntry(ts: string, level: string, category: string, message: string, jobId: Option<string>)

  type Entries = seq<LogEntry>

  /** The newest entries of `s`, at most the cap. */
  function Newest(s: Entries): Entries {
    if |s| <= RECENT_LOGS_CAP then s else s[|s| - RECENT_LOGS_CAP..]
  }

  lemma DropTwice(s: Entries, k: nat, j: nat)
    requires k + j <= |s|
    ensures s[k..][j..] == s[k + j..]
  {
  }

  /** What comes before the newest does not matter. */
  lemma NewestOfRest(s: Entries, k: nat)
    requires k + RECENT_LOGS_CAP <= |s|
    ensures Newest(s[k..]) == Newest(s)
  {
    DropTwice(s, k, |s| - k - RECENT_LOGS_CAP);
  }

  lemma NewestOfBoth(a: Entries, b: Entries)
    ensures Newest(Newest(a) + Newest(b)) == Newest(a + b)
  {
    var k := if |a| > RECENT_LOGS_CAP then |a| - RECENT_LOGS_CAP else 0;
    if |b| > RECENT_LOGS_CAP {
      var end := b[|b| - RECENT_LOGS_CAP..];
      assert (a + b)[|a| + |b| - RECENT_LOGS_CAP..] == end;
      assert (Newest(a) + end)[|Newest(a)|..] == end;
      NewestOfRest(a + b, |a| + |b| - RECENT_LOGS_CAP);
      NewestOfRest(Newest(a) + end, |Newest(a)|);
    } else if |a| > RECENT_LOGS_CAP {
      assert (a + b)[k..] == a[k..] + b;
      NewestOfRest(a + b, k);
    }
  }

  // ----- The daemon's ring

  datatype Ring = Ring(entries: Entries, newest: nat)

  /** The ring of a daemon that has logged exactly `history`. */
  function RingOf(history: Entries): Ring {
    Ring(Newest(history), |history|)
  }

  /** That ring holds the newest entries, in order, as many as there are up to the cap; and their
      number is how many were logged. */
  lemma RingHoldsNewest(history: Entries)
    ensures var ring := RingOf(history);
            && |ring.entries| == (if |history| < RECENT_LOGS_CAP then |history| else RECENT_LOGS_CAP)
            && ring.entries == history[|history| - |ring.entries|..]
            && ring.newest == |history|
  {
  }

  class WorkerLogRing {
    var entries: Entries
    var newest: nat

    function View(): Ring
      reads this
    {
      Ring(entries, newest)
    }

    constructor ()
      ensures View() == RingOf([])
    {
      entries, newest := [], 0;
    }

    /** Append `entry`, keeping the newest: the ring is that of a history one entry longer. */
    method Push(entry: LogEntry, ghost history: Entries)
      requires View() == RingOf(history)
      modifies this
      ensures View() == RingOf(history + [entry])
    {
      newest := newest + 1;
      entries := entries + [entry];
      ghost var all := entries;
      while |entries| > RECENT_LOGS_CAP
        invariant newest == |history| + 1
        invariant Newest(entries) == Newest(all)
        invariant |entries| >= |Newest(all)|
      {
        entries := entries[1..];
      }
      NewestOfBoth(history, [entry]);
    }
  }

  /** The source's subtraction of one counter from another: below zero it wraps. */
  function Minus(a: nat, b: nat): int {
    if b <= a then a - b else a - b + U64
  }

  /** Entries newer than `after`, and the newest number. */
  function RecentLogsAfter(ring: Ring, after: nat): (Entries, nat)
    requires |ring.entries| <= ring.newest
  {
    var oldest := ring.newest - |ring.entries|;
    var from := if after > ring.newest then 0 else if after >= oldest then after else oldest;
    var skip := Minus(from, oldest);
    (if 0 <= skip <= |ring.entries| then ring.entries[skip..] else [], ring.newest)
  }

  /** The subtraction in `RecentLogsAfter` stays within the naturals. */
  predicate DoesNotUnderflow(ring: Ring, after: nat)
    requires |ring.entries| <= ring.newest
  {
    after <= ring.newest || ring.newest == |ring.entries|
  }

  /** What a poll answers, by history: the newest of what came after `after`; the whole ring to
      a client ahead of a daemon that has dropped nothing yet; and nothing at all, instead of
      the whole ring, to one ahead of a daemon that has. */
  lemma PageOfHistory(history: Entries, after: nat)
    requires |history| < U64
    ensures RecentLogsAfter(RingOf(history), after) ==
              (if after <= |history| then Newest(history[after..])
               else if |history| <= RECENT_LOGS_CAP then history
               else [],
               |history|)
  {
  }

  /** "An `after` beyond the newest number answers the whole ring" holds exactly when the
      subtraction does not underflow: while the daemon's ring has dropped nothing. */
  lemma WholeRingToClientsAheadIff(history: Entries, after: nat)
    requires |history| < U64 && after > |history|
    ensures RecentLogsAfter(RingOf(history), after).0 == RingOf(history).entries
            <==> DoesNotUnderflow(RingOf(history), after)
  {
  }

  // ----- The UI's replica

  /** `shown` is the number the Logs page reads, `seqNo` the one the next poll asks after. */
  datatype ReplicaView = ReplicaView(entries: Entries, seqNo: nat, shown: nat)

  function ApplyLogs(r: ReplicaView, page: Entries, seqNo: nat): ReplicaView {
    ReplicaView(Newest((if seqNo < r.seqNo then [] else r.entries) + page), seqNo, seqNo)
  }

  function Clear(r: ReplicaView): ReplicaView {
    r.(entries := [], seqNo := 0)
  }

  class Replica {
    var entries: Entries
    var seqNo: nat
    var shown: nat

    function View(): ReplicaView
      reads this
    {
      ReplicaView(entries, seqNo, shown)
    }

    constructor ()
      ensures View() == ReplicaView([], 0, 0)
    {
      entries, seqNo, shown := [], 0, 0;
    }

    method Apply(page: Entries, pageSeq: nat)
      modifies this
      ensures View() == ApplyLogs(old(View()), page, pageSeq)
    {
      if pageSeq < seqNo {
        entries := [];
      }
      entries := entries + page;
      ghost var all := entries;
      while |entries| > RECENT_LOGS_CAP
        invariant Newest(entries) == Newest(all)
        invariant |entries| >= |Newest(all)|
      {
        entries := entries[1..];
      }
      seqNo := pageSeq;
      shown := pageSeq;
    }

    method Forget()
      modifies this
      ensures View() == Clear(old(View()))
    {
      entries := [];
      seqNo := 0;
    }
  }

  function Poll(r: ReplicaView, ring: Ring): ReplicaView
    requires |ring.entries| <= ring.newest
  {
    var (page, seqNo) := RecentLogsAfter(ring, r.seqNo);
    ApplyLogs(r, page, seqNo)
  }

  /** The replica shows exactly what the daemon with this history shows. */
  predicate ShowsAll(r: ReplicaView, history: Entries) {
    r.entries == RingOf(history).entries && r.seqNo == r.shown == |history|
  }

  /** A replica last in step with a daemon of history `seen` (empty if cleared since) that now
      polls a daemon of history `now`: what it shows then. */
  lemma PollShows(r: ReplicaView, seen: Entries, now: Entries)
    requires r.entries == Newest(seen) && r.seqNo == |seen|
    requires |now| < U64
    ensures Poll(r, RingOf(now)) ==
              ReplicaView(if |seen| <= |now| then Newest(seen + now[|seen|..])
                          else if |now| <= RECENT_LOGS_CAP then now
                          else [],
                          |now|, |now|)
  {
    PageOfHistory(now, |seen|);
    var page := RecentLogsAfter(RingOf(now), |seen|).0;
    assert Poll(r, RingOf(now)) == ApplyLogs(r, page, |now|);
    if |now| < |seen| {
      assert [] + page == page;
    } else {
      assert page == Newest(now[|seen|..]);
      NewestOfBoth(seen, now[|seen|..]);
    }
  }

  /** Dropping from both what comes before `drop`: the mixed history looks like `now` exactly
      when the rest of `seen` does. */
  lemma MixedIff(seen: Entries, now: Entries, drop: nat)
    requires |seen| <= |now| && drop <= |now|
    ensures (seen + now[|seen|..])[drop..] == now[drop..] <==> forall i | drop <= i < |seen| :: seen[i] == now[i]
  {
    var mixed := seen + now[|seen|..];
    assert forall i | drop <= i < |now| :: mixed[drop..][i - drop] == mixed[i] && now[drop..][i - drop] == now[i];
  }

  lemma NewestFrom(s: Entries)
    ensures Newest(s) == s[(if |s| <= RECENT_LOGS_CAP then 0 else |s| - RECENT_LOGS_CAP)..]
  {
  }

  /** The two histories agree wherever the daemon's ring reaches below the replica's number or,
      with the replica ahead, the daemon's ring has dropped nothing yet. */
  predicate Tells(seen: Entries, now: Entries) {
    if |seen| <= |now| then
      forall i | |now| - RECENT_LOGS_CAP <= i < |seen| && 0 <= i :: seen[i] == now[i]
    else
      |now| <= RECENT_LOGS_CAP
  }

  lemma MixedTells(seen: Entries, now: Entries)
    requires |seen| <= |now|
    ensures Newest(seen + now[|seen|..]) == Newest(now) <==> Tells(seen, now)
  {
    var drop := if |now| <= RECENT_LOGS_CAP then 0 else |now| - RECENT_LOGS_CAP;
    NewestFrom(now);
    NewestFrom(seen + now[|seen|..]);
    MixedIff(seen, now, drop);
  }

  /** With the replica ahead, it shows all exactly if it is given the daemon's whole history. */
  lemma AheadTells(seen: Entries, now: Entries)
    requires |now| < |seen|
    ensures (if |now| <= RECENT_LOGS_CAP then now else []) == Newest(now) <==> Tells(seen, now)
  {
  }

  /** A replica in step shows what the daemon shows exactly when the histories tell. */
  lemma PollShowsAllIff(r: ReplicaView, seen: Entries, now: Entries)
    requires r.entries == Newest(seen) && r.seqNo == |seen|
    requires |now| < U64
    ensures ShowsAll(Poll(r, RingOf(now)), now) <==> Tells(seen, now)
  {
    PollShows(r, seen, now);
    if |seen| <= |now| {
      MixedTells(seen, now);
    } else {
      AheadTells(seen, now);
    }
  }

  // ----- Runs

  datatype Event = Log(entry: LogEntry) | PollOk | PollFailed | DaemonRestart

  /** The daemon's history since it started, the replica, and the history the replica last polled
      (none since it was cleared). */
  datatype World = World(history: Entries, replica: ReplicaView, seen: Entries)

  const START := World([], ReplicaView([], 0, 0), [])

  function Next(w: World, e: Event): World {
    match e
    case Log(entry) => w.(history := w.history + [entry])
    case PollOk => w.(replica := Poll(w.replica, RingOf(w.history)), seen := w.history)
    case PollFailed => w.(replica := Clear(w.replica), seen := [])
    case DaemonRestart => w.(history := [])
  }

  function Exec(es: seq<Event>): World {
    if es == [] then START else Next(Exec(es[..|es| - 1]), es[|es| - 1])
  }

  /** The entries logged, in order. */
  function Logged(es: seq<Event>): Entries {
    if es == [] then []
    else Logged(es[..|es| - 1]) + match es[|es| - 1] case Log(entry) => [entry] case _ => []
  }

  /** The daemon's history is what was logged since its process started, at the restart `i` if there
      was one. */
  lemma {:induction false} HistoryIsLogged(es: seq<Event>, i: int)
    requires -1 <= i < |es| && (i >= 0 ==> es[i].DaemonRestart?)
    requires forall k | i < k < |es| :: !es[k].DaemonRestart?
    ensures Exec(es).history == Logged(es[i + 1..])
  {
    if i < |es| - 1 {
      var before := es[..|es| - 1];
      HistoryIsLogged(before, i);
      assert es[i + 1..][..|es[i + 1..]| - 1] == before[i + 1..];
    }
  }

  /** After every successful poll the replica showed exactly the daemon's ring and number. */
  predicate AreRight(es: seq<Event>) {
    es == [] ||
    (&& AreRight(es[..|es| - 1])
     && (es[|es| - 1].PollOk? ==> ShowsAll(Exec(es).replica, Exec(es).history)))
  }

  /** At every successful poll the histories told. */
  predicate CouldTell(es: seq<Event>) {
    es == [] ||
    (&& CouldTell(es[..|es| - 1])
     && (es[|es| - 1].PollOk? ==> Tells(Exec(es[..|es| - 1]).seen, Exec(es[..|es| - 1]).history)))
  }

  predicate IsInStep(w: World) {
    w.replica.entries == Newest(w.seen) && w.replica.seqNo == |w.seen|
  }

  ghost predicate IsShort(es: seq<Event>) {
    forall i | 0 <= i <= |es| :: |Exec(es[..i]).history| < U64
  }

  lemma ShortBefore(es: seq<Event>)
    requires IsShort(es) && es != []
    ensures IsShort(es[..|es| - 1]) && |Exec(es[..|es| - 1]).history| < U64
  {
    var before := es[..|es| - 1];
    forall i | 0 <= i <= |before|
      ensures |Exec(before[..i]).history| < U64
    {
      assert before[..i] == es[..i];
    }
    assert before[..|before|] == before;
  }

  /** Over any run of log entries, polls, failed polls and daemon restarts: the replica shows exactly
      the daemon's ring and number after every successful poll if and only if the histories tell at
      each of them, however much was logged or dropped in between. */
  lemma {:induction false} ReplicaEqualsDaemonAtEachPoll(es: seq<Event>)
    requires IsShort(es)
    ensures AreRight(es) <==> CouldTell(es)
    ensures AreRight(es) ==> IsInStep(Exec(es))
  {
    if es != [] {
      var before := es[..|es| - 1];
      ShortBefore(es);
      ReplicaEqualsDaemonAtEachPoll(before);
      var w := Exec(before);
      if AreRight(before) && es[|es| - 1].PollOk? {
        PollShowsAllIff(w.replica, w.seen, w.history);
      }
    }
  }

  /** While one daemon process runs, its history only grows: every poll tells, and so does one that
      finds a ring with nothing of before the restart in it. */
  lemma OneProcessTells(seen: Entries, now: Entries)
    ensures seen <= now ==> Tells(seen, now)
    ensures |seen| + RECENT_LOGS_CAP <= |now| ==> Tells(seen, now)
  {
  }

  /** What the replica last polled is a beginning of the daemon's history, until it restarts. */
  lemma {:induction false} SeenIsBeginning(es: seq<Event>)
    requires forall i | 0 <= i < |es| :: !es[i].DaemonRestart?
    ensures Exec(es).seen <= Exec(es).history
    ensures CouldTell(es)
  {
    if es != [] {
      SeenIsBeginning(es[..|es| - 1]);
      OneProcessTells(Exec(es[..|es| - 1]).seen, Exec(es[..|es| - 1]).history);
    }
  }
}
