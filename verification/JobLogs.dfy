/** The bounded store of per-job logs (src/job_log.rs), against the whole history of what was
    ever pushed into it. */
module JobLogs {
  import opened Wrappers

  const JOB_LOG_JOBS_CAP: nat := 128
  const JOB_LOG_LINES_CAP: nat := 400
  const JOB_LOG_LINE_CHARS: nat := 2000
  const ELLIPSIS := "\U{2026}"

  datatype JobLogLine = JobLogLine(ts: int, level: string, target: string, message: string)

  datatype Entry = Entry(jobId: string, lines: seq<JobLogLine>, dropped: nat)

  datatype JobLog = JobLog(lines: seq<JobLogLine>, dropped: nat)

  function Clip(line: JobLogLine): JobLogLine {
    if |line.message| > JOB_LOG_LINE_CHARS then
      line.(message := line.message[..JOB_LOG_LINE_CHARS] + ELLIPSIS)
    else line
  }

  /** The line is the other, cut to the limit and marked so if it was longer. */
  predicate IsClipOf(clipped: JobLogLine, line: JobLogLine) {
    && clipped.ts == line.ts && clipped.level == line.level && clipped.target == line.target
    && var n := |line.message|;
       if n <= JOB_LOG_LINE_CHARS then clipped.message == line.message
       else
         && |clipped.message| == JOB_LOG_LINE_CHARS + 1 && clipped.message[JOB_LOG_LINE_CHARS..] == ELLIPSIS
         && clipped.message[..JOB_LOG_LINE_CHARS] <= line.message
  }

  lemma ClipIsClip(line: JobLogLine)
    ensures IsClipOf(Clip(line), line)
  {
  }

  function Last<T>(s: seq<T>, n: nat): seq<T> {
    if |s| <= n then s else s[|s| - n..]
  }

  lemma LastOfOneMore<T>(s: seq<T>, x: T, n: nat)
    requires n > 0
    ensures var t := Last(s, n) + [x];
            Last(s + [x], n) == if |t| > n then t[1..] else t
  {
  }

  // ----- The history

  datatype Push = Pushed(jobId: string, line: JobLogLine)

  type History = seq<Push>

  /** The lines pushed for a job from position `from` on, clipped. */
  function LinesSince(h: History, jobId: string, from: nat): seq<JobLogLine> {
    if |h| <= from then []
    else
      var p := h[|h| - 1];
      LinesSince(h[..|h| - 1], jobId, from) + if p.jobId == jobId then [Clip(p.line)] else []
  }

  predicate StartsOneOf(h: History, starts: seq<nat>, jobId: string) {
    exists k :: 0 <= k < |starts| && starts[k] < |h| && h[starts[k]].jobId == jobId
  }

  /** The positions of the pushes that started an entry: those of a job none of whose entries is
      among the newest `JOB_LOG_JOBS_CAP` then. */
  function Starts(h: History): (starts: seq<nat>)
    ensures forall k | 0 <= k < |starts| :: starts[k] < |h|
  {
    if h == [] then []
    else
      var n := |h| - 1;
      var starts := Starts(h[..n]);
      if StartsOneOf(h[..n], Last(starts, JOB_LOG_JOBS_CAP), h[n].jobId) then starts else starts + [n]
  }

  /** The entries kept are the newest. */
  function Kept(h: History): (kept: seq<nat>)
    ensures |kept| <= JOB_LOG_JOBS_CAP
    ensures forall k | 0 <= k < |kept| :: kept[k] < |h|
  {
    Last(Starts(h), JOB_LOG_JOBS_CAP)
  }

  /** An entry shows the last lines of all pushed for its job since it started, and counts the
      others. */
  function EntryFrom(h: History, start: nat): Entry
    requires start < |h|
  {
    var all := LinesSince(h, h[start].jobId, start);
    var lines := Last(all, JOB_LOG_LINES_CAP);
    Entry(h[start].jobId, lines, |all| - |lines|)
  }

  function EntriesFrom(h: History, starts: seq<nat>): (es: seq<Entry>)
    requires forall k | 0 <= k < |starts| :: starts[k] < |h|
    ensures |es| == |starts|
    ensures forall k | 0 <= k < |es| :: es[k] == EntryFrom(h, starts[k])
  {
    if starts == [] then [] else [EntryFrom(h, starts[0])] + EntriesFrom(h, starts[1..])
  }

  /** What a store shows after the history. */
  function Shown(h: History): seq<Entry> {
    EntriesFrom(h, Kept(h))
  }

  // ----- One push

  function AppendLine(e: Entry, line: JobLogLine): Entry {
    var lines := e.lines + [line];
    if |lines| > JOB_LOG_LINES_CAP then Entry(e.jobId, lines[1..], e.dropped + 1)
    else e.(lines := lines)
  }

  predicate HasJob(jobs: seq<Entry>, jobId: string) {
    exists k :: 0 <= k < |jobs| && jobs[k].jobId == jobId
  }

  ghost predicate AreDistinct(jobs: seq<Entry>) {
    forall i, j | 0 <= i < j < |jobs| :: jobs[i].jobId != jobs[j].jobId
  }

  lemma LinesOfOneMore(h: History, p: Push, start: nat)
    requires start < |h|
    ensures LinesSince(h + [p], h[start].jobId, start)
         == LinesSince(h, h[start].jobId, start) + if p.jobId == h[start].jobId then [Clip(p.line)] else []
  {
    assert (h + [p])[..|h|] == h;
  }

  lemma EntryOfOneMore(h: History, p: Push, start: nat)
    requires start < |h|
    ensures EntryFrom(h + [p], start) ==
              if p.jobId == h[start].jobId then AppendLine(EntryFrom(h, start), Clip(p.line))
              else EntryFrom(h, start)
  {
    LinesOfOneMore(h, p, start);
    LastOfOneMore(LinesSince(h, h[start].jobId, start), Clip(p.line), JOB_LOG_LINES_CAP);
  }

  lemma FirstLine(h: History, p: Push)
    ensures EntryFrom(h + [p], |h|) == AppendLine(Entry(p.jobId, [], 0), Clip(p.line))
  {
    var h' := h + [p];
    assert h'[..|h|] == h;
    assert LinesSince(h, p.jobId, |h|) == [];
    assert LinesSince(h', p.jobId, |h|) == [] + [Clip(p.line)];
  }

  lemma StartsOneIff(h: History)
    ensures forall jobId :: StartsOneOf(h, Kept(h), jobId) <==> HasJob(Shown(h), jobId)
  {
    forall jobId
      ensures StartsOneOf(h, Kept(h), jobId) <==> HasJob(Shown(h), jobId)
    {
      if StartsOneOf(h, Kept(h), jobId) {
        var k :| 0 <= k < |Kept(h)| && Kept(h)[k] < |h| && h[Kept(h)[k]].jobId == jobId;
        assert Shown(h)[k].jobId == jobId;
      }
      if HasJob(Shown(h), jobId) {
        var k :| 0 <= k < |Shown(h)| && Shown(h)[k].jobId == jobId;
        assert h[Kept(h)[k]].jobId == jobId;
      }
    }
  }

  lemma StartsOfOneMore(h: History, p: Push)
    ensures Starts(h + [p]) ==
              if StartsOneOf(h, Kept(h), p.jobId) then Starts(h) else Starts(h) + [|h|]
  {
    assert (h + [p])[..|h|] == h;
  }

  lemma KeptOfOneMore(h: History, p: Push)
    ensures Kept(h + [p]) ==
              if HasJob(Shown(h), p.jobId) then Kept(h)
              else if |Kept(h)| == JOB_LOG_JOBS_CAP then Kept(h)[1..] + [|h|]
              else Kept(h) + [|h|]
  {
    StartsOfOneMore(h, p);
    StartsOneIff(h);
    LastOfOneMore(Starts(h), |h|, JOB_LOG_JOBS_CAP);
  }

  function RPosition(jobs: seq<Entry>, jobId: string): (r: Option<nat>)
    ensures r.Some? ==> r.value < |jobs| && jobs[r.value].jobId == jobId
    ensures r.None? ==> !HasJob(jobs, jobId)
  {
    if jobs == [] then None
    else if jobs[|jobs| - 1].jobId == jobId then Some(|jobs| - 1)
    else RPosition(jobs[..|jobs| - 1], jobId)
  }

  /** The newest entry of the job takes the line; without one, a new entry does, and the oldest
      makes room if need be. */
  function PushOnto(jobs: seq<Entry>, jobId: string, line: JobLogLine): seq<Entry> {
    match RPosition(jobs, jobId)
    case Some(at) => jobs[at := AppendLine(jobs[at], Clip(line))]
    case None =>
      (if |jobs| >= JOB_LOG_JOBS_CAP then jobs[1..] else jobs) + [AppendLine(Entry(jobId, [], 0), Clip(line))]
  }

  lemma PushKeepsDistinct(jobs: seq<Entry>, jobId: string, line: JobLogLine)
    requires AreDistinct(jobs)
    ensures AreDistinct(PushOnto(jobs, jobId, line))
  {
    var after := PushOnto(jobs, jobId, line);
    if RPosition(jobs, jobId).Some? {
      assert forall i | 0 <= i < |jobs| :: after[i].jobId == jobs[i].jobId;
    } else {
      var d := if |jobs| >= JOB_LOG_JOBS_CAP then 1 else 0;
      assert forall i | 0 <= i < |after| - 1 :: after[i] == jobs[i + d];
      assert forall i | 0 <= i < |jobs| :: jobs[i].jobId != jobId;
    }
  }

  lemma SameButOne(shown: seq<Entry>, shown': seq<Entry>, k: nat, e: Entry)
    requires k < |shown| == |shown'|
    requires forall i | 0 <= i < |shown| :: shown'[i] == if i == k then e else shown[i]
    ensures shown' == shown[k := e]
  {
  }

  lemma SameThenOne(shown: seq<Entry>, shown': seq<Entry>, d: nat, e: Entry)
    requires d <= |shown| && |shown'| == |shown| - d + 1 && shown'[|shown| - d] == e
    requires forall i | d <= i < |shown| :: shown'[i - d] == shown[i]
    ensures shown' == shown[d..] + [e]
  {
  }

  lemma PushesToShown(h: History, p: Push, k: nat)
    requires AreDistinct(Shown(h)) && k < |Shown(h)| && Shown(h)[k].jobId == p.jobId
    ensures Shown(h + [p]) == Shown(h)[k := AppendLine(Shown(h)[k], Clip(p.line))]
  {
    KeptOfOneMore(h, p);
    var shown, shown' := Shown(h), Shown(h + [p]);
    forall i | 0 <= i < |shown|
      ensures shown'[i] == if i == k then AppendLine(shown[k], Clip(p.line)) else shown[i]
    {
      EntryOfOneMore(h, p, Kept(h)[i]);
      assert i < k ==> shown[i].jobId != shown[k].jobId;
      assert k < i ==> shown[k].jobId != shown[i].jobId;
    }
    SameButOne(shown, shown', k, AppendLine(shown[k], Clip(p.line)));
  }

  lemma PushesToNew(h: History, p: Push)
    requires !HasJob(Shown(h), p.jobId)
    ensures var d := if |Shown(h)| == JOB_LOG_JOBS_CAP then 1 else 0;
            Shown(h + [p]) == Shown(h)[d..] + [AppendLine(Entry(p.jobId, [], 0), Clip(p.line))]
  {
    KeptOfOneMore(h, p);
    FirstLine(h, p);
    var shown, shown' := Shown(h), Shown(h + [p]);
    var d := if |shown| == JOB_LOG_JOBS_CAP then 1 else 0;
    forall i | d <= i < |shown|
      ensures shown'[i - d] == shown[i]
    {
      EntryOfOneMore(h, p, Kept(h)[i]);
      assert shown[i].jobId != p.jobId;
    }
    SameThenOne(shown, shown', d, AppendLine(Entry(p.jobId, [], 0), Clip(p.line)));
  }

  /** One push to the bounded store keeps it showing what the whole history says. */
  lemma PushShowsHistory(h: History, p: Push)
    requires AreDistinct(Shown(h))
    ensures Shown(h + [p]) == PushOnto(Shown(h), p.jobId, p.line)
  {
    match RPosition(Shown(h), p.jobId) {
      case Some(k) => PushesToShown(h, p, k);
      case None => PushesToNew(h, p);
    }
  }

  /** No job is shown twice. */
  lemma {:induction false} ShownIsDistinct(h: History)
    ensures AreDistinct(Shown(h))
  {
    if h != [] {
      var n := |h| - 1;
      ShownIsDistinct(h[..n]);
      PushShowsHistory(h[..n], h[n]);
      PushKeepsDistinct(Shown(h[..n]), h[n].jobId, h[n].line);
      assert h == h[..n] + [h[n]];
    }
  }

  predicate EndsWith(e: Entry, line: JobLogLine) {
    e.lines != [] && e.lines[|e.lines| - 1] == line
  }

  lemma AppendedEnds(e: Entry, line: JobLogLine)
    ensures EndsWith(AppendLine(e, line), line) && AppendLine(e, line).jobId == e.jobId
  {
  }

  lemma PushedIsThere(jobs: seq<Entry>, jobId: string, line: JobLogLine) returns (k: nat)
    ensures var after := PushOnto(jobs, jobId, line);
            k < |after| && after[k].jobId == jobId && EndsWith(after[k], Clip(line))
  {
    match RPosition(jobs, jobId) {
      case Some(at) =>
        k := at;
        AppendedEnds(jobs[at], Clip(line));
      case None =>
        k := |PushOnto(jobs, jobId, line)| - 1;
        AppendedEnds(Entry(jobId, [], 0), Clip(line));
    }
  }

  /** What was just pushed is shown: clipped, as the last line of its job's only entry. */
  lemma PushedIsShown(h: History, p: Push) returns (k: nat)
    ensures var shown := Shown(h + [p]);
            && k < |shown| && shown[k].jobId == p.jobId
            && shown[k].lines != [] && IsClipOf(shown[k].lines[|shown[k].lines| - 1], p.line)
            && (forall i | 0 <= i < |shown| && shown[i].jobId == p.jobId :: i == k)
  {
    ShownIsDistinct(h);
    PushShowsHistory(h, p);
    k := PushedIsThere(Shown(h), p.jobId, p.line);
    ShownIsDistinct(h + [p]);
    ClipIsClip(p.line);
  }

  // ----- The store

  class JobLogStore {
    var jobs: seq<Entry>
    ghost var history: History

    /** The store shows what its history says. */
    ghost predicate Valid()
      reads this
    {
      jobs == Shown(history)
    }

    constructor ()
      ensures Valid() && history == []
    {
      jobs, history := [], [];
    }

    method PushLine(jobId: string, line: JobLogLine)
      modifies this`jobs
      ensures jobs == PushOnto(old(jobs), jobId, line)
    {
      var clipped := line;
      if |line.message| > JOB_LOG_LINE_CHARS {
        clipped := line.(message := line.message[..JOB_LOG_LINE_CHARS] + ELLIPSIS);
      }
      var index;
      var found := RPosition(jobs, jobId);
      if found.Some? {
        index := found.value;
      } else {
        jobs := jobs + [Entry(jobId, [], 0)];
        if |jobs| > JOB_LOG_JOBS_CAP {
          jobs := jobs[1..];
        }
        index := |jobs| - 1;
      }
      var entry := jobs[index];
      entry := entry.(lines := entry.lines + [clipped]);
      if |entry.lines| > JOB_LOG_LINES_CAP {
        entry := entry.(lines := entry.lines[1..], dropped := entry.dropped + 1);
      }
      jobs := jobs[index := entry];
    }

    method Push(jobId: string, line: JobLogLine)
      requires Valid()
      modifies this
      ensures Valid() && history == old(history) + [Pushed(jobId, line)]
    {
      ShownIsDistinct(history);
      PushShowsHistory(history, Pushed(jobId, line));
      PushLine(jobId, line);
      history := history + [Pushed(jobId, line)];
    }

    /** The job's only kept entry, if one is kept. */
    method Get(jobId: string) returns (log: Option<JobLog>)
      requires Valid()
      ensures log.Some? <==> StartsOneOf(history, Kept(history), jobId)
      ensures forall k | 0 <= k < |Kept(history)| && history[Kept(history)[k]].jobId == jobId ::
                log == Some(JobLog(EntryFrom(history, Kept(history)[k]).lines,
                                   EntryFrom(history, Kept(history)[k]).dropped))
    {
      StartsOneIff(history);
      ShownIsDistinct(history);
      match RPosition(jobs, jobId) {
        case None =>
          log := None;
        case Some(at) =>
          assert HasJob(jobs, jobId);
          log := Some(JobLog(jobs[at].lines, jobs[at].dropped));
          forall k | 0 <= k < |Kept(history)| && history[Kept(history)[k]].jobId == jobId
            ensures k == at
          {
            assert jobs[k].jobId == jobId;
          }
      }
    }
  }
}
