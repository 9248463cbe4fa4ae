/** Registration with the studio (src/auto_register.rs, and the loop around it in
    src/runtime.rs), one step for each thing a crash can fall between: a change in memory, a
    save, a round trip. */
module Registrations {
  import opened Wrappers

  /** The registration fields of the configuration, as held in memory and as saved. */
  datatype Config = Config(
    installId: Option<string>,
    workerId: Option<string>,
    authToken: Option<string>,
    requestId: Option<string>,
    secret: Option<string>)
  {
    predicate Approved() {
      workerId.Some? && authToken.Some?
    }

    /** With this configuration the worker will not ask the studio for a new request. */
    predicate Held() {
      requestId.Some? || Approved()
    }
  }

  const CLEARED := Config(None, None, None, None, None)

  /** Where the registration thread is. */
  datatype Phase =
    | Asking
    | Seeding
    | Choosing
    | Posting(hashed: string)
    | Storing
    | Polling(requestId: string, secret: string)
    | Clearing(rejected: bool)
    | Granting
    | Ready
    | Refused
    | Resetting
    | Stopped

  /** `posted` is what the studio knows: for each request, the secret whose hash was posted. */
  datatype World = World(mem: Config, disk: Config, posted: map<string, string>, phase: Phase)

  /** `Lost`: the studio took the request, but the reply did not arrive. */
  datatype PostReply = Failed | Lost(requestId: string) | Accepted(requestId: string)

  datatype PollReply = Unreachable | Unknown | Pending | Granted(workerId: string, authToken: string) | Rejected

  datatype Event =
    | Begin(uuid: string, made: string)
    | Save(ok: bool)
    | Choose(made: string)
    | Unbuilt
    | Reply(post: PostReply)
    | Answer(poll: PollReply)
    | Reset
    | Crash
    | ResetFile

  /** Install id and secret are made up when missing; the secret only if no request is open. */
  function Seeded(c: Config, uuid: string, made: string): Config {
    var c := if c.installId.None? then c.(installId := Some(uuid)) else c;
    if c.requestId.None? && c.secret.None? then c.(secret := Some(made)) else c
  }

  function Begun(w: World, uuid: string, made: string): World {
    if w.mem.Approved() then w.(phase := Ready)
    else
      var seeded := Seeded(w.mem, uuid, made);
      w.(mem := seeded, phase := if seeded == w.mem then Choosing else Seeding)
  }

  /** Where a finished save leads. */
  function AfterSave(phase: Phase, ok: bool): Phase {
    match phase
    case Seeding => Choosing
    case Storing => Asking
    case Clearing(rejected) => if rejected then Refused else Asking
    case Granting => Ready
    case Resetting => if ok then Asking else Stopped
    case _ => phase
  }

  predicate IsSaving(phase: Phase) {
    phase.Seeding? || phase.Storing? || phase.Clearing? || phase.Granting? || phase.Resetting?
  }

  function Saved(w: World, ok: bool): World {
    if IsSaving(w.phase) then
      w.(disk := if ok then w.mem else w.disk, phase := AfterSave(w.phase, ok))
    else w
  }

  function Chosen(w: World, made: string): World {
    match (w.mem.requestId, w.mem.secret)
    case (Some(requestId), Some(secret)) => w.(phase := Polling(requestId, secret))
    case (_, Some(secret)) => w.(phase := Posting(secret))
    case (_, None) => w.(mem := w.mem.(secret := Some(made)), phase := Posting(made))
  }

  function Replied(w: World, post: PostReply): World
    requires w.phase.Posting?
  {
    match post
    case Failed => w.(phase := Asking)
    case Lost(id) => w.(posted := w.posted[id := w.phase.hashed], phase := Asking)
    case Accepted(id) =>
      w.(posted := w.posted[id := w.phase.hashed], mem := w.mem.(requestId := Some(id)), phase := Storing)
  }

  function Answered(w: World, poll: PollReply): World {
    match poll
    case Unreachable => w.(phase := Asking)
    case Pending => w.(phase := Asking)
    case Unknown => w.(mem := w.mem.(requestId := None, secret := None), phase := Clearing(false))
    case Rejected => w.(mem := w.mem.(requestId := None, secret := None), phase := Clearing(true))
    case Granted(workerId, authToken) =>
      w.(mem := Config(w.mem.installId, Some(workerId), Some(authToken), None, None), phase := Granting)
  }

  /** One step; an event that cannot happen where the worker is changes nothing. */
  function Next(w: World, e: Event): World {
    match e
    case Begin(uuid, made) => if w.phase.Asking? then Begun(w, uuid, made) else w
    case Save(ok) => Saved(w, ok)
    case Choose(made) => if w.phase.Choosing? then Chosen(w, made) else w
    case Unbuilt => if w.phase.Posting? then w.(phase := Asking) else w
    case Reply(post) => if w.phase.Posting? then Replied(w, post) else w
    case Answer(poll) => if w.phase.Polling? then Answered(w, poll) else w
    case Reset => if w.phase.Ready? || w.phase.Refused? then w.(mem := CLEARED, phase := Resetting) else w
    // The process ends; the next one starts from what is saved.
    case Crash => w.(mem := w.disk, phase := Asking)
    // `register --reset` clears the file, whether a daemon runs (and keeps its memory) or not.
    case ResetFile => w.(disk := CLEARED)
  }

  function Exec(w: World, es: seq<Event>): World {
    if es == [] then w else Next(Exec(w, es[..|es| - 1]), es[|es| - 1])
  }

  /** The studio gives a request id to one secret hash only. */
  predicate Possible(w: World, e: Event) {
    e.Reply? && !e.post.Failed? && w.phase.Posting? && e.post.requestId in w.posted ==>
      w.posted[e.post.requestId] == w.phase.hashed
  }

  ghost predicate CanRun(w: World, es: seq<Event>) {
    forall i | 0 <= i < |es| :: Possible(Exec(w, es[..i]), es[i])
  }

  // ----- What holds in every reachable state

  /** A request id is paired with the very secret whose hash was posted for it, and never lies
      beside credentials. */
  predicate IsPaired(c: Config, posted: map<string, string>) {
    && (c.requestId.Some? ==>
          && c.secret.Some?
          && c.requestId.value in posted
          && posted[c.requestId.value] == c.secret.value)
    && (c.workerId.Some? <==> c.authToken.Some?)
    && (c.Approved() ==> c.requestId.None? && c.secret.None?)
  }

  predicate FitsPhase(mem: Config, phase: Phase) {
    match phase
    case Asking => true
    case Seeding => mem.installId.Some? && !mem.Approved() && (mem.requestId.Some? || mem.secret.Some?)
    case Choosing => mem.installId.Some? && !mem.Approved() && (mem.requestId.Some? || mem.secret.Some?)
    case Posting(hashed) => !mem.Held() && mem.installId.Some? && mem.secret == Some(hashed)
    case Storing => mem.requestId.Some?
    case Polling(requestId, secret) => mem.requestId == Some(requestId) && mem.secret == Some(secret)
    case Granting => mem.Approved()
    case Ready => mem.Approved()
    case _ => !mem.Held() && mem.secret.None?
  }

  predicate Inv(w: World) {
    && IsPaired(w.mem, w.posted)
    && IsPaired(w.disk, w.posted)
    && FitsPhase(w.mem, w.phase)
  }

  /** The studio learning of one more request does not unpair a configuration. */
  lemma PostKeepsPairs(c: Config, posted: map<string, string>, id: string, hashed: string)
    requires IsPaired(c, posted) && (id in posted ==> posted[id] == hashed)
    ensures IsPaired(c, posted[id := hashed])
  {
  }

  lemma NextKeeps(w: World, e: Event)
    requires Inv(w) && Possible(w, e)
    ensures Inv(Next(w, e))
  {
    if e.Reply? && w.phase.Posting? && !e.post.Failed? {
      PostKeepsPairs(w.mem, w.posted, e.post.requestId, w.phase.hashed);
      PostKeepsPairs(w.disk, w.posted, e.post.requestId, w.phase.hashed);
    }
  }

  lemma CanRunBefore(w: World, es: seq<Event>)
    requires CanRun(w, es) && es != []
    ensures CanRun(w, es[..|es| - 1])
    ensures Possible(Exec(w, es[..|es| - 1]), es[|es| - 1])
  {
    var before := es[..|es| - 1];
    forall i | 0 <= i < |before|
      ensures Possible(Exec(w, before[..i]), before[i])
    {
      assert before[..i] == es[..i];
    }
  }

  lemma {:induction false} RunKeeps(w: World, es: seq<Event>)
    requires Inv(w) && CanRun(w, es)
    ensures Inv(Exec(w, es))
  {
    if es != [] {
      CanRunBefore(w, es);
      RunKeeps(w, es[..|es| - 1]);
      NextKeeps(Exec(w, es[..|es| - 1]), es[|es| - 1]);
    }
  }

  /** A process that has just read its configuration; `posted` is what the studio knows by then. */
  function Start(c: Config, posted: map<string, string>): World {
    World(c, c, posted, Asking)
  }

  /** The configuration of a first process: no request is open, and there are credentials or none. */
  predicate IsFirst(c: Config) {
    c.requestId.None? && c.secret.None? && (c.workerId.Some? <==> c.authToken.Some?)
  }

  /** In every reachable state, in memory and on disk, across crashes anywhere and failed saves: a
      request id is paired with the very secret posted for it and never lies beside credentials;
      and what the worker polls is such a pair. */
  lemma RequestsKeepTheirSecrets(c: Config, posted: map<string, string>, es: seq<Event>)
    requires IsFirst(c) && CanRun(Start(c, posted), es)
    ensures Inv(Exec(Start(c, posted), es))
  {
    RunKeeps(Start(c, posted), es);
  }

  /** The source's fallbacks are never needed: when the worker chooses what to do, it has an
      install id and a secret. */
  lemma NothingIsMissing(c: Config, posted: map<string, string>, es: seq<Event>)
    requires IsFirst(c) && CanRun(Start(c, posted), es) && Exec(Start(c, posted), es).phase.Choosing?
    ensures Exec(Start(c, posted), es).mem.installId.Some? && Exec(Start(c, posted), es).mem.secret.Some?
  {
    RunKeeps(Start(c, posted), es);
  }

  // ----- One request at a time

  /** What may lead to a second request: the studio does not know the first, or rejected it; a
      reset; or a crash that forgets it, its saves having failed or its file having been reset. */
  predicate Settles(w: World, e: Event) {
    || (e.Answer? && w.phase.Polling? && (e.poll.Unknown? || e.poll.Rejected?))
    || (e.Reset? && (w.phase.Ready? || w.phase.Refused?))
    || (e.Crash? && !w.disk.Held())
  }

  lemma HeldOrSettled(w: World, e: Event)
    requires Inv(w) && Possible(w, e) && w.mem.Held() && !Settles(w, e)
    ensures Next(w, e).mem.Held()
  {
  }

  /** A run after which nothing is held, though something was, has settled it. */
  lemma {:induction false} ReleasedIsSettled(w: World, es: seq<Event>) returns (i: nat)
    requires Inv(w) && CanRun(w, es) && w.mem.Held() && !Exec(w, es).mem.Held()
    ensures i < |es| && Settles(Exec(w, es[..i]), es[i])
  {
    var before := es[..|es| - 1];
    CanRunBefore(w, es);
    RunKeeps(w, before);
    if Exec(w, before).mem.Held() {
      i := |es| - 1;
      if !Settles(Exec(w, before), es[i]) {
        HeldOrSettled(Exec(w, before), es[i]);
      }
    } else {
      i := ReleasedIsSettled(w, before);
      assert before[..i] == es[..i];
    }
  }

  lemma {:induction false} ExecAfterFirst(w: World, es: seq<Event>, i: nat)
    requires i < |es|
    ensures Exec(w, es[..i + 1]) == Exec(Next(w, es[0]), es[1..][..i])
  {
    if i == 0 {
      assert es[..1][..0] == [] && es[1..][..0] == [];
    } else {
      ExecAfterFirst(w, es, i - 1);
      assert es[..i + 1][..i] == es[..i];
      assert es[1..][..i][..i - 1] == es[1..][..i - 1];
      assert es[1..][..i][i - 1] == es[i];
    }
  }

  lemma CanRunAfterFirst(w: World, es: seq<Event>)
    requires CanRun(w, es) && es != []
    ensures CanRun(Next(w, es[0]), es[1..]) && Possible(w, es[0])
  {
    var w', rest := Next(w, es[0]), es[1..];
    assert es[..0] == [];
    assert Possible(Exec(w, es[..0]), es[0]);
    forall i | 0 <= i < |rest|
      ensures Possible(Exec(w', rest[..i]), rest[i])
    {
      ExecAfterFirst(w, es, i);
      assert Possible(Exec(w, es[..i + 1]), es[i + 1]);
    }
  }

  lemma ExecRest(w: World, es: seq<Event>)
    requires es != []
    ensures Exec(w, es) == Exec(Next(w, es[0]), es[1..])
  {
    var n := |es| - 1;
    ExecAfterFirst(w, es, n);
    assert es[..n + 1] == es && es[1..][..n] == es[1..];
  }

  /** Between an accepted post and the next time the worker posts there is a 404, a rejection, a
      reset, or a crash while neither a request id nor credentials are on disk. */
  lemma BetweenTwoPosts(w: World, es: seq<Event>) returns (i: nat)
    requires Inv(w) && CanRun(w, es) && w.phase.Posting?
    requires es != [] && es[0].Reply? && es[0].post.Accepted? && Exec(w, es).phase.Posting?
    ensures 0 < i < |es| && Settles(Exec(w, es[..i]), es[i])
  {
    CanRunAfterFirst(w, es);
    NextKeeps(w, es[0]);
    RunKeeps(w, es);
    ExecRest(w, es);
    var k := ReleasedIsSettled(Next(w, es[0]), es[1..]);
    ExecAfterFirst(w, es, k);
    i := k + 1;
  }

  // ----- Crashes

  /** What the worker does after a crash is decided by what is on disk: with credentials it
      serves, with a request id it polls that request with its secret, and only with neither
      does it post another request. */
  lemma CrashRepostsIff(w: World, uuid: string, made: string, ok: bool, other: string)
    requires Inv(w)
    ensures var phase := Exec(w, [Crash, Begin(uuid, made), Save(ok), Choose(other)]).phase;
            && (phase.Ready? <==> w.disk.Approved())
            && (phase.Polling? <==> w.disk.requestId.Some?)
            && (phase.Posting? <==> !w.disk.Held())
            && (phase.Polling? ==> phase == Polling(w.disk.requestId.value, w.disk.secret.value))
  {
    ExecFour(w, Crash, Begin(uuid, made), Save(ok), Choose(other));
  }

  lemma ExecTwo(w: World, a: Event, b: Event)
    ensures Exec(w, [a, b]) == Next(Next(w, a), b)
  {
    ExecRest(w, [a, b]);
    ExecRest(Next(w, a), [b]);
    assert [a, b][1..] == [b];
  }

  lemma ExecThree(w: World, a: Event, b: Event, c: Event)
    ensures Exec(w, [a, b, c]) == Next(Next(Next(w, a), b), c)
  {
    ExecRest(w, [a, b, c]);
    ExecRest(Next(w, a), [b, c]);
    ExecRest(Next(Next(w, a), b), [c]);
    assert [a, b, c][1..] == [b, c] && [b, c][1..] == [c];
  }

  lemma ExecFour(w: World, a: Event, b: Event, c: Event, d: Event)
    ensures Exec(w, [a, b, c, d]) == Next(Next(Next(Next(w, a), b), c), d)
  {
    ExecRest(w, [a, b, c, d]);
    ExecRest(Next(w, a), [b, c, d]);
    ExecRest(Next(Next(w, a), b), [c, d]);
    ExecRest(Next(Next(Next(w, a), b), c), [d]);
    assert [a, b, c, d][1..] == [b, c, d] && [b, c, d][1..] == [c, d] && [c, d][1..] == [d];
  }

  /** With credentials granted but not saved the worker does not register from scratch: the next
      process asks about the same request again, as long as that request was saved. */
  lemma UnsavedApprovalAsksAgain(w: World, uuid: string, made: string, ok: bool, other: string)
    requires Inv(w) && w.phase.Granting? && w.disk.requestId.Some?
    ensures Exec(Next(w, Save(false)), [Crash, Begin(uuid, made), Save(ok), Choose(other)]).phase
         == Polling(w.disk.requestId.value, w.disk.secret.value)
  {
    var w' := Next(w, Save(false));
    NextKeeps(w, Save(false));
    CrashRepostsIff(w', uuid, made, ok, other);
  }

  /** Memory and disk agree but for the change being saved. */
  predicate InSync(w: World) {
    && (!IsSaving(w.phase) ==> w.mem == w.disk)
    && (w.phase.Seeding? ==> w.disk.requestId == w.mem.requestId)
    && (w.phase.Granting? ==> w.disk.requestId.Some?)
    && (w.phase.Clearing? ==> w.disk.requestId.Some?)
  }

  lemma NextKeepsSync(w: World, e: Event)
    requires Inv(w) && Possible(w, e) && InSync(w) && !(e.Save? && !e.ok) && !e.ResetFile?
    ensures InSync(Next(w, e))
  {
  }

  lemma {:induction false} SavingKeepsSync(w: World, es: seq<Event>)
    requires Inv(w) && CanRun(w, es) && InSync(w)
    requires forall i | 0 <= i < |es| :: !es[i].ResetFile? && (es[i].Save? ==> es[i].ok)
    ensures InSync(Exec(w, es))
  {
    if es != [] {
      CanRunBefore(w, es);
      SavingKeepsSync(w, es[..|es| - 1]);
      RunKeeps(w, es[..|es| - 1]);
      NextKeepsSync(Exec(w, es[..|es| - 1]), es[|es| - 1]);
    }
  }

  lemma InSyncForgets(w: World)
    requires Inv(w) && InSync(w)
    ensures w.mem.Held() && !w.disk.Held() ==> w.phase.Storing?
  {
  }

  /** If no save fails, a crash forgets an accepted request only between the studio's reply and
      its save, unless the file was reset under the running daemon. */
  lemma OnlyStoringForgets(c: Config, posted: map<string, string>, es: seq<Event>)
    requires IsFirst(c) && CanRun(Start(c, posted), es)
    requires forall i | 0 <= i < |es| && es[i].Save? :: es[i].ok
    ensures var end := Exec(Start(c, posted), es);
            end.mem.Held() && !end.disk.Held() ==>
              end.phase.Storing? || exists i :: 0 <= i < |es| && es[i].ResetFile?
  {
    var w := Start(c, posted);
    if forall i | 0 <= i < |es| :: !es[i].ResetFile? {
      SavingKeepsSync(w, es);
      RunKeeps(w, es);
      InSyncForgets(Exec(w, es));
    }
  }

  /** There it does: two accepted posts with nothing settled between them but the crash. */
  lemma StoringForgets()
    ensures var w := Start(CLEARED, map[]);
            var es := [Begin("install", "s1"), Save(true), Choose("x"), Reply(Accepted("r1"))];
            && Inv(Exec(w, es))
            && Exec(w, es).mem.requestId == Some("r1")
            && Exec(Exec(w, es), [Crash, Begin("y", "z"), Save(true), Choose("x")]).phase == Posting("s1")
  {
    var w := Start(CLEARED, map[]);
    ExecFour(w, Begin("install", "s1"), Save(true), Choose("x"), Reply(Accepted("r1")));
    var w' := Exec(w, [Begin("install", "s1"), Save(true), Choose("x"), Reply(Accepted("r1"))]);
    ExecFour(w', Crash, Begin("y", "z"), Save(true), Choose("x"));
  }

  /** Resetting the file does nothing for a daemon whose request was rejected: it goes on refusing
      until it is reset itself or another process starts. */
  lemma {:induction false} RefusedUntilReset(w: World, es: seq<Event>)
    requires w.phase.Refused? && forall i | 0 <= i < |es| :: !es[i].Reset? && !es[i].Crash?
    ensures Exec(w, es).phase.Refused? && Exec(w, es).mem == w.mem
  {
    if es != [] {
      RefusedUntilReset(w, es[..|es| - 1]);
    }
  }

  // ----- What a round of asking leads to

  /** Asking: with both credentials the worker serves.  Else an install id is made up if there is none,
      a secret if there is neither one nor a request, and what was made up is saved; then the worker
      polls its request, if it has one with a secret, and posts one otherwise. */
  lemma AskIs(w: World, uuid: string, made: string, ok: bool, other: string)
    requires w.phase.Asking?
    ensures var w' := Exec(w, [Begin(uuid, made), Save(ok), Choose(other)]);
            if w.mem.workerId.Some? && w.mem.authToken.Some? then w' == w.(phase := Ready)
            else
              var c := w.mem;
              var id := if c.installId.Some? then c.installId else Some(uuid);
              var secret := if c.requestId.Some? || c.secret.Some? then c.secret else Some(made);
              var seeded := Config(id, c.workerId, c.authToken, c.requestId, secret);
              && w'.posted == w.posted
              && w'.disk == (if seeded != c && ok then seeded else w.disk)
              && w'.mem == (if secret.Some? then seeded else seeded.(secret := Some(other)))
              && w'.phase == match secret
                             case None => Posting(other)
                             case Some(s) => if c.requestId.Some? then Polling(c.requestId.value, s) else Posting(s)
  {
    ExecThree(w, Begin(uuid, made), Save(ok), Choose(other));
  }

  /** Posting: an accepted request is stored and saved; one whose reply was lost or that failed is not. */
  lemma PostIs(w: World, post: PostReply, ok: bool)
    requires w.phase.Posting?
    ensures var w' := Exec(w, [Reply(post), Save(ok)]);
            && w'.phase.Asking?
            && w'.posted == (match post
                             case Failed => w.posted
                             case Lost(id) => w.posted[id := w.phase.hashed]
                             case Accepted(id) => w.posted[id := w.phase.hashed])
            && w'.mem == (if post.Accepted? then w.mem.(requestId := Some(post.requestId)) else w.mem)
            && w'.disk == (if post.Accepted? && ok then w'.mem else w.disk)
    ensures Next(w, Unbuilt) == w.(phase := Asking)
  {
    ExecTwo(w, Reply(post), Save(ok));
  }

  /** Polling: an answer that the studio does not know the request, or rejects it, drops request and
      secret; an approval puts its credentials in their place; each is saved.  A worker rejected
      refuses, one approved serves, every other asks again. */
  lemma PollIs(w: World, poll: PollReply, ok: bool)
    requires w.phase.Polling?
    ensures var w' := Exec(w, [Answer(poll), Save(ok)]);
            && w'.posted == w.posted
            && w'.phase == (match poll case Granted(_, _) => Ready case Rejected => Refused case _ => Asking)
            && w'.mem == (match poll
                          case Granted(workerId, authToken) =>
                            Config(w.mem.installId, Some(workerId), Some(authToken), None, None)
                          case Unknown => Config(w.mem.installId, w.mem.workerId, w.mem.authToken, None, None)
                          case Rejected => Config(w.mem.installId, w.mem.workerId, w.mem.authToken, None, None)
                          case _ => w.mem)
            && w'.disk == if ok && (poll.Granted? || poll.Unknown? || poll.Rejected?) then w'.mem else w.disk
  {
    ExecTwo(w, Answer(poll), Save(ok));
  }

  /** A reset of a worker that serves or refuses clears all it holds; if that is saved it asks again,
      and else it stops.  One that does anything else is not reset. */
  lemma ResetIs(w: World, ok: bool)
    requires !IsSaving(w.phase)
    ensures var w' := Exec(w, [Reset, Save(ok)]);
            if w.phase.Ready? || w.phase.Refused? then
              && w'.mem == Config(None, None, None, None, None) && w'.posted == w.posted
              && w'.disk == (if ok then w'.mem else w.disk)
              && w'.phase == if ok then Asking else Stopped
            else w' == w
  {
    ExecTwo(w, Reset, Save(ok));
  }

  // ----- Credentials

  /** The approval that arrives at step `i` while the worker polls grants these credentials. */
  ghost predicate IsGrantedAt(w: World, es: seq<Event>, i: int, workerId: string, authToken: string) {
    && 0 <= i < |es|
    && es[i] == Answer(Granted(workerId, authToken))
    && Exec(w, es[..i]).phase.Polling?
  }

  /** The credentials of `c`, if it has any, are those of the first configuration or were granted
      together. */
  ghost predicate AreRightful(first: Config, w: World, es: seq<Event>, c: Config) {
    c.workerId.Some? && c.authToken.Some? ==>
      || (c.workerId == first.workerId && c.authToken == first.authToken)
      || exists i :: IsGrantedAt(w, es, i, c.workerId.value, c.authToken.value)
  }

  lemma StayRightful(first: Config, w: World, es: seq<Event>, c: Config)
    requires es != [] && AreRightful(first, w, es[..|es| - 1], c)
    ensures AreRightful(first, w, es, c)
  {
    var before := es[..|es| - 1];
    if c.workerId.Some? && c.authToken.Some? {
      if i :| IsGrantedAt(w, before, i, c.workerId.value, c.authToken.value) {
        assert before[..i] == es[..i];
        assert IsGrantedAt(w, es, i, c.workerId.value, c.authToken.value);
      }
    }
  }

  predicate SameCredentials(a: Config, b: Config) {
    a.workerId == b.workerId && a.authToken == b.authToken
  }

  predicate HasNone(c: Config) {
    c.workerId.None? && c.authToken.None?
  }

  /** Where credentials come from in one step. */
  lemma CredentialsMove(w: World, e: Event)
    ensures var w' := Next(w, e);
            && (|| SameCredentials(w'.mem, w.mem) || SameCredentials(w'.mem, w.disk) || HasNone(w'.mem)
                || (w.phase.Polling? && w'.mem.workerId.Some? && w'.mem.authToken.Some?
                    && e == Answer(Granted(w'.mem.workerId.value, w'.mem.authToken.value))))
            && (SameCredentials(w'.disk, w.mem) || SameCredentials(w'.disk, w.disk) || HasNone(w'.disk))
  {
  }

  lemma RightfulAlike(first: Config, w: World, es: seq<Event>, a: Config, b: Config)
    requires AreRightful(first, w, es, a) && SameCredentials(b, a)
    ensures AreRightful(first, w, es, b)
  {
  }

  /** In every state reachable from a first configuration, credentials in memory or on disk are those
      of that configuration, or exactly the worker id and token of one approval that arrived while
      the worker polled. */
  lemma {:induction false} CredentialsAreGranted(c: Config, posted: map<string, string>, es: seq<Event>)
    requires IsFirst(c)
    ensures var w := Exec(Start(c, posted), es);
            AreRightful(c, Start(c, posted), es, w.mem) && AreRightful(c, Start(c, posted), es, w.disk)
  {
    if es != [] {
      var before, e := es[..|es| - 1], es[|es| - 1];
      var w0 := Start(c, posted);
      var w, w' := Exec(w0, before), Exec(w0, es);
      CredentialsAreGranted(c, posted, before);
      StayRightful(c, w0, es, w.mem);
      StayRightful(c, w0, es, w.disk);
      CredentialsMove(w, e);
      if SameCredentials(w'.mem, w.mem) {
        RightfulAlike(c, w0, es, w.mem, w'.mem);
      } else if SameCredentials(w'.mem, w.disk) {
        RightfulAlike(c, w0, es, w.disk, w'.mem);
      } else if !HasNone(w'.mem) {
        assert IsGrantedAt(w0, es, |before|, w'.mem.workerId.value, w'.mem.authToken.value);
      }
      if SameCredentials(w'.disk, w.mem) {
        RightfulAlike(c, w0, es, w.mem, w'.disk);
      } else if SameCredentials(w'.disk, w.disk) {
        RightfulAlike(c, w0, es, w.disk, w'.disk);
      }
    }
  }

  /** An approval that is saved leaves exactly its credentials, and the install id as it was, to the
      next process, which serves with them. */
  lemma ApprovalIsKept(w: World, workerId: string, authToken: string, uuid: string, made: string)
    requires w.phase.Polling?
    ensures var w' := Exec(w, [Answer(Granted(workerId, authToken)), Save(true), Crash, Begin(uuid, made)]);
            && w'.phase.Ready?
            && w'.mem == w'.disk == Config(w.mem.installId, Some(workerId), Some(authToken), None, None)
  {
    ExecFour(w, Answer(Granted(workerId, authToken)), Save(true), Crash, Begin(uuid, made));
  }

  /** A file reset while the daemon runs leaves the daemon what it holds; the next process starts with
      nothing. */
  lemma FileResetStartsOver(w: World)
    ensures Next(w, ResetFile).mem == w.mem && Next(w, ResetFile).phase == w.phase
    ensures Next(Next(w, ResetFile), Crash) == Start(Config(None, None, None, None, None), w.posted)
  {
  }

  // ----- The worker

  /** What a tick answers. */
  datatype RegistrationState = Pristine | PendingFor(requestId: string) | Approved | RejectedBy

  /** Where a tick leaves the thread. */
  function PhaseAfter(state: RegistrationState): Phase {
    match state
    case Approved => Ready
    case RejectedBy => Refused
    case _ => Asking
  }

  /** A request is pending from the studio's reply on. */
  function CreateAnswer(built: bool, post: PostReply): RegistrationState {
    if built && post.Accepted? then PendingFor(post.requestId) else Pristine
  }

  /** A poll that did not get through leaves the request pending; one the studio does not know
      starts over. */
  function PollAnswer(asked: string, poll: PollReply): RegistrationState {
    match poll
    case Unreachable => PendingFor(asked)
    case Pending => PendingFor(asked)
    case Unknown => Pristine
    case Granted(_, _) => Approved
    case Rejected => RejectedBy
  }

  /** The steps of creating a request: the payload may fail to build, the post to go through. */
  function Created(w: World, built: bool, post: PostReply, ok: bool): World {
    Next(Next(w, if built then Reply(post) else Unbuilt), Save(ok))
  }

  /** The steps of polling one. */
  function Polled(w: World, poll: PollReply, ok: bool): World {
    Next(Next(w, Answer(poll)), Save(ok))
  }

  /** What is answered is what memory then says and where the thread then is: pending, by its id, exactly
      while a request is held; approved exactly if the worker serves, rejected exactly if it refuses. */
  predicate Tells(state: RegistrationState, w: World) {
    && w.phase == PhaseAfter(state)
    && (state.PendingFor? <==> w.phase.Asking? && w.mem.requestId.Some?)
    && (state.PendingFor? ==> w.mem.requestId == Some(state.requestId))
    && (state.Approved? <==> w.phase.Ready?)
    && (state.RejectedBy? <==> w.phase.Refused?)
  }

  lemma AnswersTell(w: World, built: bool, post: PostReply, poll: PollReply, ok: bool)
    requires FitsPhase(w.mem, w.phase)
    ensures w.phase.Posting? ==> Tells(CreateAnswer(built, post), Created(w, built, post, ok))
    ensures w.phase.Polling? ==> Tells(PollAnswer(w.phase.requestId, poll), Polled(w, poll, ok))
  {
  }

  /** The steps up to the choice between the two. */
  function Ensured(w: World, uuid: string, made: string, ok: bool, other: string): World {
    Next(Next(Next(w, Begin(uuid, made)), Save(ok)), Choose(other))
  }

  /** The shared configuration and its file; the methods take what chance and the studio give. */
  class Registration {
    var installId: Option<string>
    var workerId: Option<string>
    var authToken: Option<string>
    var requestId: Option<string>
    var secret: Option<string>
    var disk: Config
    ghost var posted: map<string, string>

    function Memory(): Config
      reads this
    {
      Config(installId, workerId, authToken, requestId, secret)
    }

    ghost function At(phase: Phase): World
      reads this
    {
      World(Memory(), disk, posted, phase)
    }

    constructor (disk: Config, posted: map<string, string>)
      ensures At(Asking) == Start(disk, posted)
    {
      this.disk, this.posted := disk, posted;
      installId, workerId, authToken := disk.installId, disk.workerId, disk.authToken;
      requestId, secret := disk.requestId, disk.secret;
    }

    method SaveConfig(ok: bool)
      modifies this`disk
      ensures disk == if ok then Memory() else old(disk)
    {
      if ok {
        disk := Memory();
      }
    }

    method EnsureInstallState(uuid: string, made: string, ok: bool)
      requires !Memory().Approved()
      modifies this`installId, this`secret, this`disk
      ensures At(Choosing) == Next(Next(old(At(Asking)), Begin(uuid, made)), Save(ok))
    {
      var dirty := false;
      if installId.None? {
        installId := Some(uuid);
        dirty := true;
      }
      if requestId.None? && secret.None? {
        secret := Some(made);
        dirty := true;
      }
      if dirty {
        SaveConfig(ok);
      }
    }

    /** `hashed` is the secret whose hash is posted. */
    method CreateRequest(other: string, built: bool, post: PostReply, ok: bool)
      returns (state: RegistrationState)
      requires requestId.None? || secret.None?
      modifies this`secret, this`requestId, this`posted, this`disk
      ensures At(PhaseAfter(state)) == Created(Next(old(At(Choosing)), Choose(other)), built, post, ok)
      ensures state == if built && post.Accepted? then PendingFor(post.requestId) else Pristine
    {
      if secret.None? {
        secret := Some(other);
      }
      var hashed := secret.value;
      if !built {
        return Pristine;
      }
      match post {
        case Failed =>
          state := Pristine;
        case Lost(id) =>
          posted := posted[id := hashed];
          state := Pristine;
        case Accepted(id) =>
          posted := posted[id := hashed];
          requestId := Some(id);
          SaveConfig(ok);
          state := PendingFor(id);
      }
    }

    method PollExisting(poll: PollReply, ok: bool) returns (state: RegistrationState)
      requires requestId.Some? && secret.Some?
      modifies this`workerId, this`authToken, this`requestId, this`secret, this`disk
      ensures At(PhaseAfter(state)) == Polled(old(At(Polling(requestId.value, secret.value))), poll, ok)
      ensures state == match poll
                       case Granted(_, _) => Approved
                       case Rejected => RejectedBy
                       case Unknown => Pristine
                       case _ => PendingFor(old(requestId).value)
    {
      var asked := requestId.value;
      match poll {
        case Unreachable =>
          state := PendingFor(asked);
        case Pending =>
          state := PendingFor(asked);
        case Unknown =>
          requestId, secret := None, None;
          SaveConfig(ok);
          state := Pristine;
        case Granted(worker, token) =>
          workerId, authToken := Some(worker), Some(token);
          requestId, secret := None, None;
          SaveConfig(ok);
          state := Approved;
        case Rejected =>
          requestId, secret := None, None;
          SaveConfig(ok);
          state := RejectedBy;
      }
    }

    /** One tick takes the steps of the state machine from asking to asking, ready or refused. */
    method Tick(uuid: string, made: string, seeds: bool, other: string, built: bool, post: PostReply,
                poll: PollReply, ok: bool)
      returns (state: RegistrationState)
      modifies this
      ensures var w := Ensured(old(At(Asking)), uuid, made, seeds, other);
              At(PhaseAfter(state)) ==
                if w.phase.Ready? then w
                else if w.phase.Polling? then Polled(w, poll, ok)
                else Created(w, built, post, ok)
      ensures var w := Ensured(old(At(Asking)), uuid, made, seeds, other);
              state ==
                if w.phase.Ready? then Approved
                else if w.phase.Polling? then PollAnswer(w.phase.requestId, poll)
                else CreateAnswer(built, post)
    {
      if workerId.Some? && authToken.Some? {
        return Approved;
      }
      EnsureInstallState(uuid, made, seeds);
      if requestId.Some? && secret.Some? {
        state := PollExisting(poll, ok);
      } else {
        state := CreateRequest(other, built, post, ok);
      }
    }

    /** Clears memory, then saves; a failed save ends the registration loop. */
    method ResetRegistration(ok: bool) returns (saved: bool)
      modifies this
      ensures saved == ok
      ensures At(if saved then Asking else Stopped) == Next(Next(old(At(Ready)), Reset), Save(ok))
    {
      installId, workerId, authToken, requestId, secret := None, None, None, None, None;
      SaveConfig(ok);
      saved := ok;
    }
  }

  /** A tick is a run of the state machine, whichever way it branches. */
  lemma TicksAreRuns(w: World, uuid: string, made: string, seeds: bool, other: string, built: bool,
                     post: PostReply, poll: PollReply, ok: bool)
    requires w.phase.Asking?
    ensures var w' := Ensured(w, uuid, made, seeds, other);
            var es := [if built then Reply(post) else Unbuilt, Answer(poll), Save(ok)];
            && Exec(w, [Begin(uuid, made), Save(seeds), Choose(other)]) == w'
            && Exec(w', es) ==
                 if w'.phase.Ready? then w'
                 else if w'.phase.Polling? then Polled(w', poll, ok)
                 else Created(w', built, post, ok)
  {
    ExecThree(w, Begin(uuid, made), Save(seeds), Choose(other));
    var w' := Ensured(w, uuid, made, seeds, other);
    ExecThree(w', if built then Reply(post) else Unbuilt, Answer(poll), Save(ok));
  }
}
