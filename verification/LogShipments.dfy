/** The queue of log entries waiting to be shipped to the studio (src/runtime.rs, and the pump in
    src/ws/session.rs).  An entry is named by its number in the order of logging. */
module LogShipments {
  const LOG_SHIP_QUEUE_CAP: nat := 5000

  /** A log entry, or the warning that so many of the oldest items were dropped. */
  datatype Item = Logged(number: nat) | Marker(dropped: nat)

  type Items = seq<Item>

  // ----- What items hold

  function Numbers(items: Items): seq<nat> {
    if items == [] then []
    else
      Numbers(items[..|items| - 1])
      + match items[|items| - 1] case Logged(number) => [number] case Marker(_) => []
  }

  /** How many drops the markers tell of. */
  function Recorded(items: Items): nat {
    if items == [] then 0
    else
      Recorded(items[..|items| - 1])
      + match items[|items| - 1] case Logged(_) => 0 case Marker(dropped) => dropped
  }

  predicate HoldsMarker(items: Items) {
    exists i :: 0 <= i < |items| && items[i].Marker?
  }

  lemma {:induction false} NumbersJoin(a: Items, b: Items)
    ensures Numbers(a + b) == Numbers(a) + Numbers(b)
  {
    if b == [] {
      assert a + b == a;
    } else {
      NumbersJoin(a, b[..|b| - 1]);
      assert (a + b)[..|a + b| - 1] == a + b[..|b| - 1];
    }
  }

  lemma {:induction false} RecordedJoin(a: Items, b: Items)
    ensures Recorded(a + b) == Recorded(a) + Recorded(b)
  {
    if b == [] {
      assert a + b == a;
    } else {
      RecordedJoin(a, b[..|b| - 1]);
      assert (a + b)[..|a + b| - 1] == a + b[..|b| - 1];
    }
  }

  ghost predicate AreMarkers(items: Items) {
    forall i | 0 <= i < |items| && items[i].Marker? :: items[i].dropped >= 2
  }

  /** Dropping items and recording their number records at most the entries among them and what
      the markers among them told; exactly that if there are no markers among them. */
  lemma {:induction false} DropsRecorded(items: Items)
    requires AreMarkers(items)
    ensures |items| <= |Numbers(items)| + Recorded(items)
    ensures |items| == |Numbers(items)| + Recorded(items) <==> !HoldsMarker(items)
  {
    if items != [] {
      var n := |items| - 1;
      DropsRecorded(items[..n]);
      assert HoldsMarker(items[..n]) ==> HoldsMarker(items);
      assert HoldsMarker(items) ==> HoldsMarker(items[..n]) || items[n].Marker?;
    }
  }

  // ----- The queue

  function Overflow(queue: Items): nat {
    if |queue| >= LOG_SHIP_QUEUE_CAP then |queue| + 2 - LOG_SHIP_QUEUE_CAP else 0
  }

  function Pushed(queue: Items, number: nat): Items {
    var overflow := Overflow(queue);
    (if overflow > 0 then queue[overflow..] + [Marker(overflow)] else queue) + [Logged(number)]
  }

  function Restored(queue: Items, batch: Items): Items {
    var all := batch + queue;
    if |all| > LOG_SHIP_QUEUE_CAP then all[|all| - LOG_SHIP_QUEUE_CAP..] else all
  }

  class ShipQueue {
    var queue: Items

    constructor ()
      ensures queue == []
    {
      queue := [];
    }

    method Push(number: nat)
      modifies this
      ensures queue == Pushed(old(queue), number)
    {
      if |queue| >= LOG_SHIP_QUEUE_CAP {
        var overflow := |queue| + 2 - LOG_SHIP_QUEUE_CAP;
        queue := queue[overflow..];
        queue := queue + [Marker(overflow)];
      }
      queue := queue + [Logged(number)];
    }

    method Take() returns (batch: Items)
      modifies this
      ensures queue == [] && batch == old(queue)
    {
      batch := queue;
      queue := [];
    }

    method Restore(batch: Items)
      modifies this
      ensures queue == Restored(old(queue), batch)
    {
      queue := batch + queue;
      if |queue| > LOG_SHIP_QUEUE_CAP {
        var overflow := |queue| - LOG_SHIP_QUEUE_CAP;
        queue := queue[overflow..];
      }
    }
  }

  // ----- Runs

  /** `Aborted`: the session ends and its pump is aborted in the middle of a send; the frame may
      have left or not, and nobody puts the batch back. */
  datatype Event = Push | Take | Sent | Requeue | Aborted(sent: bool)

  /** What was shipped, what is in flight, what waits; and how many entries were logged. */
  datatype World = World(shipped: Items, flight: Items, queue: Items, logged: nat)

  const START := World([], [], [], 0)

  function Next(w: World, e: Event): World {
    match e
    case Push => w.(queue := Pushed(w.queue, w.logged), logged := w.logged + 1)
    case Take => if w.flight == [] then w.(flight := w.queue, queue := []) else w
    case Sent => w.(shipped := w.shipped + w.flight, flight := [])
    case Requeue => w.(queue := Restored(w.queue, w.flight), flight := [])
    case Aborted(sent) => w.(shipped := if sent then w.shipped + w.flight else w.shipped, flight := [])
  }

  function Exec(es: seq<Event>): World {
    if es == [] then START else Next(Exec(es[..|es| - 1]), es[|es| - 1])
  }

  function All(w: World): Items {
    w.shipped + (w.flight + w.queue)
  }

  /** Entries logged that are nowhere any more. */
  function Lost(w: World): int {
    w.logged - |Numbers(All(w))|
  }

  ghost predicate IsIncreasing(s: seq<nat>, bound: nat) {
    (forall i, j | 0 <= i < j < |s| :: s[i] < s[j]) && forall i | 0 <= i < |s| :: s[i] < bound
  }

  /** A step as a change to everything held: `lost` items go from the middle, `more` come. */
  datatype Change = Change(before: Items, lost: Items, rest: Items, more: Items)

  function ChangeOf(w: World, e: Event): Change {
    match e
    case Push =>
      var overflow := Overflow(w.queue);
      Change(w.shipped + w.flight, w.queue[..overflow], w.queue[overflow..],
             (if overflow > 0 then [Marker(overflow)] else []) + [Logged(w.logged)])
    case Requeue =>
      var all := w.flight + w.queue;
      var overflow := if |all| > LOG_SHIP_QUEUE_CAP then |all| - LOG_SHIP_QUEUE_CAP else 0;
      Change(w.shipped, all[..overflow], all[overflow..], [])
    case Aborted(false) => Change(w.shipped, w.flight, w.queue, [])
    case _ => Change(All(w), [], [], [])
  }

  lemma PushIsChange(shipped: Items, flight: Items, queue: Items, number: nat)
    ensures var overflow := Overflow(queue);
            var more := (if overflow > 0 then [Marker(overflow)] else []) + [Logged(number)];
            && shipped + (flight + queue) == (shipped + flight) + (queue[..overflow] + queue[overflow..])
            && shipped + (flight + Pushed(queue, number)) == (shipped + flight) + (queue[overflow..] + more)
  {
    var overflow := Overflow(queue);
    assert queue == queue[..overflow] + queue[overflow..];
    assert overflow == 0 ==> queue[overflow..] == queue;
  }

  lemma RequeueIsChange(shipped: Items, flight: Items, queue: Items)
    ensures var all := flight + queue;
            var overflow := if |all| > LOG_SHIP_QUEUE_CAP then |all| - LOG_SHIP_QUEUE_CAP else 0;
            && shipped + (flight + queue) == shipped + (all[..overflow] + all[overflow..])
            && shipped + ([] + Restored(queue, flight)) == shipped + (all[overflow..] + [])
  {
    var all := flight + queue;
    var overflow := if |all| > LOG_SHIP_QUEUE_CAP then |all| - LOG_SHIP_QUEUE_CAP else 0;
    assert all == all[..overflow] + all[overflow..];
    assert overflow == 0 ==> all[overflow..] == all;
  }

  lemma MovesKeepAll(w: World, e: Event)
    requires e.Take? || e.Sent? || (e.Aborted? && e.sent)
    ensures All(Next(w, e)) == All(w)
  {
  }

  lemma AbortIsChange(w: World)
    ensures All(Next(w, Aborted(false))) == w.shipped + (w.queue + [])
  {
    assert [] + w.queue == w.queue == w.queue + [];
  }

  lemma ChangeIsStep(w: World, e: Event)
    ensures var c := ChangeOf(w, e);
            && All(w) == c.before + (c.lost + c.rest)
            && All(Next(w, e)) == c.before + (c.rest + c.more)
  {
    match e {
      case Push => PushIsChange(w.shipped, w.flight, w.queue, w.logged);
      case Requeue => RequeueIsChange(w.shipped, w.flight, w.queue);
      case Aborted(false) => AbortIsChange(w);
      case _ => MovesKeepAll(w, e);
    }
  }

  lemma JoinThree(a: Items, b: Items, c: Items)
    ensures Numbers(a + (b + c)) == Numbers(a) + (Numbers(b) + Numbers(c))
    ensures Recorded(a + (b + c)) == Recorded(a) + Recorded(b) + Recorded(c)
  {
    NumbersJoin(b, c);
    NumbersJoin(a, b + c);
    RecordedJoin(b, c);
    RecordedJoin(a, b + c);
  }

  lemma OfOne(item: Item)
    ensures Numbers([item]) == (if item.Logged? then [item.number] else [])
    ensures Recorded([item]) == if item.Marker? then item.dropped else 0
  {
    assert [item][..0] == [];
  }

  lemma MoreOf(w: World, e: Event)
    ensures var more := ChangeOf(w, e).more;
            && Numbers(more) == (if e.Push? then [w.logged] else [])
            && Recorded(more) == (if e.Push? then Overflow(w.queue) else 0)
  {
    if e.Push? {
      var marker := if Overflow(w.queue) > 0 then [Marker(Overflow(w.queue))] else [];
      OfOne(Logged(w.logged));
      OfOne(Marker(Overflow(w.queue)));
      NumbersJoin(marker, [Logged(w.logged)]);
      RecordedJoin(marker, [Logged(w.logged)]);
    }
  }

  lemma DropKeepsIncreasing(a: seq<nat>, lost: seq<nat>, rest: seq<nat>, bound: nat)
    requires IsIncreasing(a + (lost + rest), bound)
    ensures IsIncreasing(a + rest, bound)
  {
    var s, t := a + (lost + rest), a + rest;
    assert forall i | 0 <= i < |t| :: t[i] == s[if i < |a| then i else i + |lost|];
  }

  lemma NextNumber(s: seq<nat>, bound: nat)
    requires IsIncreasing(s, bound)
    ensures IsIncreasing(s + [bound], bound + 1)
  {
  }

  lemma OrderAfter(before: seq<nat>, lost: seq<nat>, rest: seq<nat>, bound: nat)
    requires IsIncreasing(before + (lost + rest), bound)
    ensures IsIncreasing(before + (rest + []), bound)
    ensures IsIncreasing(before + (rest + [bound]), bound + 1)
  {
    DropKeepsIncreasing(before, lost, rest, bound);
    NextNumber(before + rest, bound);
    assert rest + [] == rest && before + (rest + [bound]) == (before + rest) + [bound];
  }

  lemma NumbersOfChange(w: World, e: Event)
    ensures var c := ChangeOf(w, e);
            && Numbers(All(w)) == Numbers(c.before) + (Numbers(c.lost) + Numbers(c.rest))
            && Numbers(All(Next(w, e)))
               == Numbers(c.before) + (Numbers(c.rest) + if e.Push? then [w.logged] else [])
  {
    var c := ChangeOf(w, e);
    ChangeIsStep(w, e);
    JoinThree(c.before, c.lost, c.rest);
    JoinThree(c.before, c.rest, c.more);
    MoreOf(w, e);
  }

  lemma RecordedOfChange(w: World, e: Event)
    ensures var c := ChangeOf(w, e);
            && Recorded(All(w)) == Recorded(c.before) + Recorded(c.lost) + Recorded(c.rest)
            && Recorded(All(Next(w, e)))
               == Recorded(c.before) + Recorded(c.rest) + if e.Push? then Overflow(w.queue) else 0
  {
    var c := ChangeOf(w, e);
    ChangeIsStep(w, e);
    JoinThree(c.before, c.lost, c.rest);
    JoinThree(c.before, c.rest, c.more);
    MoreOf(w, e);
  }

  lemma NextKeepsOrder(w: World, e: Event)
    requires IsIncreasing(Numbers(All(w)), w.logged)
    ensures IsIncreasing(Numbers(All(Next(w, e))), if e.Push? then w.logged + 1 else w.logged)
  {
    var c := ChangeOf(w, e);
    NumbersOfChange(w, e);
    OrderAfter(Numbers(c.before), Numbers(c.lost), Numbers(c.rest), w.logged);
  }

  /** Over any run of pushes, batches sent, put back and dropped by an abort: what was shipped, then what is
      in flight, then what waits holds each entry at most once, in the order of logging; and the
      queue stays within its cap. */
  lemma {:induction false} EntriesKeepTheirOrder(es: seq<Event>)
    ensures IsIncreasing(Numbers(All(Exec(es))), Exec(es).logged)
    ensures |Exec(es).queue| <= LOG_SHIP_QUEUE_CAP
  {
    if es != [] {
      EntriesKeepTheirOrder(es[..|es| - 1]);
      NextKeepsOrder(Exec(es[..|es| - 1]), es[|es| - 1]);
    }
  }

  // ----- What a push and a batch put back leave

  /** A push to a queue below its cap loses nothing; to a full one it keeps exactly the newest items
      but two less than the cap, then a marker of how many went, then the entry: the cap in all. */
  lemma PushKeepsNewest(w: World)
    ensures var n, queue := |w.queue|, Next(w, Push).queue;
            if n < LOG_SHIP_QUEUE_CAP then queue == w.queue + [Logged(w.logged)]
            else
              var gone := n - (LOG_SHIP_QUEUE_CAP - 2);
              queue == w.queue[gone..] + [Marker(gone), Logged(w.logged)] && |queue| == LOG_SHIP_QUEUE_CAP
  {
    var gone := |w.queue| - (LOG_SHIP_QUEUE_CAP - 2);
    if gone >= 2 {
      assert w.queue[gone..] + [Marker(gone)] + [Logged(w.logged)]
          == w.queue[gone..] + [Marker(gone), Logged(w.logged)];
    }
  }

  /** A batch put back goes first, and the queue then keeps its newest items up to the cap. */
  lemma RequeueKeepsNewest(w: World)
    ensures var all, queue := w.flight + w.queue, Next(w, Requeue).queue;
            if |all| <= LOG_SHIP_QUEUE_CAP then queue == all
            else |queue| == LOG_SHIP_QUEUE_CAP && queue == all[|all| - LOG_SHIP_QUEUE_CAP..]
  {
  }

  /** The entry is shipped, in flight or waiting. */
  predicate IsHeld(w: World, number: nat) {
    Logged(number) in w.shipped || Logged(number) in w.flight || Logged(number) in w.queue
  }

  /** The entry waits at `i`, with so many newer items behind it. */
  predicate WaitsBefore(items: Items, i: int, number: nat, newer: nat) {
    0 <= i < |items| && items[i] == Logged(number) && |items| - 1 - i >= newer
  }

  /** The step is one that may lose the entry: a push to a full queue in which all but one less than
      the cap are newer; a batch put back together with a cap of newer items; or an abort
      of the pump that has it, before it was sent. */
  ghost predicate MayLose(w: World, e: Event, number: nat) {
    match e
    case Push =>
      && |w.queue| >= LOG_SHIP_QUEUE_CAP
      && exists i {:trigger w.queue[i]} :: WaitsBefore(w.queue, i, number, LOG_SHIP_QUEUE_CAP - 2)
    case Requeue =>
      exists i {:trigger (w.flight + w.queue)[i]} :: WaitsBefore(w.flight + w.queue, i, number, LOG_SHIP_QUEUE_CAP)
    case Aborted(sent) => !sent && Logged(number) in w.flight
    case _ => false
  }

  lemma PushHolds(w: World, number: nat, i: nat)
    requires i < |w.queue| && w.queue[i] == Logged(number)
    ensures IsHeld(Next(w, Push), number) || MayLose(w, Push, number)
  {
    PushKeepsNewest(w);
    var queue := Next(w, Push).queue;
    var gone := if |w.queue| < LOG_SHIP_QUEUE_CAP then 0 else |w.queue| - (LOG_SHIP_QUEUE_CAP - 2);
    if i >= gone {
      assert queue[i - gone] == w.queue[i];
    } else {
      assert WaitsBefore(w.queue, i, number, LOG_SHIP_QUEUE_CAP - 2);
    }
  }

  lemma RequeueHolds(w: World, number: nat, i: nat)
    requires i < |w.flight + w.queue| && (w.flight + w.queue)[i] == Logged(number)
    ensures IsHeld(Next(w, Requeue), number) || MayLose(w, Requeue, number)
  {
    RequeueKeepsNewest(w);
    var all := w.flight + w.queue;
    var gone := if |all| <= LOG_SHIP_QUEUE_CAP then 0 else |all| - LOG_SHIP_QUEUE_CAP;
    if i >= gone {
      assert Next(w, Requeue).queue[i - gone] == all[i];
    } else {
      assert WaitsBefore(all, i, number, LOG_SHIP_QUEUE_CAP);
    }
  }

  lemma StepHolds(w: World, e: Event, number: nat)
    requires IsHeld(w, number) || (e.Push? && number == w.logged)
    ensures IsHeld(Next(w, e), number) || MayLose(w, e, number)
  {
    if e.Push? && number == w.logged {
      PushKeepsNewest(w);
      assert Next(w, e).queue[|Next(w, e).queue| - 1] == Logged(number);
    } else if e.Push? && Logged(number) in w.queue {
      var i :| 0 <= i < |w.queue| && w.queue[i] == Logged(number);
      PushHolds(w, number, i);
    } else if e.Requeue? && Logged(number) in w.flight + w.queue {
      var i :| 0 <= i < |w.flight + w.queue| && (w.flight + w.queue)[i] == Logged(number);
      RequeueHolds(w, number, i);
    }
  }

  /** Over any run: an entry logged that is neither shipped nor in flight nor waiting was lost at one
      of the steps that may lose it. */
  lemma {:induction false} LostAtSomeStep(es: seq<Event>, number: nat) returns (n: nat)
    requires number < Exec(es).logged && !IsHeld(Exec(es), number)
    ensures n < |es| && IsHeld(Exec(es[..n]), number) && MayLose(Exec(es[..n]), es[n], number)
  {
    var before := es[..|es| - 1];
    n := |es| - 1;
    if IsHeld(Exec(before), number) || (es[n].Push? && number == Exec(before).logged) {
      StepHolds(Exec(before), es[n], number);
    } else {
      n := LostAtSomeStep(before, number);
      assert before[..n] == es[..n];
    }
  }

  // ----- What the markers tell

  /** The step drops no marker, and nothing without a new marker: neither a batch put back nor one
      whose pump is aborted loses an item. */
  predicate IsRecorded(w: World, e: Event) {
    if e.Push? then !HoldsMarker(ChangeOf(w, e).lost) else ChangeOf(w, e).lost == []
  }

  lemma MarkersInParts(before: Items, lost: Items, rest: Items, more: Items)
    requires AreMarkers(before + (lost + rest)) && AreMarkers(more)
    ensures AreMarkers(lost) && AreMarkers(before + (rest + more))
  {
    var all := before + (lost + rest);
    assert forall i | 0 <= i < |before| :: before[i] == all[i];
    assert forall i | 0 <= i < |lost| :: lost[i] == all[|before| + i];
    assert forall i | 0 <= i < |rest| :: rest[i] == all[|before| + |lost| + i];
  }

  lemma NextKeepsMarkers(w: World, e: Event)
    requires AreMarkers(All(w))
    ensures AreMarkers(All(Next(w, e))) && AreMarkers(ChangeOf(w, e).lost)
  {
    var c := ChangeOf(w, e);
    ChangeIsStep(w, e);
    MarkersInParts(c.before, c.lost, c.rest, c.more);
  }

  /** How much more the markers tell of than was lost. */
  function Surplus(w: World): int {
    Recorded(All(w)) - Lost(w)
  }

  lemma SurplusChange(w: World, e: Event)
    ensures var lost := ChangeOf(w, e).lost;
            Surplus(Next(w, e)) - Surplus(w)
            == (if e.Push? then |lost| else 0) - Recorded(lost) - |Numbers(lost)|
  {
    NumbersOfChange(w, e);
    RecordedOfChange(w, e);
  }

  lemma NextRecords(w: World, e: Event)
    requires AreMarkers(All(w))
    ensures Surplus(Next(w, e)) <= Surplus(w)
    ensures Surplus(Next(w, e)) == Surplus(w) <==> IsRecorded(w, e)
  {
    SurplusChange(w, e);
    NextKeepsMarkers(w, e);
    DropsRecorded(ChangeOf(w, e).lost);
  }

  predicate AreRecorded(es: seq<Event>) {
    es == [] || (AreRecorded(es[..|es| - 1]) && IsRecorded(Exec(es[..|es| - 1]), es[|es| - 1]))
  }

  /** The markers still in the queue, in flight or shipped never tell of more drops than entries
      were lost; and they tell of every one exactly when no marker was ever dropped itself, no batch
      put back overflowed the queue, and no pump was aborted before its batch was sent. */
  lemma {:induction false} MarkersTellAllIff(es: seq<Event>)
    ensures AreMarkers(All(Exec(es)))
    ensures Recorded(All(Exec(es))) <= Lost(Exec(es))
    ensures Recorded(All(Exec(es))) == Lost(Exec(es)) <==> AreRecorded(es)
  {
    if es != [] {
      var n := |es| - 1;
      MarkersTellAllIff(es[..n]);
      NextKeepsMarkers(Exec(es[..n]), es[n]);
      NextRecords(Exec(es[..n]), es[n]);
    }
  }

  /** An entry is lost without a marker when the session ends while its batch is being sent. */
  lemma AbortLosesSilently()
    ensures var w := Exec([Push, Take, Aborted(false)]);
            Lost(w) == 1 && Recorded(All(w)) == 0 && !AreRecorded([Push, Take, Aborted(false)])
  {
    var es := [Push, Take, Aborted(false)];
    assert es[..2] == [Push, Take] && es[..2][..1] == [Push] && [Push][..0] == [];
    assert [Push, Take][..1] == [Push];
    OfOne(Logged(0));
    assert Exec([Push]).queue == [] + [Logged(0)] == [Logged(0)];
    assert Exec([Push, Take]).flight == [Logged(0)];
    assert All(Exec(es)) == [];
    MarkersTellAllIff(es);
  }
}
