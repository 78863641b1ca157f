/**
 * `sbnn wait`: subscribe, read the group, block. As a machine with the review
 * handler, the broker and the event stream, to show that a review is never
 * missed - in that order of the two steps, and not in the other.
 */
module WaitRuns {
  import opened Prelude
  import opened Broker
  import opened EventRuns
  import DeliveryRuns

  /** `seen` counts the reviews of the group that had been submitted when the group was read. */
  datatype Waiter = NotStarted | Subscribed | HasRead(seen: nat) | Blocked(seen: nat) | Done

  /**
   * The reviews of the group are numbered from 1 as they are submitted; `due`
   * are those whose handlers have not published them, `idOf` the ids of the
   * notices of the others. `since` counts those submitted before the subscription.
   */
  datatype World = World(
    submitted: nat, reviewed: bool, due: set<nat>, idOf: map<nat, nat>, lastId: nat,
    chan: Chan, wire: seq<Event>, waiter: Waiter, since: nat)

  const START := World(0, false, {}, map[], 0, NEW_CHAN, [], NotStarted, 0)

  datatype Action =
    | Submit                  // the review is stored
    | NewDiff                 // a diff arrives, and starts a new round
    | Publish(k: nat)         // the handler publishes the notice
    | PublishChange(ev: Event)
    | PublishOther(other: string)
    | PublisherStep
    | Take
    | Subscribe
    | ReadGroup
    | ReadFirst               // the order runWait avoids
    | SubscribeLate
    | Scan

  predicate IsSubscribed(w: Waiter) {
    w.Subscribed? || w.Blocked?
  }

  predicate Allowed(w: World, a: Action) {
    match a
    case Submit => true
    case NewDiff => true
    case Publish(k) => k in w.due && w.chan.phase.Idle? && |Reviews(w.chan.queue)| < CAPACITY
    case PublishChange(ev) => w.chan.phase.Idle? && ev.id == 0
    case PublishOther(_) => w.chan.phase.Idle? && |Reviews(w.chan.queue)| < CAPACITY
    case PublisherStep => !w.chan.phase.Idle?
    case Take => w.chan.queue != []
    case Subscribe => w.waiter.NotStarted? && w.chan.phase.Idle?
    case ReadGroup => w.waiter.Subscribed?
    case ReadFirst => w.waiter.NotStarted?
    case SubscribeLate => w.waiter.HasRead? && w.chan.phase.Idle?
    case Scan => w.waiter.Blocked? && w.wire != []
  }

  function Deliver(w: World, c: Chan): World {
    if IsSubscribed(w.waiter) then w.(chan := c) else w
  }

  /** A line that ends the wait. */
  predicate Wakes(ev: Event, group: string) {
    ev.notice.Review? && (ev.notice.group == "" || ev.notice.group == group)
  }

  function Next(w: World, a: Action, group: string): World
    requires Allowed(w, a)
  {
    match a
    case Submit => w.(submitted := w.submitted + 1, reviewed := true, due := w.due + {w.submitted + 1})
    case NewDiff => w.(reviewed := false)
    case Publish(k) =>
      var id := w.lastId + 1;
      Deliver(w.(due := w.due - {k}, idOf := w.idOf[k := id], lastId := id), StartReview(w.chan, Event(id, Review(group))))
    case PublishChange(ev) => Deliver(w, SendChange(w.chan, ev, None))
    case PublishOther(other) =>
      var id := w.lastId + 1;
      Deliver(w.(lastId := id), StartReview(w.chan, Event(id, Review(other))))
    case PublisherStep => w.(chan := Advance(w.chan))
    case Take => w.(chan := EventRuns.Take(w.chan), wire := w.wire + [w.chan.queue[0]])
    case Subscribe => w.(waiter := Subscribed, chan := NEW_CHAN, wire := [], since := w.submitted)
    case ReadGroup => w.(waiter := if w.reviewed then Done else Blocked(w.submitted))
    case ReadFirst => w.(waiter := if w.reviewed then Done else HasRead(w.submitted))
    case SubscribeLate => w.(waiter := Blocked(w.waiter.seen), chan := NEW_CHAN, wire := [], since := w.submitted)
    case Scan => w.(wire := w.wire[1..], waiter := if Wakes(w.wire[0], group) then Done else w.waiter)
  }

  function Run(w: World, actions: seq<Action>, group: string): Option<World>
    decreases |actions|
  {
    if |actions| == 0 then Some(w)
    else if !Allowed(w, actions[0]) then None
    else Run(Next(w, actions[0], group), actions[1..], group)
  }

  // ----- Where a notice is -----

  predicate Holds(c: Chan, ev: Event) {
    ev in c.queue || ev in InHand(c)
  }

  lemma SendHolds(c: Chan, full: Event, scoped: Option<Event>, ev: Event)
    requires c.phase.Idle? && Holds(c, ev) && full.id == 0 && scoped.None?
    ensures Holds(SendChange(c, full, scoped), ev)
  {
  }

  lemma StartHolds(c: Chan, ev: Event, old_: Event)
    requires c.phase.Idle?
    ensures Holds(StartReview(c, ev), ev)
    ensures Holds(c, old_) ==> Holds(StartReview(c, ev), old_)
  {
    assert ev in [] + [ev];
  }

  /** While there is room, no review notice the publisher moves about is lost. */
  lemma AdvanceHolds(c: Chan, ev: Event)
    requires WellFormed(c) && DeliveryRuns.HasRoom(c) && !c.phase.Idle? && ev.id != 0 && Holds(c, ev)
    ensures Holds(Advance(c), ev)
  {
    match c.phase {
      case Idle =>
      case Draining(last, keep, lost) =>
        if c.queue != [] {
          assert c.queue == [c.queue[0]] + c.queue[1..];
          assert ev in c.queue ==> ev == c.queue[0] || ev in c.queue[1..];
        }
      case Refilling(todo, lost) =>
        if todo != [] {
          assert todo == [todo[0]] + todo[1..];
          assert ev in todo ==> ev == todo[0] || ev in todo[1..];
        }
    }
  }

  lemma TakeHolds(c: Chan, ev: Event)
    requires c.queue != [] && Holds(c, ev)
    ensures Holds(EventRuns.Take(c), ev) || ev == c.queue[0]
  {
    assert ev in c.queue ==> ev == c.queue[0] || ev in c.queue[1..];
  }

  predicate Somewhere(w: World, ev: Event) {
    Holds(w.chan, ev) || ev in w.wire
  }

  /** The handler of the k-th review is still to publish it, or its notice is on its way. */
  predicate OnItsWay(w: World, k: nat, group: string) {
    k in w.due || (k in w.idOf && w.idOf[k] != 0 && Somewhere(w, Event(w.idOf[k], Review(group))))
  }

  /** No review notice was lost between w and v. */
  ghost predicate NoneLost(w: World, v: World) {
    forall ev: Event :: ev.id != 0 && Somewhere(w, ev) ==> Somewhere(v, ev)
  }

  /** So what was on its way still is, but for reviews that were published meanwhile. */
  lemma StillOnItsWay(w: World, v: World, group: string)
    requires NoneLost(w, v) && v.due == w.due && v.idOf == w.idOf
    ensures forall k :: OnItsWay(w, k, group) ==> OnItsWay(v, k, group)
  {
    hide Somewhere;
  }

  // ----- What every run keeps -----

  ghost predicate Inv(w: World, group: string) {
    && WellFormed(w.chan) && DeliveryRuns.HasRoom(w.chan)
    && w.since <= w.submitted
    && (forall k :: k in w.due ==> 1 <= k <= w.submitted)
    && (IsSubscribed(w.waiter) ==> forall k :: w.since < k <= w.submitted ==> OnItsWay(w, k, group))
    && (w.waiter.Blocked? ==> w.since <= w.waiter.seen <= w.submitted)
    && !w.waiter.HasRead?
  }

  predicate InOrder(a: Action) {
    !a.ReadFirst? && !a.SubscribeLate?
  }

  lemma StartHasRoom(c: Chan, ev: Event)
    requires c.phase.Idle? && WellFormed(c) && ev.id != 0 && |Reviews(c.queue)| < CAPACITY
    ensures WellFormed(StartReview(c, ev)) && DeliveryRuns.HasRoom(StartReview(c, ev))
  {
  }

  lemma SendKeepsRoom(c: Chan, full: Event)
    requires c.phase.Idle? && WellFormed(c) && full.id == 0
    ensures WellFormed(SendChange(c, full, None)) && SendChange(c, full, None).phase.Idle?
  {
  }

  lemma PublishKeeps(w: World, k: nat, group: string)
    requires Inv(w, group) && Allowed(w, Publish(k))
    ensures Inv(Next(w, Publish(k), group), group)
  {
    var v := Next(w, Publish(k), group);
    var ev := Event(w.lastId + 1, Review(group));
    StartHasRoom(w.chan, ev);
    StartHolds(w.chan, ev, ev);
    if IsSubscribed(w.waiter) {
      forall j | w.since < j <= w.submitted
        ensures OnItsWay(v, j, group)
      {
        assert OnItsWay(w, j, group);
        if j != k && j !in w.due {
          StartHolds(w.chan, ev, Event(w.idOf[j], Review(group)));
        }
      }
    }
    hide Holds, StartReview, WellFormed, DeliveryRuns.HasRoom, Reviews, OnItsWay;
  }

  lemma PublishOtherKeeps(w: World, other: string, group: string)
    requires Inv(w, group) && Allowed(w, PublishOther(other))
    ensures Inv(Next(w, PublishOther(other), group), group)
  {
    var v := Next(w, PublishOther(other), group);
    var ev := Event(w.lastId + 1, Review(other));
    StartHasRoom(w.chan, ev);
    forall old_: Event | Somewhere(w, old_)
      ensures Somewhere(v, old_)
    {
      StartHolds(w.chan, ev, old_);
    }
    hide Holds, StartReview, WellFormed, DeliveryRuns.HasRoom, Reviews, OnItsWay, Somewhere;
    StillOnItsWay(w, v, group);
  }

  lemma PublishChangeKeeps(w: World, ev: Event, group: string)
    requires Inv(w, group) && Allowed(w, PublishChange(ev))
    ensures Inv(Next(w, PublishChange(ev), group), group)
  {
    var v := Next(w, PublishChange(ev), group);
    SendKeepsRoom(w.chan, ev);
    forall old_: Event | Somewhere(w, old_)
      ensures Somewhere(v, old_)
    {
      if Holds(w.chan, old_) {
        SendHolds(w.chan, ev, None, old_);
      }
    }
    hide Holds, SendChange, WellFormed, OnItsWay, Somewhere;
    StillOnItsWay(w, v, group);
  }

  lemma PublisherStepKeeps(w: World, group: string)
    requires Inv(w, group) && Allowed(w, PublisherStep)
    ensures Inv(Next(w, PublisherStep, group), group)
  {
    var v := Next(w, PublisherStep, group);
    AdvanceKeepsShape(w.chan);
    DeliveryRuns.AdvanceHasRoom(w.chan);
    forall old_: Event | old_.id != 0 && Somewhere(w, old_)
      ensures Somewhere(v, old_)
    {
      if Holds(w.chan, old_) {
        AdvanceHolds(w.chan, old_);
      }
    }
    hide Holds, Advance, WellFormed, DeliveryRuns.HasRoom, OnItsWay, Somewhere;
    StillOnItsWay(w, v, group);
  }

  lemma TakeKeeps(w: World, group: string)
    requires Inv(w, group) && Allowed(w, Take)
    ensures Inv(Next(w, Take, group), group)
  {
    var v := Next(w, Take, group);
    DeliveryRuns.TakeHasRoom(w.chan);
    assert forall ev :: ev in w.chan.queue[1..] ==> ev in w.chan.queue;
    forall old_: Event | Somewhere(w, old_)
      ensures Somewhere(v, old_)
    {
      if Holds(w.chan, old_) {
        TakeHolds(w.chan, old_);
      }
    }
    assert WellFormed(v.chan);
    hide Holds, WellFormed, DeliveryRuns.HasRoom, OnItsWay, Somewhere;
    StillOnItsWay(w, v, group);
  }

  /** A line that does not end the wait is none of the group's notices. */
  lemma ScanKeeps(w: World, group: string)
    requires Inv(w, group) && Allowed(w, Scan)
    ensures Inv(Next(w, Scan, group), group)
  {
    var v := Next(w, Scan, group);
    if v.waiter.Blocked? {
      forall j | w.since < j <= w.submitted
        ensures OnItsWay(v, j, group)
      {
        assert OnItsWay(w, j, group);
        assert w.wire == [w.wire[0]] + v.wire;
      }
    }
    hide Holds, WellFormed, DeliveryRuns.HasRoom, OnItsWay;
  }

  lemma OtherKeeps(w: World, a: Action, group: string)
    requires Inv(w, group) && Allowed(w, a) && InOrder(a)
    requires a.Submit? || a.NewDiff? || a.Subscribe? || a.ReadGroup?
    ensures Inv(Next(w, a, group), group)
  {
    var v := Next(w, a, group);
    hide Holds;
    forall k | OnItsWay(w, k, group) && !a.Subscribe?
      ensures OnItsWay(v, k, group)
    {
    }
    assert a.Submit? ==> OnItsWay(v, v.submitted, group);
    hide OnItsWay;
  }

  lemma {:induction false} RunKeeps(w: World, actions: seq<Action>, group: string)
    requires Inv(w, group) && Run(w, actions, group).Some? && forall a :: a in actions ==> InOrder(a)
    ensures Inv(Run(w, actions, group).value, group)
    decreases |actions|
  {
    hide Inv, Next;
    if |actions| > 0 {
      var a := actions[0];
      match a {
        case Publish(k) => PublishKeeps(w, k, group);
        case PublishChange(ev) => PublishChangeKeeps(w, ev, group);
        case PublishOther(other) => PublishOtherKeeps(w, other, group);
        case PublisherStep => PublisherStepKeeps(w, group);
        case Take => TakeKeeps(w, group);
        case Scan => ScanKeeps(w, group);
        case _ => OtherKeeps(w, a, group);
      }
      RunKeeps(Next(w, a, group), actions[1..], group);
    }
  }

  /**
   * While fewer than 8 review notices are unread: a wait that blocks, having
   * subscribed before it read the group, has every review submitted since that
   * read on its way to it.
   */
  lemma WaitMissesNothing(actions: seq<Action>, group: string, k: nat)
    requires Run(START, actions, group).Some? && forall a :: a in actions ==> InOrder(a)
    requires var w := Run(START, actions, group).value; w.waiter.Blocked? && w.waiter.seen < k <= w.submitted
    ensures OnItsWay(Run(START, actions, group).value, k, group)
  {
    RunKeeps(START, actions, group);
    hide Run, WellFormed, DeliveryRuns.HasRoom;
  }

  /** In the other order a review can be stored and published between the two steps, and the wait never ends. */
  lemma ReadingFirstMisses(group: string)
    ensures var actions := [ReadFirst, Submit, Publish(1), SubscribeLate];
            Run(START, actions, group).Some?
            && var w := Run(START, actions, group).value;
               w.waiter.Blocked? && w.waiter.seen < w.submitted
               && forall k :: !OnItsWay(w, k, group)
  {
    var w1 := Next(START, ReadFirst, group);
    var w2 := Next(w1, Submit, group);
    var w3 := Next(w2, Publish(1), group);
    var w4 := Next(w3, SubscribeLate, group);
    assert Run(w4, [], group) == Some(w4);
    assert Run(w3, [SubscribeLate], group) == Some(w4) by {
      assert [SubscribeLate][1..] == [];
    }
    assert Run(w2, [Publish(1), SubscribeLate], group) == Some(w4) by {
      assert [Publish(1), SubscribeLate][1..] == [SubscribeLate];
    }
    assert Run(w1, [Submit, Publish(1), SubscribeLate], group) == Some(w4) by {
      assert [Submit, Publish(1), SubscribeLate][1..] == [Publish(1), SubscribeLate];
    }
    assert [ReadFirst, Submit, Publish(1), SubscribeLate][1..] == [Submit, Publish(1), SubscribeLate];
    assert w4.due == {} && w4.wire == [];
  }
}
