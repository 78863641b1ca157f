/**
 * Whole runs of one subscription: which review notices arrive, in which
 * order, and that a lost change is never forgotten.
 */
module DeliveryRuns {
  import opened Prelude
  import opened Broker
  import opened EventRuns

  /**
   * `published` are the ids of the review notices since the subscription.
   * `diffAt` is when a diff change was last published, and `fullAt` when a
   * full notice was last received; 0 is before the first step.
   */
  datatype Feed = Feed(
    chan: Chan, published: seq<nat>, received: seq<Event>, dropped: seq<nat>, clock: nat, diffAt: nat, fullAt: nat)

  const NEW_FEED := Feed(NEW_CHAN, [], [], [], 0, 0, 0)

  datatype Action =
    | PublishDiffs(group: string)
    | PublishComments(group: string)
    | PublishReview(group: string)
    | PublisherStep
    | Receive

  /** Which runs: any; those in which fewer than 8 review notices are unread; those in which nothing is taken during a delivery; and both. */
  datatype Regime = Any | Bounded | Undisturbed | BoundedUndisturbed {
    predicate HasBound() {
      Bounded? || BoundedUndisturbed?
    }
    predicate IsQuiet() {
      Undisturbed? || BoundedUndisturbed?
    }
  }

  predicate Allowed(f: Feed, a: Action, regime: Regime) {
    match a
    case PublishDiffs(_) => f.chan.phase.Idle?
    case PublishComments(_) => f.chan.phase.Idle?
    case PublishReview(_) => f.chan.phase.Idle? && (regime.HasBound() ==> |Reviews(f.chan.queue)| < CAPACITY)
    case PublisherStep => !f.chan.phase.Idle?
    case Receive => f.chan.queue != [] && (regime.IsQuiet() ==> f.chan.phase.Idle?)
  }

  function Next(f: Feed, a: Action): Feed
    requires Allowed(f, a, Any)
  {
    var now := f.clock + 1;
    match a
    case PublishDiffs(g) => f.(chan := SendChange(f.chan, FullNotice(g), None), clock := now, diffAt := now)
    case PublishComments(g) => f.(chan := SendChange(f.chan, FullNotice(g), Some(CommentsNotice(g))), clock := now)
    case PublishReview(g) =>
      var id := |f.published| + 1;
      f.(chan := StartReview(f.chan, Event(id, Review(g))), published := f.published + [id], clock := now)
    case PublisherStep =>
      f.(chan := Advance(f.chan), clock := now,
         dropped := if Drops(f.chan) then f.dropped + [f.chan.phase.todo[0].id] else f.dropped)
    case Receive =>
      var ev := f.chan.queue[0];
      f.(chan := Take(f.chan), received := f.received + [ev], clock := now, fullAt := if IsFull(ev) then now else f.fullAt)
  }

  /** The state a run ends in; None when a step of it cannot be taken. */
  function Run(f: Feed, actions: seq<Action>, regime: Regime): Option<Feed>
    decreases |actions|
  {
    if |actions| == 0 then Some(f)
    else if !Allowed(f, actions[0], regime) then None
    else Run(Next(f, actions[0]), actions[1..], regime)
  }

  // ----- Every review notice is somewhere, once -----

  /** The ids of the review notices among events, in order. */
  function Ids(events: seq<Event>): seq<nat> {
    if |events| == 0 then []
    else if events[0].id != 0 then [events[0].id] + Ids(events[1..])
    else Ids(events[1..])
  }

  lemma {:induction false} IdsConcat(a: seq<Event>, b: seq<Event>)
    ensures Ids(a + b) == Ids(a) + Ids(b)
  {
    if |a| == 0 {
      assert a + b == b;
    } else {
      assert (a + b)[1..] == a[1..] + b;
      IdsConcat(a[1..], b);
    }
  }

  lemma IdsOne(ev: Event)
    ensures Ids([ev]) == if ev.id != 0 then [ev.id] else []
  {
    assert [ev][1..] == [];
  }

  lemma IdsNone()
    ensures Ids([]) == []
  {
  }

  lemma IdsHead(events: seq<Event>)
    requires events != []
    ensures Ids(events) == (if events[0].id != 0 then [events[0].id] else []) + Ids(events[1..])
  {
  }

  function OnTheWay(c: Chan): multiset<nat> {
    multiset(Ids(c.queue)) + multiset(Ids(InHand(c)))
  }

  ghost predicate Accounted(f: Feed) {
    multiset(f.published) == multiset(Ids(f.received)) + OnTheWay(f.chan) + multiset(f.dropped)
  }

  lemma SendOnTheWay(c: Chan, full: Event, scoped: Option<Event>)
    requires c.phase.Idle? && full.id == 0 && (scoped.Some? ==> scoped.value.id == 0)
    ensures OnTheWay(SendChange(c, full, scoped)) == OnTheWay(c)
  {
    if |c.queue| < CAPACITY {
      var msg := if scoped.Some? && !c.lagging then scoped.value else full;
      IdsConcat(c.queue, [msg]);
      IdsOne(msg);
    }
  }

  lemma StartOnTheWay(c: Chan, ev: Event)
    requires c.phase.Idle? && ev.id != 0
    ensures OnTheWay(StartReview(c, ev)) == OnTheWay(c) + multiset{ev.id}
  {
    IdsOne(ev);
    IdsConcat(c.queue, [ev]);
    assert [] + [ev] == [ev];
  }

  lemma AdvanceOnTheWay(c: Chan)
    requires WellFormed(c) && !c.phase.Idle?
    ensures OnTheWay(c) == OnTheWay(Advance(c)) + (if Drops(c) then multiset{c.phase.todo[0].id} else multiset{})
  {
    match c.phase {
      case Idle =>
      case Draining(ev, keep, lost) => DrainOnTheWay(c);
      case Refilling(todo, lost) => RefillOnTheWay(c);
    }
  }

  lemma RefillOnTheWay(c: Chan)
    requires WellFormed(c) && c.phase.Refilling?
    ensures OnTheWay(c) == OnTheWay(Advance(c)) + (if Drops(c) then multiset{c.phase.todo[0].id} else multiset{})
  {
    var todo := c.phase.todo;
    if todo != [] {
      var head, rest := todo[0], todo[1..];
      assert head in todo && head.id != 0;
      hide WellFormed;
      assert todo == [head] + rest;
      RefillIds(c.queue, head, rest);
      hide Ids;
    }
  }

  lemma RefillIds(queue: seq<Event>, head: Event, rest: seq<Event>)
    requires head.id != 0
    ensures multiset(Ids(queue)) + multiset(Ids([head] + rest)) == multiset(Ids(queue + [head])) + multiset(Ids(rest))
    ensures multiset(Ids([head] + rest)) == multiset(Ids(rest)) + multiset{head.id}
  {
    IdsSplit(head, rest);
    IdsSnoc(queue, head);
    hide Ids;
  }

  lemma IdsSplit(head: Event, rest: seq<Event>)
    requires head.id != 0
    ensures multiset(Ids([head] + rest)) == multiset{head.id} + multiset(Ids(rest))
  {
    assert ([head] + rest)[1..] == rest;
    assert Ids([head] + rest) == [head.id] + Ids(rest);
  }

  lemma IdsSnoc(events: seq<Event>, ev: Event)
    requires ev.id != 0
    ensures Ids(events + [ev]) == Ids(events) + [ev.id]
    ensures multiset(Ids(events + [ev])) == multiset(Ids(events)) + multiset{ev.id}
  {
    IdsConcat(events, [ev]);
    IdsOne(ev);
  }

  lemma DrainOnTheWay(c: Chan)
    requires c.phase.Draining?
    ensures OnTheWay(c) == OnTheWay(Advance(c))
  {
    hide Ids;
    var ev, keep := c.phase.ev, c.phase.keep;
    IdsConcat(keep, [ev]);
    if c.queue != [] {
      var head := c.queue[0];
      IdsHead(c.queue);
      IdsConcat(keep, [head]);
      IdsConcat(keep + [head], [ev]);
      IdsOne(head);
    }
  }

  lemma TakeOnTheWay(c: Chan)
    requires c.queue != []
    ensures OnTheWay(c) == OnTheWay(Take(c)) + multiset(Ids([c.queue[0]]))
  {
    IdsConcat([c.queue[0]], c.queue[1..]);
    assert [c.queue[0]] + c.queue[1..] == c.queue;
    hide Ids;
  }

  lemma NextAccounted(f: Feed, a: Action)
    requires Allowed(f, a, Any) && Accounted(f) && WellFormed(f.chan)
    ensures Accounted(Next(f, a)) && WellFormed(Next(f, a).chan)
  {
    NextWellFormed(f, a);
    hide Ids, OnTheWay, WellFormed, Accounted;
    match a {
      case PublishDiffs(g) => ChangeAccounted(f, a, FullNotice(g), None);
      case PublishComments(g) => ChangeAccounted(f, a, FullNotice(g), Some(CommentsNotice(g)));
      case PublishReview(g) => ReviewAccounted(f, g);
      case PublisherStep => AdvanceAccounted(f);
      case Receive => ReceiveAccounted(f);
    }
  }

  lemma ChangeAccounted(f: Feed, a: Action, full: Event, scoped: Option<Event>)
    requires Accounted(f) && Allowed(f, a, Any) && f.chan.phase.Idle? && full.id == 0 && (scoped.Some? ==> scoped.value.id == 0)
    requires a.PublishDiffs? || a.PublishComments?
    requires Next(f, a).chan == SendChange(f.chan, full, scoped)
    ensures Accounted(Next(f, a))
  {
    hide Ids, OnTheWay;
    SendOnTheWay(f.chan, full, scoped);
  }

  lemma ReviewAccounted(f: Feed, g: string)
    requires Accounted(f) && Allowed(f, PublishReview(g), Any)
    ensures Accounted(Next(f, PublishReview(g)))
  {
    hide Ids, OnTheWay;
    StartOnTheWay(f.chan, Event(|f.published| + 1, Review(g)));
  }

  lemma AdvanceAccounted(f: Feed)
    requires Accounted(f) && Allowed(f, PublisherStep, Any) && WellFormed(f.chan)
    ensures Accounted(Next(f, PublisherStep))
  {
    hide Ids, OnTheWay;
    AdvanceOnTheWay(f.chan);
  }

  lemma NextWellFormed(f: Feed, a: Action)
    requires Allowed(f, a, Any) && WellFormed(f.chan)
    ensures WellFormed(Next(f, a).chan)
  {
    hide Ids;
    if a.PublisherStep? {
      AdvanceKeepsShape(f.chan);
    }
  }

  lemma ReceiveAccounted(f: Feed)
    requires f.chan.queue != [] && Accounted(f)
    ensures Accounted(Next(f, Receive))
  {
    hide Ids, OnTheWay;
    TakeOnTheWay(f.chan);
    IdsConcat(f.received, [f.chan.queue[0]]);
  }

  // ----- Fewer than 8 unread -----

  /** There is room for everything the publisher has in hand. */
  predicate HasRoom(c: Chan) {
    match c.phase
    case Idle => true
    case Draining(_, keep, _) => |keep| + |Reviews(c.queue)| < CAPACITY
    case Refilling(todo, _) => |todo| + |c.queue| <= CAPACITY
  }

  lemma AdvanceHasRoom(c: Chan)
    requires WellFormed(c) && !c.phase.Idle? && HasRoom(c)
    ensures !Drops(c) && HasRoom(Advance(c))
  {
  }

  lemma TakeHasRoom(c: Chan)
    requires WellFormed(c) && c.queue != [] && HasRoom(c)
    ensures HasRoom(Take(c))
  {
    assert |Reviews(c.queue[1..])| <= |Reviews(c.queue)|;
  }

  predicate Numbered(published: seq<nat>) {
    forall i :: 0 <= i < |published| ==> published[i] == i + 1
  }

  ghost predicate RoomOk(f: Feed) {
    HasRoom(f.chan) && f.dropped == [] && Numbered(f.published)
  }

  lemma NextHasRoom(f: Feed, a: Action)
    requires Allowed(f, a, Bounded) && RoomOk(f) && WellFormed(f.chan)
    ensures RoomOk(Next(f, a))
  {
    match a {
      case PublishDiffs(_) =>
      case PublishComments(_) =>
      case PublishReview(_) =>
      case PublisherStep => AdvanceHasRoom(f.chan);
      case Receive => TakeHasRoom(f.chan);
    }
  }

  // ----- Order -----

  /** The review notices still to be received, in the order they will be. */
  function Line(c: Chan): seq<nat> {
    match c.phase
    case Idle => Ids(c.queue)
    case Draining(ev, keep, _) => Ids(keep) + Ids(c.queue) + [ev.id]
    case Refilling(todo, _) => Ids(c.queue) + Ids(todo)
  }

  /** The ids of the review notices received, and then of those to be. */
  function Whole(f: Feed): seq<nat> {
    Ids(f.received) + Line(f.chan)
  }

  ghost predicate InOrder(f: Feed) {
    f.published == Whole(f)
  }

  ghost predicate Increasing(ids: seq<nat>) {
    forall i, j :: 0 <= i < j < |ids| ==> ids[i] < ids[j]
  }

  ghost predicate Rising(f: Feed) {
    Increasing(Whole(f)) && forall i :: 0 <= i < |Whole(f)| ==> Whole(f)[i] <= |f.published|
  }

  lemma AdvanceInLine(c: Chan)
    requires WellFormed(c) && !c.phase.Idle? && !Drops(c)
    ensures Line(Advance(c)) == Line(c)
  {
    match c.phase {
      case Idle =>
      case Draining(ev, keep, lost) =>
        if c.queue == [] {
          IdsConcat(keep, [ev]);
          IdsOne(ev);
        } else {
          DrainInLine(c);
        }
      case Refilling(todo, lost) => RefillInLine(c);
    }
  }

  lemma RefillInLine(c: Chan)
    requires WellFormed(c) && c.phase.Refilling? && !Drops(c)
    ensures Line(Advance(c)) == Line(c)
  {
    var todo := c.phase.todo;
    if todo == [] {
      assert Ids(c.queue) + Ids([]) == Ids(c.queue);
    } else {
      IdsHead(todo);
      IdsOne(todo[0]);
      IdsConcat(c.queue, [todo[0]]);
      assert todo[0] in todo && todo[0].id != 0;
      hide Ids, WellFormed;
      assert Ids(c.queue) + ([todo[0].id] + Ids(todo[1..])) == (Ids(c.queue) + [todo[0].id]) + Ids(todo[1..]);
    }
  }

  lemma DrainInLine(c: Chan)
    requires c.phase.Draining? && c.queue != []
    ensures Line(Advance(c)) == Line(c)
  {
    hide Ids;
    var keep, head := c.phase.keep, c.queue[0];
    IdsHead(c.queue);
    IdsOne(head);
    IdsConcat(keep, [head]);
    var first := Ids([head]);
    assert (Ids(keep) + first) + Ids(c.queue[1..]) == Ids(keep) + (first + Ids(c.queue[1..]));
  }

  /** A step of an undisturbed run leaves the line as it is, adds a new id to its end, or drops one. */
  lemma NextWhole(f: Feed, a: Action)
    requires Allowed(f, a, Undisturbed) && WellFormed(f.chan)
    ensures a.PublishReview? ==> Whole(Next(f, a)) == Whole(f) + [|f.published| + 1]
    ensures !a.PublishReview? && !(a.PublisherStep? && Drops(f.chan)) ==> Whole(Next(f, a)) == Whole(f)
    ensures a.PublisherStep? && Drops(f.chan) ==>
              exists k :: 0 <= k < |Whole(f)| && Whole(Next(f, a)) == Whole(f)[..k] + Whole(f)[k + 1..]
  {
    hide Ids, Line, Drops, WellFormed, StartReview, SendChange;
    match a {
      case PublishDiffs(g) => SendInLine(f.chan, FullNotice(g), None);
      case PublishComments(g) => SendInLine(f.chan, FullNotice(g), Some(CommentsNotice(g)));
      case PublishReview(g) =>
        var id := |f.published| + 1;
        StartInLine(f.chan, Event(id, Review(g)));
        assert Ids(f.received) + (Line(f.chan) + [id]) == (Ids(f.received) + Line(f.chan)) + [id];
      case PublisherStep =>
        if Drops(f.chan) {
          DropsOne(f.chan);
          var k :| 0 <= k < |Line(f.chan)| && Line(Advance(f.chan)) == Line(f.chan)[..k] + Line(f.chan)[k + 1..];
          WithoutBehind(Ids(f.received), Line(f.chan), k);
          var n := |Ids(f.received)| + k;
          assert Whole(Next(f, a)) == Whole(f)[..n] + Whole(f)[n + 1..];
        } else {
          AdvanceInLine(f.chan);
        }
      case Receive => ReceiveInOrder(f);
    }
  }

  lemma WithoutBehind(a: seq<nat>, b: seq<nat>, k: nat)
    requires k < |b|
    ensures var n := |a| + k; a + (b[..k] + b[k + 1..]) == (a + b)[..n] + (a + b)[n + 1..]
  {
  }

  lemma DropsOne(c: Chan)
    requires WellFormed(c) && Drops(c)
    ensures exists k :: 0 <= k < |Line(c)| && Line(Advance(c)) == Line(c)[..k] + Line(c)[k + 1..]
  {
    var todo, k := c.phase.todo, |Ids(c.queue)|;
    IdsHead(todo);
    assert todo[0] in todo;
    hide Ids, WellFormed;
    assert Line(c) == Ids(c.queue) + ([todo[0].id] + Ids(todo[1..]));
    assert Line(c)[..k] == Ids(c.queue) && Line(c)[k + 1..] == Ids(todo[1..]);
  }

  lemma NextInOrder(f: Feed, a: Action)
    requires Allowed(f, a, BoundedUndisturbed) && InOrder(f) && RoomOk(f) && WellFormed(f.chan)
    ensures InOrder(Next(f, a))
  {
    hide Whole, Ids, WellFormed, SendChange, StartReview;
    assert Allowed(f, a, Undisturbed);
    NextWhole(f, a);
    if a.PublisherStep? {
      AdvanceHasRoom(f.chan);
    }
  }

  lemma NextRises(f: Feed, a: Action)
    requires Allowed(f, a, Undisturbed) && Rising(f) && WellFormed(f.chan)
    ensures Rising(Next(f, a))
  {
    hide Whole, Ids, WellFormed, SendChange, StartReview, Advance, Drops;
    NextWhole(f, a);
  }

  lemma ReceiveInOrder(f: Feed)
    requires f.chan.queue != [] && f.chan.phase.Idle?
    ensures Whole(Next(f, Receive)) == Whole(f)
  {
    var head, rest := f.chan.queue[0], f.chan.queue[1..];
    hide Ids;
    IdsConcat([head], rest);
    IdsConcat(f.received, [head]);
    assert [head] + rest == f.chan.queue;
    assert Ids(f.received) + (Ids([head]) + Ids(rest)) == (Ids(f.received) + Ids([head])) + Ids(rest);
  }

  lemma SendInLine(c: Chan, full: Event, scoped: Option<Event>)
    requires c.phase.Idle? && full.id == 0 && (scoped.Some? ==> scoped.value.id == 0)
    ensures SendChange(c, full, scoped).phase.Idle? && Line(SendChange(c, full, scoped)) == Line(c)
  {
    if |c.queue| < CAPACITY {
      var msg := if scoped.Some? && !c.lagging then scoped.value else full;
      IdsConcat(c.queue, [msg]);
      IdsOne(msg);
    }
  }

  lemma StartInLine(c: Chan, ev: Event)
    requires c.phase.Idle? && ev.id != 0
    ensures Line(StartReview(c, ev)) == Line(c) + [ev.id]
  {
    hide Ids;
    IdsOne(ev);
    IdsConcat(c.queue, [ev]);
    IdsNone();
  }

  // ----- A lost change is never forgotten -----

  /** A full notice was received since the last diff change, or one is owed. */
  predicate Covered(f: Feed) {
    f.diffAt <= f.fullAt || OwesFull(f.chan)
  }

  ghost predicate CoverOk(f: Feed) {
    Covered(f) && ChanOk(f.chan) && f.diffAt <= f.clock && f.fullAt <= f.clock
  }

  lemma NextCovered(f: Feed, a: Action)
    requires Allowed(f, a, Any) && CoverOk(f)
    ensures CoverOk(Next(f, a))
  {
    hide OwesFull, WellFormed, Consistent, SendChange, Advance, StartReview;
    match a {
      case PublishDiffs(g) => SendFullOwes(f.chan, FullNotice(g));
      case PublishComments(g) => SendScopedOwes(f.chan, FullNotice(g), CommentsNotice(g));
      case PublishReview(g) => StartReviewOwes(f.chan, Event(|f.published| + 1, Review(g)));
      case PublisherStep => AdvanceOwes(f.chan);
      case Receive => TakeOwes(f.chan);
    }
  }

  // ----- Every run -----

  ghost predicate FeedOk(f: Feed, regime: Regime) {
    && Accounted(f)
    && CoverOk(f)
    && (regime.HasBound() ==> RoomOk(f))
    && (regime.IsQuiet() ==> Rising(f))
    && (regime.BoundedUndisturbed? ==> InOrder(f))
  }

  lemma {:induction false} RunKeeps(f: Feed, actions: seq<Action>, regime: Regime)
    requires FeedOk(f, regime) && Run(f, actions, regime).Some?
    ensures FeedOk(Run(f, actions, regime).value, regime)
    decreases |actions|
  {
    hide Accounted, CoverOk, RoomOk, InOrder, Rising, Next;
    if |actions| > 0 {
      var a := actions[0];
      assert Allowed(f, a, Any);
      ShapeOk(f);
      NextAccounted(f, a);
      NextCovered(f, a);
      if regime.HasBound() {
        NextHasRoom(f, a);
      }
      if regime.IsQuiet() {
        NextRises(f, a);
      }
      if regime.BoundedUndisturbed? {
        NextInOrder(f, a);
      }
      RunKeeps(Next(f, a), actions[1..], regime);
    }
  }

  lemma ShapeOk(f: Feed)
    requires CoverOk(f)
    ensures WellFormed(f.chan)
  {
  }

  lemma StartsOk(regime: Regime)
    ensures FeedOk(NEW_FEED, regime)
  {
  }

  /** In every run, a diff change that was published is covered by a full notice received since, or one is owed. */
  lemma LostChangeIsOwed(actions: seq<Action>)
    requires Run(NEW_FEED, actions, Any).Some?
    ensures var f := Run(NEW_FEED, actions, Any).value;
            f.diffAt <= f.fullAt || HoldsFull(f.chan.queue) || HoldsFull(InHand(f.chan)) || f.chan.lagging || Losing(f.chan)
  {
    StartsOk(Any);
    hide Accounted, ChanOk;
    RunKeeps(NEW_FEED, actions, Any);
  }

  /** While fewer than 8 are unread, each review notice is received, queued or in the publisher's hands, exactly once. */
  lemma ReviewsArriveOnce(actions: seq<Action>, id: nat)
    requires Run(NEW_FEED, actions, Bounded).Some?
    ensures var f := Run(NEW_FEED, actions, Bounded).value;
            multiset(Ids(f.received))[id] + multiset(Ids(f.chan.queue))[id] + multiset(Ids(InHand(f.chan)))[id]
            == if 1 <= id <= |f.published| then 1 else 0
  {
    StartsOk(Bounded);
    RunKeeps(NEW_FEED, actions, Bounded);
    hide CoverOk, HasRoom, Ids;
    var f := Run(NEW_FEED, actions, Bounded).value;
    CountNumbered(f.published, id);
    assert multiset(f.dropped) == multiset{};
    assert multiset(f.published)[id]
        == (multiset(Ids(f.received)) + OnTheWay(f.chan) + multiset(f.dropped))[id];
  }

  lemma {:induction false} CountNumbered(published: seq<nat>, id: nat)
    requires Numbered(published)
    ensures multiset(published)[id] == if 1 <= id <= |published| then 1 else 0
  {
    if |published| > 0 {
      var last := |published| - 1;
      CountNumbered(published[..last], id);
      assert published == published[..last] + [published[last]];
    }
  }

  /** When delivery is not disturbed, no notice is received after a newer one, however many are unread. */
  lemma ReviewsArriveInOrder(actions: seq<Action>)
    requires Run(NEW_FEED, actions, Undisturbed).Some?
    ensures var ids := Ids(Run(NEW_FEED, actions, Undisturbed).value.received); forall i, j :: 0 <= i < j < |ids| ==> ids[i] < ids[j]
  {
    StartsOk(Undisturbed);
    RunKeeps(NEW_FEED, actions, Undisturbed);
    hide Accounted, CoverOk, HasRoom, Ids, Line;
    var f := Run(NEW_FEED, actions, Undisturbed).value;
    assert forall i :: 0 <= i < |Ids(f.received)| ==> Ids(f.received)[i] == Whole(f)[i];
  }

  /** And when fewer than 8 are unread as well, none is missing among those received. */
  lemma NoneIsSkipped(actions: seq<Action>)
    requires Run(NEW_FEED, actions, BoundedUndisturbed).Some?
    ensures var f := Run(NEW_FEED, actions, BoundedUndisturbed).value; Ids(f.received) <= f.published && Numbered(f.published)
  {
    StartsOk(BoundedUndisturbed);
    RunKeeps(NEW_FEED, actions, BoundedUndisturbed);
    hide Accounted, CoverOk, HasRoom, Ids, Line;
  }

  // ----- Both hypotheses are needed -----

  /** The ninth review notice no one has read is dropped, and deliver says that it was queued. */
  lemma NinthIsDropped(queue: seq<Event>, ev: Event)
    requires |queue| == CAPACITY && AllReviews(queue) && ev.id != 0
    ensures Delivered(queue, ev) == Delivery(queue, true, false)
  {
    AllAreReviews(queue);
    assert (queue + [ev])[..CAPACITY] == queue;
  }

  /** A review notice gets into the queue if and only if fewer than 8 are unread; deliver always says that it did. */
  lemma QueuedOnlyWithRoom(queue: seq<Event>, ev: Event)
    requires |queue| <= CAPACITY && ev.id != 0 && ev !in queue
    ensures ev in Delivered(queue, ev).queue <==> |Reviews(queue)| < CAPACITY
    ensures Delivered(queue, ev).queued
  {
    hide Reviews, HoldsChange;
    var keep := Reviews(queue);
    if |queue| == CAPACITY {
      assert (keep + [ev])[|keep|] == ev;
      if |keep| == CAPACITY {
        assert Fitting(keep + [ev]) == keep;
      }
    }
  }

  lemma {:induction false} AllAreReviews(queue: seq<Event>)
    requires AllReviews(queue)
    ensures Reviews(queue) == queue && !HoldsChange(queue)
  {
    if |queue| > 0 {
      assert forall ev :: ev in queue[1..] ==> ev in queue;
      AllAreReviews(queue[1..]);
    }
  }

  lemma {:induction false} RunConcat(f: Feed, a: seq<Action>, b: seq<Action>, regime: Regime)
    requires Run(f, a, regime).Some?
    ensures Run(f, a + b, regime) == Run(Run(f, a, regime).value, b, regime)
    decreases |a|
  {
    hide Next;
    if |a| == 0 {
      assert a + b == b;
    } else {
      assert (a + b)[1..] == a[1..] + b;
      assert Allowed(f, a[0], Any);
      RunConcat(Next(f, a[0]), a[1..], b, regime);
    }
  }

  /** One step more. */
  lemma Step(actions: seq<Action>, f: Feed, a: Action) returns (more: seq<Action>, next: Feed)
    requires Run(NEW_FEED, actions, Bounded) == Some(f) && Allowed(f, a, Bounded) && Allowed(f, a, Any)
    ensures more == actions + [a] && next == Next(f, a) && Run(NEW_FEED, more, Bounded) == Some(next)
  {
    more, next := actions + [a], Next(f, a);
    RunConcat(NEW_FEED, actions, [a], Bounded);
    assert [a][1..] == [];
  }

  /** n diff changes are published, and there is room for them. */
  lemma {:induction false} StepDiffs(actions: seq<Action>, f: Feed, g: string, n: nat) returns (more: seq<Action>, next: Feed)
    requires Run(NEW_FEED, actions, Bounded) == Some(f) && f.chan.phase.Idle? && !f.chan.lagging && |f.chan.queue| + n <= CAPACITY
    ensures Run(NEW_FEED, more, Bounded) == Some(next)
    ensures next.chan == f.chan.(queue := f.chan.queue + seq(n, i => FullNotice(g)))
    ensures next.published == f.published && next.received == f.received
    decreases n
  {
    if n == 0 {
      more, next := actions, f;
      assert f.chan.queue + [] == f.chan.queue;
    } else {
      more, next := Step(actions, f, PublishDiffs(g));
      var q := next.chan.queue;
      more, next := StepDiffs(more, next, g, n - 1);
      assert q + seq(n - 1, i => FullNotice(g)) == f.chan.queue + seq(n, i => FullNotice(g));
    }
  }

  /** The publisher throws n change notices away. */
  lemma {:induction false} StepDrain(actions: seq<Action>, f: Feed, n: nat) returns (more: seq<Action>, next: Feed)
    requires Run(NEW_FEED, actions, Bounded) == Some(f) && f.chan.phase.Draining?
    requires |f.chan.queue| == n && forall ev :: ev in f.chan.queue ==> ev.id == 0
    ensures Run(NEW_FEED, more, Bounded) == Some(next)
    ensures next.chan.queue == [] && next.chan.phase.Draining?
    ensures next.chan.phase.ev == f.chan.phase.ev && next.chan.phase.keep == f.chan.phase.keep
    ensures next.received == f.received && next.published == f.published
    decreases n
  {
    if n == 0 {
      more, next := actions, f;
    } else {
      assert f.chan.queue[0] in f.chan.queue;
      more, next := Step(actions, f, PublisherStep);
      assert forall ev :: ev in next.chan.queue ==> ev in f.chan.queue;
      more, next := StepDrain(more, next, n - 1);
    }
  }

  /** A receiver that takes part while the publisher makes room may receive an older notice after a newer one. */
  lemma DisturbedOrder(g: string) returns (actions: seq<Action>, f: Feed)
    ensures Run(NEW_FEED, actions, Bounded) == Some(f)
    ensures Ids(f.received) == [2, 1]
  {
    var r1, r2, r3 := Event(1, Review(g)), Event(2, Review(g)), Event(3, Review(g));
    actions, f := Step([], NEW_FEED, PublishReview(g));
    assert f.chan.queue == [r1];
    actions, f := Step(actions, f, PublishReview(g));
    assert f.chan.queue == [r1, r2];
    actions, f := StepDiffs(actions, f, g, 6);
    actions, f := DisturbedTail(actions, f, g, f.chan.queue[2..]);
  }

  lemma DisturbedTail(before: seq<Action>, start: Feed, g: string, changes: seq<Event>) returns (actions: seq<Action>, f: Feed)
    requires Run(NEW_FEED, before, Bounded) == Some(start)
    requires |changes| == 6 && forall ev :: ev in changes ==> ev.id == 0
    requires start.chan == Chan([Event(1, Review(g)), Event(2, Review(g))] + changes, false, Idle)
    requires start.published == [1, 2] && start.received == []
    ensures Run(NEW_FEED, actions, Bounded) == Some(f)
    ensures Ids(f.received) == [2, 1]
  {
    hide Reviews, Run;
    actions, f := NewerTaken(before, start, g, changes);
    actions, f := StepDrain(actions, f, 6);
    actions, f := OlderAfterNewer(actions, f, Event(1, Review(g)), Event(2, Review(g)), Event(3, Review(g)));
  }

  /** The publisher has the older notice in hand when the newer one is taken. */
  lemma NewerTaken(before: seq<Action>, start: Feed, g: string, changes: seq<Event>) returns (actions: seq<Action>, f: Feed)
    requires Run(NEW_FEED, before, Bounded) == Some(start)
    requires |changes| == 6 && forall ev :: ev in changes ==> ev.id == 0
    requires start.chan == Chan([Event(1, Review(g)), Event(2, Review(g))] + changes, false, Idle)
    requires start.published == [1, 2] && start.received == []
    ensures Run(NEW_FEED, actions, Bounded) == Some(f)
    ensures f.chan == Chan(changes, false, Draining(Event(3, Review(g)), [Event(1, Review(g))], false))
    ensures f.received == [Event(2, Review(g))]
  {
    hide Reviews, Run, Advance, StartReview;
    var r1, r2 := Event(1, Review(g)), Event(2, Review(g));
    ReviewsOfTwo(r1, r2, changes);
    assert [r1, r2] + changes == [r1] + ([r2] + changes);
    assert ([r2] + changes)[0] == r2 && ([r2] + changes)[1..] == changes;
    actions, f := OlderInHand(before, start, r1, [r2] + changes, g);
    actions, f := Step(actions, f, Receive);
  }

  lemma OlderInHand(before: seq<Action>, start: Feed, r1: Event, rest: seq<Event>, g: string) returns (actions: seq<Action>, f: Feed)
    requires Run(NEW_FEED, before, Bounded) == Some(start)
    requires r1.id != 0 && |rest| == CAPACITY - 1 && start.chan == Chan([r1] + rest, false, Idle) && |Reviews([r1] + rest)| < CAPACITY
    requires start.published == [1, 2]
    ensures Run(NEW_FEED, actions, Bounded) == Some(f)
    ensures f.chan == Chan(rest, false, Draining(Event(3, Review(g)), [r1], false)) && f.received == start.received
  {
    hide Reviews, Run;
    assert ([r1] + rest)[1..] == rest && [] + [r1] == [r1];
    actions, f := Step(before, start, PublishReview(g));
    actions, f := Step(actions, f, PublisherStep);
  }

  lemma OlderAfterNewer(before: seq<Action>, start: Feed, r1: Event, r2: Event, r3: Event) returns (actions: seq<Action>, f: Feed)
    requires Run(NEW_FEED, before, Bounded) == Some(start)
    requires start.chan.queue == [] && start.chan.phase.Draining?
    requires start.chan.phase.keep == [r1] && start.chan.phase.ev == r3
    requires start.received == [r2] && r1.id == 1 && r2.id == 2
    ensures Run(NEW_FEED, actions, Bounded) == Some(f)
    ensures Ids(f.received) == [2, 1]
  {
    hide Reviews, Run;
    actions, f := Step(before, start, PublisherStep);
    assert f.chan.phase.Refilling? && f.chan.phase.todo == [r1, r3];
    actions, f := Step(actions, f, PublisherStep);
    assert f.chan.queue == [r1];
    actions, f := Step(actions, f, Receive);
    IdsConcat([r2], [r1]);
    IdsOne(r1);
    IdsOne(r2);
  }

  lemma ReviewsOfTwo(r1: Event, r2: Event, changes: seq<Event>)
    requires r1.id != 0 && r2.id != 0 && forall ev :: ev in changes ==> ev.id == 0
    ensures |Reviews([r1, r2] + changes)| == 2
  {
    assert ([r1, r2] + changes)[1..] == [r2] + changes;
    assert ([r2] + changes)[1..] == changes;
    NoReviews(changes);
  }

  lemma {:induction false} NoReviews(changes: seq<Event>)
    requires forall ev :: ev in changes ==> ev.id == 0
    ensures Reviews(changes) == []
  {
    if |changes| > 0 {
      NoReviews(changes[1..]);
    }
  }
}
