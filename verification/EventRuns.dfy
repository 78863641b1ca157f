/**
 * One subscriber's queue as a machine of small steps, so that the subscriber
 * may receive while a review notice is making room for itself; and what every
 * run of it keeps.
 */
module EventRuns {
  import opened Prelude
  import opened Broker

  // ----- The queue and the publisher at work on it -----

  /** Where the publisher of a review notice stands. It holds the lock, so nothing else is sent meanwhile. */
  datatype Phase =
    | Idle
    | Draining(ev: Event, keep: seq<Event>, lost: bool)
    | Refilling(todo: seq<Event>, lost: bool)

  datatype Chan = Chan(queue: seq<Event>, lagging: bool, phase: Phase)

  const NEW_CHAN := Chan([], false, Idle)

  function AsSubscriber(c: Chan): Subscriber {
    Subscriber(c.queue, c.lagging)
  }

  function SendChange(c: Chan, full: Event, scoped: Option<Event>): Chan {
    var s := Changed(AsSubscriber(c), full, scoped);
    c.(queue := s.queue, lagging := s.lagging)
  }

  /** The first attempt, which succeeds unless the queue is full. */
  function StartReview(c: Chan, ev: Event): Chan {
    if |c.queue| < CAPACITY then c.(queue := c.queue + [ev]) else c.(phase := Draining(ev, [], false))
  }

  /** One more step of the publisher. */
  function Advance(c: Chan): Chan {
    match c.phase
    case Idle => c
    case Draining(ev, keep, lost) =>
      if c.queue == [] then c.(phase := Refilling(keep + [ev], lost))
      else if c.queue[0].id != 0 then c.(queue := c.queue[1..], phase := Draining(ev, keep + [c.queue[0]], lost))
      else c.(queue := c.queue[1..], phase := Draining(ev, keep, true))
    case Refilling(todo, lost) =>
      if todo == [] then c.(lagging := c.lagging || lost, phase := Idle)
      else if |c.queue| < CAPACITY then c.(queue := c.queue + [todo[0]], phase := Refilling(todo[1..], lost))
      else c.(phase := Refilling(todo[1..], lost))
  }

  /** A notice that Advance is about to drop. */
  predicate Drops(c: Chan) {
    c.phase.Refilling? && c.phase.todo != [] && |c.queue| >= CAPACITY
  }

  function Take(c: Chan): Chan
    requires c.queue != []
  {
    c.(queue := c.queue[1..])
  }

  // ----- Undisturbed, the steps are one delivery -----

  function Left(c: Chan): nat {
    match c.phase
    case Idle => 0
    case Draining(_, keep, _) => 2 * |c.queue| + |keep| + 3
    case Refilling(todo, _) => |todo| + 1
  }

  /** The publisher runs to its end with nothing received meanwhile. */
  function Settle(c: Chan): Chan
    decreases Left(c)
  {
    if c.phase.Idle? then c else Settle(Advance(c))
  }

  lemma {:induction false} SettleRefilling(c: Chan)
    requires c.phase.Refilling? && |c.queue| <= CAPACITY
    ensures Settle(c) == Chan(Fitting(c.queue + c.phase.todo), c.lagging || c.phase.lost, Idle)
    decreases |c.phase.todo|
  {
    var todo := c.phase.todo;
    if todo == [] {
      assert c.queue + todo == c.queue;
    } else {
      SettleRefilling(Advance(c));
      if |c.queue| < CAPACITY {
        assert c.queue + todo == (c.queue + [todo[0]]) + todo[1..];
      } else {
        assert Fitting(c.queue + todo) == c.queue;
        assert Fitting(c.queue + todo[1..]) == c.queue;
      }
    }
  }

  /** What draining the queue comes to. */
  function Drained(c: Chan): Chan
    requires c.phase.Draining?
  {
    Chan(Fitting(c.phase.keep + Reviews(c.queue) + [c.phase.ev]), c.lagging || c.phase.lost || HoldsChange(c.queue), Idle)
  }

  lemma {:induction false} SettleDraining(c: Chan)
    requires c.phase.Draining? && |c.queue| <= CAPACITY
    ensures Settle(c) == Drained(c)
    decreases |c.queue|
  {
    if c.queue == [] {
      SettleRefilling(Advance(c));
      assert c.phase.keep + [] + [c.phase.ev] == [] + (c.phase.keep + [c.phase.ev]);
    } else {
      DrainOne(c);
      SettleDraining(Advance(c));
    }
  }

  lemma DrainOne(c: Chan)
    requires c.phase.Draining? && c.queue != []
    ensures Advance(c).phase.Draining? && Drained(Advance(c)) == Drained(c)
  {
    hide Fitting;
    var keep, head, rest := c.phase.keep, c.queue[0], c.queue[1..];
    HoldsChangeCons(c.queue);
    if head.id != 0 {
      assert Reviews(c.queue) == [head] + Reviews(rest);
      assert (keep + [head]) + Reviews(rest) == keep + ([head] + Reviews(rest));
    }
  }

  lemma HoldsChangeCons(queue: seq<Event>)
    requires queue != []
    ensures HoldsChange(queue) <==> queue[0].id == 0 || HoldsChange(queue[1..])
  {
    assert queue == [queue[0]] + queue[1..];
  }

  /** With nothing received meanwhile, the small steps do what publishReview does. */
  lemma SettledIsReviewed(c: Chan, ev: Event)
    requires c.phase.Idle? && |c.queue| <= CAPACITY && ev.id != 0
    ensures Settle(StartReview(c, ev)) == Chan(Reviewed(AsSubscriber(c), ev).queue, Reviewed(AsSubscriber(c), ev).lagging, Idle)
  {
    if |c.queue| >= CAPACITY {
      SettleDraining(StartReview(c, ev));
      assert [] + Reviews(c.queue) == Reviews(c.queue);
    }
  }

  // ----- Shape -----

  predicate AllReviews(events: seq<Event>) {
    forall ev :: ev in events ==> ev.id != 0
  }

  predicate WellFormed(c: Chan) {
    |c.queue| <= CAPACITY
    && match c.phase
       case Idle => true
       case Draining(ev, keep, _) => ev.id != 0 && AllReviews(keep) && |keep| + |c.queue| <= CAPACITY
       case Refilling(todo, _) => AllReviews(todo) && AllReviews(c.queue) && |todo| + |c.queue| <= CAPACITY + 1
  }

  lemma AdvanceKeepsShape(c: Chan)
    requires WellFormed(c)
    ensures WellFormed(Advance(c))
  {
  }

  // ----- What is owed to the subscriber -----

  predicate IsFull(ev: Event) {
    ev.notice.Review? || ev.notice.scope == Full
  }

  predicate HoldsFull(events: seq<Event>) {
    exists ev :: ev in events && IsFull(ev)
  }

  /** The notices the publisher has in hand. */
  function InHand(c: Chan): seq<Event> {
    match c.phase
    case Idle => []
    case Draining(ev, keep, _) => keep + [ev]
    case Refilling(todo, _) => todo
  }

  predicate Losing(c: Chan) {
    !c.phase.Idle? && c.phase.lost
  }

  /** A full notice is on its way, or the next notice is going to be full. */
  predicate OwesFull(c: Chan) {
    HoldsFull(c.queue) || HoldsFull(InHand(c)) || c.lagging || Losing(c)
  }

  /** Review notices are the events with an id, and say everything. */
  predicate Consistent(events: seq<Event>) {
    forall ev :: ev in events ==> (ev.id != 0 <==> ev.notice.Review?)
  }

  predicate ChanOk(c: Chan) {
    WellFormed(c) && Consistent(c.queue) && Consistent(InHand(c))
  }

  lemma SendFullOwes(c: Chan, full: Event)
    requires ChanOk(c) && c.phase.Idle? && full.notice.Change? && full.notice.scope == Full && full.id == 0
    ensures ChanOk(SendChange(c, full, None)) && OwesFull(SendChange(c, full, None))
  {
    var after := SendChange(c, full, None);
    if |c.queue| < CAPACITY {
      assert full in after.queue;
    }
  }

  lemma SendScopedOwes(c: Chan, full: Event, scoped: Event)
    requires ChanOk(c) && c.phase.Idle? && full.notice.Change? && full.notice.scope == Full && full.id == 0
    requires scoped.notice.Change? && scoped.id == 0
    ensures var after := SendChange(c, full, Some(scoped));
            ChanOk(after) && (OwesFull(c) ==> OwesFull(after))
  {
    var after := SendChange(c, full, Some(scoped));
    if |c.queue| < CAPACITY {
      assert after.queue == c.queue + [if c.lagging then full else scoped];
      assert forall ev :: ev in c.queue ==> ev in after.queue;
      if c.lagging {
        assert full in after.queue;
      }
    }
  }

  lemma StartReviewOwes(c: Chan, ev: Event)
    requires ChanOk(c) && c.phase.Idle? && ev.id != 0 && ev.notice.Review?
    ensures var after := StartReview(c, ev); ChanOk(after) && OwesFull(after)
  {
    var after := StartReview(c, ev);
    if |c.queue| < CAPACITY {
      assert ev in after.queue;
    } else {
      assert ev in InHand(after);
    }
  }

  lemma AdvanceOwes(c: Chan)
    requires ChanOk(c) && !c.phase.Idle?
    ensures ChanOk(Advance(c)) && (OwesFull(c) ==> OwesFull(Advance(c)))
  {
    AdvanceKeepsShape(c);
    match c.phase {
      case Idle =>
      case Draining(_, _, _) => DrainOwes(c);
      case Refilling(_, _) => RefillOwes(c);
    }
  }

  lemma DrainOwes(c: Chan)
    requires ChanOk(c) && c.phase.Draining?
    ensures Consistent(Advance(c).queue) && Consistent(InHand(Advance(c)))
    ensures OwesFull(Advance(c))
  {
    var after := Advance(c);
    assert c.phase.ev in InHand(c) && c.phase.ev in InHand(after);
    if c.queue != [] {
      assert c.queue[0] in c.queue;
      assert forall ev :: ev in after.queue ==> ev in c.queue;
      assert forall ev :: ev in InHand(after) ==> ev in InHand(c) || ev == c.queue[0];
    }
  }

  /** What the publisher still has in hand is sent, or the queue is full of review notices that say as much. */
  lemma RefillOwes(c: Chan)
    requires ChanOk(c) && c.phase.Refilling?
    ensures Consistent(Advance(c).queue) && Consistent(InHand(Advance(c)))
    ensures OwesFull(c) ==> OwesFull(Advance(c))
  {
    var after, todo := Advance(c), c.phase.todo;
    if todo != [] {
      assert todo[0] in InHand(c);
      assert forall ev :: ev in InHand(after) ==> ev in InHand(c);
      if |c.queue| < CAPACITY {
        assert todo[0] in after.queue;
        assert forall ev :: ev in c.queue ==> ev in after.queue;
        assert forall ev :: ev in InHand(c) ==> ev == todo[0] || ev in InHand(after);
      } else {
        assert c.queue[0] in c.queue && IsFull(c.queue[0]);
      }
    }
  }

  lemma TakeOwes(c: Chan)
    requires ChanOk(c) && c.queue != []
    ensures ChanOk(Take(c)) && (OwesFull(c) ==> OwesFull(Take(c)) || IsFull(c.queue[0]))
  {
    assert forall ev :: ev in c.queue ==> ev == c.queue[0] || ev in c.queue[1..];
    assert forall ev :: ev in c.queue[1..] ==> ev in c.queue;
  }
}
