/**
 * The event broker: what one delivery does to one queue, and what a
 * publication does to every subscriber. The loops are proved equal to these
 * functions when nothing is received meanwhile; EventRuns lets a receiver
 * take part.
 */
module Broker {
  import opened Prelude
  import opened Sequences

  // ----- Notices -----

  /** Full says that anything may have changed. */
  datatype Scope = Full | CommentsOnly

  datatype Notice = Change(group: string, scope: Scope) | Review(group: string)

  /** A non-zero id marks a review notice. */
  datatype Event = Event(id: nat, notice: Notice)

  const CAPACITY := 8

  function CommentsNotice(group: string): Event {
    Event(0, Change(group, CommentsOnly))
  }

  function FullNotice(group: string): Event {
    Event(0, Change(group, Full))
  }

  // ----- One queue -----

  function Reviews(queue: seq<Event>): (r: seq<Event>)
    ensures |r| <= |queue|
    ensures forall ev :: ev in r <==> ev in queue && ev.id != 0
  {
    if |queue| == 0 then []
    else if queue[0].id != 0 then [queue[0]] + Reviews(queue[1..])
    else Reviews(queue[1..])
  }

  /** The review notices of a queue, in their order. */
  lemma {:induction false} ReviewsAre(queue: seq<Event>)
    ensures Reviews(queue) == Filter(queue, (ev: Event) => ev.id != 0)
  {
    if |queue| > 0 {
      ReviewsAre(queue[1..]);
      assert queue == [queue[0]] + queue[1..];
    }
  }

  predicate HoldsChange(queue: seq<Event>) {
    exists ev :: ev in queue && ev.id == 0
  }

  /** What fits of a list of notices. */
  function Fitting(events: seq<Event>): seq<Event> {
    if |events| <= CAPACITY then events else events[..CAPACITY]
  }

  datatype Delivery = Delivery(queue: seq<Event>, queued: bool, lost: bool)

  /** deliver, with nothing received meanwhile. */
  function Delivered(queue: seq<Event>, ev: Event): Delivery {
    if |queue| < CAPACITY then Delivery(queue + [ev], true, false)
    else if ev.id == 0 then Delivery(queue, false, true)
    else Delivery(Fitting(Reviews(queue) + [ev]), true, HoldsChange(queue))
  }

  /** A buffered channel. */
  class Channel {
    var queue: seq<Event>

    constructor ()
      ensures queue == []
    {
      queue := [];
    }

    method TrySend(ev: Event) returns (sent: bool)
      modifies this
      ensures sent == (|old(queue)| < CAPACITY)
      ensures queue == if sent then old(queue) + [ev] else old(queue)
    {
      sent := |queue| < CAPACITY;
      if sent {
        queue := queue + [ev];
      }
    }

    method TryReceive() returns (ev: Option<Event>)
      modifies this
      ensures old(queue) == [] ==> ev == None && queue == []
      ensures old(queue) != [] ==> ev == Some(old(queue)[0]) && queue == old(queue)[1..]
    {
      if queue == [] {
        return None;
      }
      ev := Some(queue[0]);
      queue := queue[1..];
    }
  }

  /** deliver. */
  method Deliver(ch: Channel, ev: Event) returns (queued: bool, lost: bool)
    requires |ch.queue| <= CAPACITY
    modifies ch
    ensures Delivery(ch.queue, queued, lost) == Delivered(old(ch.queue), ev)
    ensures |ch.queue| <= CAPACITY
  {
    var sent := ch.TrySend(ev);
    if sent {
      return true, false;
    }
    if ev.id == 0 {
      return false, true;
    }
    var keep;
    keep, lost := Drain(ch);
    Refill(ch, keep + [ev]);
    return true, lost;
  }

  method Drain(ch: Channel) returns (keep: seq<Event>, lost: bool)
    modifies ch
    ensures ch.queue == [] && keep == Reviews(old(ch.queue)) && lost == HoldsChange(old(ch.queue))
  {
    hide Reviews, HoldsChange;
    keep, lost := [], false;
    ghost var taken: seq<Event> := [];
    NothingHeld();
    while true
      invariant taken + ch.queue == old(ch.queue)
      invariant keep == Reviews(taken) && lost == HoldsChange(taken)
      decreases |ch.queue|
    {
      MoveOver(taken, ch.queue);
      var got := ch.TryReceive();
      if got.None? {
        break;
      }
      ReviewsSnoc(taken, got.value);
      taken := taken + [got.value];
      if got.value.id != 0 {
        keep := keep + [got.value];
      } else {
        lost := true;
      }
    }
  }

  lemma MoveOver(taken: seq<Event>, queue: seq<Event>)
    ensures queue == [] ==> taken + queue == taken
    ensures queue != [] ==> (taken + [queue[0]]) + queue[1..] == taken + queue
  {
  }

  lemma NothingHeld()
    ensures Reviews([]) == [] && !HoldsChange([])
  {
  }

  lemma {:induction false} ReviewsSnoc(queue: seq<Event>, ev: Event)
    ensures Reviews(queue + [ev]) == if ev.id != 0 then Reviews(queue) + [ev] else Reviews(queue)
    ensures HoldsChange(queue + [ev]) <==> HoldsChange(queue) || ev.id == 0
  {
    assert ev in queue + [ev];
    if |queue| == 0 {
      assert (queue + [ev])[1..] == [];
    } else {
      assert (queue + [ev])[1..] == queue[1..] + [ev];
      ReviewsSnoc(queue[1..], ev);
    }
  }

  method Refill(ch: Channel, events: seq<Event>)
    requires ch.queue == []
    modifies ch
    ensures ch.queue == Fitting(events)
  {
    for i := 0 to |events|
      invariant ch.queue == Fitting(events[..i])
    {
      assert events[..i + 1] == events[..i] + [events[i]];
      // A notice that does not fit is dropped.
      var sent := ch.TrySend(events[i]);
    }
    assert events[..|events|] == events;
  }

  // ----- One subscriber -----

  datatype Subscriber = Subscriber(queue: seq<Event>, lagging: bool)

  /** What publishChange does to one subscriber. */
  function Changed(s: Subscriber, full: Event, scoped: Option<Event>): Subscriber {
    var msg := if scoped.Some? && !s.lagging then scoped.value else full;
    var d := Delivered(s.queue, msg);
    Subscriber(d.queue, if d.queued then s.lagging && !(scoped.None? || s.lagging) else true)
  }

  /** What publishReview does to one subscriber. */
  function Reviewed(s: Subscriber, ev: Event): Subscriber {
    var d := Delivered(s.queue, ev);
    Subscriber(d.queue, s.lagging || d.lost)
  }

  /** A subscriber with room gets the scoped notice if it has missed nothing, and the full one otherwise; one without has missed it. */
  lemma ChangedIs(s: Subscriber, full: Event, scoped: Option<Event>)
    requires |s.queue| <= CAPACITY && full.id == 0 && (scoped.Some? ==> scoped.value.id == 0)
    ensures Changed(s, full, scoped)
         == if |s.queue| == CAPACITY then Subscriber(s.queue, true)
            else if scoped.Some? && !s.lagging then Subscriber(s.queue + [scoped.value], false)
            else Subscriber(s.queue + [full], false)
  {
  }

  /** Where a queue is full, change notices make room for a review notice, and the subscriber has missed them. */
  lemma ReviewedIs(s: Subscriber, ev: Event)
    requires |s.queue| <= CAPACITY && ev.id != 0
    ensures var reviews := Filter(s.queue, (e: Event) => e.id != 0);
            Reviewed(s, ev)
            == if |s.queue| < CAPACITY then Subscriber(s.queue + [ev], s.lagging)
               else if |reviews| < CAPACITY then Subscriber(reviews + [ev], true)
               else s
  {
    ReviewsAre(s.queue);
    hide Reviews, Filter;
    FewerReviews(s.queue);
    var reviews := Reviews(s.queue);
    if |reviews| == CAPACITY == |s.queue| {
      assert (reviews + [ev])[..CAPACITY] == s.queue;
    }
  }

  /** A queue with no change notice in it is all review notices. */
  lemma {:induction false} FewerReviews(queue: seq<Event>)
    ensures |Reviews(queue)| == |queue| <==> !HoldsChange(queue)
    ensures |Reviews(queue)| == |queue| ==> Reviews(queue) == queue
  {
    if |queue| > 0 {
      FewerReviews(queue[1..]);
      assert queue == [queue[0]] + queue[1..];
    }
  }

  const MAX_SUBSCRIBERS := 64

  class Broker {
    var subs: set<Channel>
    var lagging: set<Channel>
    /** Numbers review notices. */
    var seq_: nat
    /** The most recent review notice of each group. */
    var reviews: map<string, Event>

    ghost predicate Valid()
      reads this, subs
    {
      && |subs| <= MAX_SUBSCRIBERS
      && lagging <= subs
      && (forall ch :: ch in subs ==> |ch.queue| <= CAPACITY)
      && (forall g :: g in reviews ==> 1 <= reviews[g].id <= seq_)
      && (forall g, h :: g in reviews && h in reviews && reviews[g].id == reviews[h].id ==> g == h)
    }

    function Of(ch: Channel): Subscriber
      reads this, ch
    {
      Subscriber(ch.queue, ch in lagging)
    }

    constructor ()
      ensures Valid() && subs == {} && reviews == map[] && seq_ == 0
    {
      subs, lagging, seq_, reviews := {}, {}, 0, map[];
    }

    /** None when the cap is reached. */
    method Subscribe() returns (ch: Option<Channel>)
      requires Valid()
      modifies this
      ensures Valid()
      ensures ch.None? <==> |old(subs)| >= MAX_SUBSCRIBERS
      ensures ch.None? ==> subs == old(subs)
      ensures ch.Some? ==> fresh(ch.value) && subs == old(subs) + {ch.value} && Of(ch.value) == Subscriber([], false)
      ensures lagging == old(lagging) && reviews == old(reviews) && seq_ == old(seq_)
    {
      if |subs| >= MAX_SUBSCRIBERS {
        return None;
      }
      var c := new Channel();
      subs := subs + {c};
      return Some(c);
    }

    method Unsubscribe(ch: Channel)
      requires Valid()
      modifies this
      ensures Valid()
      ensures subs == old(subs) - {ch} && lagging == old(lagging) - {ch}
      ensures reviews == old(reviews) && seq_ == old(seq_)
    {
      ghost var before := subs;
      subs := subs - {ch};
      lagging := lagging - {ch};
      assert |subs| <= |before| by {
        FewerIsSmaller(subs, before);
      }
    }

    static lemma FewerIsSmaller(a: set<Channel>, b: set<Channel>)
      requires a <= b
      ensures |a| <= |b|
    {
      assert b == a + (b - a);
    }

    method ForgetReviews(group: string)
      requires Valid()
      modifies this`reviews
      ensures Valid()
      ensures reviews == old(reviews) - {group}
    {
      reviews := reviews - {group};
    }

    /** Each subscriber is told, or is marked as having missed something. */
    method PublishChange(full: Event, scoped: Option<Event>)
      requires Valid() && full.id == 0 && (scoped.Some? ==> scoped.value.id == 0)
      modifies this`lagging, subs
      ensures Valid()
      ensures forall ch :: ch in subs ==> Of(ch) == Changed(old(Of(ch)), full, scoped)
      // One with room and nothing missed gets the scoped notice, if there is one.
      ensures forall ch :: ch in subs && |old(ch.queue)| < CAPACITY && scoped.Some? && ch !in old(lagging) ==>
                ch.queue == old(ch.queue) + [scoped.value] && ch !in lagging
      // One with room that missed something, or that nothing scoped is said to, gets the full one, which covers what it missed.
      ensures forall ch :: ch in subs && |old(ch.queue)| < CAPACITY && (scoped.None? || ch in old(lagging)) ==>
                ch.queue == old(ch.queue) + [full] && ch !in lagging
      // One without room has missed it.
      ensures forall ch :: ch in subs && |old(ch.queue)| >= CAPACITY ==> ch.queue == old(ch.queue) && ch in lagging
    {
      hide Changed, Reviewed;
      TellAll(full, scoped);
      forall ch | ch in subs
        ensures ch.queue == if |old(ch.queue)| >= CAPACITY then old(ch.queue)
                            else old(ch.queue) + [if scoped.Some? && ch !in old(lagging) then scoped.value else full]
        ensures ch in lagging <==> |old(ch.queue)| >= CAPACITY
      {
        ChangedIs(old(Of(ch)), full, scoped);
      }
    }

    method TellAll(full: Event, scoped: Option<Event>)
      requires Valid()
      modifies this`lagging, subs
      ensures Valid()
      ensures forall ch :: ch in subs ==> Of(ch) == Changed(old(Of(ch)), full, scoped)
    {
      hide Changed, Reviewed;
      var todo := subs;
      while todo != {}
        invariant todo <= subs && lagging <= subs
        invariant forall ch :: ch in subs ==> |ch.queue| <= CAPACITY
        invariant forall ch :: ch in subs && ch !in todo ==> Of(ch) == Changed(old(Of(ch)), full, scoped)
        invariant forall ch :: ch in todo ==> Of(ch) == old(Of(ch))
        decreases |todo|
      {
        var ch :| ch in todo;
        todo := todo - {ch};
        TellChange(ch, full, scoped);
      }
    }

    method TellChange(ch: Channel, full: Event, scoped: Option<Event>)
      requires |ch.queue| <= CAPACITY
      modifies this`lagging, ch
      ensures |ch.queue| <= CAPACITY && Of(ch) == Changed(old(Of(ch)), full, scoped)
      ensures forall other :: other != ch ==> (other in lagging <==> other in old(lagging))
    {
      hide Delivered;
      var msg := full;
      if scoped.Some? && ch !in lagging {
        msg := scoped.value;
      }
      var queued, _ := Deliver(ch, msg);
      if queued {
        if scoped.None? || ch in lagging {
          lagging := lagging - {ch};
        }
      } else {
        lagging := lagging + {ch};
      }
    }

    /** The notice is numbered, kept for replay, and delivered even where a queue is full of change notices. */
    method PublishReview(group: string)
      requires Valid()
      modifies this`lagging, this`seq_, this`reviews, subs
      ensures Valid()
      ensures seq_ == old(seq_) + 1
      ensures reviews == old(reviews)[group := Event(seq_, Review(group))]
      ensures forall ch :: ch in subs ==> Of(ch) == Reviewed(old(Of(ch)), Event(seq_, Review(group)))
      // It goes behind what is queued, or takes the room of the change notices, which the subscriber has then missed.
      ensures forall ch :: ch in subs ==>
                var notices := Filter(old(ch.queue), (e: Event) => e.id != 0);
                var ev := Event(seq_, Review(group));
                if |old(ch.queue)| < CAPACITY then ch.queue == old(ch.queue) + [ev] && (ch in lagging <==> ch in old(lagging))
                else if |notices| < CAPACITY then ch.queue == notices + [ev] && ch in lagging
                else ch.queue == old(ch.queue) && (ch in lagging <==> ch in old(lagging))
    {
      hide Reviewed, Filter;
      seq_ := seq_ + 1;
      var ev := Event(seq_, Review(group));
      reviews := reviews[group := ev];
      Fanout(ev);
      forall ch | ch in subs
        ensures var notices := Filter(old(ch.queue), (e: Event) => e.id != 0);
                if |old(ch.queue)| < CAPACITY then ch.queue == old(ch.queue) + [ev] && (ch in lagging <==> ch in old(lagging))
                else if |notices| < CAPACITY then ch.queue == notices + [ev] && ch in lagging
                else ch.queue == old(ch.queue) && (ch in lagging <==> ch in old(lagging))
      {
        ReviewedIs(old(Of(ch)), ev);
        assert Of(ch) == Reviewed(old(Of(ch)), ev);
      }
    }

    method Fanout(ev: Event)
      requires ev.id != 0 && lagging <= subs && forall ch :: ch in subs ==> |ch.queue| <= CAPACITY
      modifies this`lagging, subs
      ensures lagging <= subs && forall ch :: ch in subs ==> |ch.queue| <= CAPACITY
      ensures forall ch :: ch in subs ==> Of(ch) == Reviewed(old(Of(ch)), ev)
    {
      hide Changed, Reviewed;
      var todo := subs;
      while todo != {}
        invariant todo <= subs && lagging <= subs
        invariant forall ch :: ch in subs ==> |ch.queue| <= CAPACITY
        invariant forall ch :: ch in subs && ch !in todo ==> Of(ch) == Reviewed(old(Of(ch)), ev)
        invariant forall ch :: ch in todo ==> Of(ch) == old(Of(ch))
        decreases |todo|
      {
        var ch :| ch in todo;
        todo := todo - {ch};
        TellReview(ch, ev);
      }
    }

    method TellReview(ch: Channel, ev: Event)
      requires |ch.queue| <= CAPACITY
      modifies this`lagging, ch
      ensures |ch.queue| <= CAPACITY && Of(ch) == Reviewed(old(Of(ch)), ev)
      ensures forall other :: other != ch ==> (other in lagging <==> other in old(lagging))
    {
      hide Delivered;
      var _, lost := Deliver(ch, ev);
      if lost {
        lagging := lagging + {ch};
      }
    }

    /** The stored review notices newer than since, oldest first. */
    method MissedReviews(since: nat) returns (out: seq<Event>)
      requires Valid()
      ensures forall i, j :: 0 <= i < j < |out| ==> out[i].id < out[j].id
      ensures forall ev :: ev in out <==> ev.id > since && exists g :: g in reviews && reviews[g] == ev
    {
      hide Valid, Collected, Ascending;
      out := [];
      var todo := reviews.Keys;
      CollectedEnds(out, since);
      while todo != {}
        invariant todo <= reviews.Keys
        invariant Ascending(out) && Collected(out, since, todo)
        decreases |todo|
      {
        var g :| g in todo;
        CollectedApart(out, since, todo, g);
        ghost var had, left := out, todo;
        todo := todo - {g};
        if reviews[g].id > since {
          out := Insert(out, reviews[g]);
        }
        CollectedOne(had, since, left, g, out);
      }
      CollectedEnds(out, since);
    }

    static ghost predicate Ascending(events: seq<Event>) {
      forall i, j :: 0 <= i < j < |events| ==> events[i].id < events[j].id
    }

    lemma CollectedEnds(out: seq<Event>, since: nat)
      ensures Ascending([]) && Collected([], since, reviews.Keys)
      ensures Collected(out, since, {}) ==>
                forall ev :: ev in out <==> ev.id > since && exists g :: g in reviews && reviews[g] == ev
      ensures Ascending(out) ==> forall i, j :: 0 <= i < j < |out| ==> out[i].id < out[j].id
    {
    }

    /** Of the groups that are not left to do, the notices newer than since. */
    ghost predicate Collected(out: seq<Event>, since: nat, todo: set<string>)
      reads this`reviews
    {
      forall ev :: ev in out <==> ev.id > since && exists g :: g in reviews && g !in todo && reviews[g] == ev
    }

    lemma CollectedApart(out: seq<Event>, since: nat, todo: set<string>, g: string)
      requires Valid() && Collected(out, since, todo) && g in todo && g in reviews
      ensures forall e :: e in out ==> e.id != reviews[g].id
    {
    }

    lemma CollectedOne(had: seq<Event>, since: nat, todo: set<string>, g: string, out: seq<Event>)
      requires Collected(had, since, todo) && g in todo && g in reviews
      requires forall e :: e in out <==> e in had || (e == reviews[g] && e.id > since)
      ensures Collected(out, since, todo - {g})
    {
    }

    /** Into its place among notices in order. */
    static method Insert(events: seq<Event>, ev: Event) returns (out: seq<Event>)
      requires Ascending(events)
      requires forall e :: e in events ==> e.id != ev.id
      ensures Ascending(out)
      ensures forall e :: e in out <==> e in events || e == ev
    {
      var k := 0;
      while k < |events| && events[k].id < ev.id
        invariant k <= |events| && forall i :: 0 <= i < k ==> events[i].id < ev.id
      {
        k := k + 1;
      }
      assert k < |events| ==> events[k] in events;
      out := events[..k] + [ev] + events[k..];
      InsertKeepsOrder(events, k, ev);
    }

    static lemma InsertKeepsOrder(events: seq<Event>, k: nat, ev: Event)
      requires k <= |events| && Ascending(events)
      requires forall i :: 0 <= i < k ==> events[i].id < ev.id
      requires k < |events| ==> ev.id < events[k].id
      ensures var out := events[..k] + [ev] + events[k..];
              Ascending(out) && (forall e :: e in out <==> e in events || e == ev)
    {
      var out := events[..k] + [ev] + events[k..];
      forall i, j | 0 <= i < j < |out|
        ensures out[i].id < out[j].id
      {
        assert out[i] == if i < k then events[i] else if i == k then ev else events[i - 1];
        assert out[j] == if j < k then events[j] else if j == k then ev else events[j - 1];
      }
      InsertHolds(events, k, ev);
    }

    static lemma InsertHolds(events: seq<Event>, k: nat, ev: Event)
      requires k <= |events|
      ensures forall e :: e in events[..k] + [ev] + events[k..] <==> e in events || e == ev
    {
      assert events == events[..k] + events[k..];
    }
  }
}
