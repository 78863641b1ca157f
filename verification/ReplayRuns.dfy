/**
 * A stream that breaks and is opened again: the handler subscribes, replays
 * the stored review notices past the last one the client saw, and then sends
 * what comes. No group's latest review is missed in between.
 */
module ReplayRuns {
  import opened Prelude
  import opened Broker
  import opened EventRuns
  import DeliveryRuns
  import WaitRuns

  /**
   * `stored` is the latest review notice of each group and `lastId` the last
   * id given. Of the stream that is open: `last` is the id the client reported,
   * which one that connects for the first time does not; `replayed` is what the
   * handler read from the broker, and `sent` what it has taken from its queue.
   */
  datatype Link = Link(
    lastId: nat, stored: map<string, Event>, chan: Chan, connected: bool,
    last: Option<nat>, replayed: Option<seq<Event>>, sent: seq<Event>)

  const NEW_LINK := Link(0, map[], NEW_CHAN, false, None, None, [])

  datatype Action =
    | PublishReview(group: string)
    | PublishChange(full: Event, scoped: Option<Event>)
    | PublisherStep
    | Forget(group: string)
    | Connect(last: Option<nat>)
    | Replay
    | Send
    | Disconnect

  ghost predicate Allowed(l: Link, a: Action) {
    match a
    case PublishReview(_) => l.chan.phase.Idle? && |Reviews(l.chan.queue)| < CAPACITY
    case PublishChange(full, scoped) => l.chan.phase.Idle? && full.id == 0 && (scoped.Some? ==> scoped.value.id == 0)
    case PublisherStep => !l.chan.phase.Idle?
    case Forget(_) => l.chan.phase.Idle?
    case Connect(_) => !l.connected && l.chan.phase.Idle?
    case Replay => l.connected && l.last.Some? && l.replayed.None? && l.chan.phase.Idle?
    case Send => l.connected && (l.last.Some? ==> l.replayed.Some?) && l.chan.queue != []
    case Disconnect => l.connected && l.chan.phase.Idle?
  }

  /** missedReviews, as Broker.MissedReviews answers it: exactly the stored notices past an id. */
  ghost predicate IsMissed(missed: seq<Event>, stored: map<string, Event>, last: nat) {
    forall ev :: ev in missed <==> ev.id > last && exists g :: g in stored && stored[g] == ev
  }

  function Subscribed(l: Link, c: Chan): Link {
    if l.connected then l.(chan := c) else l
  }

  /** One step; what is replayed is any answer that missedReviews may give. */
  ghost predicate Steps(l: Link, a: Action, next: Link) {
    Allowed(l, a)
    && match a
       case PublishReview(g) =>
         var ev := Event(l.lastId + 1, Review(g));
         next == Subscribed(l.(lastId := ev.id, stored := l.stored[g := ev]), StartReview(l.chan, ev))
       case PublishChange(full, scoped) => next == Subscribed(l, SendChange(l.chan, full, scoped))
       case PublisherStep => next == l.(chan := Advance(l.chan))
       case Forget(g) => next == l.(stored := l.stored - {g})
       case Connect(last) => next == l.(connected := true, last := last, replayed := None, sent := [], chan := NEW_CHAN)
       case Replay =>
         next.replayed.Some? && IsMissed(next.replayed.value, l.stored, l.last.value) && next == l.(replayed := next.replayed)
       case Send => next == l.(chan := EventRuns.Take(l.chan), sent := l.sent + [l.chan.queue[0]])
       case Disconnect => next == l.(connected := false, chan := NEW_CHAN)
  }

  ghost predicate Runs(links: seq<Link>, actions: seq<Action>) {
    && |links| == |actions| + 1 && links[0] == NEW_LINK
    && forall k :: 0 <= k < |actions| ==> Steps(links[k], actions[k], links[k + 1])
  }

  /** The notice is replayed, sent, queued or in the publisher's hands. */
  predicate Reaches(l: Link, ev: Event) {
    (l.replayed.Some? && ev in l.replayed.value) || ev in l.sent || WaitRuns.Holds(l.chan, ev)
  }

  /** What is still to come, before the replay: the stored notices are read then. */
  ghost predicate Covered(l: Link, g: string)
    requires g in l.stored
  {
    l.connected && l.last.Some? && l.stored[g].id > l.last.value && l.replayed.Some? ==> Reaches(l, l.stored[g])
  }

  ghost predicate Inv(l: Link) {
    && WellFormed(l.chan) && DeliveryRuns.HasRoom(l.chan)
    && (!l.connected ==> l.chan == NEW_CHAN)
    && (forall g :: g in l.stored ==> 1 <= l.stored[g].id <= l.lastId && l.stored[g].notice == Review(g))
    && forall g :: g in l.stored ==> Covered(l, g)
  }

  lemma PublishKeeps(l: Link, g: string, next: Link)
    requires Inv(l) && Steps(l, PublishReview(g), next)
    ensures Inv(next)
  {
    var ev := Event(l.lastId + 1, Review(g));
    WaitRuns.StartHasRoom(l.chan, ev);
    hide WellFormed, DeliveryRuns.HasRoom, Reviews;
    forall h | h in next.stored
      ensures Covered(next, h)
    {
      if h == g {
        WaitRuns.StartHolds(l.chan, ev, ev);
      } else {
        assert Covered(l, h);
        WaitRuns.StartHolds(l.chan, ev, l.stored[h]);
      }
    }
  }

  lemma SendAnyHolds(c: Chan, full: Event, scoped: Option<Event>, ev: Event)
    requires c.phase.Idle? && WaitRuns.Holds(c, ev) && full.id == 0 && (scoped.Some? ==> scoped.value.id == 0)
    ensures WaitRuns.Holds(SendChange(c, full, scoped), ev)
  {
    var after := SendChange(c, full, scoped);
    if |c.queue| < CAPACITY {
      assert after.queue == c.queue + [if scoped.Some? && !c.lagging then scoped.value else full];
    }
  }

  lemma ChangeKeeps(l: Link, full: Event, scoped: Option<Event>, next: Link)
    requires Inv(l) && Steps(l, PublishChange(full, scoped), next)
    ensures Inv(next)
  {
    hide WaitRuns.Holds;
    forall g | g in next.stored
      ensures Covered(next, g)
    {
      assert Covered(l, g);
      if WaitRuns.Holds(l.chan, l.stored[g]) {
        SendAnyHolds(l.chan, full, scoped, l.stored[g]);
      }
    }
  }

  lemma PublisherKeeps(l: Link, next: Link)
    requires Inv(l) && Steps(l, PublisherStep, next)
    ensures Inv(next)
  {
    AdvanceKeepsShape(l.chan);
    DeliveryRuns.AdvanceHasRoom(l.chan);
    hide WaitRuns.Holds, WellFormed, DeliveryRuns.HasRoom, Advance;
    forall g | g in next.stored
      ensures Covered(next, g)
    {
      assert Covered(l, g);
      if WaitRuns.Holds(l.chan, l.stored[g]) {
        WaitRuns.AdvanceHolds(l.chan, l.stored[g]);
      }
    }
  }

  lemma SendKeeps(l: Link, next: Link)
    requires Inv(l) && Steps(l, Send, next)
    ensures Inv(next)
  {
    DeliveryRuns.TakeHasRoom(l.chan);
    assert WellFormed(next.chan) by {
      assert forall ev :: ev in l.chan.queue[1..] ==> ev in l.chan.queue;
    }
    hide WaitRuns.Holds, WellFormed, DeliveryRuns.HasRoom;
    forall g | g in next.stored
      ensures Covered(next, g)
    {
      assert Covered(l, g);
      if WaitRuns.Holds(l.chan, l.stored[g]) {
        WaitRuns.TakeHolds(l.chan, l.stored[g]);
      }
    }
  }

  lemma OtherKeeps(l: Link, a: Action, next: Link)
    requires Inv(l) && Steps(l, a, next) && (a.Forget? || a.Connect? || a.Replay? || a.Disconnect?)
    ensures Inv(next)
  {
    hide WaitRuns.Holds;
    forall g | g in next.stored
      ensures Covered(next, g)
    {
      assert g in l.stored && Covered(l, g);
    }
  }

  lemma StepKeeps(l: Link, a: Action, next: Link)
    requires Inv(l) && Steps(l, a, next)
    ensures Inv(next)
  {
    hide Inv, Steps;
    match a {
      case PublishReview(g) => PublishKeeps(l, g, next);
      case PublishChange(full, scoped) => ChangeKeeps(l, full, scoped, next);
      case PublisherStep => PublisherKeeps(l, next);
      case Send => SendKeeps(l, next);
      case Forget(_) => OtherKeeps(l, a, next);
      case Connect(_) => OtherKeeps(l, a, next);
      case Replay => OtherKeeps(l, a, next);
      case Disconnect => OtherKeeps(l, a, next);
    }
  }

  lemma {:induction false} RunKeeps(links: seq<Link>, actions: seq<Action>, k: nat)
    requires Runs(links, actions) && k < |links|
    ensures Inv(links[k])
  {
    hide Steps;
    if k == 0 {
      NewIsOk();
    } else {
      RunKeeps(links, actions, k - 1);
      StepKeeps(links[k - 1], actions[k - 1], links[k]);
    }
  }

  lemma NewIsOk()
    ensures Inv(NEW_LINK)
  {
  }

  /**
   * While fewer than 8 review notices are unread: however often the stream
   * broke, and whatever was published while it was down or while it was being
   * opened, the latest review notice of every group past the id the client
   * reported has been replayed or sent to it, or is on its way.
   */
  lemma LatestReviewsReach(links: seq<Link>, actions: seq<Action>, g: string)
    requires Runs(links, actions)
    requires var l := links[|actions|]; l.connected && l.replayed.Some? && g in l.stored && l.last.Some? && l.stored[g].id > l.last.value
    ensures Reaches(links[|actions|], links[|actions|].stored[g])
  {
    hide Steps, Reaches;
    RunKeeps(links, actions, |actions|);
    assert Covered(links[|actions|], g);
  }
}
