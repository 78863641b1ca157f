/**
 * A page, its event stream and the store behind them, as a machine: notices
 * may be dropped, reloads overlap, answers arrive out of order and the stream
 * may break. Once everything has come to rest, the page shows what the store
 * holds.
 */
module PageRuns {
  import opened Prelude
  import opened Broker
  import opened EventRuns
  import DeliveryRuns

  // ----- What a message asks of a page -----

  /** A server sent event as the page reads it; `Unreadable` is one that is not JSON. */
  datatype Message = Unreadable | Message(kind: string, group: string, scope: string)

  /** eventScope: None when the event is not about this group. */
  function EventScope(m: Message, group: string): Option<Scope> {
    match m
    case Unreadable => Some(Full)
    case Message(kind, g, scope) =>
      if (kind != "change" && kind != "review") || (g != "" && g != group) then None
      else Some(if kind == "change" && scope == "comments" then CommentsOnly else Full)
  }

  /** The notice as the server writes it. */
  function Written(n: Notice): Message {
    match n
    case Change(g, scope) => Message("change", g, if scope == CommentsOnly then "comments" else "")
    case Review(g) => Message("review", g, "")
  }

  predicate Concerns(n: Notice, group: string) {
    n.group == "" || n.group == group
  }

  /** What the page makes of a notice is what the server meant by it. */
  lemma ScopeIsMeant(ev: Event, group: string)
    ensures EventScope(Written(ev.notice), group) ==
            if !Concerns(ev.notice, group) then None else Some(if IsFull(ev) then Full else CommentsOnly)
  {
    assert "change"[0] != "review"[0];
  }

  /** Of a message that is no notice: one that cannot be read may have been about anything, and any other is about nothing shown. */
  lemma ScopeOfOthers(m: Message, group: string)
    ensures m.Unreadable? ==> EventScope(m, group) == Some(Full)
    ensures m.Message? && m.kind != "change" && m.kind != "review" ==> EventScope(m, group) == None
    ensures m.Message? && (m.kind == "change" || m.kind == "review") && m.scope != "comments" ==>
              EventScope(m, group) == if m.group == "" || m.group == group then Some(Full) else None
  {
  }

  // ----- The page -----

  /** What an answer carries: which version of the diffs and the review, and which of the comments. */
  datatype Answer = Answer(diffs: nat, comments: nat)

  datatype Load = Load(full: bool, answer: Option<Answer>)

  /** `loads` are the reloads that have not been answered, by their tickets. */
  datatype Page = Page(started: nat, startedFull: nat, loads: map<nat, Load>, diffs: nat, comments: nat)

  function Begin(p: Page, full: bool): Page {
    var n := p.started + 1;
    p.(started := n, startedFull := if full then n else p.startedFull, loads := p.loads[n := Load(full, None)])
  }

  /** Each part of an answer is applied while nothing newer has begun that reads it. */
  function Apply(p: Page, n: nat): Page
    requires n in p.loads && p.loads[n].answer.Some?
  {
    var load := p.loads[n];
    var a := load.answer.value;
    p.(loads := p.loads - {n},
       diffs := if load.full && n == p.startedFull then a.diffs else p.diffs,
       comments := if n == p.started then a.comments else p.comments)
  }

  // ----- The world -----

  /**
   * `diffs` and `comments` are the versions the store holds; the review counts
   * with the diffs. `due` counts changes that are stored and not yet published.
   * `wire` is what the handler has taken from the queue and the page not yet seen.
   */
  datatype World = World(
    diffs: nat, comments: nat, dueFull: nat, dueComments: nat, dueReviews: nat, reviews: nat,
    chan: Chan, connected: bool, opening: bool, wire: seq<Event>, page: Page)

  datatype Action =
    | StoreDiffs(withComments: bool)
    | StoreComments
    | StoreReview
    | PublishFull
    | PublishComments
    | PublishReview
    | PublishOther(ev: Event)             // what follows is about any group
    | PublishOtherComments(other: string)
    | PublishOtherReview(other: string)
    | PublisherStep
    | Take
    | Arrive
    | Reload(full: bool)
    | Serve(n: nat)
    | Respond(n: nat)
    | Connect
    | Open
    | Disconnect

  /** A page that is mounted starts a full load, and its stream is not open yet. */
  const MOUNTED := World(0, 0, 0, 0, 0, 0, NEW_CHAN, false, false, [], Page(1, 1, map[1 := Load(true, None)], 0, 0))

  predicate Allowed(w: World, a: Action) {
    match a
    case StoreDiffs(_) => true
    case StoreComments => true
    case StoreReview => true
    case PublishFull => w.dueFull > 0 && w.chan.phase.Idle?
    case PublishComments => w.dueComments > 0 && w.chan.phase.Idle?
    case PublishReview => w.dueReviews > 0 && w.chan.phase.Idle?
    case PublishOther(ev) => w.connected && w.chan.phase.Idle? && ev.id == 0 && ev.notice.Change? && ev.notice.scope == Full
    case PublishOtherComments(_) => w.chan.phase.Idle?
    case PublishOtherReview(_) => w.chan.phase.Idle?
    case PublisherStep => !w.chan.phase.Idle?
    case Take => w.chan.queue != []
    case Arrive => w.connected && !w.opening && w.wire != []
    case Reload(_) => true
    case Serve(n) => n in w.page.loads && w.page.loads[n].answer.None?
    case Respond(n) => n in w.page.loads && w.page.loads[n].answer.Some?
    case Connect => !w.connected
    case Open => w.connected && w.opening
    case Disconnect => w.connected && w.chan.phase.Idle?
  }

  /** A publication reaches the page's queue while its stream is subscribed. */
  function Deliver(w: World, c: Chan): World {
    if w.connected then w.(chan := c) else w
  }

  function Next(w: World, a: Action, group: string): World
    requires Allowed(w, a)
  {
    match a
    case StoreDiffs(withComments) =>
      w.(diffs := w.diffs + 1, comments := if withComments then w.comments + 1 else w.comments, dueFull := w.dueFull + 1)
    case StoreComments => w.(comments := w.comments + 1, dueComments := w.dueComments + 1)
    case StoreReview => w.(diffs := w.diffs + 1, dueReviews := w.dueReviews + 1)
    case PublishFull => Deliver(w.(dueFull := w.dueFull - 1), SendChange(w.chan, FullNotice(group), None))
    case PublishComments =>
      Deliver(w.(dueComments := w.dueComments - 1), SendChange(w.chan, FullNotice(group), Some(CommentsNotice(group))))
    case PublishReview =>
      Deliver(w.(dueReviews := w.dueReviews - 1, reviews := w.reviews + 1),
              StartReview(w.chan, Event(w.reviews + 1, Review(group))))
    case PublishOther(ev) => Deliver(w, SendChange(w.chan, ev, None))
    case PublishOtherComments(g) => Deliver(w, SendChange(w.chan, FullNotice(g), Some(CommentsNotice(g))))
    case PublishOtherReview(g) =>
      Deliver(w.(reviews := w.reviews + 1), StartReview(w.chan, Event(w.reviews + 1, Review(g))))
    case PublisherStep => w.(chan := Advance(w.chan))
    case Take => w.(chan := EventRuns.Take(w.chan), wire := w.wire + [w.chan.queue[0]])
    case Arrive =>
      var asked := EventScope(Written(w.wire[0].notice), group);
      w.(wire := w.wire[1..], page := if asked.None? then w.page else Begin(w.page, asked.value == Full))
    case Reload(full) => w.(page := Begin(w.page, full))
    case Serve(n) =>
      w.(page := w.page.(loads := w.page.loads[n := w.page.loads[n].(answer := Some(Answer(w.diffs, w.comments)))]))
    case Respond(n) => w.(page := Apply(w.page, n))
    case Connect => w.(connected := true, opening := true, chan := NEW_CHAN, wire := [])
    case Open => w.(opening := false, page := Begin(w.page, true))
    case Disconnect => w.(connected := false, opening := false, chan := NEW_CHAN, wire := [])
  }

  function Run(w: World, actions: seq<Action>, group: string): Option<World>
    decreases |actions|
  {
    if |actions| == 0 then Some(w)
    else if !Allowed(w, actions[0]) then None
    else Run(Next(w, actions[0], group), actions[1..], group)
  }

  /** Nothing is stored and unpublished, nothing is on its way, and every reload has been answered. */
  predicate AtRest(w: World) {
    && w.dueFull == 0 && w.dueComments == 0 && w.dueReviews == 0
    && w.connected && !w.opening && w.wire == []
    && w.chan.queue == [] && w.chan.phase.Idle?
    && w.page.loads == map[]
  }

  // ----- What is owed to the page -----

  predicate HoldsFullFor(events: seq<Event>, group: string) {
    exists ev :: ev in events && IsFull(ev) && Concerns(ev.notice, group)
  }

  predicate HoldsAnyFor(events: seq<Event>, group: string) {
    exists ev :: ev in events && Concerns(ev.notice, group)
  }

  predicate OwesFullTo(c: Chan, group: string) {
    HoldsFullFor(c.queue, group) || HoldsFullFor(InHand(c), group) || c.lagging || Losing(c)
  }

  predicate OwesAnyTo(c: Chan, group: string) {
    HoldsAnyFor(c.queue, group) || HoldsAnyFor(InHand(c), group) || c.lagging || Losing(c)
  }

  /** The page is going to begin a full reload. */
  predicate FullOwed(w: World, group: string) {
    w.dueFull > 0 || w.dueReviews > 0 || !w.connected || w.opening || HoldsFullFor(w.wire, group) || OwesFullTo(w.chan, group)
  }

  /** The page is going to begin a reload. */
  predicate AnyOwed(w: World, group: string) {
    || w.dueFull > 0 || w.dueReviews > 0 || w.dueComments > 0 || !w.connected || w.opening
    || HoldsAnyFor(w.wire, group) || OwesAnyTo(w.chan, group)
  }

  /** The diffs the newest full reload read, or is going to show, are the store's, or a full reload is owed. */
  predicate DiffsOk(w: World, group: string) {
    var p := w.page;
    if p.startedFull in p.loads then
      p.loads[p.startedFull].full
      && (p.loads[p.startedFull].answer.None? || p.loads[p.startedFull].answer.value.diffs == w.diffs || FullOwed(w, group))
    else p.diffs == w.diffs || FullOwed(w, group)
  }

  predicate CommentsOk(w: World, group: string) {
    var p := w.page;
    if p.started in p.loads then
      p.loads[p.started].answer.None? || p.loads[p.started].answer.value.comments == w.comments || AnyOwed(w, group)
    else p.comments == w.comments || AnyOwed(w, group)
  }

  /** The review notices in the queue and in hand are all about the group. */
  predicate Ours(c: Chan, group: string) {
    && (forall ev :: ev in c.queue && ev.id != 0 ==> Concerns(ev.notice, group))
    && forall ev :: ev in InHand(c) ==> Concerns(ev.notice, group)
  }

  ghost predicate ShapeOk(w: World, group: string) {
    && ChanOk(w.chan)
    && (DeliveryRuns.HasRoom(w.chan) || Ours(w.chan, group))
    && Consistent(w.wire)
    && (!w.connected ==> w.chan == NEW_CHAN && w.wire == [] && !w.opening)
    && w.page.startedFull <= w.page.started
    && (forall n :: n in w.page.loads ==> n <= w.page.started)
  }

  ghost predicate Inv(w: World, group: string) {
    ShapeOk(w, group) && DiffsOk(w, group) && CommentsOk(w, group)
  }

  // ----- What other groups may do -----

  /** Nothing about another group is sent in place of a notice the subscriber is owed. */
  predicate SentBeside(c: Chan, about: Notice, group: string) {
    Concerns(about, group) || !c.lagging || |c.queue| >= CAPACITY
  }

  /**
   * The two hypotheses. A change of another group is not announced to a
   * subscriber that is lagging, unless its queue is full; and fewer than 8
   * review notices are unread when one more is sent, unless all of them are
   * about the group.
   */
  predicate Fair(w: World, a: Action, group: string) {
    match a
    case PublishOther(ev) => SentBeside(w.chan, ev.notice, group)
    case PublishOtherComments(g) => SentBeside(w.chan, FullNotice(g).notice, group)
    case PublishOtherReview(_) => |Reviews(w.chan.queue)| < CAPACITY
    case PublishReview => |Reviews(w.chan.queue)| < CAPACITY || Ours(w.chan, group)
    case _ => true
  }

  predicate FairRun(w: World, actions: seq<Action>, group: string)
    decreases |actions|
  {
    |actions| == 0
    || (Allowed(w, actions[0]) && Fair(w, actions[0], group) && FairRun(Next(w, actions[0], group), actions[1..], group))
  }

  // ----- Steps of one queue -----

  /** A notice about the group is owed, or takes the place of what is owed. */
  lemma SendOwesTo(c: Chan, full: Event, scoped: Option<Event>, group: string)
    requires ChanOk(c) && c.phase.Idle? && full.notice.Change? && full.notice.scope == Full && full.id == 0
    requires scoped.Some? ==> scoped.value.notice.Change? && scoped.value.id == 0 && scoped.value.notice.group == full.notice.group
    ensures var after := SendChange(c, full, scoped);
            && ChanOk(after) && after.phase.Idle?
            && (Concerns(full.notice, group) ==> OwesAnyTo(after, group) && (scoped.None? ==> OwesFullTo(after, group)))
            && (SentBeside(c, full.notice, group) && OwesFullTo(c, group) ==> OwesFullTo(after, group))
            && (SentBeside(c, full.notice, group) && OwesAnyTo(c, group) ==> OwesAnyTo(after, group))
  {
    var after := SendChange(c, full, scoped);
    if |c.queue| < CAPACITY {
      var msg := if scoped.Some? && !c.lagging then scoped.value else full;
      assert after.queue == c.queue + [msg];
      assert msg in after.queue;
      assert forall ev :: ev in c.queue ==> ev in after.queue;
    }
  }

  lemma SendKeepsOurs(c: Chan, full: Event, scoped: Option<Event>, group: string)
    requires Ours(c, group) && c.phase.Idle? && full.id == 0 && (scoped.Some? ==> scoped.value.id == 0)
    ensures Ours(SendChange(c, full, scoped), group)
  {
  }

  lemma StartOwesTo(c: Chan, ev: Event, group: string)
    requires ChanOk(c) && c.phase.Idle? && ev.id != 0 && ev.notice.Review?
    ensures var after := StartReview(c, ev);
            && ChanOk(after)
            && (Concerns(ev.notice, group) ==> OwesFullTo(after, group) && OwesAnyTo(after, group))
            && (OwesFullTo(c, group) ==> OwesFullTo(after, group))
            && (OwesAnyTo(c, group) ==> OwesAnyTo(after, group))
  {
    var after := StartReview(c, ev);
    if |c.queue| < CAPACITY {
      assert ev in after.queue;
      assert forall e :: e in c.queue ==> e in after.queue;
    } else {
      assert ev in InHand(after);
    }
  }

  lemma StartFits(c: Chan, ev: Event, group: string)
    requires c.phase.Idle? && ev.id != 0
    requires |Reviews(c.queue)| < CAPACITY || (Ours(c, group) && Concerns(ev.notice, group))
    ensures DeliveryRuns.HasRoom(StartReview(c, ev)) || Ours(StartReview(c, ev), group)
  {
  }

  lemma AdvanceOwesTo(c: Chan, group: string)
    requires ChanOk(c) && !c.phase.Idle? && (DeliveryRuns.HasRoom(c) || Ours(c, group))
    ensures var after := Advance(c);
            && ChanOk(after)
            && (OwesFullTo(c, group) ==> OwesFullTo(after, group))
            && (OwesAnyTo(c, group) ==> OwesAnyTo(after, group))
  {
    AdvanceKeepsShape(c);
    if c.phase.Draining? {
      DrainOwesTo(c, group);
    } else {
      RefillOwesTo(c, group);
    }
  }

  /** What is drained is kept in hand, or marks that something was lost. */
  lemma DrainOwesTo(c: Chan, group: string)
    requires ChanOk(c) && c.phase.Draining?
    ensures var after := Advance(c);
            && Consistent(after.queue) && Consistent(InHand(after))
            && (OwesFullTo(c, group) ==> OwesFullTo(after, group))
            && (OwesAnyTo(c, group) ==> OwesAnyTo(after, group))
  {
    var after := Advance(c);
    assert forall ev :: ev in InHand(c) ==> ev in InHand(after);
    if c.queue != [] {
      assert c.queue[0] in c.queue;
      assert forall ev :: ev in c.queue ==> ev == c.queue[0] || ev in after.queue;
      assert forall ev :: ev in after.queue ==> ev in c.queue;
      assert c.queue[0].id != 0 ==> c.queue[0] in InHand(after);
      assert forall ev :: ev in InHand(after) ==> ev in InHand(c) || (ev == c.queue[0] && ev.id != 0);
    }
  }

  /** What is in hand is sent; it is dropped only where the queue is full of reviews of the group. */
  lemma RefillOwesTo(c: Chan, group: string)
    requires ChanOk(c) && c.phase.Refilling? && (DeliveryRuns.HasRoom(c) || Ours(c, group))
    ensures var after := Advance(c);
            && Consistent(after.queue) && Consistent(InHand(after))
            && (OwesFullTo(c, group) ==> OwesFullTo(after, group))
            && (OwesAnyTo(c, group) ==> OwesAnyTo(after, group))
  {
    var after, todo := Advance(c), c.phase.todo;
    if todo != [] {
      assert todo[0] in InHand(c);
      assert forall ev :: ev in InHand(after) ==> ev in InHand(c);
      assert forall ev :: ev in InHand(c) ==> ev == todo[0] || ev in InHand(after);
      if |c.queue| < CAPACITY {
        assert todo[0] in after.queue;
        assert forall ev :: ev in c.queue ==> ev in after.queue;
      } else {
        assert c.queue[0] in c.queue && IsFull(c.queue[0]) && Concerns(c.queue[0].notice, group);
      }
    }
  }

  lemma AdvanceFits(c: Chan, group: string)
    requires WellFormed(c) && !c.phase.Idle? && (DeliveryRuns.HasRoom(c) || Ours(c, group))
    ensures DeliveryRuns.HasRoom(Advance(c)) || Ours(Advance(c), group)
  {
    if DeliveryRuns.HasRoom(c) {
      DeliveryRuns.AdvanceHasRoom(c);
    } else {
      AdvanceKeepsOurs(c, group);
    }
  }

  lemma AdvanceKeepsOurs(c: Chan, group: string)
    requires Ours(c, group) && !c.phase.Idle?
    ensures Ours(Advance(c), group)
  {
    match c.phase {
      case Idle =>
      case Draining(ev, keep, lost) =>
        assert ev in InHand(c);
        assert forall e :: e in keep ==> e in InHand(c);
        assert c.queue != [] ==> c.queue[0] in c.queue;
      case Refilling(todo, lost) =>
        assert todo != [] ==> todo[0] in InHand(c);
    }
  }

  lemma TakeOwesTo(c: Chan, group: string)
    requires ChanOk(c) && c.queue != []
    ensures ChanOk(EventRuns.Take(c))
    ensures OwesFullTo(c, group) ==> OwesFullTo(EventRuns.Take(c), group) || (IsFull(c.queue[0]) && Concerns(c.queue[0].notice, group))
    ensures OwesAnyTo(c, group) ==> OwesAnyTo(EventRuns.Take(c), group) || Concerns(c.queue[0].notice, group)
    ensures Ours(c, group) ==> Ours(EventRuns.Take(c), group)
  {
    assert forall ev :: ev in c.queue ==> ev == c.queue[0] || ev in c.queue[1..];
    assert forall ev :: ev in c.queue[1..] ==> ev in c.queue;
  }

  // ----- Steps of the store, the publisher and the stream -----

  /** The queue or the wire may change, as long as what was owed still is. */
  lemma Reowed(w: World, v: World, group: string)
    requires Inv(w, group) && ShapeOk(v, group)
    requires v.page == w.page && v.diffs == w.diffs && v.comments == w.comments
    requires FullOwed(w, group) ==> FullOwed(v, group)
    requires AnyOwed(w, group) ==> AnyOwed(v, group)
    ensures Inv(v, group)
  {
    hide FullOwed, AnyOwed, ShapeOk;
  }

  lemma StoreKeeps(w: World, a: Action, group: string)
    requires Inv(w, group) && (a.StoreDiffs? || a.StoreComments? || a.StoreReview?)
    ensures Inv(Next(w, a, group), group)
  {
    hide OwesFullTo, OwesAnyTo, ChanOk, HoldsFullFor, HoldsAnyFor, InHand, Ours, DeliveryRuns.HasRoom;
  }

  /** A change of this group or of another is announced. */
  lemma SendKeeps(w: World, v: World, full: Event, scoped: Option<Event>, group: string)
    requires Inv(w, group) && w.chan.phase.Idle?
    requires full.notice.Change? && full.notice.scope == Full && full.id == 0
    requires scoped.Some? ==> scoped.value.notice.Change? && scoped.value.id == 0 && scoped.value.notice.group == full.notice.group
    requires v.page == w.page && v.diffs == w.diffs && v.comments == w.comments && v.wire == w.wire
    requires v.connected == w.connected && v.opening == w.opening && v.dueReviews == w.dueReviews
    requires v.chan == if w.connected then SendChange(w.chan, full, scoped) else w.chan
    requires SentBeside(w.chan, full.notice, group)
    requires v.dueFull == w.dueFull || (Concerns(full.notice, group) && scoped.None?)
    requires v.dueComments == w.dueComments || Concerns(full.notice, group)
    ensures Inv(v, group)
  {
    SendOwesTo(w.chan, full, scoped, group);
    hide OwesFullTo, OwesAnyTo, ChanOk, SendChange, Ours, HoldsFullFor, HoldsAnyFor;
    Reowed(w, v, group);
  }

  /** So is a review. */
  lemma ReviewKeeps(w: World, v: World, ev: Event, group: string)
    requires Inv(w, group) && w.chan.phase.Idle? && ev.id != 0 && ev.notice.Review?
    requires v.page == w.page && v.diffs == w.diffs && v.comments == w.comments && v.wire == w.wire
    requires v.connected == w.connected && v.opening == w.opening && v.dueFull == w.dueFull && v.dueComments == w.dueComments
    requires v.chan == if w.connected then StartReview(w.chan, ev) else w.chan
    requires |Reviews(w.chan.queue)| < CAPACITY || (Ours(w.chan, group) && Concerns(ev.notice, group))
    requires v.dueReviews == w.dueReviews || Concerns(ev.notice, group)
    ensures Inv(v, group)
  {
    StartOwesTo(w.chan, ev, group);
    StartFits(w.chan, ev, group);
    hide OwesFullTo, OwesAnyTo, ChanOk, StartReview, Ours, HoldsFullFor, HoldsAnyFor, DeliveryRuns.HasRoom, Reviews;
    Reowed(w, v, group);
  }

  lemma PublisherStepKeeps(w: World, group: string)
    requires Inv(w, group) && Allowed(w, PublisherStep)
    ensures Inv(Next(w, PublisherStep, group), group)
  {
    var v := Next(w, PublisherStep, group);
    AdvanceOwesTo(w.chan, group);
    AdvanceFits(w.chan, group);
    hide OwesFullTo, OwesAnyTo, ChanOk, Advance, Ours, HoldsFullFor, HoldsAnyFor, DeliveryRuns.HasRoom;
    Reowed(w, v, group);
  }

  lemma TakeKeeps(w: World, group: string)
    requires Inv(w, group) && Allowed(w, Take)
    ensures Inv(Next(w, Take, group), group)
  {
    var v := Next(w, Take, group);
    var ev := w.chan.queue[0];
    TakeOwesTo(w.chan, group);
    if DeliveryRuns.HasRoom(w.chan) {
      DeliveryRuns.TakeHasRoom(w.chan);
    }
    assert ev in w.chan.queue && ev in v.wire;
    assert forall e :: e in w.wire ==> e in v.wire;
    hide OwesFullTo, OwesAnyTo, ChanOk, Ours, DeliveryRuns.HasRoom;
    Reowed(w, v, group);
  }

  lemma StreamKeeps(w: World, a: Action, group: string)
    requires Inv(w, group) && Allowed(w, a) && (a.Connect? || a.Disconnect?)
    ensures Inv(Next(w, a, group), group)
  {
  }

  // ----- Steps of the page -----

  lemma BeginKeeps(w: World, v: World, full: bool, group: string)
    requires Inv(w, group) && ShapeOk(v, group)
    requires v.page == Begin(w.page, full) && v.diffs == w.diffs && v.comments == w.comments
    requires !full ==> (FullOwed(w, group) ==> FullOwed(v, group))
    ensures Inv(v, group)
  {
    hide FullOwed, AnyOwed, ChanOk, Ours, DeliveryRuns.HasRoom;
    assert w.page.started + 1 !in w.page.loads;
  }

  lemma ArriveKeeps(w: World, group: string)
    requires Inv(w, group) && Allowed(w, Arrive)
    ensures Inv(Next(w, Arrive, group), group)
  {
    var v := Next(w, Arrive, group);
    var ev := w.wire[0];
    assert ev in w.wire;
    ScopeIsMeant(ev, group);
    assert forall e :: e in w.wire ==> e == ev || e in v.wire;
    assert forall e :: e in v.wire ==> e in w.wire;
    hide OwesFullTo, OwesAnyTo, ChanOk, EventScope, Ours, DeliveryRuns.HasRoom;
    if Concerns(ev.notice, group) {
      BeginKeeps(w, v, IsFull(ev), group);
    } else {
      Reowed(w, v, group);
    }
  }

  lemma OpenKeeps(w: World, group: string)
    requires Inv(w, group) && Allowed(w, Open)
    ensures Inv(Next(w, Open, group), group)
  {
    hide OwesFullTo, OwesAnyTo, ChanOk, Ours, DeliveryRuns.HasRoom;
    BeginKeeps(w, Next(w, Open, group), true, group);
  }

  lemma ReloadKeeps(w: World, full: bool, group: string)
    requires Inv(w, group)
    ensures Inv(Next(w, Reload(full), group), group)
  {
    hide OwesFullTo, OwesAnyTo, ChanOk, Ours, DeliveryRuns.HasRoom;
    BeginKeeps(w, Next(w, Reload(full), group), full, group);
  }

  lemma ServeKeeps(w: World, n: nat, group: string)
    requires Inv(w, group) && Allowed(w, Serve(n))
    ensures Inv(Next(w, Serve(n), group), group)
  {
    hide OwesFullTo, OwesAnyTo, ChanOk, Ours, DeliveryRuns.HasRoom, HoldsFullFor, HoldsAnyFor;
  }

  lemma RespondKeeps(w: World, n: nat, group: string)
    requires Inv(w, group) && Allowed(w, Respond(n))
    ensures Inv(Next(w, Respond(n), group), group)
  {
    hide OwesFullTo, OwesAnyTo, ChanOk, Ours, DeliveryRuns.HasRoom, HoldsFullFor, HoldsAnyFor;
  }

  // ----- Every run -----

  lemma NextKeeps(w: World, a: Action, group: string)
    requires Inv(w, group) && Allowed(w, a) && Fair(w, a, group)
    ensures Inv(Next(w, a, group), group)
  {
    hide Inv, Ours, Reviews;
    var v := Next(w, a, group);
    match a {
      case StoreDiffs(_) => StoreKeeps(w, a, group);
      case StoreComments => StoreKeeps(w, a, group);
      case StoreReview => StoreKeeps(w, a, group);
      case PublishFull => SendKeeps(w, v, FullNotice(group), None, group);
      case PublishComments => SendKeeps(w, v, FullNotice(group), Some(CommentsNotice(group)), group);
      case PublishReview => ReviewKeeps(w, v, Event(w.reviews + 1, Review(group)), group);
      case PublishOther(ev) => SendKeeps(w, v, ev, None, group);
      case PublishOtherComments(g) => SendKeeps(w, v, FullNotice(g), Some(CommentsNotice(g)), group);
      case PublishOtherReview(g) => ReviewKeeps(w, v, Event(w.reviews + 1, Review(g)), group);
      case PublisherStep => PublisherStepKeeps(w, group);
      case Take => TakeKeeps(w, group);
      case Arrive => ArriveKeeps(w, group);
      case Reload(full) => ReloadKeeps(w, full, group);
      case Serve(n) => ServeKeeps(w, n, group);
      case Respond(n) => RespondKeeps(w, n, group);
      case Connect => StreamKeeps(w, a, group);
      case Open => OpenKeeps(w, group);
      case Disconnect => StreamKeeps(w, a, group);
    }
  }

  lemma {:induction false} RunKeeps(w: World, actions: seq<Action>, group: string)
    requires Inv(w, group) && Run(w, actions, group).Some? && FairRun(w, actions, group)
    ensures Inv(Run(w, actions, group).value, group)
    decreases |actions|
  {
    hide Inv, Next, Fair;
    if |actions| > 0 {
      NextKeeps(w, actions[0], group);
      RunKeeps(Next(w, actions[0], group), actions[1..], group);
    }
  }

  /**
   * With any number of groups: whatever was dropped, however the answers
   * overtook one another and however often the stream broke, a page at rest
   * whose subscriber is not lagging shows the diffs, the review and the
   * comments the store holds, as long as the run is fair.
   */
  lemma FairPageConverges(actions: seq<Action>, group: string)
    requires Run(MOUNTED, actions, group).Some? && FairRun(MOUNTED, actions, group)
    ensures var w := Run(MOUNTED, actions, group).value;
            AtRest(w) && !w.chan.lagging ==> w.page.diffs == w.diffs && w.page.comments == w.comments
  {
    RunKeeps(MOUNTED, actions, group);
    hide Run, FairRun;
  }

  // ----- One group -----

  /** Nothing is said of another group. */
  predicate OneGroup(a: Action, group: string) {
    && (a.PublishOther? ==> Concerns(a.ev.notice, group))
    && (a.PublishOtherComments? ==> Concerns(FullNotice(a.other).notice, group))
    && !a.PublishOtherReview?
  }

  lemma OneGroupKeepsOurs(w: World, a: Action, group: string)
    requires Ours(w.chan, group) && Allowed(w, a) && OneGroup(a, group)
    ensures Ours(Next(w, a, group).chan, group)
  {
    match a
    case PublishOther(ev) => SendKeepsOurs(w.chan, ev, None, group);
    case PublishFull => SendKeepsOurs(w.chan, FullNotice(group), None, group);
    case PublishComments => SendKeepsOurs(w.chan, FullNotice(group), Some(CommentsNotice(group)), group);
    case PublishOtherComments(g) => SendKeepsOurs(w.chan, FullNotice(g), Some(CommentsNotice(g)), group);
    case PublisherStep => AdvanceKeepsOurs(w.chan, group);
    case _ =>
  }

  lemma {:induction false} OneGroupIsFair(w: World, actions: seq<Action>, group: string)
    requires Run(w, actions, group).Some? && Ours(w.chan, group)
    requires forall a :: a in actions ==> OneGroup(a, group)
    ensures FairRun(w, actions, group)
    decreases |actions|
  {
    hide Next, Ours;
    if |actions| > 0 {
      OneGroupKeepsOurs(w, actions[0], group);
      OneGroupIsFair(Next(w, actions[0], group), actions[1..], group);
    }
  }

  /** Every run of one group is fair, so its page converges. */
  lemma PageConverges(actions: seq<Action>, group: string)
    requires Run(MOUNTED, actions, group).Some?
    requires forall a :: a in actions ==> OneGroup(a, group)
    ensures var w := Run(MOUNTED, actions, group).value;
            AtRest(w) && !w.chan.lagging ==> w.page.diffs == w.diffs && w.page.comments == w.comments
  {
    OneGroupIsFair(MOUNTED, actions, group);
    FairPageConverges(actions, group);
  }

  // ----- What is not fair -----

  lemma {:induction false} RunConcat(w: World, a: seq<Action>, b: seq<Action>, group: string)
    requires Run(w, a, group).Some?
    ensures Run(w, a + b, group) == Run(Run(w, a, group).value, b, group)
    decreases |a|
  {
    hide Next;
    if |a| == 0 {
      assert a + b == b;
    } else {
      assert (a + b)[1..] == a[1..] + b;
      RunConcat(Next(w, a[0], group), a[1..], b, group);
    }
  }

  /** One step more. */
  lemma Step(actions: seq<Action>, w: World, a: Action, group: string) returns (more: seq<Action>, next: World)
    requires Run(MOUNTED, actions, group) == Some(w) && Allowed(w, a)
    ensures more == actions + [a] && next == Next(w, a, group) && Run(MOUNTED, more, group) == Some(next)
  {
    more, next := actions + [a], Next(w, a, group);
    RunConcat(MOUNTED, actions, [a], group);
    assert [a][1..] == [];
  }

  /** The first loads are answered before anything happens. */
  lemma StepLoaded(group: string) returns (actions: seq<Action>, w: World)
    ensures Run(MOUNTED, actions, group) == Some(w)
    ensures w == MOUNTED.(connected := true, page := Page(2, 2, map[], 0, 0))
  {
    hide Run;
    actions, w := StepOpened(group);
    actions, w := Step(actions, w, Serve(2), group);
    actions, w := Step(actions, w, Respond(2), group);
    assert w.page.loads == map[];
  }

  lemma StepOpened(group: string) returns (actions: seq<Action>, w: World)
    ensures Run(MOUNTED, actions, group) == Some(w)
    ensures w == MOUNTED.(connected := true, page := Page(2, 2, map[2 := Load(true, None)], 0, 0))
  {
    assert Run(MOUNTED, [], group) == Some(MOUNTED);
    hide Run;
    actions, w := Step([], MOUNTED, Connect, group);
    actions, w := Step(actions, w, Serve(1), group);
    actions, w := Step(actions, w, Respond(1), group);
    assert w.page.loads == map[];
    actions, w := Step(actions, w, Open, group);
  }

  /** n notices about another group are queued. */
  lemma {:induction false} StepOthers(actions: seq<Action>, w: World, other: string, n: nat, group: string)
    returns (more: seq<Action>, next: World)
    requires Run(MOUNTED, actions, group) == Some(w) && w.connected && w.chan.phase.Idle? && !w.chan.lagging
    requires |w.chan.queue| + n <= CAPACITY
    ensures Run(MOUNTED, more, group) == Some(next)
    ensures next == w.(chan := w.chan.(queue := w.chan.queue + seq(n, i => FullNotice(other))))
    decreases n
  {
    if n == 0 {
      more, next := actions, w;
      assert w.chan.queue + [] == w.chan.queue;
    } else {
      more, next := Step(actions, w, PublishOther(FullNotice(other)), group);
      var q := next.chan.queue;
      more, next := StepOthers(more, next, other, n - 1, group);
      assert q + seq(n - 1, i => FullNotice(other)) == w.chan.queue + seq(n, i => FullNotice(other));
    }
  }

  /** The page takes what is queued and ignores it. */
  lemma {:induction false} StepIgnored(actions: seq<Action>, w: World, group: string) returns (more: seq<Action>, next: World)
    requires Run(MOUNTED, actions, group) == Some(w) && w.connected && !w.opening && w.wire == []
    requires forall ev :: ev in w.chan.queue ==> !Concerns(ev.notice, group)
    ensures Run(MOUNTED, more, group) == Some(next)
    ensures next == w.(chan := w.chan.(queue := []))
    decreases |w.chan.queue|
  {
    if w.chan.queue == [] {
      more, next := actions, w;
    } else {
      var ev := w.chan.queue[0];
      assert ev in w.chan.queue;
      ScopeIsMeant(ev, group);
      more, next := Step(actions, w, Take, group);
      assert next.wire == [ev];
      more, next := Step(more, next, Arrive, group);
      assert next.wire == [];
      assert forall e :: e in next.chan.queue ==> e in w.chan.queue;
      more, next := StepIgnored(more, next, group);
    }
  }

  /**
   * The mark of a lost notice does not say whose it was: a full notice about
   * another group clears it, and the page is left at rest with diffs the
   * store no longer holds.
   */
  lemma OtherGroupHidesChange(group: string, other: string) returns (actions: seq<Action>, w: World)
    requires other != "" && other != group
    ensures Run(MOUNTED, actions, group) == Some(w)
    ensures AtRest(w) && !w.chan.lagging && w.page.diffs != w.diffs
  {
    hide Run, EventScope;
    actions, w := StepLoaded(group);
    actions, w := StepOthers(actions, w, other, 8, group);
    actions, w := Step(actions, w, StoreDiffs(false), group);
    actions, w := Step(actions, w, PublishFull, group);
    assert w.chan.lagging;
    actions, w := StepIgnored(actions, w, group);
    actions, w := Step(actions, w, PublishOther(FullNotice(other)), group);
    assert !w.chan.lagging && w.chan.queue == [FullNotice(other)];
    actions, w := StepIgnored(actions, w, group);
  }

  /** n review notices of another group are queued, and no one reads them. */
  ghost predicate OnlyReviewsOf(queue: seq<Event>, other: string) {
    forall ev :: ev in queue ==> ev.id != 0 && ev.notice == Review(other)
  }

  lemma {:induction false} StepOtherReviews(actions: seq<Action>, w: World, other: string, n: nat, group: string)
    returns (more: seq<Action>, next: World)
    requires Run(MOUNTED, actions, group) == Some(w) && w.connected && w.chan.phase.Idle?
    requires OnlyReviewsOf(w.chan.queue, other) && |w.chan.queue| + n <= CAPACITY
    ensures Run(MOUNTED, more, group) == Some(next) && OnlyReviewsOf(next.chan.queue, other) && |next.chan.queue| == |w.chan.queue| + n
    ensures next == w.(reviews := w.reviews + n, chan := w.chan.(queue := next.chan.queue))
    decreases n
  {
    if n == 0 {
      more, next := actions, w;
    } else {
      more, next := Step(actions, w, PublishOtherReview(other), group);
      more, next := StepOtherReviews(more, next, other, n - 1, group);
    }
  }

  /** The publisher comes to its end. */
  lemma {:induction false} StepSettled(actions: seq<Action>, w: World, group: string) returns (more: seq<Action>, next: World)
    requires Run(MOUNTED, actions, group) == Some(w)
    ensures Run(MOUNTED, more, group) == Some(next)
    ensures next == w.(chan := Settle(w.chan))
    decreases Left(w.chan)
  {
    if w.chan.phase.Idle? {
      more, next := actions, w;
    } else {
      more, next := Step(actions, w, PublisherStep, group);
      more, next := StepSettled(more, next, group);
    }
  }

  /** A review notice that finds the queue full of reviews of another group is dropped, and nothing is marked. */
  lemma NinthSettles(c: Chan, ev: Event, other: string)
    requires c.phase.Idle? && |c.queue| == CAPACITY && OnlyReviewsOf(c.queue, other) && ev.id != 0
    ensures Settle(StartReview(c, ev)) == c
  {
    SettledIsReviewed(c, ev);
    DeliveryRuns.NinthIsDropped(c.queue, ev);
  }

  /**
   * Room is needed too: with 8 reviews of another group unread, a review of
   * this one is dropped, and the page is left at rest without it.
   */
  lemma OtherReviewsHideReview(group: string, other: string) returns (actions: seq<Action>, w: World)
    requires other != "" && other != group
    ensures Run(MOUNTED, actions, group) == Some(w)
    ensures AtRest(w) && !w.chan.lagging && w.page.diffs != w.diffs
  {
    hide Run, EventScope, Settle, StartReview;
    actions, w := StepLoaded(group);
    actions, w := StepOtherReviews(actions, w, other, 8, group);
    actions, w := Step(actions, w, StoreReview, group);
    var c := w.chan;
    actions, w := Step(actions, w, PublishReview, group);
    NinthSettles(c, Event(9, Review(group)), other);
    actions, w := StepSettled(actions, w, group);
    assert w.chan == c;
    actions, w := StepIgnored(actions, w, group);
  }
}
