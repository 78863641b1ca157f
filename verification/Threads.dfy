/**
 * Comments gathered into threads, what counts as an open thread, and what a
 * submitted review blocks on.
 */
module Threads {
  import opened Session
  import opened Sequences

  datatype Thread = Thread(root: Comment, replies: seq<Comment>)

  // ----- The threads of a list of comments -----

  /** The ids of the comments that open a thread. */
  function Roots(comments: seq<Comment>): set<string> {
    set c | c in comments && !c.IsReply() :: c.id
  }

  /** A reply to a comment of the list; any other comment stands at the head of a thread. */
  predicate Answers(roots: set<string>, c: Comment) {
    c.IsReply() && c.replyTo in roots
  }

  function Heads(comments: seq<Comment>, roots: set<string>): seq<Comment> {
    if |comments| == 0 then []
    else if Answers(roots, comments[0]) then Heads(comments[1..], roots)
    else [comments[0]] + Heads(comments[1..], roots)
  }

  function Replies(comments: seq<Comment>, roots: set<string>): seq<Comment> {
    if |comments| == 0 then []
    else if Answers(roots, comments[0]) then [comments[0]] + Replies(comments[1..], roots)
    else Replies(comments[1..], roots)
  }

  /** The last of the heads that opens the thread named id, or |heads|. */
  function LastRoot(heads: seq<Comment>, id: string): (k: nat)
    ensures k <= |heads|
    ensures k < |heads| ==> heads[k].id == id && !heads[k].IsReply()
    ensures forall j :: k < j < |heads| ==> heads[j].IsReply() || heads[j].id != id
    ensures k == |heads| ==> forall j :: 0 <= j < |heads| ==> heads[j].IsReply() || heads[j].id != id
  {
    if |heads| == 0 then 0
    else
      var last := |heads| - 1;
      if !heads[last].IsReply() && heads[last].id == id then last
      else
        var k := LastRoot(heads[..last], id);
        if k < last then k else |heads|
  }

  function Opened(heads: seq<Comment>): (r: seq<Thread>)
    ensures |r| == |heads| && forall i :: 0 <= i < |r| ==> r[i] == Thread(heads[i], [])
  {
    seq(|heads|, i requires 0 <= i < |heads| => Thread(heads[i], []))
  }

  /** The reply joins the thread it names. */
  function Join(threads: seq<Thread>, heads: seq<Comment>, c: Comment): (r: seq<Thread>)
    requires |threads| == |heads|
    ensures |r| == |heads|
  {
    var k := LastRoot(heads, c.replyTo);
    if k < |heads| then threads[k := threads[k].(replies := threads[k].replies + [c])] else threads
  }

  function JoinAll(threads: seq<Thread>, heads: seq<Comment>, replies: seq<Comment>): (r: seq<Thread>)
    requires |threads| == |heads|
    ensures |r| == |heads|
    decreases |replies|
  {
    if |replies| == 0 then threads else JoinAll(Join(threads, heads, replies[0]), heads, replies[1..])
  }

  /** What Threads gathers. */
  function ThreadsOf(comments: seq<Comment>): seq<Thread> {
    var roots := Roots(comments);
    var heads := Heads(comments, roots);
    JoinAll(Opened(heads), heads, Replies(comments, roots))
  }

  // ----- The three passes -----

  method CollectRoots(comments: seq<Comment>) returns (roots: set<string>)
    ensures roots == Roots(comments)
  {
    roots := {};
    for i := 0 to |comments|
      invariant roots == Roots(comments[..i])
    {
      assert comments[..i + 1] == comments[..i] + [comments[i]];
      if !comments[i].IsReply() {
        roots := roots + {comments[i].id};
      }
    }
    assert comments[..|comments|] == comments;
  }

  /** Where the last thread of each id stands. */
  ghost predicate AtIsLast(at: map<string, nat>, heads: seq<Comment>) {
    forall id :: LastRoot(heads, id) == (if id in at then at[id] else |heads|) && (id in at ==> at[id] < |heads|)
  }

  method OpenEach(comments: seq<Comment>, roots: set<string>) returns (threads: seq<Thread>, at: map<string, nat>)
    ensures threads == Opened(Heads(comments, roots))
    ensures AtIsLast(at, Heads(comments, roots))
  {
    hide Heads, LastRoot;
    HeadsEmpty(roots);
    threads, at := [], map[];
    for i := 0 to |comments|
      invariant threads == Opened(Heads(comments[..i], roots))
      invariant AtIsLast(at, Heads(comments[..i], roots))
    {
      var c := comments[i];
      ghost var before := Heads(comments[..i], roots);
      HeadsSnoc(comments[..i], roots, c);
      assert comments[..i + 1] == comments[..i] + [c];
      if !(c.IsReply() && c.replyTo in roots) {
        assert Heads(comments[..i + 1], roots) == before + [c];
        forall id {
          LastRootSnoc(before, c, id);
        }
        OpenedSnoc(before, c);
        if !c.IsReply() {
          at := at[c.id := |threads|];
        }
        threads := threads + [Thread(c, [])];
      }
    }
    assert comments[..|comments|] == comments;
  }

  lemma OpenedSnoc(heads: seq<Comment>, c: Comment)
    ensures Opened(heads + [c]) == Opened(heads) + [Thread(c, [])]
  {
  }

  /** model.Threads. */
  method Threads(comments: seq<Comment>) returns (threads: seq<Thread>)
    ensures threads == ThreadsOf(comments)
  {
    hide Heads, Replies, LastRoot, JoinAll;
    var roots := CollectRoots(comments);
    var at: map<string, nat>;
    threads, at := OpenEach(comments, roots);
    ghost var heads := Heads(comments, roots);
    ghost var opening := threads;
    RepliesEmpty(opening, heads, roots);
    for i := 0 to |comments|
      invariant |threads| == |heads|
      invariant threads == JoinAll(opening, heads, Replies(comments[..i], roots))
    {
      var c := comments[i];
      RepliesSnoc(comments[..i], roots, c);
      assert comments[..i + 1] == comments[..i] + [c];
      if c.IsReply() && c.replyTo in roots {
        HeadsHoldRoots(comments, roots, c.replyTo);
        JoinAllSnoc(opening, heads, Replies(comments[..i], roots), c);
        var k := at[c.replyTo];
        threads := threads[k := threads[k].(replies := threads[k].replies + [c])];
      }
    }
    assert comments[..|comments|] == comments;
  }

  lemma HeadsEmpty(roots: set<string>)
    ensures Heads([], roots) == [] && forall id :: LastRoot([], id) == 0
  {
  }

  lemma RepliesEmpty(threads: seq<Thread>, heads: seq<Comment>, roots: set<string>)
    requires |threads| == |heads|
    ensures JoinAll(threads, heads, Replies([], roots)) == threads
  {
  }

  lemma {:induction false} HeadsSnoc(comments: seq<Comment>, roots: set<string>, c: Comment)
    ensures Heads(comments + [c], roots) == if Answers(roots, c) then Heads(comments, roots) else Heads(comments, roots) + [c]
  {
    if |comments| == 0 {
      assert (comments + [c])[1..] == [];
    } else {
      assert (comments + [c])[1..] == comments[1..] + [c];
      HeadsSnoc(comments[1..], roots, c);
    }
  }

  lemma {:induction false} RepliesSnoc(comments: seq<Comment>, roots: set<string>, c: Comment)
    ensures Replies(comments + [c], roots) == if Answers(roots, c) then Replies(comments, roots) + [c] else Replies(comments, roots)
  {
    if |comments| == 0 {
      assert (comments + [c])[1..] == [];
    } else {
      assert (comments + [c])[1..] == comments[1..] + [c];
      RepliesSnoc(comments[1..], roots, c);
    }
  }

  lemma {:induction false} JoinAllSnoc(threads: seq<Thread>, heads: seq<Comment>, replies: seq<Comment>, c: Comment)
    requires |threads| == |heads|
    ensures JoinAll(threads, heads, replies + [c]) == Join(JoinAll(threads, heads, replies), heads, c)
    decreases |replies|
  {
    if |replies| == 0 {
      assert (replies + [c])[1..] == [];
    } else {
      assert (replies + [c])[1..] == replies[1..] + [c];
      JoinAllSnoc(Join(threads, heads, replies[0]), heads, replies[1..], c);
    }
  }

  lemma LastRootSnoc(heads: seq<Comment>, c: Comment, id: string)
    ensures LastRoot(heads + [c], id) ==
            if !c.IsReply() && c.id == id then |heads|
            else if LastRoot(heads, id) < |heads| then LastRoot(heads, id)
            else |heads| + 1
  {
    assert (heads + [c])[..|heads|] == heads;
  }

  lemma {:induction false} HeadsAre(comments: seq<Comment>, roots: set<string>)
    ensures forall c :: c in Heads(comments, roots) <==> c in comments && !Answers(roots, c)
    ensures forall c :: c in Replies(comments, roots) <==> c in comments && Answers(roots, c)
  {
    if |comments| > 0 {
      HeadsAre(comments[1..], roots);
      assert comments == [comments[0]] + comments[1..];
    }
  }

  lemma HeadsHoldRoots(comments: seq<Comment>, roots: set<string>, id: string)
    requires roots == Roots(comments) && id in roots
    ensures LastRoot(Heads(comments, roots), id) < |Heads(comments, roots)|
  {
    HeadsAre(comments, roots);
    var c :| c in comments && !c.IsReply() && c.id == id;
    assert c in Heads(comments, roots);
  }

  // ----- No comment is lost or told twice -----

  function All(threads: seq<Thread>): multiset<Comment> {
    if |threads| == 0 then multiset{} else Whole(threads[0]) + All(threads[1..])
  }

  function Whole(t: Thread): multiset<Comment> {
    multiset{t.root} + multiset(t.replies)
  }

  lemma {:induction false} AllOpened(heads: seq<Comment>)
    ensures All(Opened(heads)) == multiset(heads)
  {
    if |heads| > 0 {
      AllOpened(heads[1..]);
      assert Opened(heads)[1..] == Opened(heads[1..]);
      assert heads == [heads[0]] + heads[1..];
    }
  }

  lemma {:induction false} AllUpdate(threads: seq<Thread>, k: nat, c: Comment)
    requires k < |threads|
    ensures All(threads[k := threads[k].(replies := threads[k].replies + [c])]) == All(threads) + multiset{c}
  {
    var now := threads[k := threads[k].(replies := threads[k].replies + [c])];
    if k == 0 {
      assert now[1..] == threads[1..];
      assert All(now) == Whole(now[0]) + All(threads[1..]);
    } else {
      assert now[1..] == threads[1..][k - 1 := threads[1..][k - 1].(replies := threads[1..][k - 1].replies + [c])];
      AllUpdate(threads[1..], k - 1, c);
      assert All(now) == Whole(threads[0]) + (All(threads[1..]) + multiset{c});
    }
  }

  /** Each reply names a thread that the heads open. */
  ghost predicate AllNamed(heads: seq<Comment>, replies: seq<Comment>) {
    forall c :: c in replies ==> LastRoot(heads, c.replyTo) < |heads|
  }

  lemma {:induction false} AllJoined(threads: seq<Thread>, heads: seq<Comment>, replies: seq<Comment>)
    requires |threads| == |heads| && AllNamed(heads, replies)
    ensures All(JoinAll(threads, heads, replies)) == All(threads) + multiset(replies)
    decreases |replies|
  {
    hide LastRoot, All;
    if |replies| > 0 {
      var c := replies[0];
      AllUpdate(threads, LastRoot(heads, c.replyTo), c);
      AllJoined(Join(threads, heads, c), heads, replies[1..]);
      assert replies == [c] + replies[1..];
      assert multiset(replies) == multiset{c} + multiset(replies[1..]);
    }
  }

  lemma {:induction false} HeadsAndReplies(comments: seq<Comment>, roots: set<string>)
    ensures multiset(Heads(comments, roots)) + multiset(Replies(comments, roots)) == multiset(comments)
  {
    if |comments| > 0 {
      HeadsAndReplies(comments[1..], roots);
      assert comments == [comments[0]] + comments[1..];
    }
  }

  lemma RepliesAreNamed(comments: seq<Comment>)
    ensures var roots := Roots(comments); AllNamed(Heads(comments, roots), Replies(comments, roots))
  {
    var roots := Roots(comments);
    forall c | c in Replies(comments, roots)
      ensures LastRoot(Heads(comments, roots), c.replyTo) < |Heads(comments, roots)|
    {
      HeadsAre(comments, roots);
      HeadsHoldRoots(comments, roots, c.replyTo);
    }
  }

  /** Threads tells every comment once, whatever the list: filtered, hand-edited or with ids repeated. */
  lemma ThreadsConserve(comments: seq<Comment>)
    ensures All(ThreadsOf(comments)) == multiset(comments)
  {
    hide Heads, Replies, LastRoot, All, JoinAll;
    var roots := Roots(comments);
    var heads := Heads(comments, roots);
    RepliesAreNamed(comments);
    AllOpened(heads);
    AllJoined(Opened(heads), heads, Replies(comments, roots));
    HeadsAndReplies(comments, roots);
  }

  /** A thread holds its root and the replies that name it. */
  ghost predicate Gathered(t: Thread, comments: seq<Comment>) {
    forall c :: c in t.replies ==> c in comments && c.IsReply() && !t.root.IsReply() && c.replyTo == t.root.id
  }

  lemma {:induction false} JoinAllGathers(threads: seq<Thread>, heads: seq<Comment>, replies: seq<Comment>, comments: seq<Comment>)
    requires |threads| == |heads| && RootsMatch(threads, heads)
    requires forall t :: t in threads ==> Gathered(t, comments)
    requires forall c :: c in replies ==> c in comments && c.IsReply()
    ensures RootsMatch(JoinAll(threads, heads, replies), heads)
    ensures forall t :: t in JoinAll(threads, heads, replies) ==> Gathered(t, comments)
    decreases |replies|
  {
    if |replies| > 0 {
      var c := replies[0];
      var k := LastRoot(heads, c.replyTo);
      var next := Join(threads, heads, c);
      if k < |heads| {
        assert Gathered(threads[k], comments);
        assert Gathered(next[k], comments);
      }
      forall t | t in next
        ensures Gathered(t, comments)
      {
        var i :| 0 <= i < |next| && next[i] == t;
        assert i == k || t == threads[i];
      }
      JoinAllGathers(next, heads, replies[1..], comments);
    }
  }

  ghost predicate RootsMatch(threads: seq<Thread>, heads: seq<Comment>)
    requires |threads| == |heads|
  {
    forall i :: 0 <= i < |threads| ==> threads[i].root == heads[i]
  }

  /** Each thread is headed by a head, in their order, and holds replies that name it. */
  lemma ThreadsGather(comments: seq<Comment>)
    ensures var heads := Heads(comments, Roots(comments));
            |ThreadsOf(comments)| == |heads| && RootsMatch(ThreadsOf(comments), heads)
    ensures forall t :: t in ThreadsOf(comments) ==> Gathered(t, comments)
  {
    var roots := Roots(comments);
    var heads := Heads(comments, roots);
    HeadsAre(comments, roots);
    JoinAllGathers(Opened(heads), heads, Replies(comments, roots), comments);
  }

  // ----- Open threads -----

  function CountOpen(threads: seq<Thread>): nat {
    if |threads| == 0 then 0 else (if threads[0].root.resolved then 0 else 1) + CountOpen(threads[1..])
  }

  method OpenThreads(comments: seq<Comment>) returns (n: nat)
    ensures n == CountOpen(ThreadsOf(comments))
  {
    var threads := Threads(comments);
    n := 0;
    for i := 0 to |threads|
      invariant CountOpen(threads) == n + CountOpen(threads[i..])
    {
      assert threads[i..][1..] == threads[i + 1..];
      if !threads[i].root.resolved {
        n := n + 1;
      }
    }
  }

  function CountUnresolved(comments: seq<Comment>): nat {
    if |comments| == 0 then 0 else (if comments[0].resolved then 0 else 1) + CountUnresolved(comments[1..])
  }

  lemma {:induction false} CountOpenRoots(threads: seq<Thread>, heads: seq<Comment>)
    requires |threads| == |heads| && RootsMatch(threads, heads)
    ensures CountOpen(threads) == CountUnresolved(heads)
  {
    if |threads| > 0 {
      CountOpenRoots(threads[1..], heads[1..]);
    }
  }

  lemma OpenThreadsAreHeads(comments: seq<Comment>)
    ensures CountOpen(ThreadsOf(comments)) == CountUnresolved(Heads(comments, Roots(comments)))
  {
    ThreadsGather(comments);
    CountOpenRoots(ThreadsOf(comments), Heads(comments, Roots(comments)));
  }

  // ----- The comments a hook is told about -----

  function Unresolved(comments: seq<Comment>): seq<Comment> {
    if |comments| == 0 then []
    else if comments[0].resolved then Unresolved(comments[1..])
    else [comments[0]] + Unresolved(comments[1..])
  }

  /** hook.go's openComments. */
  method OpenComments(comments: seq<Comment>) returns (out: seq<Comment>)
    ensures out == Unresolved(comments)
  {
    out := [];
    for i := 0 to |comments|
      invariant Unresolved(comments) == out + Unresolved(comments[i..])
    {
      assert comments[i..][1..] == comments[i + 1..];
      if !comments[i].resolved {
        out := out + [comments[i]];
      }
    }
  }

  /** The open comments, in their order. */
  lemma {:induction false} UnresolvedInOrder(comments: seq<Comment>)
    ensures Unresolved(comments) == Filter(comments, (c: Comment) => !c.resolved)
  {
    if |comments| > 0 {
      UnresolvedInOrder(comments[1..]);
    }
  }

  lemma {:induction false} UnresolvedAre(comments: seq<Comment>)
    ensures forall c :: c in Unresolved(comments) <==> c in comments && !c.resolved
  {
    if |comments| > 0 {
      UnresolvedAre(comments[1..]);
      assert comments == [comments[0]] + comments[1..];
    }
  }

  /** With every reply in its thread and in its state, the heads of what is open are the open heads. */
  lemma {:induction false} HeadsOfOpen(comments: seq<Comment>, roots: set<string>, openRoots: set<string>)
    requires forall c :: c in comments && c.IsReply() ==> c.replyTo in roots
    requires forall c :: c in comments && c.IsReply() && !c.resolved ==> c.replyTo in openRoots
    ensures CountUnresolved(Heads(Unresolved(comments), openRoots)) == CountUnresolved(Heads(comments, roots))
  {
    if |comments| > 0 {
      var c := comments[0];
      assert comments == [c] + comments[1..];
      HeadsOfOpen(comments[1..], roots, openRoots);
      if !c.resolved {
        assert ([c] + Unresolved(comments[1..]))[1..] == Unresolved(comments[1..]);
      }
    }
  }

  lemma RepliesHaveRoots(comments: seq<Comment>)
    requires ThreadsOk(comments)
    ensures forall c :: c in comments && c.IsReply() ==> c.replyTo in Roots(comments)
    ensures forall c :: c in comments && c.IsReply() && !c.resolved ==> c.replyTo in Roots(Unresolved(comments))
  {
    UnresolvedAre(comments);
    forall c | c in comments && c.IsReply()
      ensures c.replyTo in Roots(comments)
      ensures !c.resolved ==> c.replyTo in Roots(Unresolved(comments))
    {
      assert AnswersThread(comments, c);
    }
  }

  /** As many threads are open among all the comments as among those a hook is told about. */
  lemma OpenThreadsOfOpen(comments: seq<Comment>)
    requires ThreadsOk(comments)
    ensures CountOpen(ThreadsOf(Unresolved(comments))) == CountOpen(ThreadsOf(comments))
  {
    OpenThreadsAreHeads(comments);
    OpenThreadsAreHeads(Unresolved(comments));
    RepliesHaveRoots(comments);
    HeadsOfOpen(comments, Roots(comments), Roots(Unresolved(comments)));
  }

  // ----- What blocks -----

  datatype Verdict = Approved | Commented | ChangesRequested | NoVerdict

  predicate Blocking(v: Verdict, comments: seq<Comment>) {
    match v
    case Approved => false
    case ChangesRequested => true
    case _ => exists c :: c in comments && !c.resolved
  }

  /** model.Blocks. */
  method Blocks(v: Verdict, comments: seq<Comment>) returns (blocks: bool)
    ensures blocks == Blocking(v, comments)
    ensures v == Approved ==> !blocks
    ensures v == ChangesRequested ==> blocks
    ensures v == Commented || v == NoVerdict ==> (blocks <==> exists c :: c in comments && !c.resolved)
  {
    match v {
      case Approved => return false;
      case ChangesRequested => return true;
      case _ =>
    }
    for i := 0 to |comments|
      invariant forall j :: 0 <= j < i ==> comments[j].resolved
    {
      if !comments[i].resolved {
        return true;
      }
    }
    return false;
  }

  lemma {:induction false} SomeUnresolved(comments: seq<Comment>)
    ensures CountUnresolved(comments) > 0 <==> exists c :: c in comments && !c.resolved
  {
    if |comments| > 0 {
      SomeUnresolved(comments[1..]);
      assert comments == [comments[0]] + comments[1..];
    }
  }

  /** A review that only commented blocks exactly when the number of open comments it reports is not zero. */
  lemma CommentedBlocksOnOpenThreads(v: Verdict, comments: seq<Comment>)
    requires ThreadsOk(comments) && (v == Commented || v == NoVerdict)
    ensures Blocking(v, Unresolved(comments)) <==> CountOpen(ThreadsOf(Unresolved(comments))) > 0
    ensures Blocking(v, Unresolved(comments)) <==> Blocking(v, comments)
  {
    var roots := Roots(comments);
    OpenThreadsOfOpen(comments);
    OpenThreadsAreHeads(comments);
    SomeUnresolved(Heads(comments, roots));
    HeadsAre(comments, roots);
    UnresolvedAre(comments);
    OpenHead(comments);
  }

  /** An open reply stands in an open thread. */
  lemma OpenHead(comments: seq<Comment>)
    requires ThreadsOk(comments)
    ensures (exists c :: c in comments && !c.resolved)
            <==> (exists c :: c in Heads(comments, Roots(comments)) && !c.resolved)
  {
    var roots := Roots(comments);
    HeadsAre(comments, roots);
    forall c | c in comments && !c.resolved
      ensures exists h :: h in Heads(comments, roots) && !h.resolved
    {
      assert AnswersThread(comments, c);
      if c.IsReply() {
        var root :| root in comments && Opens(root, c);
        assert root in Heads(comments, roots);
      } else {
        assert c in Heads(comments, roots);
      }
    }
  }
}
