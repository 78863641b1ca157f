/** Which replies a thread holds, and in which order. */
module ThreadOrder {
  import opened Session
  import opened Threads
  import opened Sequences

  lemma {:induction false} RepliesAre(comments: seq<Comment>, roots: set<string>)
    ensures Replies(comments, roots) == Filter(comments, (c: Comment) => c.replyTo != "" && c.replyTo in roots)
  {
    if |comments| > 0 {
      RepliesAre(comments[1..], roots);
    }
  }

  lemma {:induction false} JoinedInOrder(threads: seq<Thread>, heads: seq<Comment>, replies: seq<Comment>, k: nat)
    requires k < |threads| == |heads|
    ensures JoinAll(threads, heads, replies)[k].replies
         == threads[k].replies + Filter(replies, (c: Comment) => LastRoot(heads, c.replyTo) == k)
    decreases |replies|
  {
    hide LastRoot;
    if |replies| > 0 {
      var next := Join(threads, heads, replies[0]);
      var rest := Filter(replies[1..], (c: Comment) => LastRoot(heads, c.replyTo) == k);
      JoinedInOrder(next, heads, replies[1..], k);
      assert threads[k].replies + ([replies[0]] + rest) == (threads[k].replies + [replies[0]]) + rest;
    }
  }

  /** The head at k is the last of the heads that opens the thread of that id. */
  predicate IsLastRoot(heads: seq<Comment>, id: string, k: nat)
    requires k < |heads|
  {
    && heads[k].replyTo == "" && heads[k].id == id
    && forall j :: k < j < |heads| ==> heads[j].replyTo != "" || heads[j].id != id
  }

  /** For any list: the replies of a thread are those of the list that name it, in the order of the list. */
  lemma RepliesInOrder(comments: seq<Comment>, k: nat)
    requires k < |ThreadsOf(comments)|
    ensures var heads := Heads(comments, Roots(comments));
            && |heads| == |ThreadsOf(comments)| && heads[k] == ThreadsOf(comments)[k].root
            && ThreadsOf(comments)[k].replies == Filter(comments, (c: Comment) => c.replyTo != "" && IsLastRoot(heads, c.replyTo, k))
            && Subsequence(ThreadsOf(comments)[k].replies, comments)
  {
    ThreadsGather(comments);
    var roots := Roots(comments);
    var heads := Heads(comments, roots);
    JoinedInOrder(Opened(heads), heads, Replies(comments, roots), k);
    RepliesAre(comments, roots);
    var named := (c: Comment) => c.replyTo != "" && c.replyTo in roots;
    var joins := (c: Comment) => LastRoot(heads, c.replyTo) == k;
    var both := (c: Comment) => c.replyTo != "" && IsLastRoot(heads, c.replyTo, k);
    HeadsAre(comments, roots);
    hide LastRoot, Heads, Replies, JoinAll;
    forall c | c in comments
      ensures both(c) <==> named(c) && joins(c)
    {
      LastIsLast(heads, c.replyTo, k);
      assert IsLastRoot(heads, c.replyTo, k) ==> heads[k] in heads && heads[k].id in roots;
    }
    FilterTwice(comments, named, joins, both);
    FilterKeeps(comments, both);
    assert [] + Filter(comments, both) == Filter(comments, both);
  }

  lemma LastIsLast(heads: seq<Comment>, id: string, k: nat)
    requires k < |heads|
    ensures LastRoot(heads, id) == k <==> IsLastRoot(heads, id, k)
  {
  }

  /** With ids that name one thread each, a thread's replies are the comments that name its root, in their order. */
  lemma RepliesNameTheirRoot(comments: seq<Comment>, k: nat)
    requires k < |ThreadsOf(comments)| && DistinctIds(comments)
    ensures var t := ThreadsOf(comments)[k];
            t.replies == if t.root.replyTo != "" then [] else Filter(comments, (c: Comment) => c.replyTo != "" && c.replyTo == t.root.id)
  {
    RepliesInOrder(comments, k);
    var heads := Heads(comments, Roots(comments));
    HeadsApart(comments, Roots(comments));
    hide Heads, ThreadsOf;
    var root := heads[k];
    if root.replyTo != "" {
      FilterNone(comments, (c: Comment) => c.replyTo != "" && IsLastRoot(heads, c.replyTo, k));
    } else {
      SameFilter(comments, (c: Comment) => c.replyTo != "" && IsLastRoot(heads, c.replyTo, k),
                 (c: Comment) => c.replyTo != "" && c.replyTo == root.id);
    }
  }

  /** No two heads share an id. */
  lemma {:induction false} HeadsApart(comments: seq<Comment>, roots: set<string>)
    requires DistinctIds(comments)
    ensures DistinctIds(Heads(comments, roots))
  {
    if |comments| > 0 {
      HeadsApart(comments[1..], roots);
      HeadsAre(comments[1..], roots);
      var rest := Heads(comments[1..], roots);
      forall j | 0 <= j < |rest|
        ensures rest[j].id != comments[0].id
      {
        assert rest[j] in comments[1..];
      }
    }
  }
}
