/** The ids of a session under the changes a mutator makes to its groups. */
module SessionIds {
  import opened Session
  import Decimal

  function Bump(m: Counters, key: string): (r: Counters)
    ensures forall k :: Count(r, k) == if k == key then Count(m, k) + 1 else Count(m, k)
  {
    m[key := Count(m, key) + 1]
  }

  /** The id handed out once the counter of its prefix has been bumped. */
  function NextId(ids: Counters, prefix: string): string {
    prefix + Decimal.Digits(Count(ids, prefix) + 1)
  }

  // ----- The ids of a list of groups -----

  lemma {:induction false} IdsWithin(groups: seq<Group>, i: nat)
    requires i < |groups|
    ensures IdsOf(groups[i]) <= AllIds(groups)
  {
    hide IdsOf;
    if i > 0 {
      IdsWithin(groups[1..], i - 1);
    }
  }

  lemma {:induction false} IdsUpdate(groups: seq<Group>, i: nat, g: Group)
    requires i < |groups|
    ensures AllIds(groups[i := g]) + IdsOf(groups[i]) == AllIds(groups) + IdsOf(g)
  {
    hide IdsOf;
    var now := groups[i := g];
    if i == 0 {
      assert now[1..] == groups[1..];
      assert AllIds(now) == IdsOf(g) + AllIds(groups[1..]);
    } else {
      assert now[1..] == groups[1..][i - 1 := g];
      IdsUpdate(groups[1..], i - 1, g);
      assert groups[1..][i - 1] == groups[i];
      Alongside(IdsOf(groups[0]), AllIds(now[1..]), IdsOf(groups[i]), AllIds(groups[1..]), IdsOf(g));
      assert AllIds(now) == IdsOf(groups[0]) + AllIds(now[1..]);
      assert AllIds(groups) == IdsOf(groups[0]) + AllIds(groups[1..]);
    }
  }

  lemma Alongside(m: multiset<string>, a: multiset<string>, b: multiset<string>, c: multiset<string>, d: multiset<string>)
    requires a + b == c + d
    ensures (m + a) + b == (m + c) + d
  {
    assert (m + a) + b == m + (a + b) && (m + c) + d == m + (c + d);
  }

  lemma {:induction false} IdsAppend(groups: seq<Group>, g: Group)
    ensures AllIds(groups + [g]) == AllIds(groups) + IdsOf(g)
  {
    hide IdsOf;
    if |groups| == 0 {
      assert (groups + [g])[1..] == [];
    } else {
      assert (groups + [g])[1..] == groups[1..] + [g];
      IdsAppend(groups[1..], g);
    }
  }

  lemma {:induction false} IdsDropGroup(groups: seq<Group>, name: string)
    ensures AllIds(DropGroup(groups, name)) <= AllIds(groups)
  {
    hide IdsOf;
    if |groups| > 0 {
      IdsDropGroup(groups[1..], name);
      if groups[0].name != name {
        var rest := DropGroup(groups[1..], name);
        assert ([groups[0]] + rest)[1..] == rest;
      }
    }
  }

  /** Ids that were in use stay in order when some of them go. */
  lemma IdsOkFewer(groups: seq<Group>, fewer: seq<Group>, ids: Counters)
    requires IdsOk(groups, ids) && AllIds(fewer) <= AllIds(groups)
    ensures IdsOk(fewer, ids)
  {
    hide AllIds, HandedOut;
    var all, left := AllIds(groups), AllIds(fewer);
    forall x
      ensures left[x] <= 1
    {
      assert left[x] <= all[x];
    }
    forall x | x in left
      ensures HandedOut(x, ids)
    {
      assert x in all;
    }
  }

  lemma HandedOutBump(id: string, ids: Counters, prefix: string)
    requires HandedOut(id, ids)
    ensures HandedOut(id, Bump(ids, prefix))
  {
    var p, n: nat :| p in {DIFF_PREFIX, COMMENT_PREFIX, HOOK_PREFIX} && NumberedBy(id, p, n, ids);
    assert NumberedBy(id, p, n, Bump(ids, prefix));
  }

  /** A counter that is bumped hands out an id no one was given. */
  lemma NextIdIsNew(ids: Counters, prefix: string)
    requires prefix in {DIFF_PREFIX, COMMENT_PREFIX, HOOK_PREFIX}
    ensures !HandedOut(NextId(ids, prefix), ids)
    ensures HandedOut(NextId(ids, prefix), Bump(ids, prefix))
    ensures NextId(ids, prefix) != ""
  {
    var id := NextId(ids, prefix);
    var next := Count(ids, prefix) + 1;
    forall p, n: nat | p in {DIFF_PREFIX, COMMENT_PREFIX, HOOK_PREFIX} && id == p + Decimal.Digits(n)
      ensures p == prefix && n == next
    {
      assert p[0] == id[0] == prefix[0];
      assert p == prefix;
      assert id[1..] == Decimal.Digits(n) == Decimal.Digits(next);
      Decimal.DigitsDistinct(n, next);
    }
    assert NumberedBy(id, prefix, next, Bump(ids, prefix));
  }

  lemma IdsOkOneMore(groups: seq<Group>, more: seq<Group>, ids: Counters, prefix: string)
    requires IdsOk(groups, ids) && prefix in {DIFF_PREFIX, COMMENT_PREFIX, HOOK_PREFIX}
    requires AllIds(more) <= AllIds(groups) + multiset{NextId(ids, prefix)}
    ensures IdsOk(more, Bump(ids, prefix))
  {
    NextIdIsNew(ids, prefix);
    hide AllIds, HandedOut, Bump;
    var id := NextId(ids, prefix);
    var all, now := AllIds(groups), AllIds(more);
    assert id !in all;
    forall x
      ensures now[x] <= 1
    {
      assert now[x] <= (all + multiset{id})[x];
    }
    forall x | x in now
      ensures HandedOut(x, Bump(ids, prefix))
    {
      assert x in all + multiset{id};
      if x in all {
        HandedOutBump(x, ids, prefix);
      }
    }
  }

  // ----- The ids of one group -----

  lemma DiffIdsCons(d: Diff, diffs: seq<Diff>)
    ensures multiset(DiffIds([d] + diffs)) == multiset{d.id} + multiset(DiffIds(diffs))
  {
    assert DiffIds([d] + diffs) == [d.id] + DiffIds(diffs);
  }

  /** One more at the front of both keeps one within the other; so does one more in front of the longer. */
  lemma DiffIdsWithin(d: Diff, diffs: seq<Diff>, left: seq<Diff>)
    requires multiset(DiffIds(left)) <= multiset(DiffIds(diffs))
    ensures multiset(DiffIds(left)) <= multiset(DiffIds([d] + diffs))
    ensures multiset(DiffIds([d] + left)) <= multiset(DiffIds([d] + diffs))
  {
    hide DiffIds;
    DiffIdsCons(d, diffs);
    DiffIdsCons(d, left);
  }

  lemma CommentIdsCons(c: Comment, comments: seq<Comment>)
    ensures multiset(CommentIds([c] + comments)) == multiset{c.id} + multiset(CommentIds(comments))
  {
    assert CommentIds([c] + comments) == [c.id] + CommentIds(comments);
  }

  /** One more at the front of both keeps one within the other; so does one more in front of the longer. */
  lemma CommentIdsWithin(c: Comment, comments: seq<Comment>, left: seq<Comment>)
    requires multiset(CommentIds(left)) <= multiset(CommentIds(comments))
    ensures multiset(CommentIds(left)) <= multiset(CommentIds([c] + comments))
    ensures multiset(CommentIds([c] + left)) <= multiset(CommentIds([c] + comments))
  {
    hide CommentIds;
    CommentIdsCons(c, comments);
    CommentIdsCons(c, left);
  }

  lemma DropDiffsFirst(diffs: seq<Diff>, gone: seq<string>)
    ensures DropDiffs(diffs, gone) ==
            if diffs == [] then []
            else if diffs[0].id in gone then DropDiffs(diffs[1..], gone)
            else [diffs[0]] + DropDiffs(diffs[1..], gone)
  {
  }

  lemma {:induction false} DropDiffsIds(diffs: seq<Diff>, gone: seq<string>)
    ensures multiset(DiffIds(DropDiffs(diffs, gone))) <= multiset(DiffIds(diffs))
  {
    hide DiffIds, DropDiffs;
    DropDiffsFirst(diffs, gone);
    if |diffs| > 0 {
      DropDiffsIds(diffs[1..], gone);
      DiffIdsWithin(diffs[0], diffs[1..], DropDiffs(diffs[1..], gone));
      assert [diffs[0]] + diffs[1..] == diffs;
    }
  }

  lemma DropCommentsOnFirst(comments: seq<Comment>, gone: seq<string>)
    ensures DropCommentsOn(comments, gone) ==
            if comments == [] then []
            else if comments[0].anchor.diffId in gone then DropCommentsOn(comments[1..], gone)
            else [comments[0]] + DropCommentsOn(comments[1..], gone)
  {
  }

  lemma {:induction false} DropCommentsOnIds(comments: seq<Comment>, gone: seq<string>)
    ensures multiset(CommentIds(DropCommentsOn(comments, gone))) <= multiset(CommentIds(comments))
  {
    hide CommentIds, DropCommentsOn;
    DropCommentsOnFirst(comments, gone);
    if |comments| > 0 {
      DropCommentsOnIds(comments[1..], gone);
      CommentIdsWithin(comments[0], comments[1..], DropCommentsOn(comments[1..], gone));
      assert [comments[0]] + comments[1..] == comments;
    }
  }

  lemma DropCommentsFirst(comments: seq<Comment>, gone: seq<string>)
    ensures DropComments(comments, gone) ==
            if comments == [] then []
            else if comments[0].id in gone then DropComments(comments[1..], gone)
            else [comments[0]] + DropComments(comments[1..], gone)
  {
  }

  lemma {:induction false} DropCommentsIds(comments: seq<Comment>, gone: seq<string>)
    ensures multiset(CommentIds(DropComments(comments, gone))) <= multiset(CommentIds(comments))
  {
    hide CommentIds, DropComments;
    DropCommentsFirst(comments, gone);
    if |comments| > 0 {
      DropCommentsIds(comments[1..], gone);
      CommentIdsWithin(comments[0], comments[1..], DropComments(comments[1..], gone));
      assert [comments[0]] + comments[1..] == comments;
    }
  }

  /** No two comments of a session share an id. */
  lemma CommentsDistinct(groups: seq<Group>, i: nat)
    requires i < |groups| && NoneTwice(AllIds(groups))
    ensures DistinctIds(groups[i].comments)
  {
    IdsWithin(groups, i);
    hide AllIds;
    var comments := groups[i].comments;
    var ids := CommentIds(comments);
    assert multiset(ids) <= IdsOf(groups[i]);
    forall x
      ensures multiset(ids)[x] <= 1
    {
      assert multiset(ids)[x] <= IdsOf(groups[i])[x] <= AllIds(groups)[x];
    }
    Distinct(ids);
  }

  lemma Distinct(ids: seq<string>)
    requires NoneTwice(multiset(ids))
    ensures forall j, k :: 0 <= j < k < |ids| ==> ids[j] != ids[k]
  {
    forall j, k | 0 <= j < k < |ids|
      ensures ids[j] != ids[k]
    {
      var x := ids[j];
      assert ids == ids[..k] + [ids[k]] + ids[k + 1..];
      assert multiset(ids) == multiset(ids[..k]) + multiset{ids[k]} + multiset(ids[k + 1..]);
      assert x in ids[..k];
      assert multiset(ids)[x] <= 1;
    }
  }
}
