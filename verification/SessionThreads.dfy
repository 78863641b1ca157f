/** Threads of a group under the changes a mutator makes to its comments, and under replaying its record. */
module SessionThreads {
  import opened Prelude
  import opened Session

  // ----- Lookups and filters -----

  lemma {:induction false} KeptComments(comments: seq<Comment>, gone: seq<string>)
    ensures forall c :: c in DropComments(comments, gone) <==> c in comments && c.id !in gone
  {
    if |comments| > 0 {
      KeptComments(comments[1..], gone);
      assert comments == [comments[0]] + comments[1..];
    }
  }

  lemma {:induction false} KeptCommentsOn(comments: seq<Comment>, gone: seq<string>)
    ensures forall c :: c in DropCommentsOn(comments, gone) <==> c in comments && c.anchor.diffId !in gone
  {
    if |comments| > 0 {
      KeptCommentsOn(comments[1..], gone);
      assert comments == [comments[0]] + comments[1..];
    }
  }

  lemma {:induction false} KeptDiffs(diffs: seq<Diff>, gone: seq<string>)
    ensures forall d :: d in DropDiffs(diffs, gone) <==> d in diffs && d.id !in gone
    ensures |DropDiffs(diffs, gone)| <= |diffs|
  {
    if |diffs| > 0 {
      KeptDiffs(diffs[1..], gone);
      assert diffs == [diffs[0]] + diffs[1..];
    }
  }

  /** Deleting a diff takes its comments, and a reply goes with the comment it answers. */
  lemma DeleteDiffKeepsThreads(diffs: seq<Diff>, comments: seq<Comment>, gone: seq<string>)
    requires AnchorsOk(diffs, comments) && ThreadsOk(comments)
    ensures AnchorsOk(DropDiffs(diffs, gone), DropCommentsOn(comments, gone))
    ensures ThreadsOk(DropCommentsOn(comments, gone))
  {
    KeptDiffs(diffs, gone);
    KeptCommentsOn(comments, gone);
    var kept := DropCommentsOn(comments, gone);
    forall c | c in kept
      ensures AnswersThread(kept, c)
    {
      assert AnswersThread(comments, c);
    }
  }

  /** A set of comments closed under "the replies of what goes go too". */
  ghost predicate TakesReplies(comments: seq<Comment>, gone: seq<string>) {
    forall c :: c in comments && c.IsReply() && c.replyTo in gone ==> c.id in gone
  }

  lemma DropKeepsThreads(diffs: seq<Diff>, comments: seq<Comment>, gone: seq<string>)
    requires AnchorsOk(diffs, comments) && ThreadsOk(comments) && TakesReplies(comments, gone)
    ensures AnchorsOk(diffs, DropComments(comments, gone)) && ThreadsOk(DropComments(comments, gone))
  {
    KeptComments(comments, gone);
    var kept := DropComments(comments, gone);
    forall c | c in kept
      ensures AnswersThread(kept, c)
    {
      assert AnswersThread(comments, c);
    }
  }

  // ----- A comment that joins -----

  lemma AppendKeepsThreads(diffs: seq<Diff>, comments: seq<Comment>, c: Comment)
    requires AnchorsOk(diffs, comments) && ThreadsOk(comments)
    requires HasDiff(diffs, c.anchor.diffId) && AnswersThread(comments, c)
    ensures AnchorsOk(diffs, comments + [c]) && ThreadsOk(comments + [c])
  {
    forall x | x in comments + [c]
      ensures AnswersThread(comments + [c], x)
    {
      if x in comments {
        assert AnswersThread(comments, x);
      }
    }
  }

  /** A comment with a new id joins at the end, and no reply follows it yet. */
  lemma PutNew(comments: seq<Comment>, c: Comment)
    requires ThreadsOk(comments) && c.id != "" && c.replyTo != c.id
    requires forall x :: x in comments ==> x.id != c.id
    ensures PutComment(comments, c) == comments + [c]
  {
    var i := CommentIndex(comments, c.id);
    assert i == |comments|;
    var put := comments + [c];
    forall j | 0 <= j < |put|
      ensures put[j].replyTo != c.id
    {
      if j < |comments| {
        assert AnswersThread(comments, comments[j]);
      }
    }
    assert CarryResolved(put, c) == put;
  }

  // ----- A comment that is edited -----

  /** threadRoot: the comment that opens the thread of the comment id, or |comments|. */
  function RootIndex(comments: seq<Comment>, id: string): (r: nat)
    ensures r <= |comments|
  {
    var i := CommentIndex(comments, id);
    if i == |comments| || !comments[i].IsReply() then i
    else
      var r := CommentIndex(comments, comments[i].replyTo);
      if r < |comments| then r else i
  }

  lemma RootOpens(comments: seq<Comment>, id: string)
    requires ThreadsOk(comments) && DistinctIds(comments) && CommentIndex(comments, id) < |comments|
    ensures var r := RootIndex(comments, id);
            var c := comments[CommentIndex(comments, id)];
            r < |comments| && !comments[r].IsReply() && CommentIndex(comments, comments[r].id) == r
            && (if c.IsReply() then Opens(comments[r], c) else comments[r] == c)
  {
    var i := CommentIndex(comments, id);
    var c := comments[i];
    if c.IsReply() {
      assert AnswersThread(comments, c);
      var root :| root in comments && Opens(root, c);
      FirstIs(comments, root);
    } else {
      FirstIs(comments, c);
    }
  }

  /** A reply whose thread has gone stands for its own thread. */
  lemma OrphanStandsAlone(comments: seq<Comment>, id: string)
    requires CommentIndex(comments, id) < |comments|
    requires var c := comments[CommentIndex(comments, id)]; c.IsReply() && forall x :: x in comments ==> x.id != c.replyTo
    ensures RootIndex(comments, id) == CommentIndex(comments, id)
  {
    hide CommentIndex;
  }

  lemma FirstIs(comments: seq<Comment>, c: Comment)
    requires DistinctIds(comments) && c in comments
    ensures CommentIndex(comments, c.id) < |comments| && comments[CommentIndex(comments, c.id)] == c
  {
    var j :| 0 <= j < |comments| && comments[j] == c;
    var i := CommentIndex(comments, c.id);
    assert comments[i].id == comments[j].id;
  }

  /** Resolving or reopening the thread opened by comments[r]. */
  function ResolveThread(comments: seq<Comment>, r: nat, resolved: bool, now: nat): seq<Comment>
    requires r < |comments|
  {
    var root := comments[r].(resolved := resolved, updated := now);
    CarryResolved(comments[r := root], root)
  }

  /** The record of its first comment rebuilds the whole thread. */
  lemma ResolveReplays(comments: seq<Comment>, r: nat, resolved: bool, now: nat)
    requires r < |comments| && !comments[r].IsReply() && CommentIndex(comments, comments[r].id) == r
    requires comments[r].id != ""
    ensures ResolveThread(comments, r, resolved, now)[r] == comments[r].(resolved := resolved, updated := now)
    ensures PutComment(comments, ResolveThread(comments, r, resolved, now)[r]) == ResolveThread(comments, r, resolved, now)
  {
  }

  lemma ResolveKeepsThreads(diffs: seq<Diff>, comments: seq<Comment>, r: nat, resolved: bool, now: nat)
    requires AnchorsOk(diffs, comments) && ThreadsOk(comments) && DistinctIds(comments)
    requires r < |comments| && !comments[r].IsReply() && comments[r].id != ""
    ensures var after := ResolveThread(comments, r, resolved, now);
            AnchorsOk(diffs, after) && ThreadsOk(after) && DistinctIds(after)
  {
    var after := ResolveThread(comments, r, resolved, now);
    forall c | c in after
      ensures HasDiff(diffs, c.anchor.diffId)
      ensures AnswersThread(after, c)
    {
      var j :| 0 <= j < |after| && after[j] == c;
      assert AnswersThread(comments, comments[j]);
      hide AnswersThread, DistinctIds, HasDiff;
      ResolvedAnswers(comments, r, resolved, now, j);
    }
  }

  lemma ResolvedAnswers(comments: seq<Comment>, r: nat, resolved: bool, now: nat, j: nat)
    requires DistinctIds(comments) && r < |comments| && !comments[r].IsReply() && comments[r].id != ""
    requires j < |comments| && AnswersThread(comments, comments[j])
    ensures var after := ResolveThread(comments, r, resolved, now); AnswersThread(after, after[j])
  {
    var after := ResolveThread(comments, r, resolved, now);
    if comments[j].IsReply() {
      var k :| 0 <= k < |comments| && Opens(comments[k], comments[j]);
      assert k < r ==> comments[k].id != comments[r].id;
      assert r < k ==> comments[r].id != comments[k].id;
      assert Opens(after[k], after[j]);
    }
  }

  /** An edit of the text of a comment, and of what it asks when it opens a thread. */
  function Edited(c: Comment, body: Option<string>, question: Option<bool>, now: nat): Comment {
    c.(body := if body.Some? then body.value else c.body,
       question := if question.Some? && !c.IsReply() then question.value else c.question,
       updated := now)
  }

  lemma EditReplays(comments: seq<Comment>, i: nat, body: Option<string>, question: Option<bool>, now: nat)
    requires ThreadsOk(comments) && DistinctIds(comments)
    requires i < |comments| && comments[i].id != ""
    ensures var c := Edited(comments[i], body, question, now); PutComment(comments, c) == comments[i := c]
  {
    var c := Edited(comments[i], body, question, now);
    FirstIs(comments, comments[i]);
    var put := comments[i := c];
    forall j | 0 <= j < |put| && put[j].replyTo == c.id
      ensures put[j].resolved == c.resolved
    {
      assert AnswersThread(comments, comments[j]);
      var root :| root in comments && Opens(root, comments[j]);
      FirstIs(comments, root);
    }
    assert CarryResolved(put, c) == put;
  }

  lemma EditKeepsThreads(diffs: seq<Diff>, comments: seq<Comment>, i: nat, body: Option<string>, question: Option<bool>, now: nat)
    requires AnchorsOk(diffs, comments) && ThreadsOk(comments)
    requires i < |comments|
    ensures var after := comments[i := Edited(comments[i], body, question, now)];
            AnchorsOk(diffs, after) && ThreadsOk(after)
  {
    var after := comments[i := Edited(comments[i], body, question, now)];
    forall c | c in after
      ensures HasDiff(diffs, c.anchor.diffId)
      ensures AnswersThread(after, c)
    {
      var j :| 0 <= j < |after| && after[j] == c;
      assert AnswersThread(comments, comments[j]);
      if c.IsReply() {
        var root :| root in comments && Opens(root, comments[j]);
        var k :| 0 <= k < |comments| && comments[k] == root;
        assert Opens(after[k], after[j]);
      }
    }
  }

  // ----- A comment that goes -----

  /** DeleteComment takes the comment, and its replies when it opens a thread. */
  predicate GoesWith(target: Comment, c: Comment) {
    c.id == target.id || (!target.IsReply() && c.replyTo == target.id)
  }

  function WithoutThread(comments: seq<Comment>, target: Comment): seq<Comment> {
    if |comments| == 0 then []
    else if GoesWith(target, comments[0]) then WithoutThread(comments[1..], target)
    else [comments[0]] + WithoutThread(comments[1..], target)
  }

  function GoneIds(comments: seq<Comment>, target: Comment): seq<string> {
    if |comments| == 0 then []
    else if GoesWith(target, comments[0]) then [comments[0].id] + GoneIds(comments[1..], target)
    else GoneIds(comments[1..], target)
  }

  lemma {:induction false} GoneHas(comments: seq<Comment>, target: Comment, c: Comment)
    requires c in comments && GoesWith(target, c)
    ensures c.id in GoneIds(comments, target)
  {
    if c != comments[0] {
      assert comments == [comments[0]] + comments[1..];
      GoneHas(comments[1..], target, c);
    }
  }

  lemma {:induction false} GoneFrom(comments: seq<Comment>, target: Comment, id: string) returns (c: Comment)
    requires id in GoneIds(comments, target)
    ensures c in comments && GoesWith(target, c) && c.id == id
  {
    if GoesWith(target, comments[0]) && comments[0].id == id {
      c := comments[0];
    } else {
      c := GoneFrom(comments[1..], target, id);
    }
  }

  /** Dropping the comments by the ids written to the log drops exactly those that went. */
  lemma {:induction false} DeleteReplays(comments: seq<Comment>, part: seq<Comment>, target: Comment)
    requires DistinctIds(comments) && forall c :: c in part ==> c in comments
    ensures WithoutThread(part, target) == DropComments(part, GoneIds(comments, target))
  {
    if |part| > 0 {
      DeleteReplays(comments, part[1..], target);
      var c := part[0];
      if GoesWith(target, c) {
        GoneHas(comments, target, c);
      } else if c.id in GoneIds(comments, target) {
        var x := GoneFrom(comments, target, c.id);
        SameComment(comments, x, c);
        assert false;
      }
    }
  }

  lemma SameComment(comments: seq<Comment>, x: Comment, y: Comment)
    requires DistinctIds(comments) && x in comments && y in comments && x.id == y.id
    ensures x == y
  {
    FirstIs(comments, x);
    FirstIs(comments, y);
  }

  lemma GoneTakesReplies(comments: seq<Comment>, target: Comment)
    requires ThreadsOk(comments) && DistinctIds(comments) && target in comments && target.id != ""
    ensures TakesReplies(comments, GoneIds(comments, target))
  {
    forall c | c in comments && c.IsReply() && c.replyTo in GoneIds(comments, target)
      ensures c.id in GoneIds(comments, target)
    {
      var x := GoneFrom(comments, target, c.replyTo);
      assert AnswersThread(comments, c);
      var root :| root in comments && Opens(root, c);
      SameComment(comments, root, x);
      assert GoesWith(target, root) && !root.IsReply();
      GoneWithRoot(comments, target, root, c);
    }
  }

  lemma GoneWithRoot(comments: seq<Comment>, target: Comment, root: Comment, c: Comment)
    requires DistinctIds(comments) && target in comments && root in comments && c in comments
    requires Opens(root, c) && c.IsReply() && GoesWith(target, root) && target.id != ""
    ensures c.id in GoneIds(comments, target)
  {
    assert root.id == target.id;
    SameComment(comments, root, target);
    GoneHas(comments, target, c);
  }
}
