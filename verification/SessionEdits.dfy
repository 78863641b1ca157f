/** The changes made to comments that are already there: edits, resolutions, deletions. */
module SessionEdits {
  import opened Prelude
  import opened Session
  import opened SessionIds
  import opened SessionThreads
  import opened SessionOps
  import Threads

  function WithComments(s: State, i: nat, comments: seq<Comment>): State
    requires i < |s.groups|
  {
    s.(groups := s.groups[i := s.groups[i].(comments := comments)])
  }

  predicate HasComment(s: State, group: string, id: string) {
    var i := GroupIndex(s.groups, group);
    i < |s.groups| && CommentIndex(s.groups[i].comments, id) < |s.groups[i].comments|
  }

  lemma SameIds(a: seq<Comment>, b: seq<Comment>)
    requires |a| == |b| && forall j :: 0 <= j < |a| ==> a[j].id == b[j].id
    ensures CommentIds(a) == CommentIds(b)
  {
  }

  // ----- UpdateComment -----

  /** A field that is None is left alone. */
  datatype Patch = Patch(body: Option<string>, resolved: Option<bool>, question: Option<bool>)

  /** Resolving is done to a thread, never to one comment of it. */
  function Resolve(s: State, group: string, id: string, resolved: bool, now: nat): State
    requires HasComment(s, group, id)
  {
    var i := GroupIndex(s.groups, group);
    var comments := s.groups[i].comments;
    var r := RootIndex(comments, id);
    if r < |comments| then WithComments(s, i, ResolveThread(comments, r, resolved, now)) else s
  }

  /** The one comment the record of a resolution holds. */
  function ResolvedRoot(s: State, group: string, id: string, resolved: bool, now: nat): Comment
    requires HasComment(s, group, id)
  {
    var comments := s.groups[GroupIndex(s.groups, group)].comments;
    var r := RootIndex(comments, id);
    (if r < |comments| then comments[r] else comments[CommentIndex(comments, id)]).(resolved := resolved, updated := now)
  }

  /** One record, of the first comment alone, rebuilds the thread: its replies take its state. */
  lemma ResolveKeeps(s: State, group: string, id: string, resolved: bool, now: nat)
    requires Inv(s) && HasComment(s, group, id)
    ensures Inv(Resolve(s, group, id, resolved, now))
    ensures Replays(s, CommentRecord(group, ResolvedRoot(s, group, id, resolved, now)), Resolve(s, group, id, resolved, now))
    ensures HasComment(Resolve(s, group, id, resolved, now), group, id)
  {
    hide Inv, RootIndex, ResolveThread, PutComment, ThreadsOk, AnchorsOk, DistinctIds, GroupIndex;
    var i := GroupIndex(s.groups, group);
    var was := s.groups[i];
    GroupFacts(s, i);
    ResolveInGroup(was.diffs, was.comments, id, resolved, now);
    var after := ResolveThread(was.comments, RootIndex(was.comments, id), resolved, now);
    CommentsKeepInv(s, i, after);
    StillThere(s, i, after, id);
    PutReplays(s, group, after[RootIndex(was.comments, id)], WithComments(s, i, after));
  }

  lemma ResolveInGroup(diffs: seq<Diff>, comments: seq<Comment>, id: string, resolved: bool, now: nat)
    requires AnchorsOk(diffs, comments) && ThreadsOk(comments) && DistinctIds(comments)
    requires forall c :: c in comments ==> c.id != ""
    requires CommentIndex(comments, id) < |comments|
    ensures var r := RootIndex(comments, id);
            r < |comments|
            && var after := ResolveThread(comments, r, resolved, now);
               && |after| == |comments| && after[r] == comments[r].(resolved := resolved, updated := now)
               && PutComment(comments, after[r]) == after
               && AnchorsOk(diffs, after) && ThreadsOk(after) && CommentIds(after) == CommentIds(comments)
  {
    hide ThreadsOk, AnchorsOk, DistinctIds, RootIndex, PutComment;
    RootOpens(comments, id);
    var r := RootIndex(comments, id);
    ResolveReplays(comments, r, resolved, now);
    ResolveKeepsThreads(diffs, comments, r, resolved, now);
    ResolveKeepsIds(comments, r, resolved, now);
  }

  lemma ResolveKeepsIds(comments: seq<Comment>, r: nat, resolved: bool, now: nat)
    requires r < |comments|
    ensures CommentIds(ResolveThread(comments, r, resolved, now)) == CommentIds(comments)
  {
    SameIds(ResolveThread(comments, r, resolved, now), comments);
  }

  lemma {:induction false} IndexById(a: seq<Comment>, b: seq<Comment>, id: string)
    requires CommentIds(a) == CommentIds(b)
    ensures CommentIndex(a, id) == CommentIndex(b, id)
  {
    assert |a| == |b|;
    if |a| > 0 {
      assert a[0].id == CommentIds(a)[0] == b[0].id;
      assert CommentIds(a[1..]) == CommentIds(a)[1..];
      assert CommentIds(b[1..]) == CommentIds(b)[1..];
      IndexById(a[1..], b[1..], id);
    }
  }

  lemma StillThere(s: State, i: nat, comments: seq<Comment>, id: string)
    requires i < |s.groups| && GroupIndex(s.groups, s.groups[i].name) == i
    requires CommentIds(comments) == CommentIds(s.groups[i].comments)
    requires CommentIndex(s.groups[i].comments, id) < |s.groups[i].comments|
    ensures HasComment(WithComments(s, i, comments), s.groups[i].name, id)
    ensures GroupIndex(WithComments(s, i, comments).groups, s.groups[i].name) == i
    ensures CommentIndex(comments, id) == CommentIndex(s.groups[i].comments, id)
  {
    IndexById(comments, s.groups[i].comments, id);
    assert |CommentIds(comments)| == |comments|;
    SameName(s.groups, i, s.groups[i].(comments := comments), s.groups[i].name);
  }

  lemma {:induction false} SameName(groups: seq<Group>, i: nat, g: Group, name: string)
    requires i < |groups| && g.name == groups[i].name
    ensures GroupIndex(groups[i := g], name) == GroupIndex(groups, name)
  {
    if i > 0 {
      assert groups[i := g][1..] == groups[1..][i - 1 := g];
      SameName(groups[1..], i - 1, g, name);
    } else {
      assert groups[i := g][1..] == groups[1..];
    }
  }

  /** The comment of that id as it now stands. */
  function CommentNow(s: State, group: string, id: string): Comment
    requires HasComment(s, group, id)
  {
    var comments := s.groups[GroupIndex(s.groups, group)].comments;
    comments[CommentIndex(comments, id)]
  }

  function EditedComment(s: State, group: string, id: string, p: Patch, now: nat): Comment
    requires HasComment(s, group, id)
  {
    var comments := s.groups[GroupIndex(s.groups, group)].comments;
    Edited(comments[CommentIndex(comments, id)], p.body, p.question, now)
  }

  function Edit(s: State, group: string, id: string, p: Patch, now: nat): State
    requires HasComment(s, group, id)
  {
    var i := GroupIndex(s.groups, group);
    var comments := s.groups[i].comments;
    WithComments(s, i, comments[CommentIndex(comments, id) := EditedComment(s, group, id, p, now)])
  }

  lemma EditKeeps(s: State, group: string, id: string, p: Patch, now: nat)
    requires Inv(s) && HasComment(s, group, id)
    ensures Inv(Edit(s, group, id, p, now))
    ensures Replays(s, CommentRecord(group, EditedComment(s, group, id, p, now)), Edit(s, group, id, p, now))
  {
    var i := GroupIndex(s.groups, group);
    var was := s.groups[i];
    GroupFacts(s, i);
    hide Inv, GroupIndex;
    var j := CommentIndex(was.comments, id);
    var c := EditedComment(s, group, id, p, now);
    var after := was.comments[j := c];
    EditReplays(was.comments, j, p.body, p.question, now);
    EditKeepsThreads(was.diffs, was.comments, j, p.body, p.question, now);
    SameIds(after, was.comments);
    hide Edited, PutComment, ThreadsOk, AnchorsOk, CommentIndex;
    CommentsKeepInv(s, i, after);
    PutReplays(s, group, c, WithComments(s, i, after));
  }

  /** The edited comment is where it was. */
  lemma EditStays(s: State, group: string, id: string, p: Patch, now: nat)
    requires HasComment(s, group, id)
    ensures var i := GroupIndex(s.groups, group);
            var j := CommentIndex(s.groups[i].comments, id);
            var after := Edit(s, group, id, p, now);
            && HasComment(after, group, id)
            && i < |after.groups| && j < |after.groups[i].comments|
            && CommentNow(after, group, id) == after.groups[i].comments[j] == EditedComment(s, group, id, p, now)
  {
    hide GroupIndex, CommentIndex;
    var i := GroupIndex(s.groups, group);
    var was := s.groups[i].comments;
    var after := was[CommentIndex(was, id) := EditedComment(s, group, id, p, now)];
    SameIds(after, was);
    StillThere(s, i, after, id);
  }

  /** A resolution that edits nothing is done in one record. */
  predicate OnlyResolves(c: Comment, p: Patch) {
    p.resolved.Some? && p.body.None? && (p.question.None? || c.IsReply())
  }

  /** UpdateComment: the thread first, then the comment itself. */
  function UpdateComment(s: State, group: string, id: string, p: Patch, now: nat): State
    requires Inv(s)
  {
    if !HasComment(s, group, id) then s
    else
      var mid := AfterResolve(s, group, id, p, now);
      if OnlyResolves(CommentNow(mid, group, id), p) then mid else Edit(mid, group, id, p, now)
  }

  function AfterResolve(s: State, group: string, id: string, p: Patch, now: nat): (mid: State)
    requires Inv(s) && HasComment(s, group, id)
    ensures Inv(mid) && HasComment(mid, group, id)
  {
    if p.resolved.Some? then
      ResolveKeeps(s, group, id, p.resolved.value, now);
      Resolve(s, group, id, p.resolved.value, now)
    else s
  }

  // ----- DeleteComment -----

  function DeleteComment(s: State, group: string, id: string): State {
    if !HasComment(s, group, id) then s
    else
      var i := GroupIndex(s.groups, group);
      var comments := s.groups[i].comments;
      WithComments(s, i, WithoutThread(comments, comments[CommentIndex(comments, id)]))
  }

  /** The ids of the comments that go. */
  function DeletedIds(s: State, group: string, id: string): seq<string>
    requires HasComment(s, group, id)
  {
    var comments := s.groups[GroupIndex(s.groups, group)].comments;
    GoneIds(comments, comments[CommentIndex(comments, id)])
  }

  function DelCommentsRecord(group: string, ids: seq<string>): Record {
    BLANK_RECORD.(op := OpDelComments, group := group, ids := ids)
  }

  /** Dropping comments by id replays from the ids alone. */
  lemma DropReplays(s: State, group: string, gone: seq<string>)
    requires var i := GroupIndex(s.groups, group);
             Inv(s) && i < |s.groups| && TakesReplies(s.groups[i].comments, gone)
    ensures var i := GroupIndex(s.groups, group);
            var after := WithComments(s, i, DropComments(s.groups[i].comments, gone));
            Inv(after) && Replays(s, DelCommentsRecord(group, gone), after)
  {
    hide Inv, GroupIndex, DropComments, TakesReplies, Replays;
    DropKeepsInv(s, GroupIndex(s.groups, group), gone);
    DelCommentsReplays(s, group, gone);
  }

  lemma DropKeepsInv(s: State, i: nat, gone: seq<string>)
    requires Inv(s) && i < |s.groups| && TakesReplies(s.groups[i].comments, gone)
    ensures Inv(WithComments(s, i, DropComments(s.groups[i].comments, gone)))
  {
    var was := s.groups[i];
    GroupFacts(s, i);
    hide Inv, DropComments, ThreadsOk, AnchorsOk, TakesReplies;
    DropKeepsThreads(was.diffs, was.comments, gone);
    DropCommentsIds(was.comments, gone);
    CommentsKeepInv(s, i, DropComments(was.comments, gone));
  }

  lemma DelCommentsReplays(s: State, group: string, gone: seq<string>)
    requires GroupIndex(s.groups, group) < |s.groups|
    ensures var i := GroupIndex(s.groups, group);
            Replays(s, DelCommentsRecord(group, gone), WithComments(s, i, DropComments(s.groups[i].comments, gone)))
  {
    hide GroupIndex, DropComments;
  }

  lemma DeleteCommentKeeps(s: State, group: string, id: string)
    requires Inv(s)
    ensures Inv(DeleteComment(s, group, id))
    ensures HasComment(s, group, id) ==>
              Replays(s, DelCommentsRecord(group, DeletedIds(s, group, id)), DeleteComment(s, group, id))
  {
    if HasComment(s, group, id) {
      var i := GroupIndex(s.groups, group);
      var comments := s.groups[i].comments;
      GroupFacts(s, i);
      hide Inv, GroupIndex, DropComments, WithoutThread, Replays;
      var target := comments[CommentIndex(comments, id)];
      DeleteReplays(comments, comments, target);
      GoneTakesReplies(comments, target);
      DropReplays(s, group, DeletedIds(s, group, id));
    }
  }

  // ----- ClearComments -----

  /** The ids of the threads that are cleared, replies and all. */
  function ClearedSet(threads: seq<Threads.Thread>, resolvedOnly: bool): set<string> {
    if |threads| == 0 then {}
    else
      var rest := ClearedSet(threads[1..], resolvedOnly);
      if resolvedOnly && !threads[0].root.resolved then rest
      else ThreadIds(threads[0]) + rest
  }

  function ThreadIds(t: Threads.Thread): set<string> {
    {t.root.id} + (set c | c in t.replies :: c.id)
  }

  function CountCleared(threads: seq<Threads.Thread>, resolvedOnly: bool): nat {
    if |threads| == 0 then 0
    else (if resolvedOnly && !threads[0].root.resolved then 0 else 1) + CountCleared(threads[1..], resolvedOnly)
  }

  function KeptBy(comments: seq<Comment>, gone: set<string>): seq<Comment> {
    if |comments| == 0 then []
    else if comments[0].id in gone then KeptBy(comments[1..], gone)
    else [comments[0]] + KeptBy(comments[1..], gone)
  }

  function GoneBy(comments: seq<Comment>, gone: set<string>): seq<string> {
    if |comments| == 0 then []
    else if comments[0].id in gone then [comments[0].id] + GoneBy(comments[1..], gone)
    else GoneBy(comments[1..], gone)
  }

  lemma {:induction false} GoneByAre(comments: seq<Comment>, gone: set<string>)
    ensures forall x :: x in GoneBy(comments, gone) ==> x in gone
    ensures forall c :: c in comments && c.id in gone ==> c.id in GoneBy(comments, gone)
  {
    if |comments| > 0 {
      GoneByAre(comments[1..], gone);
      assert comments == [comments[0]] + comments[1..];
    }
  }

  lemma {:induction false} KeptByDrops(comments: seq<Comment>, gone: set<string>, ids: seq<string>)
    requires forall x :: x in ids ==> x in gone
    requires forall c :: c in comments && c.id in gone ==> c.id in ids
    ensures KeptBy(comments, gone) == DropComments(comments, ids)
  {
    if |comments| > 0 {
      assert comments == [comments[0]] + comments[1..];
      KeptByDrops(comments[1..], gone, ids);
    }
  }

  lemma {:induction false} ClearedFrom(threads: seq<Threads.Thread>, resolvedOnly: bool, id: string) returns (t: Threads.Thread)
    requires id in ClearedSet(threads, resolvedOnly)
    ensures t in threads && (resolvedOnly ==> t.root.resolved) && id in ThreadIds(t)
  {
    if !(resolvedOnly && !threads[0].root.resolved) && id in ThreadIds(threads[0]) {
      t := threads[0];
    } else {
      t := ClearedFrom(threads[1..], resolvedOnly, id);
    }
  }

  lemma {:induction false} ClearedHas(threads: seq<Threads.Thread>, resolvedOnly: bool, t: Threads.Thread)
    requires t in threads && (resolvedOnly ==> t.root.resolved)
    ensures ThreadIds(t) <= ClearedSet(threads, resolvedOnly)
  {
    if t != threads[0] {
      assert threads == [threads[0]] + threads[1..];
      ClearedHas(threads[1..], resolvedOnly, t);
    }
  }

  lemma {:induction false} ThreadOf(threads: seq<Threads.Thread>, c: Comment) returns (t: Threads.Thread)
    requires c in Threads.All(threads)
    ensures t in threads && c in Threads.Whole(t)
  {
    if c in Threads.Whole(threads[0]) {
      t := threads[0];
    } else {
      t := ThreadOf(threads[1..], c);
    }
  }

  lemma {:induction false} WholeWithin(threads: seq<Threads.Thread>, t: Threads.Thread)
    requires t in threads
    ensures Threads.Whole(t) <= Threads.All(threads)
  {
    hide Threads.Whole;
    if t != threads[0] {
      assert threads == [threads[0]] + threads[1..];
      WholeWithin(threads[1..], t);
    }
  }

  /** A thread is in one state: each comment of it carries the state of its root. */
  lemma OneState(comments: seq<Comment>, t: Threads.Thread, c: Comment)
    requires ThreadsOk(comments) && DistinctIds(comments)
    requires t in Threads.ThreadsOf(comments) && c in Threads.Whole(t)
    ensures c in comments && c.resolved == t.root.resolved
  {
    var threads := Threads.ThreadsOf(comments);
    Threads.ThreadsConserve(comments);
    Threads.ThreadsGather(comments);
    hide Threads.ThreadsOf, Threads.All;
    WholeWithin(threads, t);
    assert c in Threads.All(threads) && t.root in Threads.Whole(t) && t.root in Threads.All(threads);
    if c != t.root {
      assert Threads.Gathered(t, comments) && c in t.replies;
      assert AnswersThread(comments, c);
      var root :| root in comments && Opens(root, c);
      SameComment(comments, root, t.root);
    }
  }

  /** ClearComments takes every comment, or exactly the resolved ones. */
  lemma ClearsByState(comments: seq<Comment>, resolvedOnly: bool, c: Comment)
    requires ThreadsOk(comments) && DistinctIds(comments) && c in comments
    ensures c.id in ClearedSet(Threads.ThreadsOf(comments), resolvedOnly) <==> (resolvedOnly ==> c.resolved)
  {
    var threads := Threads.ThreadsOf(comments);
    Threads.ThreadsConserve(comments);
    hide Threads.ThreadsOf, Threads.All;
    assert c in multiset(comments);
    var t := ThreadOf(threads, c);
    OneState(comments, t, c);
    if resolvedOnly ==> c.resolved {
      ClearedHas(threads, resolvedOnly, t);
    }
    if c.id in ClearedSet(threads, resolvedOnly) {
      var u := ClearedFrom(threads, resolvedOnly, c.id);
      var x := MemberOf(u, c.id);
      OneState(comments, u, x);
      SameComment(comments, x, c);
    }
  }

  lemma MemberOf(t: Threads.Thread, id: string) returns (c: Comment)
    requires id in ThreadIds(t)
    ensures c in Threads.Whole(t) && c.id == id
  {
    if id == t.root.id {
      c := t.root;
    } else {
      c :| c in t.replies && c.id == id;
    }
  }

  function ClearComments(s: State, group: string, resolvedOnly: bool): State {
    var i := GroupIndex(s.groups, group);
    if i == |s.groups| then s
    else
      var comments := s.groups[i].comments;
      WithComments(s, i, KeptBy(comments, ClearedSet(Threads.ThreadsOf(comments), resolvedOnly)))
  }

  function ThreadsCleared(s: State, group: string, resolvedOnly: bool): nat {
    var i := GroupIndex(s.groups, group);
    if i == |s.groups| then 0 else CountCleared(Threads.ThreadsOf(s.groups[i].comments), resolvedOnly)
  }

  /** The ids of the comments that are cleared, as they are written to the log. */
  function ClearedIds(s: State, group: string, resolvedOnly: bool): seq<string>
    requires GroupIndex(s.groups, group) < |s.groups|
  {
    var comments := s.groups[GroupIndex(s.groups, group)].comments;
    GoneBy(comments, ClearedSet(Threads.ThreadsOf(comments), resolvedOnly))
  }

  lemma ClearCommentsKeeps(s: State, group: string, resolvedOnly: bool)
    requires Inv(s)
    ensures Inv(ClearComments(s, group, resolvedOnly))
    ensures GroupIndex(s.groups, group) < |s.groups| ==>
              Replays(s, DelCommentsRecord(group, ClearedIds(s, group, resolvedOnly)), ClearComments(s, group, resolvedOnly))
  {
    var i := GroupIndex(s.groups, group);
    if i < |s.groups| {
      var comments := s.groups[i].comments;
      var gone := ClearedSet(Threads.ThreadsOf(comments), resolvedOnly);
      GroupFacts(s, i);
      hide Inv, GroupIndex, DropComments, KeptBy, Replays, GoneBy;
      GoneByAre(comments, gone);
      KeptByDrops(comments, gone, GoneBy(comments, gone));
      ClearTakesReplies(comments, resolvedOnly);
      DropReplays(s, group, GoneBy(comments, gone));
    }
  }

  lemma ClearTakesReplies(comments: seq<Comment>, resolvedOnly: bool)
    requires ThreadsOk(comments) && DistinctIds(comments)
    ensures TakesReplies(comments, GoneBy(comments, ClearedSet(Threads.ThreadsOf(comments), resolvedOnly)))
  {
    var gone := ClearedSet(Threads.ThreadsOf(comments), resolvedOnly);
    GoneByAre(comments, gone);
    hide Threads.ThreadsOf, GoneBy, ClearedSet;
    forall c | c in comments && c.IsReply() && c.replyTo in GoneBy(comments, gone)
      ensures c.id in GoneBy(comments, gone)
    {
      assert AnswersThread(comments, c);
      var root :| root in comments && Opens(root, c);
      ClearsByState(comments, resolvedOnly, root);
      ClearsByState(comments, resolvedOnly, c);
    }
  }

  /** A clear that removes no thread changes nothing, so it logs nothing. */
  lemma {:induction false} NothingCleared(threads: seq<Threads.Thread>, resolvedOnly: bool)
    requires CountCleared(threads, resolvedOnly) == 0
    ensures ClearedSet(threads, resolvedOnly) == {}
  {
    if |threads| > 0 {
      NothingCleared(threads[1..], resolvedOnly);
    }
  }

  lemma {:induction false} KeptByNone(comments: seq<Comment>)
    ensures KeptBy(comments, {}) == comments
  {
    if |comments| > 0 {
      KeptByNone(comments[1..]);
    }
  }
}
