/** What each change does to a session, field by field, and what it leaves alone. */
module SessionEffects {
  import opened Prelude
  import opened Session
  import opened SessionIds
  import opened SessionThreads
  import opened SessionOps
  import opened SessionEdits
  import opened Sequences
  import Decimal
  import Threads

  // ----- What stays when some of a list goes -----

  lemma {:induction false} DiffsLeft(diffs: seq<Diff>, gone: seq<string>)
    ensures DropDiffs(diffs, gone) == Filter(diffs, (d: Diff) => d.id !in gone)
  {
    if |diffs| > 0 {
      DiffsLeft(diffs[1..], gone);
    }
  }

  lemma {:induction false} CommentsOnLeft(comments: seq<Comment>, gone: seq<string>)
    ensures DropCommentsOn(comments, gone) == Filter(comments, (c: Comment) => c.anchor.diffId !in gone)
  {
    if |comments| > 0 {
      CommentsOnLeft(comments[1..], gone);
    }
  }

  lemma {:induction false} GroupsLeft(groups: seq<Group>, name: string)
    ensures DropGroup(groups, name) == Filter(groups, (g: Group) => g.name != name)
  {
    if |groups| > 0 {
      GroupsLeft(groups[1..], name);
    }
  }

  /** Every hook goes, or the one with that id; the others stay in their order. */
  lemma {:induction false} HooksLeft(hooks: seq<Hook>, id: string)
    ensures DropHooks(hooks, id) == Filter(hooks, (h: Hook) => id != "" && h.id != id)
  {
    if |hooks| > 0 {
      HooksLeft(hooks[1..], id);
    }
  }

  lemma {:induction false} ThreadLeft(comments: seq<Comment>, target: Comment)
    ensures WithoutThread(comments, target)
         == Filter(comments, (c: Comment) => c.id != target.id && (target.replyTo == "" ==> c.replyTo != target.id))
  {
    if |comments| > 0 {
      ThreadLeft(comments[1..], target);
    }
  }

  lemma {:induction false} KeptByLeft(comments: seq<Comment>, gone: set<string>, keeps: Comment -> bool)
    requires forall c :: c in comments ==> (keeps(c) <==> c.id !in gone)
    ensures KeptBy(comments, gone) == Filter(comments, keeps)
  {
    if |comments| > 0 {
      assert comments == [comments[0]] + comments[1..];
      KeptByLeft(comments[1..], gone, keeps);
    }
  }

  // ----- One group changes -----

  /** Of the groups only the one at i is another, under its name; and the counters are the same. */
  ghost predicate OnlyGroup(s: State, t: State, i: nat) {
    && |t.groups| == |s.groups| && i < |s.groups|
    && (forall k :: 0 <= k < |s.groups| && k != i ==> t.groups[k] == s.groups[k])
    && t.groups[i].name == s.groups[i].name
    && t.ids == s.ids && t.rounds == s.rounds
  }

  /** The group of that name, or an empty one that joins behind the others. */
  ghost function GroupOf(s: State, name: string): Group {
    var i := GroupIndex(s.groups, name);
    if i < |s.groups| then s.groups[i] else Group(name, [], [], Meta(0, "", "", []))
  }

  /** The other groups are as they were, in their places. */
  ghost predicate OthersStay(s: State, t: State, name: string) {
    var i := GroupIndex(s.groups, name);
    && |t.groups| == (if i < |s.groups| then |s.groups| else |s.groups| + 1) && i < |t.groups|
    && forall k :: 0 <= k < |s.groups| && k != i ==> t.groups[k] == s.groups[k]
  }

  /** One counter goes up by one. */
  ghost predicate OneUp(before: Counters, after: Counters, key: string) {
    forall k :: Count(after, k) == Count(before, k) + if k == key then 1 else 0
  }

  // ----- Diffs -----

  /** The diff goes to the end of its group, with its content, under the next id, and with the time and the title it lacks. */
  lemma AddDiffDoes(s: State, group: string, d: Diff, now: nat)
    ensures var t := AddDiff(s, group, d, now);
            var stored := StoredDiff(s, group, d, now);
            var was := GroupOf(s, group);
            && OthersStay(s, t, group) && OneUp(s.ids, t.ids, "d") && OneUp(s.rounds, t.rounds, group)
            && t.groups[GroupIndex(s.groups, group)] == Group(group, was.diffs + [stored], was.comments, was.meta)
            && stored.content == d.content
            && stored.id == "d" + Decimal.Digits(Count(s.ids, "d") + 1)
            && stored.created == (if d.created == 0 then now else d.created)
            && stored.title == (if d.title == "" then "diff " + Decimal.Digits(Count(s.rounds, group) + 1) else d.title)
  {
    hide Decimal.Digits, GroupIndex;
  }

  /** The diffs of that id go, and every comment on them; the rest of the group stays, in its order. */
  lemma DeleteDiffDoes(s: State, group: string, id: string)
    requires HasDiffIn(s, group, id)
    ensures var i := GroupIndex(s.groups, group);
            var t := DeleteDiff(s, group, id);
            && OnlyGroup(s, t, i) && t.groups[i].meta == s.groups[i].meta
            && t.groups[i].diffs == Filter(s.groups[i].diffs, (d: Diff) => d.id != id)
            && t.groups[i].comments == Filter(s.groups[i].comments, (c: Comment) => c.anchor.diffId != id)
  {
    hide GroupIndex;
    var g := s.groups[GroupIndex(s.groups, group)];
    DiffsLeft(g.diffs, [id]);
    CommentsOnLeft(g.comments, [id]);
    SameFilter(g.diffs, (d: Diff) => d.id !in [id], (d: Diff) => d.id != id);
    SameFilter(g.comments, (c: Comment) => c.anchor.diffId !in [id], (c: Comment) => c.anchor.diffId != id);
  }

  // ----- Groups -----

  /** The groups of that name go, with the counter of their rounds; the others stay, in their order. */
  lemma DeleteGroupDoes(s: State, name: string)
    ensures var t := DeleteGroup(s, name);
            && t.groups == Filter(s.groups, (g: Group) => g.name != name) && t.ids == s.ids
            && ((exists g :: g in s.groups && g.name == name) ==> name !in t.rounds)
            && forall other :: other != name ==> Count(t.rounds, other) == Count(s.rounds, other)
  {
    hide GroupIndex;
    GroupsLeft(s.groups, name);
    if GroupIndex(s.groups, name) == |s.groups| {
      FilterAll(s.groups, (g: Group) => g.name != name);
    }
  }

  // ----- Hooks and verdicts -----

  /** A group's verdict, note and hooks change, and nothing else. */
  lemma PutMetaDoes(s: State, group: string, meta: Meta)
    requires GroupIndex(s.groups, group) < |s.groups|
    ensures var i := GroupIndex(s.groups, group);
            var t := PutMeta(s, group, meta);
            OnlyGroup(s, t, i) && t.groups[i] == Group(s.groups[i].name, s.groups[i].diffs, s.groups[i].comments, meta)
  {
    hide GroupIndex;
  }

  /** A hook is new when none of the group does the same; it goes behind the others, under the next id, as it was given. */
  lemma AddHookDoes(s: State, group: string, h: Hook, now: nat)
    ensures var was := GroupOf(s, group);
            var t := AddHook(s, group, h, now);
            var stored := Hook("h" + Decimal.Digits(Count(s.ids, "h") + 1), h.command, h.url, now, h.lastCommandRun, h.lastPost);
            if exists x :: x in was.meta.hooks && x.command == h.command && x.url == h.url then t == s
            else
              && OthersStay(s, t, group) && OneUp(s.ids, t.ids, "h") && t.rounds == s.rounds
              && var meta := was.meta;
                 t.groups[GroupIndex(s.groups, group)]
                 == Group(group, was.diffs, was.comments, Meta(meta.reviewedAt, meta.note, meta.verdict, meta.hooks + [stored]))
  {
    hide Decimal.Digits, GroupIndex;
  }

  /** The hook answered is one of the group's that does the same, as it stands there, or the one just registered. */
  lemma HookIsThere(s: State, group: string, h: Hook, now: nat)
    ensures var i := GroupIndex(s.groups, group);
            var t := AddHook(s, group, h, now);
            var answered := AnsweredHook(s, group, h, now);
            && i < |t.groups| && answered in t.groups[i].meta.hooks
            && answered.command == h.command && answered.url == h.url
  {
    hide GroupIndex, SameHook, NextId, Bump;
    SameHookNeedsGroupOr(s, group, h);
  }

  lemma SameHookNeedsGroupOr(s: State, group: string, h: Hook)
    ensures NewHook(s, group, h) || GroupIndex(s.groups, group) < |s.groups|
  {
  }

  // ----- A comment joins -----

  /** Whom a comment is refused for: no such group, no such comment to answer, no such diff. */
  lemma RefusedFor(s: State, c: Comment, now: nat)
    requires Inv(s)
    ensures var r := CheckComment(s, c, now);
            var g := GroupOf(s, c.group);
            && (r == Refused(UnknownGroup) <==> forall x :: x in s.groups ==> x.name != c.group)
            && (r == Refused(NoSuchComment) <==>
                  (exists x :: x in s.groups && x.name == c.group) && c.replyTo != "" && forall x :: x in g.comments ==> x.id != c.replyTo)
            && (r == Refused(UnknownDiff) <==>
                  (exists x :: x in s.groups && x.name == c.group) && c.replyTo == "" && forall d :: d in g.diffs ==> d.id != c.anchor.diffId)
  {
    hide Inv, NextId, GroupIndex;
    var i := GroupIndex(s.groups, c.group);
    if i < |s.groups| {
      assert s.groups[i] in s.groups;
      if c.replyTo != "" && CommentIndex(s.groups[i].comments, c.replyTo) < |s.groups[i].comments| {
        AnswersIsAnchored(s, i, c.replyTo);
      }
    }
  }

  lemma AnswersIsAnchored(s: State, i: nat, id: string)
    requires Inv(s) && i < |s.groups| && CommentIndex(s.groups[i].comments, id) < |s.groups[i].comments|
    ensures var comments := s.groups[i].comments;
            RootIndex(comments, id) < |comments| && HasDiff(s.groups[i].diffs, comments[RootIndex(comments, id)].anchor.diffId)
  {
    GroupFacts(s, i);
    hide Inv;
    RootOpens(s.groups[i].comments, id);
  }

  /**
   * A comment that is accepted goes behind the others of its group, as it was
   * written, under the next id. A reply is about what the thread is about: it
   * answers the comment that opens it, on its anchor and in its state, and
   * asks nothing.
   */
  lemma AddCommentDoes(s: State, c: Comment, now: nat)
    requires Inv(s) && CheckComment(s, c, now).Added?
    ensures var i := GroupIndex(s.groups, c.group);
            var t := AddComment(s, c, now);
            var stored := CheckComment(s, c, now).comment;
            && OthersStay(s, t, c.group) && i < |s.groups| && OneUp(s.ids, t.ids, "c") && t.rounds == s.rounds
            && t.groups[i] == Group(c.group, s.groups[i].diffs, s.groups[i].comments + [stored], s.groups[i].meta)
            && stored.id == "c" + Decimal.Digits(Count(s.ids, "c") + 1)
            && stored.group == c.group && stored.author == c.author && stored.body == c.body
            && stored.created == now && stored.updated == now
            && (c.replyTo == "" ==>
                  stored.replyTo == "" && stored.anchor == c.anchor && stored.question == c.question && stored.resolved == c.resolved)
            && (c.replyTo != "" ==> !stored.question && JoinsThread(s.groups[i].comments, c.replyTo, stored))
  {
    hide Inv, NextId, GroupIndex;
    NextIdOfComment(s);
    var i := GroupIndex(s.groups, c.group);
    if c.replyTo != "" {
      GroupFactsOf(s, i);
      RootOpens(s.groups[i].comments, c.replyTo);
    }
  }

  /** The reply stands under the comment that opens the thread of the one it names. */
  ghost predicate JoinsThread(comments: seq<Comment>, id: string, reply: Comment) {
    exists named, root ::
      && named in comments && named.id == id
      && root in comments && root.replyTo == "" && root.id == (if named.replyTo == "" then named.id else named.replyTo)
      && reply.replyTo == root.id && reply.anchor == root.anchor && reply.resolved == root.resolved
  }

  lemma NextIdOfComment(s: State)
    ensures NextId(s.ids, COMMENT_PREFIX) == "c" + Decimal.Digits(Count(s.ids, "c") + 1)
  {
  }

  lemma GroupFactsOf(s: State, i: nat)
    requires Inv(s) && i < |s.groups|
    ensures ThreadsOk(s.groups[i].comments) && DistinctIds(s.groups[i].comments)
    ensures forall c :: c in s.groups[i].comments ==> c.id != ""
  {
    GroupFacts(s, i);
  }

  // ----- A comment changes -----

  /** The id of the comment that opens the thread. */
  function ThreadId(c: Comment): string {
    if c.replyTo == "" then c.id else c.replyTo
  }

  /** The comments of a thread that is resolved or reopened: all of them are, and the first carries the time. */
  lemma ResolveThreadDoes(comments: seq<Comment>, id: string, resolved: bool, now: nat)
    requires ThreadsOk(comments) && DistinctIds(comments) && CommentIndex(comments, id) < |comments|
    requires forall c :: c in comments ==> c.id != ""
    ensures var r := RootIndex(comments, id);
            r < |comments|
            && var after := ResolveThread(comments, r, resolved, now);
               var thread := ThreadId(comments[CommentIndex(comments, id)]);
               |after| == |comments|
               && forall m :: 0 <= m < |after| ==>
                    after[m] == if ThreadId(comments[m]) != thread then comments[m]
                                else comments[m].(resolved := resolved, updated := if comments[m].replyTo == "" then now else comments[m].updated)
  {
    RootOpens(comments, id);
    var r := RootIndex(comments, id);
    OneOfThatId(comments, r);
  }

  /** What becomes of each comment of the group when the comment of that id is updated. */
  function Updated(comments: seq<Comment>, id: string, p: Patch, now: nat, m: nat): Comment
    requires m < |comments| && CommentIndex(comments, id) < |comments|
  {
    var asked := comments[CommentIndex(comments, id)];
    var c := comments[m];
    var inThread := p.resolved.Some? && ThreadId(c) == ThreadId(asked);
    var edits := c.id == id && (p.resolved.None? || p.body.Some? || (p.question.Some? && c.replyTo == ""));
    Comment(c.id, c.group, c.anchor, c.author,
            if c.id == id && p.body.Some? then p.body.value else c.body,
            if c.id == id && p.question.Some? && c.replyTo == "" then p.question.value else c.question,
            c.replyTo,
            if inThread then p.resolved.value else c.resolved,
            c.created,
            if edits || (inThread && c.replyTo == "") then now else c.updated)
  }

  /**
   * An update gives the comment the text of the patch, and what it asks when
   * it opens a thread; it gives every comment of its thread the state of the
   * patch. What the patch leaves out stays, and so does everything else of
   * the session.
   */
  lemma UpdateCommentDoes(s: State, group: string, id: string, p: Patch, now: nat)
    requires Inv(s) && HasComment(s, group, id)
    ensures var i := GroupIndex(s.groups, group);
            var t := UpdateComment(s, group, id, p, now);
            && OnlyGroup(s, t, i) && t.groups[i].diffs == s.groups[i].diffs && t.groups[i].meta == s.groups[i].meta
            && |t.groups[i].comments| == |s.groups[i].comments|
            && forall m :: 0 <= m < |s.groups[i].comments| ==> t.groups[i].comments[m] == Updated(s.groups[i].comments, id, p, now, m)
  {
    hide Inv, GroupIndex, CommentIndex, RootIndex, ResolveThread, Edited, ThreadsOk, DistinctIds, Resolved, Updated;
    var i := GroupIndex(s.groups, group);
    var comments := s.groups[i].comments;
    var mid := AfterResolve(s, group, id, p, now);
    AfterResolveDoes(s, group, id, p, now);
    if !OnlyResolves(CommentNow(mid, group, id), p) {
      EditDoes(mid, group, id, p, now);
    }
    forall m | 0 <= m < |comments|
      ensures UpdateComment(s, group, id, p, now).groups[i].comments[m] == Updated(comments, id, p, now, m)
    {
      UpdatedInTwo(s, group, id, p, now, m);
    }
  }

  /** A comment as it is once its thread has the state of the patch. */
  function Resolved(comments: seq<Comment>, id: string, p: Patch, now: nat, m: nat): Comment
    requires m < |comments| && CommentIndex(comments, id) < |comments|
  {
    if p.resolved.Some? && ThreadId(comments[m]) == ThreadId(comments[CommentIndex(comments, id)])
    then comments[m].(resolved := p.resolved.value, updated := if comments[m].replyTo == "" then now else comments[m].updated)
    else comments[m]
  }

  lemma EditDoes(s: State, group: string, id: string, p: Patch, now: nat)
    requires HasComment(s, group, id)
    ensures var i := GroupIndex(s.groups, group);
            var j := CommentIndex(s.groups[i].comments, id);
            var t := Edit(s, group, id, p, now);
            && OnlyGroup(s, t, i) && t.groups[i].diffs == s.groups[i].diffs && t.groups[i].meta == s.groups[i].meta
            && t.groups[i].comments == s.groups[i].comments[j := Edited(s.groups[i].comments[j], p.body, p.question, now)]
  {
    hide GroupIndex, CommentIndex, Edited;
  }

  /** The thread first, then the comment. */
  lemma UpdatedInTwo(s: State, group: string, id: string, p: Patch, now: nat, m: nat)
    requires Inv(s) && HasComment(s, group, id) && m < |s.groups[GroupIndex(s.groups, group)].comments|
    ensures var comments := s.groups[GroupIndex(s.groups, group)].comments;
            var j := CommentIndex(comments, id);
            var c := Resolved(comments, id, p, now, m);
            Updated(comments, id, p, now, m)
            == if m == j && !OnlyResolves(c, p) then Edited(c, p.body, p.question, now) else c
  {
    GroupFactsOf(s, GroupIndex(s.groups, group));
    var comments := s.groups[GroupIndex(s.groups, group)].comments;
    hide Inv, GroupIndex, CommentIndex, ThreadsOk;
    OneOfThatId(comments, CommentIndex(comments, id));
  }

  lemma OneOfThatId(comments: seq<Comment>, j: nat)
    requires DistinctIds(comments) && j < |comments|
    ensures forall m :: 0 <= m < |comments| && comments[m].id == comments[j].id ==> m == j
  {
  }

  lemma AfterResolveDoes(s: State, group: string, id: string, p: Patch, now: nat)
    requires Inv(s) && HasComment(s, group, id)
    ensures var i := GroupIndex(s.groups, group);
            var mid := AfterResolve(s, group, id, p, now);
            var comments := s.groups[i].comments;
            && GroupIndex(mid.groups, group) == i && OnlyGroup(s, mid, i)
            && mid.groups[i].diffs == s.groups[i].diffs && mid.groups[i].meta == s.groups[i].meta
            && CommentIndex(mid.groups[i].comments, id) == CommentIndex(comments, id)
            && |mid.groups[i].comments| == |comments|
            && forall m :: 0 <= m < |comments| ==> mid.groups[i].comments[m] == Resolved(comments, id, p, now, m)
  {
    hide Inv, GroupIndex, CommentIndex, RootIndex, ResolveThread;
    var i := GroupIndex(s.groups, group);
    var comments := s.groups[i].comments;
    if p.resolved.Some? {
      GroupFactsOf(s, i);
      ResolveThreadDoes(comments, id, p.resolved.value, now);
      var r := RootIndex(comments, id);
      var after := ResolveThread(comments, r, p.resolved.value, now);
      ResolveKeepsIds(comments, r, p.resolved.value, now);
      StillThere(s, i, after, id);
    }
  }

  /** The comment that is answered: its text, its question and its state are those of the patch, or as they were. */
  lemma UpdateAnswers(s: State, group: string, id: string, p: Patch, now: nat)
    requires Inv(s) && HasComment(s, group, id)
    ensures HasComment(UpdateComment(s, group, id, p, now), group, id)
    ensures var was, next := CommentNow(s, group, id), CommentNow(UpdateComment(s, group, id, p, now), group, id);
            && next.body == (if p.body.Some? then p.body.value else was.body)
            && next.question == (if p.question.Some? && was.replyTo == "" then p.question.value else was.question)
            && next.resolved == (if p.resolved.Some? then p.resolved.value else was.resolved)
            // Resolving a reply, and nothing else of it, is news of the comment that opens the thread.
            && next.updated == (if p.resolved.Some? && p.body.None? && was.replyTo != "" then was.updated else now)
            && next.id == was.id == id && next.group == was.group && next.anchor == was.anchor && next.author == was.author
            && next.replyTo == was.replyTo && next.created == was.created
  {
    hide Inv, GroupIndex, CommentIndex, UpdateComment;
    var i := GroupIndex(s.groups, group);
    var before := s.groups[i].comments;
    var t := UpdateComment(s, group, id, p, now);
    UpdateCommentDoes(s, group, id, p, now);
    var after := t.groups[i].comments;
    SameIds(after, before);
    StillThere(s, i, after, id);
    assert t.groups == WithComments(s, i, after).groups;
  }

  // ----- Comments go -----

  /** The comment goes, and with it the replies to it when it opens a thread; the others stay, in their order. */
  lemma DeleteCommentDoes(s: State, group: string, id: string)
    requires HasComment(s, group, id)
    ensures var i := GroupIndex(s.groups, group);
            var t := DeleteComment(s, group, id);
            var opens := CommentNow(s, group, id).replyTo == "";
            && OnlyGroup(s, t, i) && t.groups[i].diffs == s.groups[i].diffs && t.groups[i].meta == s.groups[i].meta
            && t.groups[i].comments == Filter(s.groups[i].comments, (c: Comment) => c.id != id && (opens ==> c.replyTo != id))
  {
    hide GroupIndex, CommentIndex, WithoutThread;
    var comments := s.groups[GroupIndex(s.groups, group)].comments;
    var target := CommentNow(s, group, id);
    var opens := target.replyTo == "";
    ThreadLeft(comments, target);
    SameFilter(comments, (c: Comment) => c.id != target.id && (target.replyTo == "" ==> c.replyTo != target.id),
               (c: Comment) => c.id != id && (opens ==> c.replyTo != id));
  }

  /** Every comment goes, or the resolved ones; the others stay, in their order. As many threads went as were opened by what went. */
  lemma ClearCommentsDoes(s: State, group: string, resolvedOnly: bool)
    requires Inv(s) && GroupIndex(s.groups, group) < |s.groups|
    ensures var i := GroupIndex(s.groups, group);
            var t := ClearComments(s, group, resolvedOnly);
            && OnlyGroup(s, t, i) && t.groups[i].diffs == s.groups[i].diffs && t.groups[i].meta == s.groups[i].meta
            && t.groups[i].comments == Filter(s.groups[i].comments, (c: Comment) => resolvedOnly && !c.resolved)
            && ThreadsCleared(s, group, resolvedOnly)
            == |Filter(s.groups[i].comments, (c: Comment) => c.replyTo == "" && (resolvedOnly ==> c.resolved))|
  {
    hide Inv, GroupIndex, KeptBy, Threads.ThreadsOf, ClearedSet, CountCleared;
    var i := GroupIndex(s.groups, group);
    var comments := s.groups[i].comments;
    GroupFactsOf(s, i);
    forall c | c in comments
      ensures c.id in ClearedSet(Threads.ThreadsOf(comments), resolvedOnly) <==> (resolvedOnly ==> c.resolved)
    {
      ClearsByState(comments, resolvedOnly, c);
    }
    KeptByLeft(comments, ClearedSet(Threads.ThreadsOf(comments), resolvedOnly), (c: Comment) => resolvedOnly && !c.resolved);
    ThreadsClearedAre(comments, resolvedOnly);
  }

  lemma ThreadsClearedAre(comments: seq<Comment>, resolvedOnly: bool)
    requires ThreadsOk(comments)
    ensures CountCleared(Threads.ThreadsOf(comments), resolvedOnly)
         == |Filter(comments, (c: Comment) => c.replyTo == "" && (resolvedOnly ==> c.resolved))|
  {
    hide Threads.ThreadsOf, CountCleared;
    var roots := Threads.Roots(comments);
    Threads.ThreadsGather(comments);
    Threads.RepliesHaveRoots(comments);
    CountClearedHeads(Threads.ThreadsOf(comments), Threads.Heads(comments, roots), resolvedOnly);
    ClearedHeads(comments, roots, resolvedOnly);
  }

  lemma {:induction false} CountClearedHeads(threads: seq<Threads.Thread>, heads: seq<Comment>, resolvedOnly: bool)
    requires |threads| == |heads| && Threads.RootsMatch(threads, heads)
    ensures CountCleared(threads, resolvedOnly) == |Filter(heads, (c: Comment) => resolvedOnly ==> c.resolved)|
  {
    if |threads| > 0 {
      CountClearedHeads(threads[1..], heads[1..], resolvedOnly);
    }
  }

  lemma {:induction false} ClearedHeads(comments: seq<Comment>, roots: set<string>, resolvedOnly: bool)
    requires forall c :: c in comments && c.IsReply() ==> c.replyTo in roots
    ensures Filter(Threads.Heads(comments, roots), (c: Comment) => resolvedOnly ==> c.resolved)
         == Filter(comments, (c: Comment) => c.replyTo == "" && (resolvedOnly ==> c.resolved))
  {
    if |comments| > 0 {
      assert comments == [comments[0]] + comments[1..];
      ClearedHeads(comments[1..], roots, resolvedOnly);
      if !comments[0].IsReply() {
        assert ([comments[0]] + Threads.Heads(comments[1..], roots))[1..] == Threads.Heads(comments[1..], roots);
      }
    }
  }
}
