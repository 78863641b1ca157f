/** The names of the groups of a session: only a diff or a hook brings a new one. */
module SessionNames {
  import opened Session
  import opened Recovery
  import opened SessionEdits
  import opened SessionThreads
  import Ops = SessionOps
  import Threads

  lemma NamedUpdate(groups: seq<Group>, i: nat, g: Group)
    requires i < |groups| && g.name == groups[i].name && Named(groups)
    ensures Named(groups[i := g])
  {
    hide ValidName;
    var now := groups[i := g];
    forall x | x in now
      ensures ValidName(x.name)
    {
      var j :| 0 <= j < |now| && now[j] == x;
      assert x.name == groups[j].name;
    }
  }

  lemma NamedWithGroup(groups: seq<Group>, name: string)
    requires Named(groups) && ValidName(name)
    ensures Named(WithGroup(groups, name))
  {
    hide ValidName;
  }

  lemma AddDiffNamed(s: State, group: string, d: Diff, now: nat)
    requires Named(s.groups) && ValidName(group)
    ensures Named(Ops.AddDiff(s, group, d, now).groups)
  {
    hide Named, Ops.StoredDiff, WithGroup;
    var i := GroupIndex(s.groups, group);
    var all := WithGroup(s.groups, group);
    NamedWithGroup(s.groups, group);
    NamedUpdate(all, i, all[i].(diffs := all[i].diffs + [Ops.StoredDiff(s, group, d, now)]));
  }

  lemma PutMetaNamed(s: State, group: string, meta: Meta)
    requires Named(s.groups) && GroupIndex(s.groups, group) < |s.groups|
    ensures Named(Ops.PutMeta(s, group, meta).groups)
  {
    hide Named;
    var i := GroupIndex(s.groups, group);
    NamedUpdate(s.groups, i, s.groups[i].(meta := meta));
  }

  lemma DeleteDiffNamed(s: State, group: string, id: string)
    requires Named(s.groups)
    ensures Named(Ops.DeleteDiff(s, group, id).groups)
  {
    hide Named;
    var i := GroupIndex(s.groups, group);
    if i < |s.groups| {
      var g := s.groups[i];
      NamedUpdate(s.groups, i, g.(diffs := DropDiffs(g.diffs, [id]), comments := DropCommentsOn(g.comments, [id])));
    }
  }

  lemma DeleteGroupNamed(s: State, name: string)
    requires Named(s.groups)
    ensures Named(Ops.DeleteGroup(s, name).groups)
  {
    hide ValidName;
    Ops.KeptGroups(s.groups, name);
  }

  lemma CommentsNamed(s: State, i: nat, comments: seq<Comment>)
    requires Named(s.groups) && i < |s.groups|
    ensures Named(WithComments(s, i, comments).groups)
  {
    hide Named;
    NamedUpdate(s.groups, i, s.groups[i].(comments := comments));
  }

  lemma AddCommentNamed(s: State, c: Comment, now: nat)
    requires Named(s.groups)
    ensures Named(Ops.AddComment(s, c, now).groups)
  {
    hide Named;
    if Ops.CheckComment(s, c, now).Added? {
      var i := GroupIndex(s.groups, c.group);
      CommentsNamed(s, i, s.groups[i].comments + [Ops.CheckComment(s, c, now).comment]);
    }
  }

  lemma ResolveNamed(s: State, group: string, id: string, resolved: bool, now: nat)
    requires Named(s.groups) && HasComment(s, group, id)
    ensures Named(Resolve(s, group, id, resolved, now).groups)
  {
    hide Named;
    var i := GroupIndex(s.groups, group);
    var comments := s.groups[i].comments;
    var r := RootIndex(comments, id);
    if r < |comments| {
      CommentsNamed(s, i, ResolveThread(comments, r, resolved, now));
    }
  }

  lemma EditNamed(s: State, group: string, id: string, p: Patch, now: nat)
    requires Named(s.groups) && HasComment(s, group, id)
    ensures Named(Edit(s, group, id, p, now).groups)
  {
    hide Named, EditedComment;
    var i := GroupIndex(s.groups, group);
    var comments := s.groups[i].comments;
    CommentsNamed(s, i, comments[CommentIndex(comments, id) := EditedComment(s, group, id, p, now)]);
  }

  lemma DeleteCommentNamed(s: State, group: string, id: string)
    requires Named(s.groups)
    ensures Named(DeleteComment(s, group, id).groups)
  {
    hide Named;
    if HasComment(s, group, id) {
      var i := GroupIndex(s.groups, group);
      var comments := s.groups[i].comments;
      CommentsNamed(s, i, WithoutThread(comments, comments[CommentIndex(comments, id)]));
    }
  }

  lemma ClearCommentsNamed(s: State, group: string, resolvedOnly: bool)
    requires Named(s.groups)
    ensures Named(ClearComments(s, group, resolvedOnly).groups)
  {
    hide Named, KeptBy, ClearedSet;
    var i := GroupIndex(s.groups, group);
    if i < |s.groups| {
      var comments := s.groups[i].comments;
      CommentsNamed(s, i, KeptBy(comments, ClearedSet(Threads.ThreadsOf(comments), resolvedOnly)));
    }
  }
}
