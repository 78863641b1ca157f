/** The loops the store's mutators are written with. */
module SessionLoops {
  import opened Session
  import opened SessionThreads
  import opened SessionOps
  import opened SessionEdits
  import Threads

  method FindGroup(groups: seq<Group>, name: string) returns (i: nat)
    ensures i == GroupIndex(groups, name)
  {
    i := 0;
    while i < |groups|
      invariant i <= |groups|
      invariant GroupIndex(groups, name) == i + GroupIndex(groups[i..], name)
    {
      if groups[i].name == name {
        return;
      }
      assert groups[i..][1..] == groups[i + 1..];
      i := i + 1;
    }
  }

  method FindComment(comments: seq<Comment>, id: string) returns (i: nat)
    ensures i == CommentIndex(comments, id)
  {
    i := 0;
    while i < |comments|
      invariant i <= |comments|
      invariant CommentIndex(comments, id) == i + CommentIndex(comments[i..], id)
    {
      if comments[i].id == id {
        return;
      }
      assert comments[i..][1..] == comments[i + 1..];
      i := i + 1;
    }
  }

  method ThreadRoot(comments: seq<Comment>, id: string) returns (r: nat)
    ensures r == RootIndex(comments, id)
  {
    var i := FindComment(comments, id);
    if i == |comments| || !comments[i].IsReply() {
      return i;
    }
    r := FindComment(comments, comments[i].replyTo);
    if r == |comments| {
      return i;
    }
  }

  method FindDiff(diffs: seq<Diff>, id: string) returns (found: bool)
    ensures found == HasDiff(diffs, id)
  {
    for i := 0 to |diffs|
      invariant forall j :: 0 <= j < i ==> diffs[j].id != id
    {
      if diffs[i].id == id {
        return true;
      }
    }
    return false;
  }

  method WithoutDiff(diffs: seq<Diff>, id: string) returns (kept: seq<Diff>, found: bool)
    ensures kept == DropDiffs(diffs, [id])
    ensures found == HasDiff(diffs, id)
  {
    kept, found := [], false;
    for i := 0 to |diffs|
      invariant DropDiffs(diffs, [id]) == kept + DropDiffs(diffs[i..], [id])
      invariant found == exists j :: 0 <= j < i && diffs[j].id == id
    {
      assert diffs[i..][1..] == diffs[i + 1..];
      if diffs[i].id == id {
        found := true;
      } else {
        kept := kept + [diffs[i]];
      }
    }
  }

  method WithoutDiffComments(comments: seq<Comment>, id: string) returns (kept: seq<Comment>)
    ensures kept == DropCommentsOn(comments, [id])
  {
    kept := [];
    for i := 0 to |comments|
      invariant DropCommentsOn(comments, [id]) == kept + DropCommentsOn(comments[i..], [id])
    {
      assert comments[i..][1..] == comments[i + 1..];
      if comments[i].anchor.diffId != id {
        kept := kept + [comments[i]];
      }
    }
  }

  method WithoutGroup(groups: seq<Group>, name: string) returns (kept: seq<Group>, found: bool)
    ensures kept == DropGroup(groups, name)
    ensures found == (GroupIndex(groups, name) < |groups|)
  {
    kept, found := [], false;
    for i := 0 to |groups|
      invariant DropGroup(groups, name) == kept + DropGroup(groups[i..], name)
      invariant found == exists j :: 0 <= j < i && groups[j].name == name
    {
      assert groups[i..][1..] == groups[i + 1..];
      if groups[i].name == name {
        found := true;
      } else {
        kept := kept + [groups[i]];
      }
    }
  }

  method FindSameHook(hooks: seq<Hook>, h: Hook) returns (i: nat)
    ensures i == SameHook(hooks, h)
  {
    i := 0;
    while i < |hooks|
      invariant i <= |hooks|
      invariant SameHook(hooks, h) == i + SameHook(hooks[i..], h)
    {
      if hooks[i].command == h.command && hooks[i].url == h.url {
        return;
      }
      assert hooks[i..][1..] == hooks[i + 1..];
      i := i + 1;
    }
  }

  method FindHook(hooks: seq<Hook>, id: string) returns (i: nat)
    ensures i == HookIndex(hooks, id)
  {
    i := 0;
    while i < |hooks|
      invariant i <= |hooks|
      invariant HookIndex(hooks, id) == i + HookIndex(hooks[i..], id)
    {
      if hooks[i].id == id {
        return;
      }
      assert hooks[i..][1..] == hooks[i + 1..];
      i := i + 1;
    }
  }

  method WithoutHooks(hooks: seq<Hook>, id: string) returns (kept: seq<Hook>, removed: nat)
    ensures kept == DropHooks(hooks, id) && removed == |hooks| - |kept|
  {
    kept, removed := [], 0;
    for i := 0 to |hooks|
      invariant DropHooks(hooks, id) == kept + DropHooks(hooks[i..], id)
      invariant removed + |kept| == i
    {
      assert hooks[i..][1..] == hooks[i + 1..];
      if id == "" || hooks[i].id == id {
        removed := removed + 1;
      } else {
        kept := kept + [hooks[i]];
      }
    }
  }

  method WithoutComment(comments: seq<Comment>, target: Comment) returns (kept: seq<Comment>, gone: seq<string>)
    ensures kept == WithoutThread(comments, target) && gone == GoneIds(comments, target)
  {
    kept, gone := [], [];
    for i := 0 to |comments|
      invariant WithoutThread(comments, target) == kept + WithoutThread(comments[i..], target)
      invariant GoneIds(comments, target) == gone + GoneIds(comments[i..], target)
    {
      var c := comments[i];
      assert comments[i..][1..] == comments[i + 1..];
      if c.id == target.id || (!target.IsReply() && c.replyTo == target.id) {
        gone := gone + [c.id];
      } else {
        kept := kept + [c];
      }
    }
  }

  /** The threads that are cleared: how many, and every id in them. */
  method ClearedThreads(comments: seq<Comment>, resolvedOnly: bool) returns (gone: set<string>, removed: nat)
    ensures gone == ClearedSet(Threads.ThreadsOf(comments), resolvedOnly)
    ensures removed == CountCleared(Threads.ThreadsOf(comments), resolvedOnly)
  {
    hide Threads.ThreadsOf, ThreadIds;
    var threads := Threads.Threads(comments);
    gone, removed := {}, 0;
    for i := 0 to |threads|
      invariant ClearedSet(threads, resolvedOnly) == gone + ClearedSet(threads[i..], resolvedOnly)
      invariant CountCleared(threads, resolvedOnly) == removed + CountCleared(threads[i..], resolvedOnly)
    {
      var t := threads[i];
      assert threads[i..][1..] == threads[i + 1..];
      if !(resolvedOnly && !t.root.resolved) {
        removed := removed + 1;
        var ids := IdsOfThread(t);
        gone := gone + ids;
      }
    }
  }

  method IdsOfThread(t: Threads.Thread) returns (ids: set<string>)
    ensures ids == ThreadIds(t)
  {
    ids := {t.root.id};
    for i := 0 to |t.replies|
      invariant ids == {t.root.id} + set c | c in t.replies[..i] :: c.id
    {
      assert t.replies[..i + 1] == t.replies[..i] + [t.replies[i]];
      ids := ids + {t.replies[i].id};
    }
    assert t.replies[..|t.replies|] == t.replies;
  }

  method WithoutIds(comments: seq<Comment>, gone: set<string>) returns (kept: seq<Comment>, ids: seq<string>)
    ensures kept == KeptBy(comments, gone) && ids == GoneBy(comments, gone)
  {
    kept, ids := [], [];
    for i := 0 to |comments|
      invariant KeptBy(comments, gone) == kept + KeptBy(comments[i..], gone)
      invariant GoneBy(comments, gone) == ids + GoneBy(comments[i..], gone)
    {
      assert comments[i..][1..] == comments[i + 1..];
      if comments[i].id in gone {
        ids := ids + [comments[i].id];
      } else {
        kept := kept + [comments[i]];
      }
    }
  }

  method NamesOf(groups: seq<Group>) returns (names: seq<string>)
    ensures |names| == |groups| && forall i :: 0 <= i < |groups| ==> names[i] == groups[i].name
  {
    names := [];
    for i := 0 to |groups|
      invariant |names| == i && forall j :: 0 <= j < i ==> names[j] == groups[j].name
    {
      names := names + [groups[i].name];
    }
  }

  /** setThreadResolved. */
  method SetThreadResolved(comments: seq<Comment>, root: Comment) returns (r: seq<Comment>)
    ensures r == CarryResolved(comments, root)
  {
    r := comments;
    for i := 0 to |r|
      invariant |r| == |comments|
      invariant forall j :: 0 <= j < i ==> r[j] == CarryResolved(comments, root)[j]
      invariant forall j :: i <= j < |r| ==> r[j] == comments[j]
    {
      if r[i].replyTo == root.id {
        r := r[i := r[i].(resolved := root.resolved)];
      }
    }
  }
}
