/** Closing the reviews that have been left alone, by one rule on the server and on a file. */
module Prune {
  import opened Prelude
  import opened Session
  import opened SessionOps
  import Threads

  // ----- The rule -----

  datatype Reason = Close | KeepRecent | KeepOpenComments | KeepHooks | KeepNotListed

  /** Nothing that happened to the group is later than t. */
  ghost predicate NothingAfter(g: Group, t: nat) {
    && g.meta.reviewedAt <= t
    && (forall d :: d in g.diffs ==> d.created <= t)
    && (forall c :: c in g.comments ==> c.created <= t && c.updated <= t)
    && (forall h :: h in g.meta.hooks ==> HookNotAfter(h, t))
  }

  predicate HookNotAfter(h: Hook, t: nat) {
    && h.created <= t
    && (h.lastCommandRun.Some? ==> h.lastCommandRun.value.at <= t)
    && (h.lastPost.Some? ==> h.lastPost.value.at <= t)
  }

  /** Something happened to the group at t, or t is the zero time. */
  ghost predicate HappenedAt(g: Group, t: nat) {
    || t == 0
    || t == g.meta.reviewedAt
    || (exists d :: d in g.diffs && d.created == t)
    || (exists c :: c in g.comments && (c.created == t || c.updated == t))
    || (exists h :: h in g.meta.hooks && HookAt(h, t))
  }

  predicate HookAt(h: Hook, t: nat) {
    || h.created == t
    || (h.lastCommandRun.Some? && h.lastCommandRun.value.at == t)
    || (h.lastPost.Some? && h.lastPost.value.at == t)
  }

  ghost predicate IsLastActivity(g: Group, t: nat) {
    NothingAfter(g, t) && HappenedAt(g, t)
  }

  function RunAt(r: Option<HookRun>): nat {
    if r.Some? then r.value.at else 0
  }

  function HookLast(h: Hook): nat {
    Max(h.created, Max(RunAt(h.lastCommandRun), RunAt(h.lastPost)))
  }

  function LastDiff(diffs: seq<Diff>, t: nat): nat {
    if |diffs| == 0 then t else LastDiff(diffs[1..], Max(t, diffs[0].created))
  }

  function LastComment(comments: seq<Comment>, t: nat): nat {
    if |comments| == 0 then t else LastComment(comments[1..], Max(t, Max(comments[0].created, comments[0].updated)))
  }

  function LastHook(hooks: seq<Hook>, t: nat): nat {
    if |hooks| == 0 then t else LastHook(hooks[1..], Max(t, HookLast(hooks[0])))
  }

  function LastActivityOf(g: Group): nat {
    LastHook(g.meta.hooks, LastComment(g.comments, LastDiff(g.diffs, g.meta.reviewedAt)))
  }

  /** model.Group.LastActivity. */
  method LastActivity(g: Group) returns (last: nat)
    ensures last == LastActivityOf(g)
  {
    last := g.meta.reviewedAt;
    for i := 0 to |g.diffs|
      invariant LastDiff(g.diffs, g.meta.reviewedAt) == LastDiff(g.diffs[i..], last)
    {
      assert g.diffs[i..][1..] == g.diffs[i + 1..];
      last := Max(last, g.diffs[i].created);
    }
    ghost var afterDiffs := last;
    for i := 0 to |g.comments|
      invariant LastComment(g.comments, afterDiffs) == LastComment(g.comments[i..], last)
    {
      assert g.comments[i..][1..] == g.comments[i + 1..];
      last := Max(last, Max(g.comments[i].created, g.comments[i].updated));
    }
    ghost var afterComments := last;
    for i := 0 to |g.meta.hooks|
      invariant LastHook(g.meta.hooks, afterComments) == LastHook(g.meta.hooks[i..], last)
    {
      assert g.meta.hooks[i..][1..] == g.meta.hooks[i + 1..];
      last := Max(last, HookLast(g.meta.hooks[i]));
    }
  }

  lemma {:induction false} LastDiffIs(diffs: seq<Diff>, t: nat)
    ensures LastDiff(diffs, t) >= t && forall d :: d in diffs ==> d.created <= LastDiff(diffs, t)
    ensures LastDiff(diffs, t) == t || exists d :: d in diffs && d.created == LastDiff(diffs, t)
  {
    if |diffs| > 0 {
      LastDiffIs(diffs[1..], Max(t, diffs[0].created));
      assert diffs == [diffs[0]] + diffs[1..];
    }
  }

  lemma {:induction false} LastCommentIs(comments: seq<Comment>, t: nat)
    ensures LastComment(comments, t) >= t
    ensures forall c :: c in comments ==> c.created <= LastComment(comments, t) && c.updated <= LastComment(comments, t)
    ensures LastComment(comments, t) == t
            || exists c :: c in comments && (c.created == LastComment(comments, t) || c.updated == LastComment(comments, t))
  {
    if |comments| > 0 {
      LastCommentIs(comments[1..], Max(t, Max(comments[0].created, comments[0].updated)));
      assert comments == [comments[0]] + comments[1..];
    }
  }

  lemma {:induction false} LastHookIs(hooks: seq<Hook>, t: nat)
    ensures LastHook(hooks, t) >= t && forall h :: h in hooks ==> HookNotAfter(h, LastHook(hooks, t))
    ensures LastHook(hooks, t) == t || LastHook(hooks, t) == 0 || exists h :: h in hooks && HookAt(h, LastHook(hooks, t))
  {
    if |hooks| > 0 {
      LastHookIs(hooks[1..], Max(t, HookLast(hooks[0])));
      assert hooks == [hooks[0]] + hooks[1..];
      assert HookLast(hooks[0]) == 0 || HookAt(hooks[0], HookLast(hooks[0]));
    }
  }

  /** LastActivity is the latest time at which anything happened to the group. */
  lemma LastActivityIsLatest(g: Group)
    ensures IsLastActivity(g, LastActivityOf(g))
  {
    var t1 := LastDiff(g.diffs, g.meta.reviewedAt);
    var t2 := LastComment(g.comments, t1);
    LastDiffIs(g.diffs, g.meta.reviewedAt);
    LastCommentIs(g.comments, t1);
    LastHookIs(g.meta.hooks, t2);
  }

  /** The decision, by what the group holds. */
  ghost predicate ShouldClose(g: Group, before: nat, force: bool) {
    && LastActivityOf(g) < before
    && (force || (g.meta.hooks == [] && Threads.CountOpen(Threads.ThreadsOf(g.comments)) == 0))
  }

  /** What each reason says of a group: a recent one is kept, then one with open threads, then one with hooks. */
  ghost predicate Because(g: Group, before: nat, force: bool, reason: Reason) {
    var open := Threads.CountOpen(Threads.ThreadsOf(g.comments));
    match reason
    case KeepRecent => LastActivityOf(g) >= before
    case KeepOpenComments => LastActivityOf(g) < before && !force && open > 0
    case KeepHooks => LastActivityOf(g) < before && !force && open == 0 && g.meta.hooks != []
    case KeepNotListed => false
    case Close => ShouldClose(g, before, force)
  }

  /** PruneKeepReason: the one reason that holds. */
  method KeepReason(g: Group, before: nat, force: bool) returns (reason: Reason)
    ensures forall r :: Because(g, before, force, r) <==> r == reason
  {
    var last := LastActivity(g);
    if last >= before {
      return KeepRecent;
    }
    if force {
      return Close;
    }
    var openThreads := Threads.OpenThreads(g.comments);
    if openThreads > 0 {
      return KeepOpenComments;
    }
    if |g.meta.hooks| > 0 {
      return KeepHooks;
    }
    return Close;
  }

  /** An old review with nothing open loses, with its threads in order, no comment that is not resolved. */
  lemma NothingOpenIsLost(g: Group, before: nat, c: Comment)
    requires GroupOk(g) && ShouldClose(g, before, false) && c in g.comments
    ensures c.resolved
  {
    var comments := g.comments;
    Threads.OpenThreadsAreHeads(comments);
    Threads.SomeUnresolved(Threads.Heads(comments, Threads.Roots(comments)));
    Threads.OpenHead(comments);
  }

  // ----- Which reviews close -----

  function Names(groups: seq<Group>): seq<string> {
    if |groups| == 0 then [] else [groups[0].name] + Names(groups[1..])
  }

  /** The groups a prune closes: old enough, and listed when a list is given. */
  ghost predicate Closes(g: Group, before: nat, force: bool, listed: seq<string>) {
    ShouldClose(g, before, force) && (listed == [] || g.name in listed)
  }

  ghost function ClosedNames(groups: seq<Group>, before: nat, force: bool, listed: seq<string>): seq<string> {
    if |groups| == 0 then []
    else if Closes(groups[0], before, force, listed) then [groups[0].name] + ClosedNames(groups[1..], before, force, listed)
    else ClosedNames(groups[1..], before, force, listed)
  }

  datatype KeptGroup = KeptGroup(name: string, reason: Reason)

  /** The reason of a group, which there is one of. */
  ghost function ReasonOf(g: Group, before: nat, force: bool): (reason: Reason)
    ensures Because(g, before, force, reason)
  {
    if LastActivityOf(g) >= before then KeepRecent
    else if !force && Threads.CountOpen(Threads.ThreadsOf(g.comments)) > 0 then KeepOpenComments
    else if !force && g.meta.hooks != [] then KeepHooks
    else Close
  }

  ghost function KeptFor(groups: seq<Group>, before: nat, force: bool): seq<KeptGroup> {
    if |groups| == 0 then []
    else if ReasonOf(groups[0], before, force) == Close then KeptFor(groups[1..], before, force)
    else [KeptGroup(groups[0].name, ReasonOf(groups[0], before, force))] + KeptFor(groups[1..], before, force)
  }

  /** PruneGroups. */
  method PruneGroups(groups: seq<Group>, before: nat, force: bool) returns (closed: seq<string>, kept: seq<KeptGroup>)
    ensures closed == ClosedNames(groups, before, force, [])
    ensures kept == KeptFor(groups, before, force)
  {
    hide Because, ReasonOf, ShouldClose;
    closed, kept := [], [];
    for i := 0 to |groups|
      invariant ClosedNames(groups, before, force, []) == closed + ClosedNames(groups[i..], before, force, [])
      invariant KeptFor(groups, before, force) == kept + KeptFor(groups[i..], before, force)
    {
      var g := groups[i];
      assert groups[i..][1..] == groups[i + 1..];
      var reason := KeepReason(g, before, force);
      OneReason(g, before, force, reason);
      if reason == Close {
        closed := closed + [g.name];
        continue;
      }
      kept := kept + [KeptGroup(g.name, reason)];
    }
  }

  lemma OneReason(g: Group, before: nat, force: bool, reason: Reason)
    requires Because(g, before, force, reason)
    ensures reason == ReasonOf(g, before, force)
    ensures reason == Close <==> ShouldClose(g, before, force)
  {
  }

  /** Of some names, those listed. */
  function Listed(names: seq<string>, listed: seq<string>): seq<string> {
    if |names| == 0 then []
    else if names[0] in listed then [names[0]] + Listed(names[1..], listed)
    else Listed(names[1..], listed)
  }

  function NotListed(names: seq<string>, listed: seq<string>): seq<KeptGroup> {
    if |names| == 0 then []
    else if names[0] in listed then NotListed(names[1..], listed)
    else [KeptGroup(names[0], KeepNotListed)] + NotListed(names[1..], listed)
  }

  /** Prune's narrowing to the reviews that were agreed to; the others are kept after all. */
  method Narrow(closed: seq<string>, listed: seq<string>) returns (still: seq<string>, kept: seq<KeptGroup>)
    ensures still == Listed(closed, listed) && kept == NotListed(closed, listed)
  {
    still, kept := [], [];
    for i := 0 to |closed|
      invariant Listed(closed, listed) == still + Listed(closed[i..], listed)
      invariant NotListed(closed, listed) == kept + NotListed(closed[i..], listed)
    {
      assert closed[i..][1..] == closed[i + 1..];
      if closed[i] in listed {
        still := still + [closed[i]];
      } else {
        kept := kept + [KeptGroup(closed[i], KeepNotListed)];
      }
    }
  }

  /** Narrowing leaves the names of the groups that are to close. */
  lemma {:induction false} ListedCloses(groups: seq<Group>, before: nat, force: bool, listed: seq<string>)
    requires listed != []
    ensures Listed(ClosedNames(groups, before, force, []), listed) == ClosedNames(groups, before, force, listed)
  {
    hide ShouldClose;
    if |groups| > 0 {
      ListedCloses(groups[1..], before, force, listed);
      if ShouldClose(groups[0], before, force) {
        var rest := ClosedNames(groups[1..], before, force, []);
        assert ([groups[0].name] + rest)[1..] == rest;
      }
    }
  }

  /** What a prune answers of the groups it keeps. */
  ghost function KeptGroups(groups: seq<Group>, before: nat, force: bool, listed: seq<string>): seq<KeptGroup> {
    if listed == [] then KeptFor(groups, before, force)
    else KeptFor(groups, before, force) + NotListed(ClosedNames(groups, before, force, []), listed)
  }

  /** The reason a group is kept for: its own, or that it was not agreed to. */
  ghost predicate KeptBecause(g: Group, before: nat, force: bool, listed: seq<string>, reason: Reason) {
    if ShouldClose(g, before, force) then listed != [] && g.name !in listed && reason == KeepNotListed
    else Because(g, before, force, reason)
  }

  lemma {:induction false} KeptForAre(groups: seq<Group>, before: nat, force: bool)
    ensures forall k :: k in KeptFor(groups, before, force)
              <==> exists g :: g in groups && !ShouldClose(g, before, force) && k == KeptGroup(g.name, ReasonOf(g, before, force))
  {
    hide Because, ReasonOf, ShouldClose;
    if |groups| > 0 {
      KeptForAre(groups[1..], before, force);
      OneReason(groups[0], before, force, ReasonOf(groups[0], before, force));
      assert groups == [groups[0]] + groups[1..];
    }
  }

  lemma {:induction false} NotListedAre(names: seq<string>, listed: seq<string>)
    ensures forall k :: k in NotListed(names, listed) <==> k.name in names && k.name !in listed && k.reason == KeepNotListed
  {
    if |names| > 0 {
      NotListedAre(names[1..], listed);
      assert names == [names[0]] + names[1..];
    }
  }

  /** An entry of the answer is there for a group that is kept, and says why that group is. */
  lemma KeptIsExplained(groups: seq<Group>, before: nat, force: bool, listed: seq<string>, k: KeptGroup)
    ensures k in KeptGroups(groups, before, force, listed)
       <==> exists g :: g in groups && k.name == g.name && KeptBecause(g, before, force, listed, k.reason)
  {
    hide ReasonOf, ShouldClose, Because;
    KeptForAre(groups, before, force);
    var closed := ClosedNames(groups, before, force, []);
    NotListedAre(closed, listed);
    ClosedAre(groups, before, force, []);
    hide KeptFor, NotListed, ClosedNames;
    if g :| g in groups && k.name == g.name && KeptBecause(g, before, force, listed, k.reason) {
      if !ShouldClose(g, before, force) {
        OneReason(g, before, force, k.reason);
      } else {
        assert Closes(g, before, force, []);
      }
    }
    if k in KeptGroups(groups, before, force, listed) {
      if k in KeptFor(groups, before, force) {
        var g :| g in groups && !ShouldClose(g, before, force) && k == KeptGroup(g.name, ReasonOf(g, before, force));
        assert KeptBecause(g, before, force, listed, k.reason);
      } else {
        var g :| g in groups && Closes(g, before, force, []) && g.name == k.name;
        assert KeptBecause(g, before, force, listed, k.reason);
      }
    }
  }

  // ----- Closing them -----

  function DeleteGroups(s: State, names: seq<string>): State
    decreases |names|
  {
    if |names| == 0 then s else DeleteGroups(DeleteGroup(s, names[0]), names[1..])
  }

  lemma {:induction false} ClosedAre(groups: seq<Group>, before: nat, force: bool, listed: seq<string>)
    ensures forall name :: name in ClosedNames(groups, before, force, listed)
              <==> exists g :: g in groups && Closes(g, before, force, listed) && g.name == name
  {
    if |groups| > 0 {
      ClosedAre(groups[1..], before, force, listed);
      assert groups == [groups[0]] + groups[1..];
    }
  }

  /** What is left after several groups went: the others, in the order they were in. */
  function Without(groups: seq<Group>, names: seq<string>): seq<Group> {
    if |groups| == 0 then []
    else if groups[0].name in names then Without(groups[1..], names)
    else [groups[0]] + Without(groups[1..], names)
  }

  lemma {:induction false} WithoutMore(groups: seq<Group>, name: string, names: seq<string>)
    ensures Without(DropGroup(groups, name), names) == Without(groups, [name] + names)
  {
    if |groups| > 0 {
      WithoutMore(groups[1..], name, names);
    }
  }

  lemma {:induction false} WithoutNone(groups: seq<Group>)
    ensures Without(groups, []) == groups
  {
    if |groups| > 0 {
      WithoutNone(groups[1..]);
    }
  }

  lemma {:induction false} NoGroupDropsNone(groups: seq<Group>, name: string)
    requires GroupIndex(groups, name) == |groups|
    ensures DropGroup(groups, name) == groups
  {
    if |groups| > 0 {
      NoGroupDropsNone(groups[1..], name);
    }
  }

  /** Closing groups one at a time, as the log records it, leaves the others as they were and nothing else. */
  lemma {:induction false} DeleteGroupsLeaves(s: State, names: seq<string>)
    requires Inv(s)
    ensures Inv(DeleteGroups(s, names))
    ensures DeleteGroups(s, names).groups == Without(s.groups, names) && DeleteGroups(s, names).ids == s.ids
    decreases |names|
  {
    hide Inv, GroupIndex;
    if |names| == 0 {
      WithoutNone(s.groups);
    } else {
      DeleteGroupKeeps(s, names[0]);
      if GroupIndex(s.groups, names[0]) == |s.groups| {
        NoGroupDropsNone(s.groups, names[0]);
      }
      DeleteGroupsLeaves(DeleteGroup(s, names[0]), names[1..]);
      WithoutMore(s.groups, names[0], names[1..]);
      assert [names[0]] + names[1..] == names;
    }
  }

  lemma {:induction false} WithoutAre(groups: seq<Group>, names: seq<string>)
    ensures forall g :: g in Without(groups, names) <==> g in groups && g.name !in names
  {
    if |groups| > 0 {
      WithoutAre(groups[1..], names);
      assert groups == [groups[0]] + groups[1..];
    }
  }

  /** A prune closes every group it should, and no other. */
  lemma PruneIsExact(s: State, before: nat, force: bool, listed: seq<string>, g: Group)
    requires Inv(s) && g in s.groups
    ensures g in DeleteGroups(s, ClosedNames(s.groups, before, force, listed)).groups <==> !Closes(g, before, force, listed)
  {
    hide Closes, DeleteGroups, Inv, Without;
    var names := ClosedNames(s.groups, before, force, listed);
    DeleteGroupsLeaves(s, names);
    ClosedAre(s.groups, before, force, listed);
    WithoutAre(s.groups, names);
    if g.name in names {
      var x :| x in s.groups && Closes(x, before, force, listed) && x.name == g.name;
      OneOfName(s, x, g);
    }
  }

  lemma OneOfName(s: State, x: Group, y: Group)
    requires Inv(s) && x in s.groups && y in s.groups && x.name == y.name
    ensures x == y
  {
    hide IdsOk, GroupOk, RoundsOk;
    var i :| 0 <= i < |s.groups| && s.groups[i] == x;
    var j :| 0 <= j < |s.groups| && s.groups[j] == y;
    assert i == j;
  }
}
