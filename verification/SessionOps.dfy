/**
 * Every change a session can be put through, as a function of the session;
 * the record each one logs; and that each keeps what a session keeps and is
 * rebuilt by replaying its record.
 */
module SessionOps {
  import opened Prelude
  import opened Session
  import opened SessionIds
  import opened SessionThreads
  import Decimal

  // ----- Keeping the invariant -----

  lemma FewerIds(new_: multiset<string>, old_: multiset<string>, before: multiset<string>, after: multiset<string>, more: multiset<string>)
    requires new_ + before == old_ + after && after <= before + more
    ensures new_ <= old_ + more
  {
    forall x
      ensures new_[x] <= (old_ + more)[x]
    {
      assert (new_ + before)[x] == (old_ + after)[x];
      assert after[x] <= (before + more)[x];
    }
  }

  lemma ChangeKeepsIds(groups: seq<Group>, i: nat, g: Group, ids: Counters)
    requires i < |groups| && IdsOk(groups, ids) && IdsOf(g) <= IdsOf(groups[i])
    ensures IdsOk(groups[i := g], ids)
  {
    hide IdsOf, AllIds, IdsOk;
    IdsUpdate(groups, i, g);
    FewerIds(AllIds(groups[i := g]), AllIds(groups), IdsOf(groups[i]), IdsOf(g), multiset{});
    assert AllIds(groups) + multiset{} == AllIds(groups);
    IdsOkFewer(groups, groups[i := g], ids);
  }

  lemma ChangeAddsId(groups: seq<Group>, i: nat, g: Group, ids: Counters, prefix: string)
    requires i < |groups| && IdsOk(groups, ids) && prefix in {DIFF_PREFIX, COMMENT_PREFIX, HOOK_PREFIX}
    requires IdsOf(g) <= IdsOf(groups[i]) + multiset{NextId(ids, prefix)}
    ensures IdsOk(groups[i := g], Bump(ids, prefix))
  {
    hide IdsOf, AllIds, IdsOk, Bump, NextId;
    IdsUpdate(groups, i, g);
    FewerIds(AllIds(groups[i := g]), AllIds(groups), IdsOf(groups[i]), IdsOf(g), multiset{NextId(ids, prefix)});
    IdsOkOneMore(groups, groups[i := g], ids, prefix);
  }

  lemma IndexOfName(groups: seq<Group>, i: nat)
    requires i < |groups|
    ensures GroupIndex(groups, groups[i].name) < |groups|
  {
  }

  /** One group changes, under its name. */
  lemma ChangeKeepsInv(s: State, i: nat, g: Group, ids: Counters, rounds: Counters)
    requires Inv(s) && i < |s.groups| && g.name == s.groups[i].name && GroupOk(g)
    requires IdsOk(s.groups[i := g], ids)
    requires |g.diffs| <= Count(rounds, g.name)
    requires forall name :: name != g.name ==> Count(rounds, name) == Count(s.rounds, name)
    ensures Inv(State(s.groups[i := g], ids, rounds))
  {
    hide IdsOk, GroupOk, GroupIndex;
    var groups := s.groups[i := g];
    forall x | x in groups
      ensures |x.diffs| <= Count(rounds, x.name) && GroupOk(x)
    {
      var j :| 0 <= j < |groups| && groups[j] == x;
      if j != i {
        assert s.groups[j] in s.groups;
        assert s.groups[j].name != s.groups[i].name;
      }
    }
    forall name | Count(rounds, name) > 0
      ensures GroupIndex(groups, name) < |groups|
    {
      if name == g.name {
        IndexOfName(groups, i);
      } else {
        var k := GroupIndex(s.groups, name);
        assert groups[k].name == name;
        IndexOfName(groups, k);
      }
    }
  }

  /** A group that is asked for and not there joins empty. */
  lemma WithGroupKeepsInv(s: State, name: string)
    requires Inv(s)
    ensures Inv(State(WithGroup(s.groups, name), s.ids, s.rounds))
  {
    if GroupIndex(s.groups, name) == |s.groups| {
      var g := Group(name, [], [], NO_REVIEW);
      var groups := s.groups + [g];
      EmptyGroupJoins(s.groups, name);
      MoreRoundsOk(s.groups, g, s.rounds);
      hide IdsOk, GroupOk, AllIds, RoundsOk;
      assert UniqueNames(groups);
      forall x | x in groups
        ensures GroupOk(x)
      {
        assert x in s.groups || x == g;
      }
    }
  }

  lemma EmptyGroupJoins(groups: seq<Group>, name: string)
    ensures var g := Group(name, [], [], NO_REVIEW); AllIds(groups + [g]) == AllIds(groups) && GroupOk(g)
    ensures forall ids :: IdsOk(groups, ids) ==> IdsOk(groups + [Group(name, [], [], NO_REVIEW)], ids)
  {
    var g := Group(name, [], [], NO_REVIEW);
    IdsAppend(groups, g);
    assert IdsOf(g) == multiset{};
    assert AllIds(groups) + multiset{} == AllIds(groups);
  }

  lemma MoreRoundsOk(groups: seq<Group>, g: Group, rounds: Counters)
    requires RoundsOk(groups, rounds) && g.diffs == []
    ensures RoundsOk(groups + [g], rounds)
  {
    hide GroupIndex;
    forall n | Count(rounds, n) > 0
      ensures GroupIndex(groups + [g], n) < |groups + [g]|
    {
      var k := GroupIndex(groups, n);
      assert (groups + [g])[k].name == n;
      IndexOfName(groups + [g], k);
    }
  }

  lemma IdIsNotEmpty(s: State, g: Group, id: string)
    requires Inv(s) && g in s.groups && id in IdsOf(g)
    ensures id != "" && HandedOut(id, s.ids)
  {
    hide IdsOf;
    var i :| 0 <= i < |s.groups| && s.groups[i] == g;
    IdsWithin(s.groups, i);
    assert IdsOf(g)[id] <= AllIds(s.groups)[id];
    assert id in AllIds(s.groups);
    assert HandedOut(id, s.ids);
  }

  lemma CommentIdIsNotEmpty(s: State, i: nat, j: nat)
    requires Inv(s) && i < |s.groups| && j < |s.groups[i].comments|
    ensures s.groups[i].comments[j].id != "" && HandedOut(s.groups[i].comments[j].id, s.ids)
  {
    var g := s.groups[i];
    var ids := CommentIds(g.comments);
    assert ids[j] in multiset(ids);
    assert ids[j] in IdsOf(g);
    IdIsNotEmpty(s, g, ids[j]);
  }

  // ----- Diffs -----

  /** The record of a change is told the counters as they stand after it. */
  function Stamped(rec: Record, s: State): Record {
    rec.(seqs := s.ids, rounds := s.rounds)
  }

  /** Replaying the stamped record of a change makes the change. */
  ghost predicate Replays(before: State, rec: Record, after: State) {
    Apply(before, Stamped(rec, after)) == Some(after)
  }

  /** The title a round gets when it is given none. */
  function RoundTitle(round: nat): string {
    "diff " + Decimal.Digits(round)
  }

  /** The diff as it is stored: with its id, its time and its title. */
  function StoredDiff(s: State, group: string, d: Diff, now: nat): Diff {
    d.(id := NextId(s.ids, DIFF_PREFIX),
       created := if d.created == 0 then now else d.created,
       title := if d.title == "" then RoundTitle(Count(s.rounds, group) + 1) else d.title)
  }

  function AddDiff(s: State, group: string, d: Diff, now: nat): State {
    var i := GroupIndex(s.groups, group);
    var all := WithGroup(s.groups, group);
    State(all[i := all[i].(diffs := all[i].diffs + [StoredDiff(s, group, d, now)])],
          Bump(s.ids, DIFF_PREFIX), Bump(s.rounds, group))
  }

  function DiffRecord(group: string, d: Diff): Record {
    BLANK_RECORD.(op := OpDiff, group := group, diff := Some(d))
  }

  lemma AddDiffKeeps(s: State, group: string, d: Diff, now: nat)
    requires Inv(s)
    ensures Inv(AddDiff(s, group, d, now))
    ensures Replays(s, DiffRecord(group, StoredDiff(s, group, d, now)), AddDiff(s, group, d, now))
  {
    WithGroupKeepsInv(s, group);
    hide Inv, NextId, Bump, WithGroup, IdsOk;
    var i := GroupIndex(s.groups, group);
    var all := WithGroup(s.groups, group);
    AddDiffToGroup(State(all, s.ids, s.rounds), i, StoredDiff(s, group, d, now));
  }

  lemma AddDiffToGroup(s: State, i: nat, d: Diff)
    requires Inv(s) && i < |s.groups| && d.id == NextId(s.ids, DIFF_PREFIX)
    ensures Inv(State(s.groups[i := s.groups[i].(diffs := s.groups[i].diffs + [d])],
                      Bump(s.ids, DIFF_PREFIX), Bump(s.rounds, s.groups[i].name)))
  {
    var was := s.groups[i];
    var g := was.(diffs := was.diffs + [d]);
    assert was in s.groups && GroupOk(was);
    OneMoreDiff(was, d);
    hide IdsOf, NextId, IdsOk, Bump, GroupOk;
    ChangeAddsId(s.groups, i, g, s.ids, DIFF_PREFIX);
    BumpCounts(s.rounds, g.name);
    ChangeKeepsInv(s, i, g, Bump(s.ids, DIFF_PREFIX), Bump(s.rounds, g.name));
  }

  lemma BumpCounts(m: Counters, key: string)
    ensures Count(Bump(m, key), key) == Count(m, key) + 1
    ensures forall k :: k != key ==> Count(Bump(m, key), k) == Count(m, k)
  {
  }

  lemma OneMoreDiff(was: Group, d: Diff)
    requires GroupOk(was)
    ensures var g := was.(diffs := was.diffs + [d]); GroupOk(g) && IdsOf(g) == IdsOf(was) + multiset{d.id}
  {
    var g := was.(diffs := was.diffs + [d]);
    assert DiffIds(g.diffs) == DiffIds(was.diffs) + [d.id];
    hide ThreadsOk, DiffIds;
    forall c | c in g.comments
      ensures HasDiff(g.diffs, c.anchor.diffId)
    {
      var x :| x in was.diffs && x.id == c.anchor.diffId;
      assert x in g.diffs;
    }
  }

  predicate HasDiffIn(s: State, group: string, id: string) {
    var i := GroupIndex(s.groups, group);
    i < |s.groups| && HasDiff(s.groups[i].diffs, id)
  }

  function DeleteDiff(s: State, group: string, id: string): State {
    var i := GroupIndex(s.groups, group);
    if !HasDiffIn(s, group, id) then s
    else
      var g := s.groups[i];
      s.(groups := s.groups[i := g.(diffs := DropDiffs(g.diffs, [id]), comments := DropCommentsOn(g.comments, [id]))])
  }

  function DelDiffRecord(group: string, id: string): Record {
    BLANK_RECORD.(op := OpDelDiff, group := group, ids := [id])
  }

  lemma DeleteDiffKeeps(s: State, group: string, id: string)
    requires Inv(s)
    ensures Inv(DeleteDiff(s, group, id))
    ensures HasDiffIn(s, group, id) ==> Replays(s, DelDiffRecord(group, id), DeleteDiff(s, group, id))
  {
    var i := GroupIndex(s.groups, group);
    if i < |s.groups| && HasDiff(s.groups[i].diffs, id) {
      var was := s.groups[i];
      var g := was.(diffs := DropDiffs(was.diffs, [id]), comments := DropCommentsOn(was.comments, [id]));
      assert was in s.groups && GroupOk(was);
      KeptDiffs(was.diffs, [id]);
      DropDiffsIds(was.diffs, [id]);
      DropCommentsOnIds(was.comments, [id]);
      assert IdsOf(g) <= IdsOf(was);
      hide IdsOf, IdsOk, ThreadsOk, AnchorsOk, DropDiffs, DropCommentsOn, GroupIndex;
      DeleteDiffKeepsThreads(was.diffs, was.comments, [id]);
      ChangeKeepsIds(s.groups, i, g, s.ids);
      ChangeKeepsInv(s, i, g, s.ids, s.rounds);
    }
  }

  // ----- Groups -----

  function DeleteGroup(s: State, name: string): State {
    if GroupIndex(s.groups, name) == |s.groups| then s
    else s.(groups := DropGroup(s.groups, name), rounds := s.rounds - {name})
  }

  function DelGroupRecord(name: string): Record {
    BLANK_RECORD.(op := OpDelGroup, group := name)
  }

  lemma {:induction false} KeptGroups(groups: seq<Group>, name: string)
    ensures forall g :: g in DropGroup(groups, name) <==> g in groups && g.name != name
  {
    if |groups| > 0 {
      KeptGroups(groups[1..], name);
      assert groups == [groups[0]] + groups[1..];
    }
  }

  lemma {:induction false} KeptNames(groups: seq<Group>, name: string)
    requires UniqueNames(groups)
    ensures UniqueNames(DropGroup(groups, name))
  {
    if |groups| > 0 {
      UniqueTail(groups);
      KeptNames(groups[1..], name);
      KeptGroups(groups[1..], name);
      UniqueCons(groups[0], DropGroup(groups[1..], name));
    }
  }

  lemma DeleteGroupKeeps(s: State, name: string)
    requires Inv(s)
    ensures Inv(DeleteGroup(s, name))
    ensures GroupIndex(s.groups, name) < |s.groups| ==> Replays(s, DelGroupRecord(name), DeleteGroup(s, name))
  {
    if GroupIndex(s.groups, name) < |s.groups| {
      KeptGroups(s.groups, name);
      KeptNames(s.groups, name);
      IdsDropGroup(s.groups, name);
      hide IdsOk, GroupOk, AllIds, DropGroup, GroupIndex, Replays;
      IdsOkFewer(s.groups, DropGroup(s.groups, name), s.ids);
      DeleteGroupRounds(s.groups, s.rounds, name);
      DelGroupReplays(s, name);
    }
  }

  lemma DelGroupReplays(s: State, name: string)
    requires GroupIndex(s.groups, name) < |s.groups|
    ensures Replays(s, DelGroupRecord(name), DeleteGroup(s, name))
  {
    hide DropGroup, GroupIndex;
  }

  lemma DeleteGroupRounds(groups: seq<Group>, rounds: Counters, name: string)
    requires RoundsOk(groups, rounds)
    ensures RoundsOk(DropGroup(groups, name), rounds - {name})
  {
    KeptGroups(groups, name);
    hide DropGroup, GroupIndex;
    var left := DropGroup(groups, name);
    forall n | Count(rounds - {name}, n) > 0
      ensures GroupIndex(left, n) < |left|
    {
      var k := GroupIndex(groups, n);
      assert Count(rounds, n) > 0;
      assert groups[k] in left;
      var j :| 0 <= j < |left| && left[j] == groups[k];
      IndexOfName(left, j);
    }
  }

  function DeleteAll(s: State): State {
    State([], s.ids, map[])
  }

  function DelAllRecord(): Record {
    BLANK_RECORD.(op := OpDelAll)
  }

  lemma DeleteAllKeeps(s: State)
    requires Inv(s)
    ensures Inv(DeleteAll(s)) && Replays(s, DelAllRecord(), DeleteAll(s))
    ensures s.groups == [] ==> Same(s, DeleteAll(s))
  {
    if s.groups == [] {
      forall n
        ensures Count(s.rounds, n) == 0
      {
        assert GroupIndex(s.groups, n) == |s.groups|;
      }
    }
  }

  // ----- What a group says about its review -----

  function PutMeta(s: State, group: string, meta: Meta): State {
    var i := GroupIndex(s.groups, group);
    var all := WithGroup(s.groups, group);
    s.(groups := all[i := all[i].(meta := meta)])
  }

  function MetaRecord(group: string, meta: Meta): Record {
    BLANK_RECORD.(op := OpMeta, group := group, meta := Some(meta))
  }

  /** A group says something new about its review, and registers no hook. */
  lemma PutMetaKeeps(s: State, group: string, meta: Meta)
    requires Inv(s)
    requires var i := GroupIndex(s.groups, group);
             i < |s.groups| && multiset(HookIds(meta.hooks)) <= multiset(HookIds(s.groups[i].meta.hooks))
    ensures Inv(PutMeta(s, group, meta)) && Replays(s, MetaRecord(group, meta), PutMeta(s, group, meta))
  {
    var i := GroupIndex(s.groups, group);
    var was := s.groups[i];
    var g := was.(meta := meta);
    assert was in s.groups && GroupOk(was);
    assert IdsOf(g) <= IdsOf(was);
    MetaReplays(s, group, meta);
    hide IdsOf, IdsOk, ThreadsOk, AnchorsOk, GroupIndex, Replays;
    ChangeKeepsIds(s.groups, i, g, s.ids);
    ChangeKeepsInv(s, i, g, s.ids, s.rounds);
  }

  lemma MetaReplays(s: State, group: string, meta: Meta)
    ensures Replays(s, MetaRecord(group, meta), PutMeta(s, group, meta))
  {
  }

  /** The hook as it is stored. */
  function StoredHook(s: State, h: Hook, now: nat): Hook {
    h.(id := NextId(s.ids, HOOK_PREFIX), created := now)
  }

  /** The first hook that does the same thing, or |hooks|. */
  function SameHook(hooks: seq<Hook>, h: Hook): (i: nat)
    ensures i <= |hooks|
    ensures i < |hooks| ==> hooks[i].command == h.command && hooks[i].url == h.url
    ensures forall j :: 0 <= j < i ==> hooks[j].command != h.command || hooks[j].url != h.url
  {
    if |hooks| == 0 then 0
    else if hooks[0].command == h.command && hooks[0].url == h.url then 0
    else 1 + SameHook(hooks[1..], h)
  }

  predicate NewHook(s: State, group: string, h: Hook) {
    var hooks := WithGroup(s.groups, group)[GroupIndex(s.groups, group)].meta.hooks;
    SameHook(hooks, h) == |hooks|
  }

  /** What registering a hook answers: the group's own when it has one that does the same, else the one that is stored. */
  function AnsweredHook(s: State, group: string, h: Hook, now: nat): Hook {
    var hooks := WithGroup(s.groups, group)[GroupIndex(s.groups, group)].meta.hooks;
    if SameHook(hooks, h) < |hooks| then hooks[SameHook(hooks, h)] else StoredHook(s, h, now)
  }

  lemma NewIsStored(s: State, group: string, h: Hook, now: nat)
    requires NewHook(s, group, h)
    ensures AnsweredHook(s, group, h, now) == StoredHook(s, h, now)
  {
  }

  /** Registering a hook a group does not have; the group joins when it is not there. */
  function AddHook(s: State, group: string, h: Hook, now: nat): State {
    var i := GroupIndex(s.groups, group);
    var all := WithGroup(s.groups, group);
    if !NewHook(s, group, h) then s
    else
      var meta := all[i].meta.(hooks := all[i].meta.hooks + [StoredHook(s, h, now)]);
      PutMeta(s, group, meta).(ids := Bump(s.ids, HOOK_PREFIX))
  }

  lemma AddHookKeeps(s: State, group: string, h: Hook, now: nat)
    requires Inv(s)
    ensures Inv(AddHook(s, group, h, now))
    ensures var i := GroupIndex(s.groups, group); i < |AddHook(s, group, h, now).groups|
    ensures var after := AddHook(s, group, h, now);
            NewHook(s, group, h) ==> Replays(s, MetaRecord(group, after.groups[GroupIndex(s.groups, group)].meta), after)
  {
    if NewHook(s, group, h) {
      hide Inv;
      WithGroupKeepsInv(s, group);
      AddNewHookKeeps(s, group, h, now);
      AddHookReplays(s, group, h, now);
    } else {
      SameHookNeedsGroup(s, group, h);
    }
  }

  lemma AddHookReplays(s: State, group: string, h: Hook, now: nat)
    requires NewHook(s, group, h)
    ensures var after := AddHook(s, group, h, now);
            var i := GroupIndex(s.groups, group);
            i < |after.groups| && Replays(s, MetaRecord(group, after.groups[i].meta), after)
  {
    hide GroupIndex, WithGroup, SameHook, Bump, NextId;
  }

  lemma AddNewHookKeeps(s: State, group: string, h: Hook, now: nat)
    requires NewHook(s, group, h) && Inv(State(WithGroup(s.groups, group), s.ids, s.rounds))
    ensures Inv(AddHook(s, group, h, now))
  {
    hide Inv, NextId, Bump, WithGroup, IdsOk, GroupIndex, SameHook;
    var i := GroupIndex(s.groups, group);
    AddHookToGroup(State(WithGroup(s.groups, group), s.ids, s.rounds), i, StoredHook(s, h, now));
  }

  lemma SameHookNeedsGroup(s: State, group: string, h: Hook)
    requires !NewHook(s, group, h)
    ensures GroupIndex(s.groups, group) < |s.groups|
  {
  }

  lemma OneMoreHook(was: Group, h: Hook)
    ensures IdsOf(was.(meta := was.meta.(hooks := was.meta.hooks + [h]))) == IdsOf(was) + multiset{h.id}
  {
    assert HookIds(was.meta.hooks + [h]) == HookIds(was.meta.hooks) + [h.id];
  }

  lemma AddHookToGroup(s: State, i: nat, h: Hook)
    requires Inv(s) && i < |s.groups| && h.id == NextId(s.ids, HOOK_PREFIX)
    ensures var was := s.groups[i];
            Inv(State(s.groups[i := was.(meta := was.meta.(hooks := was.meta.hooks + [h]))], Bump(s.ids, HOOK_PREFIX), s.rounds))
  {
    var was := s.groups[i];
    var g := was.(meta := was.meta.(hooks := was.meta.hooks + [h]));
    OneMoreHook(was, h);
    assert was in s.groups && GroupOk(was);
    hide IdsOf, NextId, IdsOk, Bump, ThreadsOk, AnchorsOk;
    ChangeAddsId(s.groups, i, g, s.ids, HOOK_PREFIX);
    ChangeKeepsInv(s, i, g, Bump(s.ids, HOOK_PREFIX), s.rounds);
  }

  /** The first hook with that id, or |hooks|. */
  function HookIndex(hooks: seq<Hook>, id: string): (i: nat)
    ensures i <= |hooks|
    ensures i < |hooks| ==> hooks[i].id == id
    ensures forall j :: 0 <= j < i ==> hooks[j].id != id
  {
    if |hooks| == 0 then 0 else if hooks[0].id == id then 0 else 1 + HookIndex(hooks[1..], id)
  }

  /** Every hook, or the one with that id. */
  function DropHooks(hooks: seq<Hook>, id: string): seq<Hook> {
    if |hooks| == 0 then []
    else if id == "" || hooks[0].id == id then DropHooks(hooks[1..], id)
    else [hooks[0]] + DropHooks(hooks[1..], id)
  }

  lemma DropHooksFirst(hooks: seq<Hook>, id: string)
    ensures DropHooks(hooks, id) ==
            if hooks == [] then []
            else if id == "" || hooks[0].id == id then DropHooks(hooks[1..], id)
            else [hooks[0]] + DropHooks(hooks[1..], id)
  {
  }

  lemma {:induction false} DropHooksIds(hooks: seq<Hook>, id: string)
    ensures multiset(HookIds(DropHooks(hooks, id))) <= multiset(HookIds(hooks))
  {
    hide HookIds, DropHooks;
    DropHooksFirst(hooks, id);
    if |hooks| > 0 {
      DropHooksIds(hooks[1..], id);
      HookIdsWithin(hooks[0], hooks[1..], DropHooks(hooks[1..], id));
      assert [hooks[0]] + hooks[1..] == hooks;
    }
  }

  lemma HookIdsCons(h: Hook, hooks: seq<Hook>)
    ensures multiset(HookIds([h] + hooks)) == multiset{h.id} + multiset(HookIds(hooks))
  {
    assert HookIds([h] + hooks) == [h.id] + HookIds(hooks);
  }

  /** One more at the front of both keeps one within the other; so does one more in front of the longer. */
  lemma HookIdsWithin(h: Hook, hooks: seq<Hook>, left: seq<Hook>)
    requires multiset(HookIds(left)) <= multiset(HookIds(hooks))
    ensures multiset(HookIds(left)) <= multiset(HookIds([h] + hooks))
    ensures multiset(HookIds([h] + left)) <= multiset(HookIds([h] + hooks))
  {
    hide HookIds;
    HookIdsCons(h, hooks);
    HookIdsCons(h, left);
  }

  lemma SameHookIds(hooks: seq<Hook>, i: nat, h: Hook)
    requires i < |hooks| && h.id == hooks[i].id
    ensures HookIds(hooks[i := h]) == HookIds(hooks)
  {
  }

  // ----- Comments -----

  /** The comments of one group change: the ids they carry are ids it had. */
  lemma CommentsKeepInv(s: State, i: nat, comments: seq<Comment>)
    requires Inv(s) && i < |s.groups|
    requires AnchorsOk(s.groups[i].diffs, comments) && ThreadsOk(comments)
    requires multiset(CommentIds(comments)) <= multiset(CommentIds(s.groups[i].comments))
    ensures Inv(s.(groups := s.groups[i := s.groups[i].(comments := comments)]))
  {
    var was := s.groups[i];
    var g := was.(comments := comments);
    assert was in s.groups;
    assert IdsOf(g) <= IdsOf(was);
    hide IdsOf, IdsOk, ThreadsOk, AnchorsOk;
    ChangeKeepsIds(s.groups, i, g, s.ids);
    ChangeKeepsInv(s, i, g, s.ids, s.rounds);
  }

  lemma GroupFacts(s: State, i: nat)
    requires Inv(s) && i < |s.groups|
    ensures AnchorsOk(s.groups[i].diffs, s.groups[i].comments) && ThreadsOk(s.groups[i].comments)
    ensures DistinctIds(s.groups[i].comments)
    ensures forall c :: c in s.groups[i].comments ==> c.id != ""
  {
    assert s.groups[i] in s.groups;
    CommentsDistinct(s.groups, i);
    forall c | c in s.groups[i].comments
      ensures c.id != ""
    {
      var j :| 0 <= j < |s.groups[i].comments| && s.groups[i].comments[j] == c;
      CommentIdIsNotEmpty(s, i, j);
    }
  }

  /** The comment as it is stored: a reply joins the thread of the comment it names. */
  function StoredComment(s: State, comments: seq<Comment>, c: Comment, now: nat): Option<Comment> {
    var id := NextId(s.ids, COMMENT_PREFIX);
    if !c.IsReply() then Some(c.(id := id, created := now, updated := now))
    else
      var r := RootIndex(comments, c.replyTo);
      if r == |comments| then None
      else
        var root := comments[r];
        Some(c.(replyTo := root.id, anchor := root.anchor, resolved := root.resolved, question := false,
                id := id, created := now, updated := now))
  }

  /** The ways AddComment refuses a comment. */
  datatype Refusal = UnknownGroup | NoSuchComment | UnknownDiff

  datatype Added = Added(comment: Comment) | Refused(why: Refusal)

  function CheckComment(s: State, c: Comment, now: nat): Added {
    var i := GroupIndex(s.groups, c.group);
    if i == |s.groups| then Refused(UnknownGroup)
    else
      match StoredComment(s, s.groups[i].comments, c, now)
      case None => Refused(NoSuchComment)
      case Some(stored) =>
        if HasDiff(s.groups[i].diffs, stored.anchor.diffId) then Added(stored) else Refused(UnknownDiff)
  }

  function AddComment(s: State, c: Comment, now: nat): State {
    if CheckComment(s, c, now).Refused? then s
    else
      var i := GroupIndex(s.groups, c.group);
      State(s.groups[i := s.groups[i].(comments := s.groups[i].comments + [CheckComment(s, c, now).comment])],
            Bump(s.ids, COMMENT_PREFIX), s.rounds)
  }

  function CommentRecord(group: string, c: Comment): Record {
    BLANK_RECORD.(op := OpComment, group := group, comment := Some(c))
  }

  lemma AddCommentKeeps(s: State, c: Comment, now: nat)
    requires Inv(s)
    ensures Inv(AddComment(s, c, now))
    ensures CheckComment(s, c, now).Added? ==>
              Replays(s, CommentRecord(c.group, CheckComment(s, c, now).comment), AddComment(s, c, now))
  {
    hide CheckComment, Inv, NextId, Bump, GroupIndex, PutComment, Replays, HasDiff, AnswersThread, HandedOut;
    if CheckComment(s, c, now).Added? {
      AddedAnswers(s, c, now);
      var stored := CheckComment(s, c, now).comment;
      AddCommentToGroup(s, GroupIndex(s.groups, c.group), stored);
      PutReplays(s, c.group, stored, AddComment(s, c, now));
    }
  }

  /** A comment that is accepted has a new id, is on a diff of its group, and answers a thread of it or none. */
  lemma AddedAnswers(s: State, c: Comment, now: nat)
    requires Inv(s) && CheckComment(s, c, now).Added?
    ensures var i := GroupIndex(s.groups, c.group);
            var stored := CheckComment(s, c, now).comment;
            && i < |s.groups| && stored.id == NextId(s.ids, COMMENT_PREFIX)
            && HasDiff(s.groups[i].diffs, stored.anchor.diffId) && AnswersThread(s.groups[i].comments, stored)
            && (stored.IsReply() ==> HandedOut(stored.replyTo, s.ids))
  {
    var i := GroupIndex(s.groups, c.group);
    StoredAnswers(s, i, c, now);
    hide Inv, StoredComment, NextId, GroupIndex, HasDiff, AnswersThread, HandedOut;
  }

  /** The record of a comment replays a change to the comments of its group, and to nothing else. */
  lemma PutReplays(s: State, group: string, c: Comment, after: State)
    requires var i := GroupIndex(s.groups, group);
             i < |s.groups|
             && after.groups == s.groups[i := s.groups[i].(comments := PutComment(s.groups[i].comments, c))]
    ensures Replays(s, CommentRecord(group, c), after)
  {
    hide PutComment, GroupIndex;
  }

  lemma StoredAnswers(s: State, i: nat, c: Comment, now: nat)
    requires Inv(s) && i < |s.groups| && StoredComment(s, s.groups[i].comments, c, now).Some?
    ensures var stored := StoredComment(s, s.groups[i].comments, c, now).value;
            AnswersThread(s.groups[i].comments, stored) && stored.id == NextId(s.ids, COMMENT_PREFIX)
            && (stored.IsReply() ==> HandedOut(stored.replyTo, s.ids))
  {
    var comments := s.groups[i].comments;
    if c.IsReply() {
      GroupFacts(s, i);
      hide Inv, NextId;
      RootOpens(comments, c.replyTo);
      var r := RootIndex(comments, c.replyTo);
      CommentIdIsNotEmpty(s, i, r);
      var stored := StoredComment(s, comments, c, now).value;
      assert Opens(comments[r], stored);
    }
  }

  lemma OneMoreComment(was: Group, c: Comment)
    ensures IdsOf(was.(comments := was.comments + [c])) == IdsOf(was) + multiset{c.id}
  {
    assert CommentIds(was.comments + [c]) == CommentIds(was.comments) + [c.id];
  }

  /** The next id of a comment is not that of another, nor that of a thread any of them answers. */
  lemma NewCommentId(s: State, i: nat, c: Comment)
    requires Inv(s) && i < |s.groups| && c.id == NextId(s.ids, COMMENT_PREFIX)
    ensures !HandedOut(c.id, s.ids) && forall x :: x in s.groups[i].comments ==> x.id != c.id
  {
    NextIdIsNew(s.ids, COMMENT_PREFIX);
    var comments := s.groups[i].comments;
    forall x | x in comments
      ensures x.id != c.id
    {
      var j :| 0 <= j < |comments| && comments[j] == x;
      CommentIdIsNotEmpty(s, i, j);
    }
  }

  lemma AddCommentToGroup(s: State, i: nat, c: Comment)
    requires Inv(s) && i < |s.groups| && c.id == NextId(s.ids, COMMENT_PREFIX)
    requires HasDiff(s.groups[i].diffs, c.anchor.diffId) && AnswersThread(s.groups[i].comments, c)
    requires c.IsReply() ==> HandedOut(c.replyTo, s.ids)
    ensures var was := s.groups[i];
            Inv(State(s.groups[i := was.(comments := was.comments + [c])], Bump(s.ids, COMMENT_PREFIX), s.rounds))
            && PutComment(was.comments, c) == was.comments + [c]
  {
    var was := s.groups[i];
    var g := was.(comments := was.comments + [c]);
    GroupFacts(s, i);
    NewCommentId(s, i, c);
    OneMoreComment(was, c);
    assert was in s.groups;
    hide IdsOf, NextId, IdsOk, Bump, ThreadsOk, AnchorsOk, HandedOut, AnswersThread, PutComment;
    AppendKeepsThreads(was.diffs, was.comments, c);
    PutNew(was.comments, c);
    ChangeAddsId(s.groups, i, g, s.ids, COMMENT_PREFIX);
    ChangeKeepsInv(s, i, g, Bump(s.ids, COMMENT_PREFIX), s.rounds);
  }
}
