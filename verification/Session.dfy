/**
 * What a session holds, the log records that describe its changes, and what
 * every session sbnn builds keeps true.
 */
module Session {
  import opened Prelude
  import Decimal

  // ----- Entities -----

  /** What a comment is about; a reply carries the anchor of the comment it answers. */
  datatype Anchor = Anchor(diffId: string, fileId: string, path: string, side: string, startLine: nat, endLine: nat, snippet: string)

  /** Times are numbers; 0 is the zero time. */
  datatype Comment = Comment(
    id: string, group: string, anchor: Anchor, author: string, body: string, question: bool,
    replyTo: string, resolved: bool, created: nat, updated: nat)
  {
    predicate IsReply() {
      replyTo != ""
    }
  }

  /** `content` stands for the base directory, the labels, the text and the files of the diff. */
  datatype Diff = Diff(id: string, title: string, created: nat, content: string)

  datatype HookRun = HookRun(at: nat, ok: bool, detail: string)

  datatype Hook = Hook(id: string, command: string, url: string, created: nat, lastCommandRun: Option<HookRun>, lastPost: Option<HookRun>)

  datatype Meta = Meta(reviewedAt: nat, note: string, verdict: string, hooks: seq<Hook>)

  datatype Group = Group(name: string, diffs: seq<Diff>, comments: seq<Comment>, meta: Meta)

  const NO_REVIEW := Meta(0, "", "", [])

  /** A counter per key; a key that is absent counts 0. */
  type Counters = map<string, nat>

  function Count(m: Counters, key: string): nat {
    if key in m then m[key] else 0
  }

  const DIFF_PREFIX := "d"
  const COMMENT_PREFIX := "c"
  const HOOK_PREFIX := "h"

  datatype State = State(groups: seq<Group>, ids: Counters, rounds: Counters)

  const EMPTY := State([], map[], map[])

  // ----- Lookups -----

  /** The first group of that name, or |groups|. */
  function GroupIndex(groups: seq<Group>, name: string): (i: nat)
    ensures i <= |groups|
    ensures i < |groups| ==> groups[i].name == name
    ensures forall j :: 0 <= j < i ==> groups[j].name != name
  {
    if |groups| == 0 then 0 else if groups[0].name == name then 0 else 1 + GroupIndex(groups[1..], name)
  }

  /** The groups with one of that name among them. */
  function WithGroup(groups: seq<Group>, name: string): (r: seq<Group>)
    ensures GroupIndex(groups, name) < |r|
    ensures r[GroupIndex(groups, name)].name == name
  {
    if GroupIndex(groups, name) < |groups| then groups else groups + [Group(name, [], [], NO_REVIEW)]
  }

  /** The first comment with that id, or |comments|. */
  function CommentIndex(comments: seq<Comment>, id: string): (i: nat)
    ensures i <= |comments|
    ensures i < |comments| ==> comments[i].id == id
    ensures forall j :: 0 <= j < i ==> comments[j].id != id
  {
    if |comments| == 0 then 0 else if comments[0].id == id then 0 else 1 + CommentIndex(comments[1..], id)
  }

  predicate HasDiff(diffs: seq<Diff>, id: string) {
    exists d :: d in diffs && d.id == id
  }

  // ----- Filters -----

  function DropDiffs(diffs: seq<Diff>, gone: seq<string>): seq<Diff> {
    if |diffs| == 0 then []
    else if diffs[0].id in gone then DropDiffs(diffs[1..], gone)
    else [diffs[0]] + DropDiffs(diffs[1..], gone)
  }

  function DropCommentsOn(comments: seq<Comment>, goneDiffs: seq<string>): seq<Comment> {
    if |comments| == 0 then []
    else if comments[0].anchor.diffId in goneDiffs then DropCommentsOn(comments[1..], goneDiffs)
    else [comments[0]] + DropCommentsOn(comments[1..], goneDiffs)
  }

  function DropComments(comments: seq<Comment>, gone: seq<string>): seq<Comment> {
    if |comments| == 0 then []
    else if comments[0].id in gone then DropComments(comments[1..], gone)
    else [comments[0]] + DropComments(comments[1..], gone)
  }

  function DropGroup(groups: seq<Group>, name: string): seq<Group> {
    if |groups| == 0 then []
    else if groups[0].name == name then DropGroup(groups[1..], name)
    else [groups[0]] + DropGroup(groups[1..], name)
  }

  /** setThreadResolved: the replies of root carry its state. */
  function CarryResolved(comments: seq<Comment>, root: Comment): (r: seq<Comment>)
    ensures |r| == |comments|
    ensures forall i :: 0 <= i < |r| ==>
      r[i] == if comments[i].replyTo == root.id then comments[i].(resolved := root.resolved) else comments[i]
  {
    seq(|comments|, i requires 0 <= i < |comments| =>
      if comments[i].replyTo == root.id then comments[i].(resolved := root.resolved) else comments[i])
  }

  // ----- Log records -----

  datatype Op = OpDiff | OpDelDiff | OpDelGroup | OpDelAll | OpComment | OpDelComments | OpMeta | OpUnknown(name: string)

  datatype Record = Record(
    op: Op, group: string, diff: Option<Diff>, comment: Option<Comment>, ids: seq<string>, meta: Option<Meta>,
    seqs: Counters, rounds: Counters)

  const BLANK_RECORD := Record(OpDelAll, "", None, None, [], None, map[], map[])

  /** The comment takes the place of the one with its id, or joins the group; its replies take its state. */
  function PutComment(comments: seq<Comment>, c: Comment): seq<Comment> {
    var i := CommentIndex(comments, c.id);
    var put := if i < |comments| then comments[i := c] else comments + [c];
    if c.IsReply() then put else CarryResolved(put, c)
  }

  /** What replaying a record does to the groups; None is a record that cannot be replayed. */
  function ApplyGroups(groups: seq<Group>, rec: Record): Option<seq<Group>> {
    var i := GroupIndex(groups, rec.group);
    match rec.op
    case OpDiff =>
      if rec.diff.None? then None else
        var all := WithGroup(groups, rec.group);
        Some(all[i := all[i].(diffs := all[i].diffs + [rec.diff.value])])
    case OpDelDiff =>
      if i == |groups| then Some(groups) else
        Some(groups[i := groups[i].(
          diffs := DropDiffs(groups[i].diffs, rec.ids), comments := DropCommentsOn(groups[i].comments, rec.ids))])
    case OpDelGroup => Some(DropGroup(groups, rec.group))
    case OpDelAll => Some([])
    case OpComment =>
      if i == |groups| || rec.comment.None? then None else
        Some(groups[i := groups[i].(comments := PutComment(groups[i].comments, rec.comment.value))])
    case OpDelComments =>
      if i == |groups| then Some(groups) else
        Some(groups[i := groups[i].(comments := DropComments(groups[i].comments, rec.ids))])
    case OpMeta =>
      if rec.meta.None? then None else
        var all := WithGroup(groups, rec.group);
        Some(all[i := all[i].(meta := rec.meta.value)])
    case OpUnknown(_) => None
  }

  /** A record carries the counters as they stood after its change. */
  function Apply(s: State, rec: Record): Option<State> {
    match ApplyGroups(s.groups, rec)
    case None => None
    case Some(groups) => Some(State(groups, rec.seqs, rec.rounds))
  }

  /** The states of the log, one record after another. */
  function Replay(s: State, records: seq<Record>): Option<State>
    decreases |records|
  {
    if |records| == 0 then Some(s)
    else
      match Apply(s, records[0])
      case None => None
      case Some(next) => Replay(next, records[1..])
  }

  lemma {:induction false} ReplayMore(s: State, records: seq<Record>, rec: Record)
    ensures Replay(s, records + [rec]) ==
            match Replay(s, records) case None => None case Some(t) => Apply(t, rec)
    decreases |records|
  {
    if |records| == 0 {
      assert (records + [rec])[1..] == [];
    } else {
      assert (records + [rec])[1..] == records[1..] + [rec];
      match Apply(s, records[0])
      case None =>
      case Some(next) => ReplayMore(next, records[1..], rec);
    }
  }

  // ----- Two states that answer alike -----

  ghost predicate SameCounts(a: Counters, b: Counters) {
    forall key :: Count(a, key) == Count(b, key)
  }

  /** The same groups and the same counts; a counter at 0 may be written down or not. */
  ghost predicate Same(s: State, t: State) {
    s.groups == t.groups && SameCounts(s.ids, t.ids) && SameCounts(s.rounds, t.rounds)
  }

  /** A record says everything that follows it needs, so replaying it hides how the counters were written. */
  lemma ApplySame(s: State, t: State, rec: Record)
    requires s.groups == t.groups
    ensures Apply(s, rec) == Apply(t, rec)
  {
  }

  // ----- What every session keeps -----

  function IdsOf(g: Group): multiset<string> {
    multiset(DiffIds(g.diffs)) + multiset(CommentIds(g.comments)) + multiset(HookIds(g.meta.hooks))
  }

  function DiffIds(diffs: seq<Diff>): (r: seq<string>)
    ensures |r| == |diffs| && forall i :: 0 <= i < |r| ==> r[i] == diffs[i].id
  {
    seq(|diffs|, i requires 0 <= i < |diffs| => diffs[i].id)
  }

  function CommentIds(comments: seq<Comment>): (r: seq<string>)
    ensures |r| == |comments| && forall i :: 0 <= i < |r| ==> r[i] == comments[i].id
  {
    seq(|comments|, i requires 0 <= i < |comments| => comments[i].id)
  }

  function HookIds(hooks: seq<Hook>): (r: seq<string>)
    ensures |r| == |hooks| && forall i :: 0 <= i < |r| ==> r[i] == hooks[i].id
  {
    seq(|hooks|, i requires 0 <= i < |hooks| => hooks[i].id)
  }

  /** Every id in use, of diffs, comments and hooks alike. */
  function AllIds(groups: seq<Group>): multiset<string> {
    if |groups| == 0 then multiset{} else IdsOf(groups[0]) + AllIds(groups[1..])
  }

  ghost predicate NoneTwice(m: multiset<string>) {
    forall x :: m[x] <= 1
  }

  /** The id was numbered by the counter of its prefix. */
  ghost predicate HandedOut(id: string, ids: Counters) {
    exists prefix, n: nat :: prefix in {DIFF_PREFIX, COMMENT_PREFIX, HOOK_PREFIX} && NumberedBy(id, prefix, n, ids)
  }

  ghost predicate NumberedBy(id: string, prefix: string, n: nat, ids: Counters) {
    1 <= n <= Count(ids, prefix) && id == prefix + Decimal.Digits(n)
  }

  /** `root` opens the thread the reply `c` is in, and c shares its anchor and its state. */
  predicate Opens(root: Comment, c: Comment) {
    && root.id == c.replyTo
    && !root.IsReply()
    && root.anchor == c.anchor
    && root.resolved == c.resolved
    && !c.question
  }

  ghost predicate AnswersThread(comments: seq<Comment>, c: Comment) {
    c.IsReply() ==> exists root :: root in comments && Opens(root, c)
  }

  /** Every reply answers a comment of its group that opens a thread. */
  ghost predicate ThreadsOk(comments: seq<Comment>) {
    forall c :: c in comments ==> AnswersThread(comments, c)
  }

  ghost predicate AnchorsOk(diffs: seq<Diff>, comments: seq<Comment>) {
    forall c :: c in comments ==> HasDiff(diffs, c.anchor.diffId)
  }

  ghost predicate GroupOk(g: Group) {
    AnchorsOk(g.diffs, g.comments) && ThreadsOk(g.comments)
  }

  ghost predicate DistinctIds(comments: seq<Comment>) {
    forall j, k :: 0 <= j < k < |comments| ==> comments[j].id != comments[k].id
  }

  ghost predicate UniqueNames(groups: seq<Group>) {
    forall i, j :: 0 <= i < j < |groups| ==> groups[i].name != groups[j].name
  }

  lemma UniqueTail(groups: seq<Group>)
    requires |groups| > 0 && UniqueNames(groups)
    ensures UniqueNames(groups[1..]) && forall g :: g in groups[1..] ==> g.name != groups[0].name
  {
    var rest := groups[1..];
    assert forall i :: 0 <= i < |rest| ==> rest[i] == groups[i + 1];
  }

  lemma UniqueCons(g: Group, rest: seq<Group>)
    requires UniqueNames(rest) && forall x :: x in rest ==> x.name != g.name
    ensures UniqueNames([g] + rest)
  {
  }

  ghost predicate RoundsOk(groups: seq<Group>, rounds: Counters) {
    && (forall g :: g in groups ==> |g.diffs| <= Count(rounds, g.name))
    && (forall name :: Count(rounds, name) > 0 ==> GroupIndex(groups, name) < |groups|)
  }

  ghost predicate IdsOk(groups: seq<Group>, ids: Counters) {
    && NoneTwice(AllIds(groups))
    && forall x :: x in AllIds(groups) ==> HandedOut(x, ids)
  }

  ghost predicate Inv(s: State) {
    && UniqueNames(s.groups)
    && IdsOk(s.groups, s.ids)
    && RoundsOk(s.groups, s.rounds)
    && forall g :: g in s.groups ==> GroupOk(g)
  }

  lemma EmptyInv()
    ensures Inv(EMPTY)
  {
  }

  /** The invariant reads the counters only through their counts. */
  lemma InvSame(s: State, t: State)
    requires Inv(s) && Same(s, t)
    ensures Inv(t)
  {
    forall x | x in AllIds(t.groups)
      ensures HandedOut(x, t.ids)
    {
      var prefix, n: nat :| prefix in {DIFF_PREFIX, COMMENT_PREFIX, HOOK_PREFIX} && NumberedBy(x, prefix, n, s.ids);
      assert NumberedBy(x, prefix, n, t.ids);
    }
  }
}
