/** Sessions and log records as trees, and back. */
module SessionCodec {
  import opened Prelude
  import opened Codec
  import opened Session
  import Decimal
  import Keys

  // ----- Scalars and lists -----

  function Nat(n: nat): Tree { Atom(Decimal.Digits(n)) }

  function NatOf(t: Tree): Option<nat> {
    if t.Atom? then Decimal.Parse(t.text) else None
  }

  function Bool(b: bool): Tree { Atom(if b then "true" else "false") }

  function BoolOf(t: Tree): Option<bool> {
    if t == Atom("true") then Some(true) else if t == Atom("false") then Some(false) else None
  }

  function TextTo(s: string): Tree { Atom(s) }

  function TextOf(t: Tree): Option<string> {
    if t.Atom? then Some(t.text) else None
  }

  function ListTo<T>(xs: seq<T>, f: T -> Tree): seq<Tree> {
    if |xs| == 0 then [] else [f(xs[0])] + ListTo(xs[1..], f)
  }

  function ListOf<T>(items: seq<Tree>, f: Tree -> Option<T>): Option<seq<T>> {
    if |items| == 0 then Some([])
    else
      var first :- f(items[0]);
      var rest :- ListOf(items[1..], f);
      Some([first] + rest)
  }

  lemma {:induction false} ListRoundTrip<T>(xs: seq<T>, to: T -> Tree, of: Tree -> Option<T>)
    requires forall x :: x in xs ==> of(to(x)) == Some(x)
    ensures ListOf(ListTo(xs, to), of) == Some(xs)
  {
    if |xs| > 0 {
      ListRoundTrip(xs[1..], to, of);
      assert ListTo(xs, to)[1..] == ListTo(xs[1..], to);
      assert [xs[0]] + xs[1..] == xs;
    }
  }

  function OptionTo<T>(x: Option<T>, f: T -> Tree): Tree {
    if x.None? then List([]) else List([f(x.value)])
  }

  function OptionOf<T>(t: Tree, f: Tree -> Option<T>): Option<Option<T>> {
    if !t.List? || |t.items| > 1 then None
    else if |t.items| == 0 then Some(None)
    else
      var x :- f(t.items[0]);
      Some(Some(x))
  }

  lemma NatRoundTrip(n: nat)
    ensures NatOf(Nat(n)) == Some(n)
  {
    Decimal.ParseDigits(n);
  }

  // ----- Counters -----

  function PairTo(p: Keys.Pair): Tree { List([Atom(p.key), Nat(p.value)]) }

  function PairOf(t: Tree): Option<Keys.Pair> {
    if !t.List? || |t.items| != 2 then None
    else
      var key :- TextOf(t.items[0]);
      var value :- NatOf(t.items[1]);
      Some(Keys.Pair(key, value))
  }

  function CountersTo(m: Counters): Tree { List(ListTo(Keys.Entries(m), PairTo)) }

  function CountersOf(t: Tree): Option<Counters> {
    if !t.List? then None
    else
      var pairs :- ListOf(t.items, PairOf);
      Some(Keys.MapOf(pairs))
  }

  lemma CountersRoundTrip(m: Counters)
    ensures CountersOf(CountersTo(m)) == Some(m)
  {
    forall p: Keys.Pair
      ensures PairOf(PairTo(p)) == Some(p)
    {
      NatRoundTrip(p.value);
    }
    ListRoundTrip(Keys.Entries(m), PairTo, PairOf);
    Keys.MapOfEntries(m);
  }

  // ----- Comments, diffs and hooks -----

  function AnchorTo(a: Anchor): Tree {
    List([Atom(a.diffId), Atom(a.fileId), Atom(a.path), Atom(a.side), Nat(a.startLine), Nat(a.endLine), Atom(a.snippet)])
  }

  function AnchorOf(t: Tree): Option<Anchor> {
    if !t.List? || |t.items| != 7 then None
    else
      var diffId :- TextOf(t.items[0]);
      var fileId :- TextOf(t.items[1]);
      var path :- TextOf(t.items[2]);
      var side :- TextOf(t.items[3]);
      var startLine :- NatOf(t.items[4]);
      var endLine :- NatOf(t.items[5]);
      var snippet :- TextOf(t.items[6]);
      Some(Anchor(diffId, fileId, path, side, startLine, endLine, snippet))
  }

  lemma AnchorRoundTrip(a: Anchor)
    ensures AnchorOf(AnchorTo(a)) == Some(a)
  {
    NatRoundTrip(a.startLine);
    NatRoundTrip(a.endLine);
    hide NatOf, Nat;
  }

  function CommentTo(c: Comment): Tree {
    List([Atom(c.id), Atom(c.group), AnchorTo(c.anchor), Atom(c.author), Atom(c.body), Bool(c.question),
          Atom(c.replyTo), Bool(c.resolved), Nat(c.created), Nat(c.updated)])
  }

  function CommentOf(t: Tree): Option<Comment> {
    if !t.List? || |t.items| != 10 then None
    else
      var id :- TextOf(t.items[0]);
      var group :- TextOf(t.items[1]);
      var anchor :- AnchorOf(t.items[2]);
      var author :- TextOf(t.items[3]);
      var body :- TextOf(t.items[4]);
      var question :- BoolOf(t.items[5]);
      var replyTo :- TextOf(t.items[6]);
      var resolved :- BoolOf(t.items[7]);
      var created :- NatOf(t.items[8]);
      var updated :- NatOf(t.items[9]);
      Some(Comment(id, group, anchor, author, body, question, replyTo, resolved, created, updated))
  }

  lemma BoolRoundTrip(b: bool)
    ensures BoolOf(Bool(b)) == Some(b)
  {
  }

  lemma CommentRoundTrip(c: Comment)
    ensures CommentOf(CommentTo(c)) == Some(c)
  {
    AnchorRoundTrip(c.anchor);
    BoolRoundTrip(c.question);
    BoolRoundTrip(c.resolved);
    NatRoundTrip(c.created);
    NatRoundTrip(c.updated);
    hide AnchorOf, AnchorTo, NatOf, Nat, BoolOf, Bool;
  }

  function DiffTo(d: Diff): Tree { List([Atom(d.id), Atom(d.title), Nat(d.created), Atom(d.content)]) }

  function DiffOf(t: Tree): Option<Diff> {
    if !t.List? || |t.items| != 4 then None
    else
      var id :- TextOf(t.items[0]);
      var title :- TextOf(t.items[1]);
      var created :- NatOf(t.items[2]);
      var content :- TextOf(t.items[3]);
      Some(Diff(id, title, created, content))
  }

  lemma DiffRoundTrip(d: Diff)
    ensures DiffOf(DiffTo(d)) == Some(d)
  {
    NatRoundTrip(d.created);
    hide NatOf, Nat;
  }

  function RunTo(r: HookRun): Tree { List([Nat(r.at), Bool(r.ok), Atom(r.detail)]) }

  function RunOf(t: Tree): Option<HookRun> {
    if !t.List? || |t.items| != 3 then None
    else
      var at :- NatOf(t.items[0]);
      var ok :- BoolOf(t.items[1]);
      var detail :- TextOf(t.items[2]);
      Some(HookRun(at, ok, detail))
  }

  lemma RunRoundTrip(r: Option<HookRun>)
    ensures OptionOf(OptionTo(r, RunTo), RunOf) == Some(r)
  {
    if r.Some? {
      NatRoundTrip(r.value.at);
      BoolRoundTrip(r.value.ok);
    }
    hide NatOf, Nat, BoolOf, Bool;
  }

  function HookTo(h: Hook): Tree {
    List([Atom(h.id), Atom(h.command), Atom(h.url), Nat(h.created), OptionTo(h.lastCommandRun, RunTo), OptionTo(h.lastPost, RunTo)])
  }

  function HookOf(t: Tree): Option<Hook> {
    if !t.List? || |t.items| != 6 then None
    else
      var id :- TextOf(t.items[0]);
      var command :- TextOf(t.items[1]);
      var url :- TextOf(t.items[2]);
      var created :- NatOf(t.items[3]);
      var lastCommandRun :- OptionOf(t.items[4], RunOf);
      var lastPost :- OptionOf(t.items[5], RunOf);
      Some(Hook(id, command, url, created, lastCommandRun, lastPost))
  }

  lemma HookRoundTrip(h: Hook)
    ensures HookOf(HookTo(h)) == Some(h)
  {
    NatRoundTrip(h.created);
    RunRoundTrip(h.lastCommandRun);
    RunRoundTrip(h.lastPost);
    hide NatOf, Nat, OptionOf, OptionTo;
  }

  function MetaTo(m: Meta): Tree { List([Nat(m.reviewedAt), Atom(m.note), Atom(m.verdict), List(ListTo(m.hooks, HookTo))]) }

  function MetaOf(t: Tree): Option<Meta> {
    if !t.List? || |t.items| != 4 || !t.items[3].List? then None
    else
      var reviewedAt :- NatOf(t.items[0]);
      var note :- TextOf(t.items[1]);
      var verdict :- TextOf(t.items[2]);
      var hooks :- ListOf(t.items[3].items, HookOf);
      Some(Meta(reviewedAt, note, verdict, hooks))
  }

  lemma MetaRoundTrip(m: Meta)
    ensures MetaOf(MetaTo(m)) == Some(m)
  {
    NatRoundTrip(m.reviewedAt);
    forall h: Hook
      ensures HookOf(HookTo(h)) == Some(h)
    {
      HookRoundTrip(h);
    }
    hide HookOf, HookTo, NatOf, Nat;
    ListRoundTrip(m.hooks, HookTo, HookOf);
    hide ListOf, ListTo;
  }

  function GroupTo(g: Group): Tree {
    List([Atom(g.name), List(ListTo(g.diffs, DiffTo)), List(ListTo(g.comments, CommentTo)), MetaTo(g.meta)])
  }

  function GroupOf(t: Tree): Option<Group> {
    if !t.List? || |t.items| != 4 || !t.items[1].List? || !t.items[2].List? then None
    else
      var name :- TextOf(t.items[0]);
      var diffs :- ListOf(t.items[1].items, DiffOf);
      var comments :- ListOf(t.items[2].items, CommentOf);
      var meta :- MetaOf(t.items[3]);
      Some(Group(name, diffs, comments, meta))
  }

  lemma GroupRoundTrip(g: Group)
    ensures GroupOf(GroupTo(g)) == Some(g)
  {
    hide DiffOf, DiffTo, CommentOf, CommentTo, MetaOf, MetaTo, ListOf, ListTo;
    forall d: Diff
      ensures DiffOf(DiffTo(d)) == Some(d)
    {
      DiffRoundTrip(d);
    }
    forall c: Comment
      ensures CommentOf(CommentTo(c)) == Some(c)
    {
      CommentRoundTrip(c);
    }
    MetaRoundTrip(g.meta);
    ListRoundTrip(g.diffs, DiffTo, DiffOf);
    ListRoundTrip(g.comments, CommentTo, CommentOf);
  }

  // ----- Snapshots -----

  /** A group is None where the file holds a JSON null. */
  datatype Snapshot = Snapshot(
    version: nat, seq_: nat, seqs: Counters, groups: seq<Option<Group>>, rounds: Counters, repository: Option<string>)

  const PERSIST_VERSION := 2

  function SlotTo(g: Option<Group>): Tree { OptionTo(g, GroupTo) }

  function SlotOf(t: Tree): Option<Option<Group>> { OptionOf(t, GroupOf) }

  function SnapshotTo(s: Snapshot): Tree {
    List([Nat(s.version), Nat(s.seq_), CountersTo(s.seqs), List(ListTo(s.groups, SlotTo)), CountersTo(s.rounds),
          OptionTo(s.repository, TextTo)])
  }

  /** Of a newer version nothing but its number is read. */
  function SnapshotOf(t: Tree): Option<Snapshot> {
    if !t.List? || |t.items| == 0 then None
    else
      var version :- NatOf(t.items[0]);
      if version > PERSIST_VERSION then Some(Snapshot(version, 0, map[], [], map[], None))
      else if |t.items| != 6 || !t.items[3].List? then None
      else
        var seq_ :- NatOf(t.items[1]);
        var seqs :- CountersOf(t.items[2]);
        var groups :- ListOf(t.items[3].items, SlotOf);
        var rounds :- CountersOf(t.items[4]);
        var repository :- OptionOf(t.items[5], TextOf);
        Some(Snapshot(version, seq_, seqs, groups, rounds, repository))
  }

  lemma SlotRoundTrip(g: Option<Group>)
    ensures SlotOf(SlotTo(g)) == Some(g)
  {
    if g.Some? {
      GroupRoundTrip(g.value);
    }
    hide GroupOf, GroupTo;
  }

  lemma RepositoryRoundTrip(r: Option<string>)
    ensures OptionOf(OptionTo(r, TextTo), TextOf) == Some(r)
  {
  }

  lemma SlotsRoundTrip(groups: seq<Option<Group>>)
    ensures ListOf(ListTo(groups, SlotTo), SlotOf) == Some(groups)
  {
    forall g: Option<Group>
      ensures SlotOf(SlotTo(g)) == Some(g)
    {
      SlotRoundTrip(g);
    }
    hide SlotOf, SlotTo;
    ListRoundTrip(groups, SlotTo, SlotOf);
  }

  lemma SnapshotRoundTrip(s: Snapshot)
    requires s.version <= PERSIST_VERSION
    ensures SnapshotOf(SnapshotTo(s)) == Some(s)
  {
    hide SlotOf, SlotTo, NatOf, Nat, CountersOf, CountersTo, OptionOf, OptionTo, ListOf, ListTo;
    SlotsRoundTrip(s.groups);
    NatRoundTrip(s.version);
    NatRoundTrip(s.seq_);
    CountersRoundTrip(s.seqs);
    CountersRoundTrip(s.rounds);
    RepositoryRoundTrip(s.repository);
  }

  // ----- Records -----

  function OpName(op: Op): string {
    match op
    case OpDiff => "diff"
    case OpDelDiff => "delDiff"
    case OpDelGroup => "delGroup"
    case OpDelAll => "delAll"
    case OpComment => "comment"
    case OpDelComments => "delComments"
    case OpMeta => "meta"
    case OpUnknown(name) => name
  }

  function OpNamed(name: string): Op {
    if name == "diff" then OpDiff
    else if name == "delDiff" then OpDelDiff
    else if name == "delGroup" then OpDelGroup
    else if name == "delAll" then OpDelAll
    else if name == "comment" then OpComment
    else if name == "delComments" then OpDelComments
    else if name == "meta" then OpMeta
    else OpUnknown(name)
  }

  lemma OpRoundTrip(op: Op)
    requires !op.OpUnknown?
    ensures OpNamed(OpName(op)) == op
  {
  }

  function RecordTo(r: Record): Tree {
    List([Atom(OpName(r.op)), Atom(r.group), OptionTo(r.diff, DiffTo), OptionTo(r.comment, CommentTo),
          List(ListTo(r.ids, TextTo)), OptionTo(r.meta, MetaTo), CountersTo(r.seqs), CountersTo(r.rounds)])
  }

  function RecordOf(t: Tree): Option<Record> {
    if !t.List? || |t.items| != 8 || !t.items[4].List? then None
    else
      var op :- TextOf(t.items[0]);
      var group :- TextOf(t.items[1]);
      var diff :- OptionOf(t.items[2], DiffOf);
      var comment :- OptionOf(t.items[3], CommentOf);
      var ids :- ListOf(t.items[4].items, TextOf);
      var meta :- OptionOf(t.items[5], MetaOf);
      var seqs :- CountersOf(t.items[6]);
      var rounds :- CountersOf(t.items[7]);
      Some(Record(OpNamed(op), group, diff, comment, ids, meta, seqs, rounds))
  }

  lemma RecordOptions(r: Record)
    ensures OptionOf(OptionTo(r.diff, DiffTo), DiffOf) == Some(r.diff)
    ensures OptionOf(OptionTo(r.comment, CommentTo), CommentOf) == Some(r.comment)
    ensures OptionOf(OptionTo(r.meta, MetaTo), MetaOf) == Some(r.meta)
  {
    if r.diff.Some? {
      DiffRoundTrip(r.diff.value);
    }
    if r.comment.Some? {
      CommentRoundTrip(r.comment.value);
    }
    if r.meta.Some? {
      MetaRoundTrip(r.meta.value);
    }
    hide DiffOf, DiffTo, CommentOf, CommentTo, MetaOf, MetaTo;
  }

  lemma RecordRoundTrip(r: Record)
    requires !r.op.OpUnknown?
    ensures RecordOf(RecordTo(r)) == Some(r)
  {
    hide DiffOf, DiffTo, CommentOf, CommentTo, MetaOf, MetaTo, OptionOf, OptionTo, CountersOf, CountersTo, OpName, OpNamed;
    hide ListOf, ListTo;
    RecordOptions(r);
    OpRoundTrip(r.op);
    CountersRoundTrip(r.seqs);
    CountersRoundTrip(r.rounds);
    ListRoundTrip(r.ids, TextTo, TextOf);
  }
}
