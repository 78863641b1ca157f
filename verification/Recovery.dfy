/** The session a file stands for, and that every file a save can leave stands for the right one. */
module Recovery {
  import opened Prelude
  import opened Text
  import opened Codec
  import opened Session
  import opened SessionCodec
  import opened SessionFile
  import opened SessionIds
  import Decimal
  import Keys

  // ----- From a file to a session -----

  function NonNull(slots: seq<Option<Group>>): seq<Group> {
    if |slots| == 0 then []
    else if slots[0].None? then NonNull(slots[1..])
    else [slots[0].value] + NonNull(slots[1..])
  }

  /** The largest int of the platform sbnn is built for. */
  const MAX_INT := 0x7FFF_FFFF_FFFF_FFFF

  /** The number a default title carries. */
  function TitleRound(title: string): Option<nat> {
    if !HasPrefix(title, "diff ") then None
    else
      var n :- Decimal.Parse(title[5..]);
      if n <= MAX_INT then Some(n) else None
  }

  function HighestRound(diffs: seq<Diff>, n: nat): nat {
    if |diffs| == 0 then n
    else
      var v := TitleRound(diffs[0].title);
      HighestRound(diffs[1..], if v.Some? && v.value > n then v.value else n)
  }

  /** roundsSoFar: how far a group written before rounds were counted has got. */
  function RoundsSoFar(g: Group): nat {
    HighestRound(g.diffs, |g.diffs|)
  }

  function GuessRounds(groups: seq<Group>): Counters {
    if |groups| == 0 then map[]
    else
      var last := groups[|groups| - 1];
      GuessRounds(groups[..|groups| - 1])[last.name := RoundsSoFar(last)]
  }

  function SharedCounters(n: nat): Counters {
    map[DIFF_PREFIX := n, COMMENT_PREFIX := n, HOOK_PREFIX := n]
  }

  /** A file written before the counters were split, or the rounds counted, leaves them empty. */
  function FromSnapshot(snap: Snapshot): State {
    var groups := NonNull(snap.groups);
    State(groups,
          if snap.seqs == map[] then SharedCounters(snap.seq_) else snap.seqs,
          if snap.rounds == map[] then GuessRounds(groups) else snap.rounds)
  }

  /** The session of a file that was taken apart; None when a record cannot be replayed. */
  function Restore(p: Parsed): Option<State>
    requires p.Parsed?
  {
    Replay(FromSnapshot(p.snap), p.records)
  }

  /** This build can read the file whole. */
  predicate Readable(b: string) {
    Parse(b).Parsed? && Parse(b).snap.version <= PERSIST_VERSION && Restore(Parse(b)).Some?
  }

  /** The session a server starts with: that of the file, or an empty one. */
  function LoadsTo(content: Option<string>): State {
    if content.Some? && Readable(content.value) then Restore(Parse(content.value)).value else EMPTY
  }

  /** The repository a file says its session belongs to. */
  function RepositoryOf(content: Option<string>): Option<string> {
    if content.Some? && Parse(content.value).Parsed? then Parse(content.value).snap.repository else None
  }

  // ----- From a session to a file -----

  function Slots(groups: seq<Group>): seq<Option<Group>> {
    if |groups| == 0 then [] else [Some(groups[0])] + Slots(groups[1..])
  }

  function HighestOf(entries: seq<Keys.Pair>): nat {
    if |entries| == 0 then 0 else Max(entries[0].value, HighestOf(entries[1..]))
  }

  /** sharedSeq: the highest of the counters. */
  function SharedSeq(ids: Counters): nat {
    HighestOf(Keys.Entries(ids))
  }

  function TakeSnapshot(s: State, repository: Option<string>): Snapshot {
    Snapshot(PERSIST_VERSION, SharedSeq(s.ids), s.ids, Slots(s.groups), s.rounds, repository)
  }

  function SnapshotFile(s: State, repository: Option<string>): string {
    Encode(SnapshotTo(TakeSnapshot(s, repository))) + "\n"
  }

  // ----- A snapshot stands for the session it was taken of -----

  lemma {:induction false} NonNullSlots(groups: seq<Group>)
    ensures NonNull(Slots(groups)) == groups
  {
    if |groups| > 0 {
      NonNullSlots(groups[1..]);
    }
  }

  lemma {:induction false} NothingGuessed(groups: seq<Group>)
    requires forall g :: g in groups ==> g.diffs == []
    ensures forall k :: Count(GuessRounds(groups), k) == 0
  {
    if |groups| > 0 {
      var last := groups[|groups| - 1];
      var before := groups[..|groups| - 1];
      assert last in groups && last.diffs == [];
      assert RoundsSoFar(last) == 0;
      NothingGuessed(before);
      forall k
        ensures Count(GuessRounds(groups), k) == 0
      {
        assert Count(GuessRounds(before), k) == 0;
      }
    }
  }

  lemma SnapshotRestores(s: State, repository: Option<string>)
    requires Inv(s)
    ensures Same(FromSnapshot(TakeSnapshot(s, repository)), s)
  {
    hide Inv, NonNull, Slots, GuessRounds, SharedCounters, SharedSeq, SameCounts;
    NonNullSlots(s.groups);
    IdsRestored(s.ids);
    RoundsRestored(s);
  }

  lemma IdsRestored(ids: Counters)
    ensures SameCounts(if ids == map[] then SharedCounters(SharedSeq(ids)) else ids, ids)
  {
    if ids == map[] {
      assert Keys.Entries(ids) == [];
    }
  }

  lemma RoundsRestored(s: State)
    requires Inv(s)
    ensures SameCounts(if s.rounds == map[] then GuessRounds(s.groups) else s.rounds, s.rounds)
  {
    if s.rounds == map[] {
      NoRoundsNoDiffs(s);
      NothingGuessed(s.groups);
    }
    hide Inv, GuessRounds;
  }

  lemma NoRoundsNoDiffs(s: State)
    requires Inv(s) && s.rounds == map[]
    ensures forall g :: g in s.groups ==> g.diffs == []
  {
    hide IdsOk, GroupOk, UniqueNames;
    assert forall name :: Count(s.rounds, name) == 0;
    forall g | g in s.groups
      ensures g.diffs == []
    {
      assert |g.diffs| <= Count(s.rounds, g.name);
    }
  }

  lemma SnapshotParses(s: State, repository: Option<string>)
    ensures var file := SnapshotFile(s, repository);
            Parse(file) == Parsed(TakeSnapshot(s, repository), [], |file| - 1, 0, false)
  {
    var t := SnapshotTo(TakeSnapshot(s, repository));
    var b := Encode(t);
    DecodeEncode(t, "\n");
    SnapshotRoundTrip(TakeSnapshot(s, repository));
    assert TrimLeft(b + "\n") == b + "\n" by {
      assert (b + "\n")[0] == b[0] && !IsSpace(b[0]);
    }
    NewlineIsSpace();
    hide SnapshotOf, SnapshotTo, TakeSnapshot, Encode, Decode, IsSpace, TrimLeft, ReadLog;
    assert Blank("\n");
  }

  /** A server that starts on a snapshot holds the session the snapshot was taken of. */
  lemma SnapshotLoads(s: State, repository: Option<string>)
    requires Inv(s)
    ensures var file := SnapshotFile(s, repository);
            Appendable(file) && Readable(file) && Same(LoadsTo(Some(file)), s)
  {
    SnapshotParses(s, repository);
    SnapshotRestores(s, repository);
    hide Parse, FromSnapshot;
  }

  lemma SnapshotNamesRepository(s: State, repository: Option<string>)
    ensures RepositoryOf(Some(SnapshotFile(s, repository))) == repository
  {
    SnapshotParses(s, repository);
    hide Parse;
  }

  // ----- A line stands for one change more -----

  lemma LineIsOneLine(rec: Record)
    requires !rec.op.OpUnknown?
    ensures OneLine(Line(rec))
  {
    LineReads(rec);
  }

  /** A whole record appended is one change more. */
  lemma AppendLoads(b: string, rec: Record)
    requires Appendable(b) && Readable(b) && !rec.op.OpUnknown?
    requires Apply(LoadsTo(Some(b)), rec).Some?
    ensures Appendable(b + Line(rec)) && Readable(b + Line(rec))
    ensures Some(LoadsTo(Some(b + Line(rec)))) == Apply(LoadsTo(Some(b)), rec)
  {
    LineIsOneLine(rec);
    LineReads(rec);
    hide Line, ReadLog, OneLine;
    ParseTail(b, Line(rec));
    hide Parse, Apply;
    ReplayMore(FromSnapshot(Parse(b).snap), Parse(b).records, rec);
  }

  lemma AppendNamesRepository(b: string, rec: Record)
    requires Appendable(b) && !rec.op.OpUnknown?
    ensures RepositoryOf(Some(b + Line(rec))) == RepositoryOf(Some(b))
  {
    LineIsOneLine(rec);
    hide Line, ReadLog, OneLine;
    ParseTail(b, Line(rec));
    hide Parse;
  }

  lemma TornIsOneLine(t: string, rec: Record)
    requires !rec.op.OpUnknown? && Torn(t, Line(rec)) && t != "" && !Loose(t)
    ensures OneLine(t)
  {
    LineReads(rec);
    if t <= Line(rec) {
      NewlineAtPrefix(t, Line(rec));
      assert t[0] == Line(rec)[0];
    }
  }

  /** A record that was cut short is no change at all. */
  lemma TornLoads(b: string, rec: Record, t: string)
    requires Appendable(b) && Readable(b) && !rec.op.OpUnknown?
    requires Torn(t, Line(rec)) && t != Line(rec)
    ensures Readable(b + t) && LoadsTo(Some(b + t)) == LoadsTo(Some(b))
  {
    if Loose(t) {
      ParseLoose(b, t);
      hide Parse;
      return;
    }
    TornReads(t, rec);
    if t != "" {
      TornIsOneLine(t, rec);
    }
    hide Line, ReadLog, OneLine, Torn;
    ParseTail(b, t);
    hide Parse;
    assert Parse(b).records + [] == Parse(b).records;
  }

  // ----- Names no one could have given -----

  predicate NameStart(c: char) {
    'A' <= c <= 'Z' || 'a' <= c <= 'z' || '0' <= c <= '9'
  }

  /** ValidateGroupName on a name that is not empty. */
  predicate ValidName(name: string) {
    1 <= |name| <= 64 && NameStart(name[0])
    && forall i :: 1 <= i < |name| ==> NameStart(name[i]) || name[i] in "._-"
  }

  function ValidGroups(groups: seq<Group>): seq<Group> {
    if |groups| == 0 then []
    else if ValidName(groups[0].name) then [groups[0]] + ValidGroups(groups[1..])
    else ValidGroups(groups[1..])
  }

  function InvalidNames(groups: seq<Group>): set<string> {
    set g | g in groups && !ValidName(g.name) :: g.name
  }

  /** The session without the groups whose names cannot be used. */
  function Cleaned(s: State): State {
    if |ValidGroups(s.groups)| == |s.groups| then s
    else s.(groups := ValidGroups(s.groups), rounds := s.rounds - InvalidNames(s.groups))
  }

  lemma {:induction false} ValidGroupsAre(groups: seq<Group>)
    ensures forall g :: g in ValidGroups(groups) <==> g in groups && ValidName(g.name)
    ensures |ValidGroups(groups)| <= |groups|
    ensures |ValidGroups(groups)| == |groups| ==> ValidGroups(groups) == groups
  {
    hide ValidName;
    if |groups| > 0 {
      ValidGroupsAre(groups[1..]);
      assert groups == [groups[0]] + groups[1..];
    }
  }

  lemma {:induction false} ValidGroupsUnique(groups: seq<Group>)
    requires UniqueNames(groups)
    ensures UniqueNames(ValidGroups(groups))
  {
    hide ValidName;
    if |groups| > 0 {
      UniqueTail(groups);
      ValidGroupsUnique(groups[1..]);
      ValidGroupsAre(groups[1..]);
      UniqueCons(groups[0], ValidGroups(groups[1..]));
    }
  }

  lemma {:induction false} ValidGroupsIds(groups: seq<Group>)
    ensures AllIds(ValidGroups(groups)) <= AllIds(groups)
  {
    hide ValidName, IdsOf;
    if |groups| > 0 {
      ValidGroupsIds(groups[1..]);
      var rest := ValidGroups(groups[1..]);
      if ValidName(groups[0].name) {
        assert ([groups[0]] + rest)[1..] == rest;
      }
    }
  }

  lemma ValidGroupsRounds(groups: seq<Group>, rounds: Counters)
    requires RoundsOk(groups, rounds)
    ensures RoundsOk(ValidGroups(groups), rounds - InvalidNames(groups))
  {
    ValidGroupsAre(groups);
    hide ValidGroups, ValidName, GroupIndex;
    var left, counts := ValidGroups(groups), rounds - InvalidNames(groups);
    forall name | Count(counts, name) > 0
      ensures GroupIndex(left, name) < |left|
    {
      var k := GroupIndex(groups, name);
      assert Count(rounds, name) > 0;
      assert groups[k] in left;
    }
  }

  /** Dropping the groups that cannot be named keeps what a session keeps. */
  lemma CleanedKeeps(s: State)
    requires Inv(s)
    ensures Inv(Cleaned(s))
    ensures forall id :: HandedOut(id, s.ids) ==> HandedOut(id, Cleaned(s).ids)
  {
    hide ValidGroups, ValidName, GroupOk, IdsOk, GroupIndex, AllIds, UniqueNames, RoundsOk, InvalidNames, HandedOut;
    ValidGroupsAre(s.groups);
    if |ValidGroups(s.groups)| != |s.groups| {
      ValidGroupsUnique(s.groups);
      ValidGroupsIds(s.groups);
      IdsOkFewer(s.groups, ValidGroups(s.groups), s.ids);
      ValidGroupsRounds(s.groups, s.rounds);
    }
  }

  /** Every group has a name that can be used. */
  ghost predicate Named(groups: seq<Group>) {
    forall g :: g in groups ==> ValidName(g.name)
  }

  lemma {:induction false} NamedAreValid(groups: seq<Group>)
    ensures |ValidGroups(groups)| == |groups| <==> Named(groups)
  {
    hide ValidName;
    if |groups| > 0 {
      NamedAreValid(groups[1..]);
      ValidGroupsAre(groups[1..]);
      assert groups == [groups[0]] + groups[1..];
    }
  }

  /** A start drops nothing exactly when every group can be named. */
  lemma CleanedIsAll(s: State)
    ensures Cleaned(s) == s <==> Named(s.groups)
  {
    NamedAreValid(s.groups);
    hide ValidGroups, Named, InvalidNames;
  }

  lemma CleanedSame(s: State, t: State)
    requires Same(s, t)
    ensures Same(Cleaned(s), Cleaned(t))
  {
    hide ValidGroups, InvalidNames;
    var gone := InvalidNames(s.groups);
    forall name
      ensures Count(s.rounds - gone, name) == Count(t.rounds - gone, name)
    {
      assert Count(s.rounds, name) == Count(t.rounds, name);
    }
  }
}
