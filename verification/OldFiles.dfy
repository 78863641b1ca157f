/** Files that are not as this build writes them: of older builds, with null groups, or broken in the middle. */
module OldFiles {
  import opened Prelude
  import opened Text
  import opened Codec
  import opened Session
  import opened SessionIds
  import opened SessionCodec
  import opened SessionFile
  import opened Recovery
  import opened Sequences
  import Decimal
  import Keys

  // ----- Groups that are null -----

  /** The groups that are there, in their order. */
  lemma {:induction false} NonNullAre(slots: seq<Option<Group>>)
    ensures Slots(NonNull(slots)) == Filter(slots, (g: Option<Group>) => g.Some?)
  {
    if |slots| > 0 {
      NonNullAre(slots[1..]);
      FilterCons(slots[0], slots[1..], (g: Option<Group>) => g.Some?);
      assert [slots[0]] + slots[1..] == slots;
    }
  }

  // ----- Rounds that were not counted -----

  /** The number a default title carries, and nothing for any other title. */
  lemma TitleNumber(n: nat, d: Diff)
    requires d.title == "diff " + Decimal.Digits(n)
    ensures TitleRound(d.title) == if n <= MAX_INT then Some(n) else None
  {
    hide Decimal.Parse, Decimal.Digits;
    Decimal.ParseDigits(n);
    assert d.title[5..] == Decimal.Digits(n);
  }

  lemma {:induction false} HighestIs(diffs: seq<Diff>, n: nat)
    ensures HighestRound(diffs, n) >= n
    ensures forall d :: d in diffs && TitleRound(d.title).Some? ==> TitleRound(d.title).value <= HighestRound(diffs, n)
    ensures HighestRound(diffs, n) == n || exists d :: d in diffs && TitleRound(d.title) == Some(HighestRound(diffs, n))
    decreases |diffs|
  {
    hide TitleRound;
    if |diffs| > 0 {
      var v := TitleRound(diffs[0].title);
      HighestIs(diffs[1..], if v.Some? && v.value > n then v.value else n);
      assert diffs == [diffs[0]] + diffs[1..];
    }
  }

  lemma {:induction false} GuessOf(groups: seq<Group>, i: nat)
    requires UniqueNames(groups) && i < |groups|
    ensures Count(GuessRounds(groups), groups[i].name) == RoundsSoFar(groups[i])
  {
    hide RoundsSoFar;
    var last := |groups| - 1;
    if i < last {
      var init := groups[..last];
      assert forall j, k :: 0 <= j < k < |init| ==> init[j].name != init[k].name;
      GuessOf(init, i);
      assert groups[i].name != groups[last].name;
    }
  }

  lemma {:induction false} GuessedNames(groups: seq<Group>)
    ensures forall name :: name in GuessRounds(groups) ==> exists g :: g in groups && g.name == name
  {
    hide RoundsSoFar;
    if |groups| > 0 {
      GuessedNames(groups[..|groups| - 1]);
    }
  }

  /**
   * The rounds guessed of a group are at least its diffs and at least the
   * number of each default title in it, and no more than that.
   */
  lemma GuessCovers(groups: seq<Group>, g: Group)
    requires UniqueNames(groups) && g in groups
    ensures var n := Count(GuessRounds(groups), g.name);
            && n >= |g.diffs|
            && (forall d, k: nat :: d in g.diffs && d.title == "diff " + Decimal.Digits(k) && k <= MAX_INT ==> k <= n)
            && (n == |g.diffs| || exists d :: d in g.diffs && TitleRound(d.title) == Some(n))
  {
    hide HighestRound, TitleRound, Decimal.Digits;
    var i :| 0 <= i < |groups| && groups[i] == g;
    GuessOf(groups, i);
    HighestIs(g.diffs, |g.diffs|);
    forall d, k: nat | d in g.diffs && d.title == "diff " + Decimal.Digits(k) && k <= MAX_INT
      ensures k <= Count(GuessRounds(groups), g.name)
    {
      TitleNumber(k, d);
    }
  }

  // ----- Counters that were one -----

  /** An id of any prefix, numbered by one counter that they shared. */
  ghost predicate SharedId(id: string, n: nat) {
    exists prefix, k: nat :: prefix in {DIFF_PREFIX, COMMENT_PREFIX, HOOK_PREFIX} && NumberedBelow(id, prefix, k, n)
  }

  ghost predicate NumberedBelow(id: string, prefix: string, k: nat, n: nat) {
    1 <= k <= n && id == prefix + Decimal.Digits(k)
  }

  lemma SharedIsHandedOut(id: string, n: nat)
    requires SharedId(id, n)
    ensures HandedOut(id, SharedCounters(n))
  {
    hide Decimal.Digits;
    var prefix, k: nat :| prefix in {DIFF_PREFIX, COMMENT_PREFIX, HOOK_PREFIX} && NumberedBelow(id, prefix, k, n);
    assert NumberedBy(id, prefix, k, SharedCounters(n));
  }

  /**
   * A file of a build that counted all ids together, and rounds not at all,
   * loads to a session that keeps what every session keeps: none of its ids
   * can be given again, nor can the title of a round it holds.
   */
  lemma OldFileKeeps(snap: Snapshot)
    requires snap.seqs == map[] && snap.rounds == map[]
    requires var groups := NonNull(snap.groups);
             && UniqueNames(groups) && (forall g :: g in groups ==> GroupOk(g))
             && NoneTwice(AllIds(groups)) && forall x :: x in AllIds(groups) ==> SharedId(x, snap.seq_)
    ensures Inv(FromSnapshot(snap))
  {
    hide NonNull, GuessRounds, SharedCounters, GroupOk, AllIds, HandedOut, SharedId, GroupIndex;
    var groups := NonNull(snap.groups);
    forall x | x in AllIds(groups)
      ensures HandedOut(x, SharedCounters(snap.seq_))
    {
      SharedIsHandedOut(x, snap.seq_);
    }
    OldRounds(groups);
  }

  lemma OldRounds(groups: seq<Group>)
    requires UniqueNames(groups)
    ensures RoundsOk(groups, GuessRounds(groups))
  {
    hide GuessRounds, GroupIndex, TitleRound, Decimal.Digits, UniqueNames;
    forall g | g in groups
      ensures |g.diffs| <= Count(GuessRounds(groups), g.name)
    {
      GuessCovers(groups, g);
    }
    GuessedNames(groups);
    forall name | Count(GuessRounds(groups), name) > 0
      ensures GroupIndex(groups, name) < |groups|
    {
      var g :| g in groups && g.name == name;
    }
  }

  lemma {:induction false} HighestOfAre(entries: seq<Keys.Pair>)
    ensures forall e :: e in entries ==> e.value <= HighestOf(entries)
    ensures HighestOf(entries) == 0 || exists e :: e in entries && e.value == HighestOf(entries)
  {
    if |entries| > 0 {
      HighestOfAre(entries[1..]);
      assert entries == [entries[0]] + entries[1..];
    }
  }

  lemma {:induction false} EntriesAre(m: map<string, nat>)
    ensures forall k, v :: Keys.Pair(k, v) in Keys.Entries(m) <==> k in m && m[k] == v
    decreases |m|
  {
    if m != map[] {
      var k := Keys.Least(m.Keys);
      Keys.Smaller(m, k);
      EntriesAre(m - {k});
    }
  }

  /** The one counter that is written for builds that know no other is the highest of them. */
  lemma SharedSeqIsHighest(ids: Counters)
    ensures forall key :: Count(ids, key) <= SharedSeq(ids)
    ensures SharedSeq(ids) == 0 || exists key :: key in ids && ids[key] == SharedSeq(ids)
  {
    hide Keys.Entries, HighestOf;
    var entries := Keys.Entries(ids);
    EntriesAre(ids);
    HighestOfAre(entries);
    forall key | key in ids
      ensures Count(ids, key) <= SharedSeq(ids)
    {
      assert Keys.Pair(key, ids[key]) in entries;
    }
    if SharedSeq(ids) != 0 {
      var e :| e in entries && e.value == HighestOf(entries);
      assert Keys.Pair(e.key, e.value) in entries;
    }
  }

  // ----- A record that is broken, and not the last -----

  lemma BrokenLine(line: string, more: string)
    requires '\n' !in line && !Blank(line) && DecodeLine(line).None? && more != ""
    ensures ReadLog(line + "\n" + more) == BrokenLog
  {
    hide DecodeLine, Blank;
    var t := line + "\n" + more;
    assert t == (line + "\n") + more;
    NewlineEnds(line);
    NewlineAtConcat(line + "\n", more);
    assert t[..|line|] == line && t[|line| + 1..] == more;
  }

  /** A record that cannot be read makes the file broken, unless it is the last line; a whole one behind it does not help. */
  lemma BrokenInTheMiddle(s: State, repository: Option<string>, log: string, line: string, more: string)
    requires ReadLog(log).Log? && !ReadLog(log).dirty
    requires '\n' !in line && !Blank(line) && DecodeLine(line).None? && more != ""
    ensures Parse(SnapshotFile(s, repository) + (log + (line + "\n" + more))) == Broken
  {
    hide SnapshotFile, TakeSnapshot, Parse, ParseRest, ReadLog, Decode, TrimLeft, SnapshotOf, DecodeLine, Blank;
    var b, t := SnapshotFile(s, repository), log + (line + "\n" + more);
    SnapshotStands(s, repository);
    SnapshotRest(s, repository);
    BrokenLine(line, more);
    ReadLogConcat(log, line + "\n" + more);
    NotBlankBehind(log, line, "\n" + more);
    ParseExtend(b, t);
    assert line + "\n" + more == line + ("\n" + more);
    RestBroken(Parse(b).snap, Parse(b).snapBytes, t);
  }

  lemma SnapshotStands(s: State, repository: Option<string>)
    ensures var b := SnapshotFile(s, repository); Appendable(b) && Parse(b).snap.version <= PERSIST_VERSION
  {
    hide SnapshotFile, Parse;
    SnapshotParses(s, repository);
  }

  lemma RestBroken(snap: Snapshot, snapBytes: nat, t: string)
    requires snap.version <= PERSIST_VERSION && ReadLog(t) == BrokenLog && !Blank("\n" + t)
    ensures ParseRest(snap, snapBytes, "\n" + t) == Broken
  {
    hide ReadLog, Blank;
    assert ("\n" + t)[1..] == t && ("\n" + t)[0] == '\n';
  }

  lemma SnapshotRest(s: State, repository: Option<string>)
    ensures var b := SnapshotFile(s, repository); Decode(TrimLeft(b)).Some? && Decode(TrimLeft(b)).value.rest == "\n"
  {
    var t := SnapshotTo(TakeSnapshot(s, repository));
    var b := Encode(t);
    DecodeEncode(t, "\n");
    assert TrimLeft(b + "\n") == b + "\n" by {
      assert (b + "\n")[0] == b[0] && !IsSpace(b[0]);
    }
    hide SnapshotTo, Encode, Decode;
  }

  lemma NotBlankBehind(log: string, line: string, rest: string)
    requires !Blank(line)
    ensures !Blank("\n" + (log + (line + rest)))
  {
    hide IsSpace;
    var i :| 0 <= i < |line| && !IsSpace(line[i]);
    var all := "\n" + (log + (line + rest));
    assert all[1 + |log| + i] == line[i];
  }
}
