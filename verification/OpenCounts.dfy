/** The unresolved comments of a page, counted by round and by file, with the objects of the last count kept. */
module OpenCounting {
  import opened Session
  import opened Threads

  // ----- Counts -----

  type Tally = map<string, nat>

  function Bump(t: Tally, key: string): Tally {
    t[key := (if key in t then t[key] else 0) + 1]
  }

  /** What is counted: an unresolved comment that is not a reply to a comment of the list. */
  function Counted(comments: seq<Comment>): seq<Comment> {
    Unresolved(Heads(comments, Roots(comments)))
  }

  function RoundOf(t: map<string, Tally>, round: string): Tally {
    if round in t then t[round] else map[]
  }

  /** By round and file. */
  function ByRound(counted: seq<Comment>): map<string, Tally> {
    if |counted| == 0 then map[]
    else
      var before := ByRound(counted[..|counted| - 1]);
      var a := counted[|counted| - 1].anchor;
      before[a.diffId := Bump(RoundOf(before, a.diffId), a.fileId)]
  }

  /** By round. */
  function Totals(counted: seq<Comment>): Tally {
    if |counted| == 0 then map[]
    else Bump(Totals(counted[..|counted| - 1]), counted[|counted| - 1].anchor.diffId)
  }

  lemma ByRoundSnoc(counted: seq<Comment>, c: Comment)
    ensures ByRound(counted + [c])
         == ByRound(counted)[c.anchor.diffId := Bump(RoundOf(ByRound(counted), c.anchor.diffId), c.anchor.fileId)]
    ensures Totals(counted + [c]) == Bump(Totals(counted), c.anchor.diffId)
  {
    assert (counted + [c])[..|counted|] == counted;
  }

  // ----- What the counts mean -----

  function OnFile(counted: seq<Comment>, round: string, file: string): nat {
    if |counted| == 0 then 0
    else
      var a := counted[|counted| - 1].anchor;
      OnFile(counted[..|counted| - 1], round, file) + if a.diffId == round && a.fileId == file then 1 else 0
  }

  /** Each file of each round has its number of comments, and a file without one is absent. */
  lemma {:induction false} CountsAreOfFiles(counted: seq<Comment>, round: string, file: string)
    ensures file in RoundOf(ByRound(counted), round) <==> OnFile(counted, round, file) > 0
    ensures file in RoundOf(ByRound(counted), round) ==> RoundOf(ByRound(counted), round)[file] == OnFile(counted, round, file)
  {
    if |counted| > 0 {
      CountsAreOfFiles(counted[..|counted| - 1], round, file);
    }
  }

  ghost function Chosen(t: Tally): (key: string)
    requires t != map[]
    ensures key in t
  {
    var key :| key in t;
    key
  }

  ghost function Sum(t: Tally): nat
    decreases |t|
  {
    if t == map[] then 0
    else
      var key := Chosen(t);
      t[key] + Sum(t - {key})
  }

  lemma {:induction false} SumWithout(t: Tally, key: string)
    requires key in t
    ensures Sum(t) == t[key] + Sum(t - {key})
    decreases |t|
  {
    var first := Chosen(t);
    if first != key {
      SumWithout(t - {first}, key);
      SumWithout(t - {key}, first);
      assert t - {first} - {key} == t - {key} - {first};
    }
  }

  lemma SumOfBump(t: Tally, key: string)
    ensures Sum(Bump(t, key)) == Sum(t) + 1
  {
    hide Sum;
    SumWithout(Bump(t, key), key);
    if key in t {
      SumWithout(t, key);
      assert Bump(t, key) - {key} == t - {key};
    } else {
      assert Bump(t, key) - {key} == t;
    }
  }

  lemma SumOfNone()
    ensures Sum(map[]) == 0
  {
  }

  /** A round's total is the sum of its files. */
  lemma {:induction false} TotalIsSumOfFiles(counted: seq<Comment>)
    ensures Totals(counted).Keys == ByRound(counted).Keys
    ensures forall round :: round in Totals(counted) ==> Totals(counted)[round] == Sum(ByRound(counted)[round])
  {
    hide Sum, Bump;
    if |counted| > 0 {
      var init := counted[..|counted| - 1];
      var c := counted[|counted| - 1];
      TotalIsSumOfFiles(init);
      BumpedTotal(Totals(init), ByRound(init), c.anchor.diffId, c.anchor.fileId);
    }
  }

  ghost predicate AddUp(totals: Tally, rounds: map<string, Tally>) {
    totals.Keys == rounds.Keys && forall round :: round in totals ==> totals[round] == Sum(rounds[round])
  }

  lemma BumpedTotal(totals: Tally, rounds: map<string, Tally>, round: string, file: string)
    requires AddUp(totals, rounds)
    ensures AddUp(Bump(totals, round), rounds[round := Bump(RoundOf(rounds, round), file)])
  {
    hide Sum;
    SumOfBump(RoundOf(rounds, round), file);
    SumOfNone();
  }

  lemma {:induction false} TotalsCountAll(counted: seq<Comment>)
    ensures Sum(Totals(counted)) == |counted|
  {
    hide Sum, Bump;
    if |counted| == 0 {
      SumOfNone();
    } else {
      TotalsCountAll(counted[..|counted| - 1]);
      SumOfBump(Totals(counted[..|counted| - 1]), counted[|counted| - 1].anchor.diffId);
    }
  }

  lemma {:induction false} UnresolvedLength(comments: seq<Comment>)
    ensures |Unresolved(comments)| == CountUnresolved(comments)
  {
    if |comments| > 0 {
      UnresolvedLength(comments[1..]);
    }
  }

  /** The totals of a page add up to its open threads, whatever its comments. */
  lemma TotalsAreOpenThreads(comments: seq<Comment>)
    ensures Sum(Totals(Counted(comments))) == CountOpen(ThreadsOf(comments))
  {
    hide Sum, Totals, Heads, ThreadsOf, CountOpen, Unresolved;
    TotalsCountAll(Counted(comments));
    UnresolvedLength(Heads(comments, Roots(comments)));
    OpenThreadsAreHeads(comments);
  }

  /** Two counts that add up and agree on the files agree on the totals. */
  lemma SameRoundsSameTotals(totals1: Tally, totals2: Tally, rounds: map<string, Tally>)
    requires AddUp(totals1, rounds) && AddUp(totals2, rounds)
    ensures totals1 == totals2
  {
    hide Sum;
    forall round | round in totals1 ensures totals2[round] == totals1[round] {
    }
  }

  // ----- The count a page keeps -----

  /** A Map of the page: an object whose identity is what a sidebar round is memoised on. */
  class FileCounts {
    var files: Tally

    constructor ()
      ensures files == map[]
    {
      files := map[];
    }
  }

  class OpenCounts {
    const byRound: map<string, FileCounts>
    const totals: Tally

    constructor (byRound: map<string, FileCounts>, totals: Tally)
      ensures this.byRound == byRound && this.totals == totals
    {
      this.byRound := byRound;
      this.totals := totals;
    }

    /** The counts themselves. */
    ghost function Rounds(): map<string, Tally>
      reads byRound.Values
    {
      ValuesOf(byRound)
    }
  }

  ghost function ValuesOf(rounds: map<string, FileCounts>): (r: map<string, Tally>)
    reads rounds.Values
    ensures r.Keys == rounds.Keys
  {
    map round | round in rounds :: rounds[round].files
  }

  /** sameCounts: as many files, and the files of one with the counts of the other. */
  method SameCounts(a: Tally, b: Tally) returns (same: bool)
    ensures same <==> a == b
  {
    if |a| != |b| {
      return false;
    }
    var todo := b.Keys;
    while todo != {}
      invariant todo <= b.Keys && forall file :: file in b.Keys - todo ==> file in a && a[file] == b[file]
      decreases |todo|
    {
      var file :| file in todo;
      if file !in a || a[file] != b[file] {
        return false;
      }
      todo := todo - {file};
    }
    SameSizeSameKeys(a.Keys, b.Keys);
    return true;
  }

  lemma SameSizeSameKeys(a: set<string>, b: set<string>)
    requires b <= a && |a| == |b|
    ensures a == b
  {
    if a != b {
      assert b < a;
      SmallerSet(b, a);
    }
  }

  lemma {:induction false} SmallerSet(b: set<string>, a: set<string>)
    requires b < a
    ensures |b| < |a|
  {
    var rest := a - b;
    assert rest != {};
    assert a == b + rest;
  }

  ghost predicate Apart(rounds: map<string, FileCounts>) {
    forall r1, r2 :: r1 in rounds && r2 in rounds && r1 != r2 ==> rounds[r1] != rounds[r2]
  }

  /** The first pass: one object a round, filled as the comments come. */
  method CountRounds(comments: seq<Comment>, roots: set<string>) returns (rounds: map<string, FileCounts>, totals: Tally)
    ensures forall round :: round in rounds ==> fresh(rounds[round])
    ensures ValuesOf(rounds) == ByRound(Unresolved(Heads(comments, roots)))
    ensures totals == Totals(Unresolved(Heads(comments, roots)))
  {
    hide ByRound, Totals, Unresolved, Heads, ValuesOf, Apart, RoundOf, Bump;
    rounds, totals := map[], map[];
    NoRounds();
    NothingCounted(roots);
    assert comments[..0] == [];
    for i := 0 to |comments|
      invariant (forall round :: round in rounds ==> fresh(rounds[round])) && Apart(rounds)
      invariant ValuesOf(rounds) == ByRound(Unresolved(Heads(comments[..i], roots)))
      invariant totals == Totals(Unresolved(Heads(comments[..i], roots)))
    {
      var c := comments[i];
      assert comments[..i + 1] == comments[..i] + [c];
      CountedSnoc(comments[..i], roots, c);
      if c.resolved || Answers(roots, c) {
        continue;
      }
      ByRoundSnoc(Unresolved(Heads(comments[..i], roots)), c);
      rounds := CountOne(rounds, c.anchor.diffId, c.anchor.fileId);
      totals := Bump(totals, c.anchor.diffId);
    }
    assert comments[..|comments|] == comments;
  }

  lemma NoRounds()
    ensures ValuesOf(map[]) == map[] && Apart(map[])
  {
  }

  /** One more on a file of a round, whose object is made when it is first needed. */
  method CountOne(before: map<string, FileCounts>, round: string, file: string) returns (rounds: map<string, FileCounts>)
    requires Apart(before)
    modifies before.Values
    ensures ValuesOf(rounds) == old(ValuesOf(before))[round := Bump(RoundOf(old(ValuesOf(before)), round), file)]
    ensures Apart(rounds)
    ensures forall r :: r in rounds ==> (r in before && rounds[r] == before[r]) || fresh(rounds[r])
  {
    hide Bump;
    rounds := before;
    if round !in rounds {
      var files := new FileCounts();
      rounds := rounds[round := files];
    }
    var files := rounds[round];
    files.files := Bump(files.files, file);
  }

  lemma NothingCounted(roots: set<string>)
    ensures ByRound(Unresolved(Heads([], roots))) == map[] && Totals(Unresolved(Heads([], roots))) == map[]
  {
  }

  lemma CountedSnoc(comments: seq<Comment>, roots: set<string>, c: Comment)
    ensures Unresolved(Heads(comments + [c], roots))
         == if c.resolved || Answers(roots, c) then Unresolved(Heads(comments, roots)) else Unresolved(Heads(comments, roots)) + [c]
  {
    HeadsSnoc(comments, roots, c);
    UnresolvedSnoc(Heads(comments, roots), c);
  }

  lemma {:induction false} UnresolvedSnoc(comments: seq<Comment>, c: Comment)
    ensures Unresolved(comments + [c]) == if c.resolved then Unresolved(comments) else Unresolved(comments) + [c]
  {
    if |comments| == 0 {
      assert (comments + [c])[1..] == [];
    } else {
      UnresolvedSnoc(comments[1..], c);
      assert (comments + [c])[1..] == comments[1..] + [c];
    }
  }

  /** A round is kept when the last count has it with the same counts. */
  ghost predicate Unchanged(prev: OpenCounts?, round: string, files: Tally)
    reads if prev == null then {} else prev.byRound.Values
  {
    prev != null && round in prev.byRound && prev.byRound[round].files == files
  }

  /**
   * openCounts: the counts of the comments, each round that did not change in
   * the object the last count had it in, and the last count itself when
   * nothing changed.
   */
  method CountOpenComments(comments: seq<Comment>, prev: OpenCounts?) returns (r: OpenCounts)
    ensures r.Rounds() == ByRound(Counted(comments))
    ensures prev == null || AddUp(prev.totals, prev.Rounds()) ==>
              r.totals == Totals(Counted(comments)) && AddUp(r.totals, r.Rounds())
    ensures r == prev <==> prev != null && prev.Rounds() == ByRound(Counted(comments))
    ensures forall round :: round in r.byRound && Unchanged(prev, round, ByRound(Counted(comments))[round]) ==>
                              r.byRound[round] == prev.byRound[round]
  {
    hide ByRound, Totals, Unresolved, Heads, AddUp;
    var roots := CollectRoots(comments);
    var rounds, totals := CountRounds(comments, roots);
    var byRound, reused := KeepUnchanged(rounds, prev);
    TotalsAddUp(Counted(comments));
    if reused {
      r := prev;
      if AddUp(prev.totals, prev.Rounds()) {
        SameRoundsSameTotals(prev.totals, totals, prev.Rounds());
      }
    } else {
      r := new OpenCounts(byRound, totals);
    }
  }

  lemma TotalsAddUp(counted: seq<Comment>)
    ensures AddUp(Totals(counted), ByRound(counted))
  {
    TotalIsSumOfFiles(counted);
  }

  /** The second pass. */
  method KeepUnchanged(rounds: map<string, FileCounts>, prev: OpenCounts?) returns (byRound: map<string, FileCounts>, reused: bool)
    ensures ValuesOf(byRound) == ValuesOf(rounds)
    ensures forall round :: round in rounds && Unchanged(prev, round, rounds[round].files) ==> byRound[round] == prev.byRound[round]
    ensures reused <==> prev != null && ValuesOf(prev.byRound) == ValuesOf(rounds)
  {
    hide Unchanged, ValuesOf, Keeps;
    byRound := map[];
    reused := prev != null && |prev.byRound| == |rounds|;
    ghost var sized := reused;
    var todo := rounds.Keys;
    while todo != {}
      invariant todo <= rounds.Keys && byRound.Keys == rounds.Keys - todo
      invariant forall round :: round in byRound ==> Keeps(prev, round, rounds[round], byRound[round])
      invariant reused <==> sized && forall round :: round in byRound ==> Unchanged(prev, round, rounds[round].files)
      decreases |todo|
    {
      var round :| round in todo;
      var kept, same := KeepOne(prev, round, rounds[round]);
      byRound := byRound[round := kept];
      reused := reused && same;
      todo := todo - {round};
    }
    SameValues(prev, byRound, rounds);
    if prev != null {
      SameRounds(prev, rounds);
    }
  }

  /** The object kept for a round: that of the last count if it has the same counts, else the new one. */
  ghost predicate Keeps(prev: OpenCounts?, round: string, files: FileCounts, kept: FileCounts)
    reads files, if prev == null then {} else prev.byRound.Values
  {
    if Unchanged(prev, round, files.files) then kept == prev.byRound[round] else kept == files
  }

  method KeepOne(prev: OpenCounts?, round: string, files: FileCounts) returns (kept: FileCounts, same: bool)
    ensures same <==> Unchanged(prev, round, files.files)
    ensures Keeps(prev, round, files, kept)
  {
    kept, same := files, false;
    if prev != null && round in prev.byRound {
      same := SameCounts(prev.byRound[round].files, files.files);
      if same {
        kept := prev.byRound[round];
      }
    }
  }

  lemma SameValues(prev: OpenCounts?, byRound: map<string, FileCounts>, rounds: map<string, FileCounts>)
    requires byRound.Keys == rounds.Keys
    requires forall round :: round in byRound ==> Keeps(prev, round, rounds[round], byRound[round])
    ensures ValuesOf(byRound) == ValuesOf(rounds)
    ensures forall round :: round in rounds && Unchanged(prev, round, rounds[round].files) ==> byRound[round] == prev.byRound[round]
  {
    hide Unchanged;
    forall round | round in byRound ensures byRound[round].files == rounds[round].files {
      assert Keeps(prev, round, rounds[round], byRound[round]);
      KeptIsEqual(prev, round, rounds[round], byRound[round]);
    }
  }

  lemma KeptIsEqual(prev: OpenCounts?, round: string, files: FileCounts, kept: FileCounts)
    requires Keeps(prev, round, files, kept)
    ensures kept.files == files.files
  {
  }

  /** As many rounds, and each of them unchanged: nothing changed. */
  lemma SameRounds(prev: OpenCounts, rounds: map<string, FileCounts>)
    ensures |prev.byRound| == |rounds| && (forall round :: round in rounds ==> Unchanged(prev, round, rounds[round].files))
       <==> ValuesOf(prev.byRound) == ValuesOf(rounds)
  {
    if |prev.byRound| == |rounds| && (forall round :: round in rounds ==> Unchanged(prev, round, rounds[round].files)) {
      SameSizeSameKeys(prev.byRound.Keys, rounds.Keys);
    }
    if ValuesOf(prev.byRound) == ValuesOf(rounds) {
      assert prev.byRound.Keys == rounds.Keys;
      assert |prev.byRound| == |prev.byRound.Keys| == |rounds.Keys|;
      forall round | round in rounds ensures Unchanged(prev, round, rounds[round].files) {
        assert ValuesOf(prev.byRound)[round] == ValuesOf(rounds)[round];
      }
    }
  }
}
