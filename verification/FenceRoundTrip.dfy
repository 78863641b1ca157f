/** Reading back what WithSuggestion wrote. */
module FenceRoundTrip {
  import opened Prelude
  import opened Text
  import opened Fences

  // ----- A line holds the run it begins with -----

  ghost predicate Within(part: string, s: string) {
    exists i :: 0 <= i <= |s| - |part| && OccursAt(s, part, i)
  }

  lemma RunIsWithin(line: string)
    ensures Within(FenceRun(line).run, line)
  {
    var t := TrimCR(line);
    var run := FenceRun(line).run;
    assert run <= TrimSpace(t);
    hide FenceRun, TrimSpace;
    var lo, hi := TrimSpaceWithin(t);
    assert run == t[lo..hi][..|run|] == t[lo..lo + |run|];
    assert OccursAt(t, run, lo);
    assert t <= line;
    assert line[lo..lo + |run|] == t[lo..lo + |run|];
    assert OccursAt(line, run, lo);
  }

  lemma RunIsOneCharacter(line: string, k: nat)
    requires k < |FenceRun(line).run|
    ensures FenceRun(line).run[k] == FenceRun(line).run[0]
    ensures FenceRun(line).run[0] in "`~"
  {
  }

  /** A text holds what its lines hold. */
  lemma {:induction false} LinesAreWithin(lines: seq<string>, j: nat, part: string)
    requires j < |lines| && Within(part, lines[j])
    ensures Within(part, JoinLines(lines))
  {
    if |lines| > 1 {
      hide Within;
      var head := lines[0] + "\n";
      var tail := JoinLines(lines[1..]);
      if j == 0 {
        WithinEither(part, lines[0], "\n" + tail);
        assert lines[0] + ("\n" + tail) == head + tail;
      } else {
        LinesAreWithin(lines[1..], j - 1, part);
        WithinEither(part, tail, head);
      }
    }
  }

  lemma WithinEither(part: string, s: string, other: string)
    requires Within(part, s)
    ensures Within(part, s + other) && Within(part, other + s)
  {
    hide OccursAt;
    var i :| 0 <= i <= |s| - |part| && OccursAt(s, part, i);
    OccursBetween(s, part, i, "", other);
    OccursBetween(s, part, i, other, "");
    assert "" + s + other == s + other && other + s + "" == other + s;
  }

  lemma OccursBetween(s: string, part: string, i: nat, before: string, after: string)
    requires i + |part| <= |s| && OccursAt(s, part, i)
    ensures OccursAt(before + s + after, part, |before| + i)
  {
    var all := before + s + after;
    forall k | 0 <= k < |part| ensures all[|before| + i + k] == part[k] {
      assert s[i..i + |part|][k] == part[k];
    }
  }

  lemma WithinPrefix(part: string, s: string, n: nat)
    requires n <= |part| && Within(part, s)
    ensures Within(part[..n], s)
  {
    var i :| 0 <= i <= |s| - |part| && OccursAt(s, part, i);
    assert s[i..i + |part|][..n] == s[i..i + n];
    assert OccursAt(s, part[..n], i);
  }

  lemma BacktickRun(line: string, n: nat)
    requires var run := FenceRun(line).run; 0 < n <= |run| && run[0] == '`'
    ensures FenceRun(line).run[..n] == Backticks(n)
  {
    forall k | 0 <= k < n
      ensures FenceRun(line).run[k] == '`'
    {
      RunIsOneCharacter(line, k);
    }
    hide FenceRun;
  }

  /** A text with a line that begins with n backticks holds n backticks. */
  lemma BacktickRunIsWithin(s: string, n: nat, j: nat)
    requires j < |SplitLines(s)|
    requires var run := FenceRun(SplitLines(s)[j]).run; 0 < n <= |run| && run[0] == '`'
    ensures Contains(s, Backticks(n))
  {
    hide FenceRun, SplitLines, JoinLines;
    var line := SplitLines(s)[j];
    BacktickRun(line, n);
    RunIsWithin(line);
    WithinPrefix(FenceRun(line).run, line, n);
    LinesAreWithin(SplitLines(s), j, Backticks(n));
    JoinSplit(s);
  }

  // ----- Lines that come after -----

  lemma {:induction false} PlainEndAppend(lines: seq<string>, more: seq<string>, i: nat, fence: string)
    requires fence != "" && i <= |lines|
    ensures PlainEnd(lines + more, i, fence) ==
            if PlainEnd(lines, i, fence) < |lines| then PlainEnd(lines, i, fence)
            else PlainEnd(lines + more, |lines|, fence)
    decreases |lines| - i
  {
    hide ClosesFence;
    if i < |lines| && !ClosesFence(lines[i], fence) {
      assert (lines + more)[i] == lines[i];
      PlainEndAppend(lines, more, i + 1, fence);
    }
  }

  /** The nested fence a suggestion that never ends is left with. */
  ghost function InnerAfter(lines: seq<string>, i: nat, inner: string): string
    requires i <= |lines|
    decreases |lines| - i
  {
    if i == |lines| then inner else InnerAfter(lines, i + 1, NextInner(lines[i], inner))
  }

  lemma {:induction false} SuggestionEndAppend(lines: seq<string>, more: seq<string>, i: nat, fence: string, inner: string)
    requires fence != "" && i <= |lines|
    ensures SuggestionEnd(lines + more, i, fence, inner) ==
            if SuggestionEnd(lines, i, fence, inner) < |lines| then SuggestionEnd(lines, i, fence, inner)
            else SuggestionEnd(lines + more, |lines|, fence, InnerAfter(lines, i, inner))
    decreases |lines| - i
  {
    hide EndsSuggestion, NextInner;
    if i < |lines| && !EndsSuggestion(lines[i], fence, inner) {
      assert (lines + more)[i] == lines[i];
      SuggestionEndAppend(lines, more, i + 1, fence, NextInner(lines[i], inner));
    }
  }

  /** A block that is closed is closed by the same line whatever comes after. */
  lemma EndOfBlockAppend(lines: seq<string>, more: seq<string>, start: nat)
    requires start < |lines| && OpenFence(lines[start]).Some? && EndOfBlock(lines, start) < |lines|
    ensures (lines + more)[start] == lines[start]
    ensures EndOfBlock(lines + more, start) == EndOfBlock(lines, start)
    ensures BlockAt(lines + more, start) == BlockAt(lines, start)
  {
    hide OpenFence, OpensSuggestion, SuggestionEnd, PlainEnd, Replacement;
    var fence := OpenFence(lines[start]).value.run;
    SuggestionEndAppend(lines, more, start + 1, fence, "");
    PlainEndAppend(lines, more, start + 1, fence);
    var end := EndOfBlock(lines, start);
    assert (lines + more)[start + 1..end] == lines[start + 1..end];
  }

  /** Lines that follow text whose blocks are all closed are read on their own. */
  lemma {:induction false} ProposedAppend(lines: seq<string>, more: seq<string>, i: nat)
    requires i <= |lines| && LeftOpenFrom(lines, i) == |lines|
    ensures ProposedFrom(lines + more, i) == ProposedFrom(lines, i) + ProposedFrom(lines + more, |lines|)
    decreases |lines| - i
  {
    hide OpenFence, EndOfBlock, BlockAt;
    if i < |lines| {
      assert (lines + more)[i] == lines[i];
      if OpenFence(lines[i]).None? {
        ProposedAppend(lines, more, i + 1);
      } else {
        var end := EndOfBlock(lines, i);
        EndOfBlockAppend(lines, more, i);
        ProposedAppend(lines, more, end + 1);
      }
    }
  }

  // ----- Lines that come before -----

  lemma {:induction false} PlainEndShift(front: seq<string>, lines: seq<string>, i: nat, fence: string)
    requires fence != "" && i <= |lines|
    ensures PlainEnd(front + lines, |front| + i, fence) == |front| + PlainEnd(lines, i, fence)
    decreases |lines| - i
  {
    hide ClosesFence;
    if i < |lines| && !ClosesFence(lines[i], fence) {
      PlainEndShift(front, lines, i + 1, fence);
    }
  }

  lemma {:induction false} SuggestionEndShift(front: seq<string>, lines: seq<string>, i: nat, fence: string, inner: string)
    requires fence != "" && i <= |lines|
    ensures SuggestionEnd(front + lines, |front| + i, fence, inner) == |front| + SuggestionEnd(lines, i, fence, inner)
    decreases |lines| - i
  {
    hide EndsSuggestion, NextInner;
    if i < |lines| && !EndsSuggestion(lines[i], fence, inner) {
      SuggestionEndShift(front, lines, i + 1, fence, NextInner(lines[i], inner));
    }
  }

  lemma EndOfBlockShift(front: seq<string>, lines: seq<string>, start: nat)
    requires start < |lines| && OpenFence(lines[start]).Some?
    ensures (front + lines)[|front| + start] == lines[start]
    ensures EndOfBlock(front + lines, |front| + start) == |front| + EndOfBlock(lines, start)
    ensures BlockAt(front + lines, |front| + start) == BlockAt(lines, start)
  {
    hide OpenFence, OpensSuggestion, SuggestionEnd, PlainEnd, Replacement;
    var fence := OpenFence(lines[start]).value.run;
    SuggestionEndShift(front, lines, start + 1, fence, "");
    PlainEndShift(front, lines, start + 1, fence);
    var end := EndOfBlock(lines, start);
    assert (front + lines)[|front| + start + 1..|front| + end] == lines[start + 1..end];
  }

  lemma {:induction false} ProposedShift(front: seq<string>, lines: seq<string>, i: nat)
    requires i <= |lines|
    ensures ProposedFrom(front + lines, |front| + i) == ProposedFrom(lines, i)
    decreases |lines| - i
  {
    hide OpenFence, EndOfBlock, BlockAt;
    if i < |lines| {
      assert (front + lines)[|front| + i] == lines[i];
      if OpenFence(lines[i]).None? {
        ProposedShift(front, lines, i + 1);
      } else {
        var end := EndOfBlock(lines, i);
        EndOfBlockShift(front, lines, i);
        if end < |lines| {
          ProposedShift(front, lines, end + 1);
        }
      }
    }
  }

  // ----- A fence on a line of its own -----

  predicate IsFence(f: string) {
    |f| >= MIN_FENCE && f[0] in "`~" && forall k :: 0 <= k < |f| ==> f[k] == f[0]
  }

  lemma OpenFenceIsFence(line: string)
    requires OpenFence(line).Some?
    ensures IsFence(OpenFence(line).value.run)
  {
    var run := OpenFence(line).value.run;
    forall k | 0 <= k < |run|
      ensures run[k] == run[0]
    {
      RunIsOneCharacter(line, k);
    }
    RunIsOneCharacter(line, 0);
  }

  lemma RunLengthOfRun(f: string, info: string, c: char)
    requires forall k :: 0 <= k < |f| ==> f[k] == c
    requires info == "" || info[0] != c
    ensures RunLength(f + info, c) == |f|
  {
    assert forall k :: 0 <= k < |f| ==> (f + info)[k] == f[k];
    assert info != "" ==> (f + info)[|f|] == info[0];
  }

  /** A line made of a fence and an info string with nothing to trim. */
  lemma FenceLine(f: string, info: string)
    requires IsFence(f)
    requires info == "" || (info[0] != f[0] && !IsSpace(info[0]) && !IsSpace(info[|info| - 1]))
    ensures FenceRun(f + info) == Run(f, info)
  {
    var line := f + info;
    assert line[0] == f[0];
    assert line[|line| - 1] == if info == "" then f[|f| - 1] else info[|info| - 1];
    assert TrimCR(line) == line;
    TrimSpaceTight(line);
    RunLengthOfRun(f, info, f[0]);
    assert line[..|f|] == f && line[|f|..] == info;
    TrimSpaceTight(info);
  }

  ghost predicate Twins(fence: string, inner: string)
    requires fence != ""
  {
    inner != "" && inner[0] == fence[0] && |inner| == |fence|
  }

  /** A fence closes the block it opened, unless a nested block opened by its twin takes it. */
  lemma FenceEndsItself(f: string, inner: string)
    requires IsFence(f)
    ensures ClosesFence(f, f)
    ensures EndsSuggestion(f, f, inner) <==> !Twins(f, inner)
    ensures Twins(f, inner) ==> NextInner(f, inner) == ""
  {
    hide FenceRun;
    assert f + "" == f;
    FenceLine(f, "");
  }

  // ----- The block that is left open -----

  /** The nested fence still open when the text ends inside the suggestion opened at line at. */
  ghost function InnerAtEnd(lines: seq<string>, at: nat): string
    requires at < |lines|
  {
    InnerAfter(lines, at + 1, "")
  }

  /** The text ends inside a suggestion, and inside a nested block opened by the twin of its fence. */
  ghost predicate EndsInTwin(lines: seq<string>) {
    var at := LeftOpenFrom(lines, 0);
    at < |lines| && TwinOpen(lines, at)
  }

  ghost predicate TwinOpen(lines: seq<string>, at: nat)
    requires at < |lines| && OpenFence(lines[at]).Some?
  {
    OpensSuggestion(lines[at]) && Twins(OpenFence(lines[at]).value.run, InnerAtEnd(lines, at))
  }

  lemma CloseBlock(lines: seq<string>, at: nat)
    requires at < |lines| && OpenFence(lines[at]).Some? && EndOfBlock(lines, at) == |lines|
    requires !TwinOpen(lines, at)
    ensures var fence := OpenFence(lines[at]).value.run;
            (lines + [fence])[at] == lines[at]
            && EndOfBlock(lines + [fence], at) == |lines|
            && BlockAt(lines + [fence], at) == BlockAt(lines, at)
  {
    hide OpenFence, OpensSuggestion, EndsSuggestion, ClosesFence, Replacement;
    var fence := OpenFence(lines[at]).value.run;
    var all := lines + [fence];
    assert all[|lines|] == fence;
    OpenFenceIsFence(lines[at]);
    FenceEndsItself(fence, InnerAtEnd(lines, at));
    SuggestionEndAppend(lines, [fence], at + 1, fence, "");
    PlainEndAppend(lines, [fence], at + 1, fence);
    assert all[at + 1..|lines|] == lines[at + 1..|lines|];
  }

  /** Closing the block a text leaves open closes every block and proposes the same. */
  lemma {:induction false} CloseText(lines: seq<string>, i: nat)
    requires i <= |lines|
    requires var at := LeftOpenFrom(lines, i); at < |lines| && !TwinOpen(lines, at)
    ensures var fence := OpenFence(lines[LeftOpenFrom(lines, i)]).value.run;
            LeftOpenFrom(lines + [fence], i) == |lines| + 1
            && ProposedFrom(lines + [fence], i) == ProposedFrom(lines, i)
    decreases |lines| - i
  {
    hide OpenFence, EndOfBlock, BlockAt, TwinOpen;
    var fence := OpenFence(lines[LeftOpenFrom(lines, i)]).value.run;
    assert (lines + [fence])[i] == lines[i];
    if OpenFence(lines[i]).None? {
      CloseText(lines, i + 1);
    } else if EndOfBlock(lines, i) == |lines| {
      CloseBlock(lines, i);
    } else {
      EndOfBlockAppend(lines, [fence], i);
      CloseText(lines, EndOfBlock(lines, i) + 1);
    }
  }

  // ----- The appended block -----

  /** The nested fences a suggestion's own longer fence ends along with it. */
  ghost predicate Shorter(inner: string, n: nat) {
    inner == "" || inner[0] == '~' || (inner[0] == '`' && |inner| < n)
  }

  lemma BlockLineStays(line: string, n: nat, inner: string)
    requires n >= MIN_FENCE && Shorter(inner, n)
    requires var run := FenceRun(line).run; |run| < n || run[0] == '~'
    ensures !EndsSuggestion(line, Backticks(n), inner)
    ensures Shorter(NextInner(line, inner), n)
  {
    var run := FenceRun(line).run;
    if run != "" {
      RunIsOneCharacter(line, 0);
    }
    hide FenceRun;
  }

  lemma {:induction false} BlockEndsAtItsFence(lines: seq<string>, i: nat, n: nat, inner: string)
    requires n >= MIN_FENCE && 1 <= i < |lines| && lines[|lines| - 1] == Backticks(n)
    requires forall j :: i <= j < |lines| - 1 ==> var run := FenceRun(lines[j]).run; |run| < n || run[0] == '~'
    requires Shorter(inner, n)
    ensures SuggestionEnd(lines, i, Backticks(n), inner) == |lines| - 1
    decreases |lines| - i
  {
    hide FenceRun, EndsSuggestion, NextInner;
    if i == |lines| - 1 {
      FenceEndsItself(Backticks(n), inner);
    } else {
      BlockLineStays(lines[i], n, inner);
      BlockEndsAtItsFence(lines, i + 1, n, NextInner(lines[i], inner));
    }
  }

  lemma BlockLines(s: string)
    ensures var fence := Backticks(LongEnough(s, MIN_FENCE));
            SplitLines(Block(s)) == [fence + "suggestion"] + SplitLines(s) + [fence]
  {
    var fence := Backticks(LongEnough(s, MIN_FENCE));
    hide SplitLines, LongEnough;
    var head := fence + "suggestion";
    assert Block(s) == head + "\n" + s + "\n" + fence;
    SplitConcat(head + "\n" + s, fence);
    SplitConcat(head, s);
    SplitOne(head);
    SplitOne(fence);
  }

  lemma SuggestionHead(n: nat)
    requires n >= MIN_FENCE
    ensures OpenFence(Backticks(n) + "suggestion") == Some(Fence(Backticks(n), "suggestion"))
    ensures OpensSuggestion(Backticks(n) + "suggestion")
  {
    FenceLine(Backticks(n), "suggestion");
    hide FenceRun;
    hide EqualFold;
    LowerCaseFolds("suggestion");
  }

  lemma LowerCaseFolds(t: string)
    requires forall c :: c in t ==> 'a' <= c <= 'z'
    ensures EqualFold(t, t) && '`' !in t
  {
    forall i | 0 <= i < |t|
      ensures Fold(t[i]) == t[i]
    {
      assert t[i] in t;
    }
  }

  /** Alone, the block proposes the text it was made of. */
  lemma BlockReadsBack(s: string)
    ensures ProposedFrom(SplitLines(Block(s)), 0) == [Replacement(SplitLines(s))]
  {
    hide FenceRun, SplitLines, LongEnough, OpenFence, OpensSuggestion, SuggestionEnd, Replacement;
    var n := LongEnough(s, MIN_FENCE);
    var fence := Backticks(n);
    var body := SplitLines(s);
    var lines := [fence + "suggestion"] + body + [fence];
    BlockLines(s);
    SuggestionHead(n);
    forall j | 1 <= j < |lines| - 1
      ensures var run := FenceRun(lines[j]).run; |run| < n || run[0] == '~'
    {
      Between(fence + "suggestion", body, fence, j);
      BodyRunIsShort(s, n, j - 1);
    }
    BlockEndsAtItsFence(lines, 1, n, "");
    assert lines[1..|lines| - 1] == body;
    assert ProposedFrom(lines, 0) == BlockAt(lines, 0) + ProposedFrom(lines, |lines|);
  }

  lemma Between(head: string, body: seq<string>, tail: string, j: nat)
    requires 1 <= j <= |body|
    ensures ([head] + body + [tail])[j] == body[j - 1]
  {
  }

  /** No line of the body holds a run that could close the block. */
  lemma BodyRunIsShort(s: string, n: nat, k: nat)
    requires n == LongEnough(s, MIN_FENCE) && k < |SplitLines(s)|
    ensures var run := FenceRun(SplitLines(s)[k]).run; |run| < n || run[0] == '~'
  {
    hide FenceRun, SplitLines, LongEnough;
    var run := FenceRun(SplitLines(s)[k]).run;
    if |run| >= n {
      RunIsOneCharacter(SplitLines(s)[k], 0);
      if run[0] == '`' {
        BacktickRunIsWithin(s, n, k);
      }
    }
  }

  // ----- The round trip -----

  lemma AppendedLines(text: string, block: string)
    ensures SplitLines(text + "\n\n" + block) == SplitLines(text) + ([""] + SplitLines(block))
  {
    hide SplitLines;
    assert text + "\n\n" + block == (text + "\n" + "") + "\n" + block;
    SplitConcat(text + "\n" + "", block);
    SplitConcat(text, "");
    SplitOne("");
  }

  lemma EmptyLineProposesNothing(lines: seq<string>)
    ensures ProposedFrom([""] + lines, 0) == ProposedFrom(lines, 0)
  {
    assert OpenFence("").None?;
    hide OpenFence, EndOfBlock, BlockAt;
    ProposedShift([""], lines, 0);
  }

  lemma ClosedThenLines(lines: seq<string>, block: seq<string>)
    requires LeftOpenFrom(lines, 0) == |lines|
    ensures ProposedFrom(lines + ([""] + block), 0) == ProposedFrom(lines, 0) + ProposedFrom(block, 0)
  {
    hide ProposedFrom, LeftOpenFrom;
    var more := [""] + block;
    ProposedAppend(lines, more, 0);
    ProposedShift(lines, more, 0);
    EmptyLineProposesNothing(block);
  }

  /** After text whose blocks are all closed, an empty line and the block propose one thing more. */
  lemma AppendedAfterClosed(text: string, s: string)
    requires LeftOpenFrom(SplitLines(text), 0) == |SplitLines(text)|
    ensures Proposed(text + "\n\n" + Block(s)) == Proposed(text) + [Replacement(SplitLines(s))]
  {
    hide SplitLines, Block, Replacement, ProposedFrom, LeftOpenFrom;
    BlockReadsBack(s);
    AppendedLines(text, Block(s));
    ClosedThenLines(SplitLines(text), SplitLines(Block(s)));
  }

  lemma {:induction false} JoinedGrows(a: seq<string>, b: seq<string>)
    requires |a| >= 1 && |b| >= 1
    ensures |Replacement(a + b)| > |Replacement(a)|
  {
    StripConcat(a, b);
    JoinConcat(StripCRs(a), StripCRs(b));
  }

  lemma {:induction false} StripConcat(a: seq<string>, b: seq<string>)
    ensures StripCRs(a + b) == StripCRs(a) + StripCRs(b)
  {
    hide TrimCR;
    if |a| == 0 {
      assert a + b == b;
    } else {
      assert (a + b)[1..] == a[1..] + b;
      StripConcat(a[1..], b);
    }
  }

  /** The twin takes the fence meant to close the suggestion. */
  lemma TwinKeepsBlockOpen(lines: seq<string>, more: seq<string>, at: nat)
    requires at < |lines| && OpenFence(lines[at]).Some? && EndOfBlock(lines, at) == |lines|
    requires TwinOpen(lines, at)
    requires |more| >= 2 && more[0] == OpenFence(lines[at]).value.run && more[1] == ""
    ensures (lines + more)[at] == lines[at]
    ensures |lines| > at + 1 && EndOfBlock(lines + more, at) >= |lines| + 2
  {
    var fence := OpenFence(lines[at]).value.run;
    OpenFenceIsFence(lines[at]);
    TwinTakesFence(lines + more, |lines|, fence, InnerAtEnd(lines, at));
    hide OpenFence, OpensSuggestion, ClosesFence, NextInner;
    SuggestionEndAppend(lines, more, at + 1, fence, "");
  }

  lemma TwinTakesFence(all: seq<string>, i: nat, fence: string, inner: string)
    requires IsFence(fence) && Twins(fence, inner)
    requires i + 2 <= |all| && all[i] == fence && all[i + 1] == ""
    ensures SuggestionEnd(all, i, fence, inner) >= i + 2
  {
    FenceEndsItself(fence, inner);
    assert !ClosesFence("", fence);
    hide ClosesFence, NextInner, FenceRun;
    assert SuggestionEnd(all, i, fence, inner) == SuggestionEnd(all, i + 1, fence, "");
  }

  /** So the suggestion swallows what follows. */
  lemma TwinSwallowsBlock(lines: seq<string>, more: seq<string>, at: nat)
    requires at < |lines| && OpenFence(lines[at]).Some? && EndOfBlock(lines, at) == |lines|
    requires TwinOpen(lines, at)
    requires |more| >= 2 && more[0] == OpenFence(lines[at]).value.run && more[1] == ""
    ensures (lines + more)[at] == lines[at]
    ensures |BlockAt(lines + more, at)| == |BlockAt(lines, at)| == 1
    ensures |BlockAt(lines + more, at)[0]| > |BlockAt(lines, at)[0]|
  {
    hide OpenFence, OpensSuggestion, EndOfBlock, Replacement;
    TwinKeepsBlockOpen(lines, more, at);
    var all := lines + more;
    var end := EndOfBlock(all, at);
    assert all[at + 1..end] == lines[at + 1..] + all[|lines|..end];
    JoinedGrows(lines[at + 1..], all[|lines|..end]);
    assert lines[at + 1..|lines|] == lines[at + 1..];
  }

  lemma {:induction false} TwinSwallows(lines: seq<string>, more: seq<string>, i: nat)
    requires i <= |lines|
    requires var at := LeftOpenFrom(lines, i);
             at < |lines| && TwinOpen(lines, at)
             && |more| >= 2 && more[0] == OpenFence(lines[at]).value.run && more[1] == ""
    ensures var was, now := ProposedFrom(lines, i), ProposedFrom(lines + more, i);
            |now| >= |was| >= 1 && |now[|was| - 1]| > |was[|was| - 1]|
    decreases |lines| - i
  {
    hide OpenFence, BlockAt, EndOfBlock, TwinOpen, ProposedFrom, LeftOpenFrom;
    var all := lines + more;
    assert all[i] == lines[i];
    NextBlock(lines, i);
    NextBlock(all, i);
    if OpenFence(lines[i]).None? {
      TwinSwallows(lines, more, i + 1);
    } else if EndOfBlock(lines, i) == |lines| {
      TwinSwallowsBlock(lines, more, i);
      NothingBehind(lines, |lines| + 1);
    } else {
      EndOfBlockAppend(lines, more, i);
      var next := EndOfBlock(lines, i) + 1;
      TwinSwallows(lines, more, next);
      BehindBlock(BlockAt(lines, i), ProposedFrom(lines, next), ProposedFrom(all, next));
    }
  }

  lemma BehindBlock(block: seq<string>, was: seq<string>, now: seq<string>)
    requires |now| >= |was| >= 1 && |now[|was| - 1]| > |was[|was| - 1]|
    ensures var w, n := block + was, block + now; |n| >= |w| >= 1 && |n[|w| - 1]| > |w[|w| - 1]|
  {
  }

  lemma ClosedText(body: string)
    requires !EndsInTwin(SplitLines(body))
    ensures var lines := SplitLines(Closed(body)); LeftOpenFrom(lines, 0) == |lines|
    ensures Proposed(Closed(body)) == Proposed(body)
  {
    hide SplitLines, OpenFence, TwinOpen, EndOfBlock, ProposedFrom;
    var lines := SplitLines(body);
    var at := LeftOpenFrom(lines, 0);
    if at < |lines| {
      var fence := OpenFence(lines[at]).value.run;
      CloseText(lines, 0);
      OpenFenceIsFence(lines[at]);
      SplitConcat(body, fence);
      SplitOne(fence);
    }
  }

  /** A body of white space opens no block. */
  lemma {:induction false} BlankProposesNothing(lines: seq<string>, i: nat)
    requires i <= |lines| && forall l :: l in lines ==> Blank(l)
    ensures ProposedFrom(lines, i) == []
    ensures LeftOpenFrom(lines, i) == |lines|
    decreases |lines| - i
  {
    hide OpenFence, EndOfBlock, BlockAt, Blank;
    if i < |lines| {
      BlankOpensNothing(lines[i]);
      BlankProposesNothing(lines, i + 1);
    }
  }

  lemma BlankOpensNothing(l: string)
    requires Blank(l)
    ensures OpenFence(l).None?
  {
    hide IsSpace, TrimSpace;
    assert Blank(TrimCR(l));
    TrimSpaceBlank(TrimCR(l));
  }

  lemma {:induction false} BlankLines(s: string)
    requires Blank(s)
    ensures forall l :: l in SplitLines(s) ==> Blank(l)
  {
    if |s| > 0 {
      BlankLines(s[1..]);
      BlankPrepend(s[0], SplitLines(s[1..]));
    }
  }

  lemma BlankPrepend(c: char, lines: seq<string>)
    requires IsSpace(c) && |lines| >= 1 && forall l :: l in lines ==> Blank(l)
    ensures forall l :: l in Prepend(c, lines) ==> Blank(l)
  {
    assert Blank(lines[0]);
    assert Blank([c] + lines[0]);
  }

  lemma {:induction false} TrimNewlinesBlank(s: string)
    requires Blank(s)
    ensures Blank(TrimNewlines(s))
  {
    if |s| > 0 {
      TrimNewlinesBlank(s[..|s| - 1]);
    }
  }

  /**
   * Reading back what WithSuggestion wrote gives the suggestions the body had
   * and then the one appended, one CR dropped from each of its lines - for
   * every body and every suggestion that is not blank, except exactly the
   * bodies that end inside a suggestion and inside a nested block opened by a
   * fence of the same character and length.
   */
  lemma SuggestionRoundTrip(body: string, suggestion: string)
    requires !Blank(TrimNewlines(suggestion))
    ensures Proposed(Appended(body, suggestion))
            == Proposed(TrimNewlines(body)) + [Replacement(SplitLines(TrimNewlines(suggestion)))]
            <==> !EndsInTwin(SplitLines(TrimNewlines(body)))
  {
    var s := TrimNewlines(suggestion);
    var b := TrimNewlines(body);
    TrimSpaceBlank(s);
    TrimSpaceBlank(body);
    hide TrimSpace, TrimNewlines;
    if Blank(body) {
      TrimNewlinesBlank(body);
      BlankLines(b);
      BlankProposesNothing(SplitLines(b), 0);
      BlockReadsBack(s);
    } else if !EndsInTwin(SplitLines(b)) {
      ClosedText(b);
      AppendedAfterClosed(Closed(b), s);
    } else {
      TwinLosesSuggestion(b, s);
    }
  }

  lemma TwinLosesSuggestion(b: string, s: string)
    requires EndsInTwin(SplitLines(b))
    ensures Proposed(Closed(b) + "\n\n" + Block(s)) != Proposed(b) + [Replacement(SplitLines(s))]
  {
    hide SplitLines, OpenFence, TwinOpen, EndOfBlock, ProposedFrom, Block, Replacement;
    var lines := SplitLines(b);
    var at := LeftOpenFrom(lines, 0);
    var fence := OpenFence(lines[at]).value.run;
    var block := SplitLines(Block(s));
    OpenFenceIsFence(lines[at]);
    assert Closed(b) == b + "\n" + fence;
    assert Closed(b) + "\n\n" + Block(s) == ((b + "\n" + fence) + "\n" + "") + "\n" + Block(s);
    SplitConcat((b + "\n" + fence) + "\n" + "", Block(s));
    SplitConcat(b + "\n" + fence, "");
    SplitConcat(b, fence);
    SplitOne("");
    SplitOne(fence);
    var more := [fence] + [""] + block;
    assert lines + [fence] + [""] + block == lines + more;
    TwinSwallows(lines, more, 0);
  }

  /** Nothing is written for a blank suggestion. */
  lemma BlankSuggestionAddsNothing(body: string, suggestion: string)
    requires Blank(TrimNewlines(suggestion))
    ensures Appended(body, suggestion) == body
  {
    TrimSpaceBlank(TrimNewlines(suggestion));
  }

  /** A body the round trip fails on: a suggestion holding a code block, neither of them closed. */
  lemma TwinBody()
    ensures EndsInTwin(SplitLines("```suggestion\n```go"))
  {
    hide SplitLines, OpensSuggestion, FenceRun;
    var head := Backticks(3) + "suggestion";
    var nested := Backticks(3) + "go";
    assert "```suggestion\n```go" == head + "\n" + nested;
    SplitConcat(head, nested);
    SplitOne(head);
    SplitOne(nested);
    TwinLines(head, nested);
    assert [head] + [nested] == [head, nested];
  }

  lemma NestedLine(nested: string)
    requires nested == Backticks(3) + "go"
    ensures OpenFence(nested) == Some(Fence(Backticks(3), "go")) && !ClosesFence(nested, Backticks(3))
  {
    FenceLine(Backticks(3), "go");
  }

  lemma TwinLines(head: string, nested: string)
    requires head == Backticks(3) + "suggestion" && nested == Backticks(3) + "go"
    ensures EndsInTwin([head, nested])
  {
    hide OpenFence, OpensSuggestion, FenceRun, ClosesFence;
    var fence := Backticks(3);
    SuggestionHead(3);
    NestedLine(nested);
    var lines := [head, nested];
    assert SuggestionEnd(lines, 1, fence, "") == SuggestionEnd(lines, 2, fence, fence) == 2;
    assert InnerAfter(lines, 1, "") == InnerAfter(lines, 2, fence) == fence;
  }
}
