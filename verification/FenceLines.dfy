/** Fences in characters: which lines open a block, which close one, and what a block that is read proposes. */
module FenceLines {
  import opened Prelude
  import opened Text
  import opened Fences
  import opened FenceRoundTrip

  // ----- The parts of a line -----

  /** A run of one of the two characters a fence is made of. */
  predicate IsRun(run: string) {
    run != "" && run[0] in "`~" && forall k :: 0 <= k < |run| ==> run[k] == run[0]
  }

  predicate IsTight(s: string) {
    s != "" ==> !IsSpace(s[0]) && !IsSpace(s[|s| - 1])
  }

  /** White space, a run, white space, more text that does not go on with the run, and white space. */
  ghost predicate IsFenceLine(line: string, run: string, info: string) {
    exists lead, gap, trail :: FenceParts(line, lead, run, gap, info, trail)
  }

  ghost predicate FenceParts(line: string, lead: string, run: string, gap: string, info: string, trail: string) {
    && line == lead + (run + gap + info) + trail && IsRun(run) && IsTight(info)
    && Blank(lead) && Blank(gap) && Blank(trail)
    && (info == "" ==> gap == "") && (info != "" && gap == "" ==> info[0] != run[0])
  }

  lemma {:induction false} TrimLeftOf(lead: string, t: string)
    requires Blank(lead) && (t != "" ==> !IsSpace(t[0]))
    ensures TrimLeft(lead + t) == if t != "" then t else ""
  {
    if lead == "" {
      assert lead + t == t;
    } else {
      assert (lead + t)[1..] == lead[1..] + t;
      assert Blank(lead[1..]);
      TrimLeftOf(lead[1..], t);
    }
  }

  lemma {:induction false} TrimRightOf(t: string, trail: string)
    requires Blank(trail) && t != "" && !IsSpace(t[|t| - 1])
    ensures TrimRight(t + trail) == t
  {
    if trail == "" {
      assert t + trail == t;
    } else {
      var less := trail[..|trail| - 1];
      assert (t + trail)[..|t + trail| - 1] == t + less;
      TrimRightOf(t, less);
    }
  }

  /** Trimming takes the white space at both ends and no more. */
  lemma TrimSpaceOf(lead: string, t: string, trail: string)
    requires Blank(lead) && Blank(trail) && IsTight(t) && t != ""
    ensures TrimSpace(lead + t + trail) == t
  {
    hide TrimLeft, TrimRight, IsSpace;
    assert lead + t + trail == lead + (t + trail);
    assert (t + trail)[0] == t[0];
    TrimLeftOf(lead, t + trail);
    TrimRightOf(t, trail);
  }

  lemma CRIsSpace()
    ensures IsSpace('\r') && !IsSpace('`') && !IsSpace('~')
  {
  }

  lemma TrimCRFirst(lead: string, t: string, trail: string)
    requires Blank(lead) && Blank(trail) && IsTight(t) && t != ""
    ensures TrimSpace(TrimCR(lead + t + trail)) == t
  {
    CRIsSpace();
    hide TrimSpace, IsSpace;
    var line := lead + t + trail;
    assert trail == "" ==> line[|line| - 1] == t[|t| - 1];
    if line[|line| - 1] == '\r' {
      var less := trail[..|trail| - 1];
      assert TrimCR(line) == lead + t + less;
      TrimSpaceOf(lead, t, less);
    } else {
      TrimSpaceOf(lead, t, trail);
    }
  }

  /** A fence line is read as its run and what stands behind it. */
  lemma FenceLineReads(line: string, run: string, info: string)
    requires IsFenceLine(line, run, info)
    ensures FenceRun(line) == Run(run, info)
  {
    hide TrimSpace, TrimCR, RunLength, IsSpace;
    var lead, gap, trail :| FenceParts(line, lead, run, gap, info, trail);
    var t := run + gap + info;
    CRIsSpace();
    assert t[0] == run[0];
    assert t[|t| - 1] == if info != "" then info[|info| - 1] else run[|run| - 1];
    TrimCRFirst(lead, t, trail);
    var behind := gap + info;
    assert t == run + behind;
    assert behind != "" ==> behind[0] == if gap == "" then info[0] else gap[0];
    RunLengthOfRun(run, behind, run[0]);
    assert t[..|run|] == run && t[|run|..] == behind;
    if info == "" {
      assert behind == "";
      EmptyTrims();
    } else {
      assert behind == gap + info + "";
      TrimSpaceOf(gap, info, "");
    }
  }

  lemma EmptyTrims()
    ensures TrimSpace("") == ""
  {
  }

  // ----- Opening -----

  /** A fence of at least 3 opens a block; one of backticks only if no backtick stands behind it. */
  lemma OpensUnlessBacktick(line: string, run: string, info: string)
    requires IsFenceLine(line, run, info)
    ensures OpenFence(line) == if |run| >= 3 && (run[0] == '~' || '`' !in info) then Some(Fence(run, info)) else None
  {
    hide FenceRun;
    FenceLineReads(line, run, info);
  }

  /** A line of anything else opens nothing and closes nothing. */
  lemma OtherLinesOpenNothing(line: string, lead: string, t: string, trail: string)
    requires line == lead + t + trail && Blank(lead) && Blank(trail) && IsTight(t)
    requires t == "" || (t[0] != '`' && t[0] != '~')
    ensures OpenFence(line).None? && forall f :: f != "" ==> !ClosesFence(line, f)
  {
    hide TrimSpace, TrimCR, IsSpace;
    if t != "" {
      TrimCRFirst(lead, t, trail);
    } else {
      assert line == lead + trail;
      BlankOpensNothing(line);
      BlankRunsNothing(line);
    }
  }

  lemma BlankRunsNothing(line: string)
    requires Blank(line)
    ensures FenceRun(line) == Run("", "")
  {
    hide IsSpace;
    assert Blank(TrimCR(line));
    TrimSpaceBlank(TrimCR(line));
  }

  /** A line that opens nothing, in front of any lines, changes none of the suggestions read. */
  lemma ProseInFront(line: string, lines: seq<string>)
    requires OpenFence(line).None?
    ensures ProposedFrom([line] + lines, 0) == ProposedFrom(lines, 0)
  {
    hide OpenFence, ProposedFrom, EndOfBlock, BlockAt;
    NextBlock([line] + lines, 0);
    ProposedShift([line], lines, 0);
  }

  /** So prose that begins with a code span, and has a backtick behind it, hides no suggestion. */
  lemma CodeSpanInFront(line: string, run: string, info: string, body: string)
    requires IsFenceLine(line, run, info) && '\n' !in line && run[0] == '`' && '`' in info
    ensures Proposed(line + "\n" + body) == Proposed(body)
  {
    hide OpenFence, ProposedFrom, SplitLines, IsFenceLine;
    OpensUnlessBacktick(line, run, info);
    SplitConcat(line, body);
    SplitOne(line);
    ProseInFront(line, SplitLines(body));
  }

  // ----- A suggestion -----

  /** The letter, of either case; the long s is an s. */
  predicate LetterIs(c: char, letter: char)
    requires 'a' <= letter <= 'z'
  {
    c == letter || c == (letter as int - 32) as char || (letter == 's' && c == '\U{017F}')
  }

  lemma FoldsToLetter(c: char, letter: char)
    requires 'a' <= letter <= 'z' && letter != 'k'
    ensures Fold(c) == letter <==> LetterIs(c, letter)
  {
  }

  /** A block is a suggestion when the word behind its fence is that, in letters of any case. */
  lemma SuggestionWord(line: string, run: string, info: string)
    requires IsFenceLine(line, run, info)
    ensures OpensSuggestion(line)
       <==> |run| >= 3 && |info| == |"suggestion"| && forall i :: 0 <= i < |info| ==> LetterIs(info[i], "suggestion"[i])
  {
    hide OpenFence, IsFenceLine, Fold;
    OpensUnlessBacktick(line, run, info);
    forall c: char, i | 0 <= i < |"suggestion"|
      ensures Fold(c) == "suggestion"[i] <==> LetterIs(c, "suggestion"[i])
    {
      FoldsToLetter(c, "suggestion"[i]);
    }
    if |info| == |"suggestion"| && forall i :: 0 <= i < |info| ==> LetterIs(info[i], "suggestion"[i]) {
      assert '`' !in info;
    }
  }

  // ----- Closing -----

  /** A block is closed by a run of its character, at least as long, with nothing behind it. */
  lemma ClosesBlock(line: string, run: string, info: string, fence: string)
    requires IsFenceLine(line, run, info) && IsRun(fence)
    ensures ClosesFence(line, fence) <==> info == "" && run[0] == fence[0] && |run| >= |fence|
  {
    hide FenceRun;
    FenceLineReads(line, run, info);
  }

  lemma {:induction false} PlainEndIs(lines: seq<string>, i: nat, fence: string, end: nat)
    requires fence != "" && i <= end < |lines|
    requires (forall k :: i <= k < end ==> !ClosesFence(lines[k], fence)) && ClosesFence(lines[end], fence)
    ensures PlainEnd(lines, i, fence) == end
    decreases end - i
  {
    hide ClosesFence;
    if i < end {
      PlainEndIs(lines, i + 1, fence, end);
    }
  }

  /** A block of something else, suggestions in it or not, proposes nothing; what follows it is read. */
  lemma CodeBlockIsSkipped(open: string, code: seq<string>, close: string, rest: seq<string>)
    requires OpenFence(open).Some? && !OpensSuggestion(open)
    requires forall l :: l in code ==> !ClosesFence(l, OpenFence(open).value.run)
    requires ClosesFence(close, OpenFence(open).value.run)
    ensures ProposedFrom([open] + code + [close] + rest, 0) == ProposedFrom(rest, 0)
  {
    hide OpenFence, OpensSuggestion, ClosesFence, ProposedFrom;
    var front := [open] + code + [close];
    var lines := front + rest;
    PlainEndIs(lines, 1, OpenFence(open).value.run, |code| + 1);
    NextBlock(lines, 0);
    ProposedShift(front, rest, 0);
  }

  // ----- A suggestion with a block in it -----

  lemma {:induction false} SuggestionEndIs(lines: seq<string>, i: nat, fence: string, inner: string, end: nat, inners: seq<string>)
    requires fence != "" && i <= end < |lines| && |inners| == |lines| && inners[i] == inner
    requires forall k :: i <= k < end ==> !EndsSuggestion(lines[k], fence, inners[k]) && inners[k + 1] == NextInner(lines[k], inners[k])
    requires EndsSuggestion(lines[end], fence, inners[end])
    ensures SuggestionEnd(lines, i, fence, inner) == end
    decreases end - i
  {
    hide EndsSuggestion, NextInner;
    if i < end {
      SuggestionEndIs(lines, i + 1, fence, inners[i + 1], end, inners);
    }
  }

  /** A line of the text that neither opens a block nor closes this one. */
  ghost predicate IsText(line: string, fence: string)
    requires fence != ""
  {
    OpenFence(line).None? && !ClosesFence(line, fence)
  }

  lemma TextStays(line: string, fence: string)
    requires fence != "" && IsText(line, fence)
    ensures !EndsSuggestion(line, fence, "") && NextInner(line, "") == ""
  {
  }

  lemma NestedOpens(line: string, fence: string)
    requires fence != "" && OpenFence(line).Some? && !ClosesFence(line, fence)
    ensures !EndsSuggestion(line, fence, "") && NextInner(line, "") == OpenFence(line).value.run
  {
  }

  lemma CodeStays(line: string, fence: string, inner: string)
    requires fence != "" && inner != "" && !ClosesFence(line, inner) && !ClosesFence(line, fence)
    ensures !EndsSuggestion(line, fence, inner) && NextInner(line, inner) == inner
  {
  }

  lemma NestedCloses(line: string, fence: string, inner: string)
    requires fence != "" && inner != "" && ClosesFence(line, inner) && |FenceRun(line).run| <= |inner|
    ensures !EndsSuggestion(line, fence, inner) && NextInner(line, inner) == ""
  {
    hide FenceRun;
  }

  lemma ClosesOutside(line: string, fence: string)
    requires fence != "" && ClosesFence(line, fence)
    ensures EndsSuggestion(line, fence, "")
  {
  }

  /**
   * A suggestion may hold a block of code, fenced like itself: the line that
   * closes the block, being no longer than what opened it, closes no more
   * than that.
   */
  lemma NestedBlockStays(open: string, before: seq<string>, nested: string, code: seq<string>, closeNested: string,
                         after: seq<string>, close: string, rest: seq<string>)
    requires OpenFence(open).Some? && OpensSuggestion(open) && OpenFence(nested).Some?
    requires var fence, inner := OpenFence(open).value.run, OpenFence(nested).value.run;
             && (forall l :: l in before || l in after ==> IsText(l, fence))
             && !ClosesFence(nested, fence)
             && (forall l :: l in code ==> !ClosesFence(l, inner) && !ClosesFence(l, fence))
             && ClosesFence(closeNested, inner) && |FenceRun(closeNested).run| <= |inner|
             && ClosesFence(close, fence)
    ensures var body := before + [nested] + code + [closeNested] + after;
            ProposedFrom([open] + body + [close] + rest, 0) == [Replacement(body)] + ProposedFrom(rest, 0)
  {
    hide OpenFence, OpensSuggestion, ClosesFence, FenceRun, ProposedFrom, Replacement, EndsSuggestion, NextInner, IsText;
    var fence, inner := OpenFence(open).value.run, OpenFence(nested).value.run;
    var body := before + [nested] + code + [closeNested] + after;
    var front := [open] + body + [close];
    var lines := front + rest;
    var a, b := |before| + 1, |before| + |code| + 2;
    var inners: seq<string> := seq(|lines|, k => if a < k <= b then inner else "");
    forall k | 1 <= k < |body| + 1
      ensures !EndsSuggestion(lines[k], fence, inners[k]) && inners[k + 1] == NextInner(lines[k], inners[k])
    {
      assert lines[k] == body[k - 1];
      if k < a {
        assert lines[k] == before[k - 1] && before[k - 1] in before;
        TextStays(lines[k], fence);
      } else if k == a {
        assert lines[k] == nested;
        NestedOpens(nested, fence);
      } else if k < b {
        assert lines[k] == code[k - a - 1] && code[k - a - 1] in code;
        CodeStays(lines[k], fence, inner);
      } else if k == b {
        assert lines[k] == closeNested;
        NestedCloses(closeNested, fence, inner);
      } else {
        assert lines[k] == after[k - b - 1] && after[k - b - 1] in after;
        TextStays(lines[k], fence);
      }
    }
    ClosesOutside(close, fence);
    assert lines[|body| + 1] == close;
    SuggestionEndIs(lines, 1, fence, "", |body| + 1, inners);
    NextBlock(lines, 0);
    assert lines[1..|body| + 1] == body;
    ProposedShift(front, rest, 0);
  }

  // ----- What is written -----

  function Newlines(n: nat): (s: string)
    ensures |s| == n && forall k :: 0 <= k < n ==> s[k] == '\n'
  {
    seq(n, k => '\n')
  }

  lemma {:induction false} NewlinesTrimmed(text: string, n: nat)
    requires text == "" || text[|text| - 1] != '\n'
    ensures TrimNewlines(text + Newlines(n)) == text
  {
    if n > 0 {
      assert (text + Newlines(n))[..|text| + n - 1] == text + Newlines(n - 1);
      NewlinesTrimmed(text, n - 1);
    } else {
      assert text + Newlines(0) == text;
    }
  }

  /** The suggestion between the shortest fences of at least 3 backticks that it does not hold. */
  ghost predicate IsBlockOf(block: string, suggestion: string) {
    exists n: nat :: IsFencedBy(block, suggestion, n)
  }

  ghost predicate IsFencedBy(block: string, suggestion: string, n: nat) {
    && n >= 3
    && block == Backticks(n) + "suggestion\n" + suggestion + "\n" + Backticks(n)
    && !Contains(suggestion, Backticks(n)) && forall k :: 3 <= k < n ==> Contains(suggestion, Backticks(k))
  }

  /**
   * Newlines at the ends aside, the body is written as it is, then the fence
   * of a block it leaves open, then an empty line and the suggestion; behind a
   * blank body, the suggestion alone.
   */
  lemma AppendedIs(body: string, m: nat, suggestion: string, n: nat)
    requires (body == "" || body[|body| - 1] != '\n') && (suggestion == "" || suggestion[|suggestion| - 1] != '\n') && !Blank(suggestion)
    ensures exists block ::
              IsBlockOf(block, suggestion)
              && Appended(body + Newlines(m), suggestion + Newlines(n))
              == if Blank(body + Newlines(m)) then block
                 else body + (if Dangling(body) == "" then "" else "\n" + Dangling(body)) + "\n\n" + block
  {
    hide TrimSpace, Dangling, LongEnough, TrimNewlines;
    NewlinesTrimmed(body, m);
    NewlinesTrimmed(suggestion, n);
    TrimSpaceBlank(suggestion);
    TrimSpaceBlank(body + Newlines(m));
    var block := Block(suggestion);
    assert IsFencedBy(block, suggestion, LongEnough(suggestion, 3));
    assert IsBlockOf(block, suggestion);
  }
}
