/**
 * The suggestion blocks of a comment body: how they are read, how one is
 * appended, and that the two undo each other.
 *
 * The loops are proved equal to recursive readings of the same lines, and the
 * round trip is proved about those readings. Fences are those of section 4.5
 * of CommonMark 0.31, with the closing rule sbnn gives a suggestion.
 */
module Fences {
  import opened Prelude
  import opened Text

  // ----- One line -----

  const MIN_FENCE := 3

  datatype Run = Run(run: string, rest: string)

  /** The length of the run of `c` that `s` begins with. */
  function RunLength(s: string, c: char): (n: nat)
    ensures n <= |s|
    ensures forall i :: 0 <= i < n ==> s[i] == c
    ensures n < |s| ==> s[n] != c
  {
    if |s| == 0 || s[0] != c then 0 else 1 + RunLength(s[1..], c)
  }

  function FenceRun(line: string): Run {
    var trimmed := TrimSpace(TrimCR(line));
    if trimmed == "" || (trimmed[0] != '`' && trimmed[0] != '~') then Run("", "")
    else
      var n := RunLength(trimmed, trimmed[0]);
      Run(trimmed[..n], TrimSpace(trimmed[n..]))
  }

  datatype Fence = Fence(run: string, info: string)

  function OpenFence(line: string): (f: Option<Fence>)
    ensures f.Some? ==> |f.value.run| >= MIN_FENCE
  {
    var r := FenceRun(line);
    if |r.run| < MIN_FENCE then None
    else if r.run[0] == '`' && '`' in r.rest then None
    else Some(Fence(r.run, r.rest))
  }

  predicate OpensSuggestion(line: string) {
    OpenFence(line).Some? && EqualFold(OpenFence(line).value.info, "suggestion")
  }

  predicate ClosesFence(line: string, fence: string)
    requires fence != ""
  {
    var r := FenceRun(line);
    r.rest == "" && |r.run| >= |fence| && r.run[0] == fence[0]
  }

  /** `inner` is the fence of the code block nested inside the suggestion, "" outside one. */
  predicate EndsSuggestion(line: string, fence: string, inner: string)
    requires fence != ""
  {
    ClosesFence(line, fence)
    && (inner == "" || !ClosesFence(line, inner) || |FenceRun(line).run| > |inner|)
  }

  /** The nested fence after a line that did not end the suggestion. */
  function NextInner(line: string, inner: string): string {
    if inner != "" then (if ClosesFence(line, inner) then "" else inner)
    else if OpenFence(line).Some? then OpenFence(line).value.run
    else ""
  }

  // ----- One block -----

  /** The line ending an ordinary block that is open at line i, or |lines|. */
  function PlainEnd(lines: seq<string>, i: nat, fence: string): (end: nat)
    requires fence != "" && i <= |lines|
    ensures i <= end <= |lines|
    decreases |lines| - i
  {
    if i == |lines| || ClosesFence(lines[i], fence) then i else PlainEnd(lines, i + 1, fence)
  }

  /** The line ending a suggestion that is open at line i, or |lines|. */
  function SuggestionEnd(lines: seq<string>, i: nat, fence: string, inner: string): (end: nat)
    requires fence != "" && i <= |lines|
    ensures i <= end <= |lines|
    decreases |lines| - i
  {
    if i == |lines| || EndsSuggestion(lines[i], fence, inner) then i
    else SuggestionEnd(lines, i + 1, fence, NextInner(lines[i], inner))
  }

  function EndOfBlock(lines: seq<string>, start: nat): (end: nat)
    requires start < |lines| && OpenFence(lines[start]).Some?
    ensures start < end <= |lines|
  {
    var fence := OpenFence(lines[start]).value.run;
    if OpensSuggestion(lines[start]) then SuggestionEnd(lines, start + 1, fence, "")
    else PlainEnd(lines, start + 1, fence)
  }

  function StripCRs(lines: seq<string>): (r: seq<string>)
    ensures |r| == |lines|
  {
    if |lines| == 0 then [] else [TrimCR(lines[0])] + StripCRs(lines[1..])
  }

  /** What the lines of a suggestion propose. */
  function Replacement(lines: seq<string>): string {
    JoinLines(StripCRs(lines))
  }

  // ----- A whole text -----

  /** The suggestions of the blocks that begin at line i or later, i being outside every block. */
  function ProposedFrom(lines: seq<string>, i: nat): seq<string>
    decreases |lines| - i
  {
    if i >= |lines| then []
    else if OpenFence(lines[i]).None? then ProposedFrom(lines, i + 1)
    else
      var end := EndOfBlock(lines, i);
      BlockAt(lines, i) + ProposedFrom(lines, end + 1)
  }

  /** What the block opened at line i proposes: one replacement, or nothing. */
  function BlockAt(lines: seq<string>, i: nat): seq<string>
    requires i < |lines| && OpenFence(lines[i]).Some?
  {
    if OpensSuggestion(lines[i]) then [Replacement(lines[i + 1..EndOfBlock(lines, i)])] else []
  }

  /** The line opening the block the text never closes, or |lines| when every block is closed. */
  function LeftOpenFrom(lines: seq<string>, i: nat): (at: nat)
    requires i <= |lines|
    ensures i <= at <= |lines|
    ensures at < |lines| ==> OpenFence(lines[at]).Some? && EndOfBlock(lines, at) == |lines|
    decreases |lines| - i
  {
    if i == |lines| then i
    else if OpenFence(lines[i]).None? then LeftOpenFrom(lines, i + 1)
    else
      var end := EndOfBlock(lines, i);
      if end == |lines| then i else LeftOpenFrom(lines, end + 1)
  }

  /** What is proposed from a line on, and where a block is left open, one block at a time. */
  lemma NextBlock(lines: seq<string>, i: nat)
    requires i < |lines|
    ensures OpenFence(lines[i]).None? ==>
              ProposedFrom(lines, i) == ProposedFrom(lines, i + 1) && LeftOpenFrom(lines, i) == LeftOpenFrom(lines, i + 1)
    ensures OpenFence(lines[i]).Some? ==>
              var end := EndOfBlock(lines, i);
              && ProposedFrom(lines, i) == BlockAt(lines, i) + ProposedFrom(lines, end + 1)
              && LeftOpenFrom(lines, i) == if end == |lines| then i else LeftOpenFrom(lines, end + 1)
  {
    hide OpenFence, BlockAt, EndOfBlock;
  }

  /** What Suggestions reads. */
  function Proposed(body: string): seq<string> {
    ProposedFrom(SplitLines(body), 0)
  }

  /** What DanglingFence reads: the fence of the block left open, or "". */
  function Dangling(text: string): string {
    var lines := SplitLines(text);
    var at := LeftOpenFrom(lines, 0);
    if at < |lines| then OpenFence(lines[at]).value.run else ""
  }

  // ----- The loops -----

  method BlockEnd(lines: seq<string>, start: nat) returns (end: nat)
    requires start < |lines|
    ensures OpenFence(lines[start]).None? ==> end == start
    ensures OpenFence(lines[start]).Some? ==> end == EndOfBlock(lines, start)
  {
    hide OpenFence, OpensSuggestion, ClosesFence, EndsSuggestion;
    var open := OpenFence(lines[start]);
    if open.None? {
      return start;
    }
    var fence := open.value.run;
    if !OpensSuggestion(lines[start]) {
      for i := start + 1 to |lines|
        invariant EndOfBlock(lines, start) == PlainEnd(lines, i, fence)
      {
        if ClosesFence(lines[i], fence) {
          return i;
        }
      }
      return |lines|;
    }
    var inner := "";
    for i := start + 1 to |lines|
      invariant EndOfBlock(lines, start) == SuggestionEnd(lines, i, fence, inner)
    {
      var line := lines[i];
      if EndsSuggestion(line, fence, inner) {
        return i;
      } else if inner != "" {
        if ClosesFence(line, inner) {
          inner := "";
        }
      } else {
        var nested := OpenFence(line);
        if nested.Some? {
          inner := nested.value.run;
        }
      }
    }
    return |lines|;
  }

  method ReadBlock(lines: seq<string>, start: nat, end: nat) returns (block: string)
    requires start < |lines| && OpensSuggestion(lines[start]) && end == EndOfBlock(lines, start)
    ensures [block] == BlockAt(lines, start)
  {
    hide OpenFence, OpensSuggestion, EndOfBlock, TrimCR;
    var kept: seq<string> := [];
    for j := start + 1 to end
      invariant StripCRs(lines[start + 1..end]) == kept + StripCRs(lines[j..end])
    {
      assert lines[j..end][1..] == lines[j + 1..end];
      kept := kept + [TrimCR(lines[j])];
    }
    assert StripCRs(lines[start + 1..end]) == kept;
    block := JoinLines(kept);
  }

  method Suggestions(body: string) returns (out: seq<string>)
    ensures out == Proposed(body)
  {
    hide OpenFence, OpensSuggestion, EndOfBlock, BlockAt, ProposedFrom, SplitLines;
    out := [];
    var lines := SplitLines(body);
    var i := 0;
    while i < |lines|
      invariant Proposed(body) == out + ProposedFrom(lines, i)
      decreases |lines| - i
    {
      if OpenFence(lines[i]).None? {
        NextBlock(lines, i);
        i := i + 1;
      } else {
        var end := BlockEnd(lines, i);
        ProposedStep(Proposed(body), out, lines, i);
        PlainProposesNothing(lines, i);
        if OpensSuggestion(lines[i]) {
          var block := ReadBlock(lines, i, end);
          out := out + [block];
        }
        i := end + 1;
      }
    }
    NothingBehind(lines, i);
  }

  lemma NothingBehind(lines: seq<string>, i: nat)
    requires i >= |lines|
    ensures ProposedFrom(lines, i) == []
  {
  }

  lemma PlainProposesNothing(lines: seq<string>, i: nat)
    requires i < |lines| && OpenFence(lines[i]).Some?
    ensures !OpensSuggestion(lines[i]) ==> BlockAt(lines, i) == []
  {
    hide OpenFence, OpensSuggestion;
  }

  lemma ProposedStep(whole: seq<string>, out: seq<string>, lines: seq<string>, i: nat)
    requires i < |lines| && OpenFence(lines[i]).Some?
    requires whole == out + ProposedFrom(lines, i)
    ensures var next := ProposedFrom(lines, EndOfBlock(lines, i) + 1);
            whole == (out + BlockAt(lines, i)) + next && (BlockAt(lines, i) == [] ==> whole == out + next)
  {
    hide OpenFence, OpensSuggestion, EndOfBlock, BlockAt, ProposedFrom;
    NextBlock(lines, i);
  }

  method DanglingFence(text: string) returns (fence: string)
    ensures fence == Dangling(text)
  {
    hide OpenFence, OpensSuggestion, EndOfBlock, SplitLines;
    var lines := SplitLines(text);
    var i := 0;
    while i < |lines|
      invariant i <= |lines|
      invariant LeftOpenFrom(lines, 0) == LeftOpenFrom(lines, i)
      decreases |lines| - i
    {
      var open := OpenFence(lines[i]);
      if open.None? {
        i := i + 1;
        continue;
      }
      var end := BlockEnd(lines, i);
      if end == |lines| {
        return open.value.run;
      }
      i := end + 1;
    }
    return "";
  }

  /** n backticks. */
  function Backticks(n: nat): (s: string)
    ensures |s| == n && forall i :: 0 <= i < n ==> s[i] == '`'
  {
    seq(n, i => '`')
  }

  /** The shortest fence of at least n backticks that `s` does not hold. */
  function LongEnough(s: string, n: nat): (m: nat)
    ensures m >= n && !Contains(s, Backticks(m))
    ensures forall k :: n <= k < m ==> Contains(s, Backticks(k))
    decreases |s| + 1 - n
  {
    if Contains(s, Backticks(n)) then LongEnough(s, n + 1) else n
  }

  function Block(suggestion: string): string {
    var fence := Backticks(LongEnough(suggestion, MIN_FENCE));
    fence + "suggestion\n" + suggestion + "\n" + fence
  }

  /** The body with the block it leaves open, if any, closed. */
  function Closed(body: string): string {
    var dangling := Dangling(body);
    if dangling == "" then body else body + "\n" + dangling
  }

  /** What WithSuggestion writes. */
  function Appended(body: string, suggestion: string): string {
    var s := TrimNewlines(suggestion);
    if TrimSpace(s) == "" then body
    else if TrimSpace(body) == "" then Block(s)
    else Closed(TrimNewlines(body)) + "\n\n" + Block(s)
  }

  method WithSuggestion(body: string, suggestion: string) returns (r: string)
    ensures r == Appended(body, suggestion)
  {
    hide TrimSpace, Dangling;
    var s := TrimNewlines(suggestion);
    if TrimSpace(s) == "" {
      return body;
    }
    var fence := "```";
    assert fence == Backticks(MIN_FENCE);
    while Contains(s, fence)
      invariant |fence| >= MIN_FENCE && fence == Backticks(|fence|)
      invariant LongEnough(s, MIN_FENCE) == LongEnough(s, |fence|)
      decreases |s| + 1 - |fence|
    {
      fence := fence + "`";
      assert fence == Backticks(|fence|);
    }
    var block := fence + "suggestion\n" + s + "\n" + fence;
    if TrimSpace(body) == "" {
      return block;
    }
    var b := TrimNewlines(body);
    var dangling := DanglingFence(b);
    if dangling != "" {
      b := b + "\n" + dangling;
    }
    return b + "\n\n" + block;
  }
}
