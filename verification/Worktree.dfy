/** The new side of a file: rebuilt from its hunks, and compared with the working tree. */
module Worktree {
  import opened Prelude
  import opened Text
  import opened DiffModel
  import opened HunkFacts

  // ----- Lines of a side -----

  /** trimLineEnd. */
  function TrimLineEnd(s: string): string {
    if s != "" && s[|s| - 1] == '\r' then TrimLineEnd(s[..|s| - 1]) else s
  }

  function NewSide(lines: seq<Line>): seq<string> {
    if |lines| == 0 then []
    else if lines[|lines| - 1].kind == Delete then NewSide(lines[..|lines| - 1])
    else NewSide(lines[..|lines| - 1]) + [lines[|lines| - 1].content]
  }

  function OldSide(lines: seq<Line>): seq<string> {
    if |lines| == 0 then []
    else if lines[|lines| - 1].kind == Add then OldSide(lines[..|lines| - 1])
    else OldSide(lines[..|lines| - 1]) + [lines[|lines| - 1].content]
  }

  lemma {:induction false} NewSidePrefix(lines: seq<Line>, k: nat)
    requires k <= |lines|
    ensures NewSide(lines[..k]) <= NewSide(lines)
    ensures k < |lines| && lines[k].kind != Delete ==>
              |NewSide(lines[..k])| < |NewSide(lines)| && NewSide(lines)[|NewSide(lines[..k])|] == lines[k].content
  {
    if k == |lines| {
      assert lines[..k] == lines;
    } else {
      var init := lines[..|lines| - 1];
      NewSidePrefix(init, k);
      assert init[..k] == lines[..k];
    }
  }

  lemma NewSideNext(lines: seq<Line>, k: nat)
    requires k < |lines|
    ensures NewSide(lines[..k + 1])
         == if lines[k].kind == Delete then NewSide(lines[..k]) else NewSide(lines[..k]) + [lines[k].content]
  {
    assert lines[..k + 1][..k] == lines[..k];
  }

  // ----- What the working tree is asked -----

  /** The line of that number is there, and is this one up to its carriage returns. */
  predicate LineIs(file: seq<string>, number: int, content: string) {
    1 <= number <= |file| && TrimLineEnd(file[number - 1]) == TrimLineEnd(content)
  }

  /** These lines stand in the file one after the other, the first being the line of this number. */
  ghost predicate SitsAt(file: seq<string>, number: int, side: seq<string>) {
    forall j :: 0 <= j < |side| ==> LineIs(file, number + j, side[j])
  }

  ghost predicate HunkAgrees(file: seq<string>, h: Hunk) {
    h.newStart < 1 || SitsAt(file, h.newStart, NewSide(h.lines))
  }

  ghost predicate Agrees(file: seq<string>, hunks: seq<Hunk>) {
    forall i :: 0 <= i < |hunks| ==> HunkAgrees(file, hunks[i])
  }

  /** A file that is not there, is binary or has no hunks cannot be contradicted. */
  ghost predicate Matches(content: string, f: Option<File>) {
    f.None? || f.value.isBinary || Agrees(SplitLines(content), f.value.hunks)
  }

  lemma SitsAtSnoc(file: seq<string>, number: int, side: seq<string>, line: string)
    ensures SitsAt(file, number, side + [line]) <==> SitsAt(file, number, side) && LineIs(file, number + |side|, line)
  {
    hide LineIs;
    var more := side + [line];
    if SitsAt(file, number, more) {
      assert more[|side|] == line;
      forall j | 0 <= j < |side| ensures LineIs(file, number + j, side[j]) {
        assert more[j] == side[j];
      }
    }
  }

  lemma SitsAtPart(file: seq<string>, number: int, part: seq<string>, side: seq<string>)
    requires part <= side && SitsAt(file, number, side)
    ensures SitsAt(file, number, part)
  {
    hide LineIs;
    forall j | 0 <= j < |part| ensures LineIs(file, number + j, part[j]) {
      assert part[j] == side[j];
    }
  }

  /** worktreeMatchesNewSide: one line out of place is enough. */
  method WorktreeMatchesNewSide(content: string, f: Option<File>) returns (ok: bool)
    ensures ok <==> Matches(content, f)
  {
    hide HunkAgrees, SplitLines;
    if f.None? || f.value.isBinary || |f.value.hunks| == 0 {
      return true;
    }
    var lines := SplitLines(content);
    var hunks := f.value.hunks;
    for i := 0 to |hunks|
      invariant forall j :: 0 <= j < i ==> HunkAgrees(lines, hunks[j])
    {
      var agrees := HunkMatches(lines, hunks[i]);
      if !agrees {
        return false;
      }
    }
    return true;
  }

  /** One turn of its loop. */
  method HunkMatches(lines: seq<string>, h: Hunk) returns (ok: bool)
    ensures ok <==> HunkAgrees(lines, h)
  {
    hide SitsAt, NewSide, TrimLineEnd;
    if h.newStart < 1 {
      return true;
    }
    var num := h.newStart;
    assert h.lines[..0] == [];
    NewSideNone();
    SitsAtNone(lines, num);
    for k := 0 to |h.lines|
      invariant num == h.newStart + |NewSide(h.lines[..k])|
      invariant SitsAt(lines, h.newStart, NewSide(h.lines[..k]))
    {
      var l := h.lines[k];
      NewSideNext(h.lines, k);
      if l.kind == Delete {
        continue;
      }
      SitsAtSnoc(lines, h.newStart, NewSide(h.lines[..k]), l.content);
      if num < 1 || num > |lines| || TrimLineEnd(lines[num - 1]) != TrimLineEnd(l.content) {
        PartDisagrees(lines, h, k + 1);
        return false;
      }
      num := num + 1;
    }
    assert h.lines[..|h.lines|] == h.lines;
    return true;
  }

  lemma SitsAtNone(file: seq<string>, number: int)
    ensures SitsAt(file, number, NewSide([]))
  {
  }

  lemma PartDisagrees(file: seq<string>, h: Hunk, k: nat)
    requires k <= |h.lines| && h.newStart >= 1 && !SitsAt(file, h.newStart, NewSide(h.lines[..k]))
    ensures !HunkAgrees(file, h)
  {
    hide SitsAt, NewSide;
    NewSidePrefix(h.lines, k);
    if HunkAgrees(file, h) {
      SitsAtPart(file, h.newStart, NewSide(h.lines[..k]), NewSide(h.lines));
    }
  }

  // ----- Line by line -----

  lemma {:induction false} NumbersOfSide(lines: seq<Line>, k: nat)
    requires k <= |lines|
    ensures |NewNumbers(lines)| == |NewSide(lines)|
    ensures k < |lines| && lines[k].kind != Delete ==>
              |NewSide(lines[..k])| < |NewSide(lines)| && NewNumbers(lines)[|NewSide(lines[..k])|] == lines[k].newNumber
  {
    if |lines| > 0 {
      var init := lines[..|lines| - 1];
      NumbersOfSide(init, if k <= |init| then k else |init|);
      if k < |init| {
        assert init[..k] == lines[..k];
      }
    }
  }

  /** A line of a numbered hunk says itself which line of the new side it is. */
  lemma NumberIsPlace(h: Hunk, k: nat)
    requires Numbered(h.lines, h.oldStart, h.newStart) && k < |h.lines| && h.lines[k].kind != Delete
    ensures h.lines[k].newNumber == h.newStart + |NewSide(h.lines[..k])|
  {
    NumbersOfSide(h.lines, k);
  }

  lemma {:induction false} PartLineByLine(file: seq<string>, h: Hunk, m: nat)
    requires Numbered(h.lines, h.oldStart, h.newStart) && m <= |h.lines|
    ensures SitsAt(file, h.newStart, NewSide(h.lines[..m]))
       <==> forall k :: 0 <= k < m && h.lines[k].kind != Delete ==> LineIs(file, h.lines[k].newNumber, h.lines[k].content)
  {
    hide Numbered, SitsAt, LineIs, NewSide;
    if m == 0 {
      assert h.lines[..0] == [];
      SitsAtNone(file, h.newStart);
    } else {
      PartLineByLine(file, h, m - 1);
      NewSideNext(h.lines, m - 1);
      var l := h.lines[m - 1];
      if l.kind != Delete {
        NumberIsPlace(h, m - 1);
        SitsAtSnoc(file, h.newStart, NewSide(h.lines[..m - 1]), l.content);
      }
    }
  }

  /** Every line rebuilt from a hunk with a place is the working file's line of that number. */
  ghost predicate RebuiltLinesAgree(file: seq<string>, h: Hunk) {
    h.newStart >= 1 ==>
      forall k :: 0 <= k < |h.lines| && h.lines[k].kind != Delete ==> LineIs(file, h.lines[k].newNumber, h.lines[k].content)
  }

  ghost predicate AllNumbered(hunks: seq<Hunk>) {
    forall i :: 0 <= i < |hunks| ==> hunks[i].newStart >= 1 ==> Numbered(hunks[i].lines, hunks[i].oldStart, hunks[i].newStart)
  }

  lemma HunkLineByLine(file: seq<string>, h: Hunk)
    requires h.newStart >= 1 ==> Numbered(h.lines, h.oldStart, h.newStart)
    ensures HunkAgrees(file, h) <==> RebuiltLinesAgree(file, h)
  {
    hide Numbered, SitsAt, LineIs, NewSide;
    if h.newStart >= 1 {
      PartLineByLine(file, h, |h.lines|);
      assert h.lines[..|h.lines|] == h.lines;
    }
  }

  /** The check holds exactly when every rebuilt line is the working file's line of that number. */
  lemma MatchIsLineByLine(content: string, f: File)
    requires AllNumbered(f.hunks) && !f.isBinary
    ensures Matches(content, Some(f))
       <==> forall i :: 0 <= i < |f.hunks| ==> RebuiltLinesAgree(SplitLines(content), f.hunks[i])
  {
    hide HunkAgrees, RebuiltLinesAgree, SplitLines, Numbered;
    var file := SplitLines(content);
    forall i | 0 <= i < |f.hunks| ensures HunkAgrees(file, f.hunks[i]) <==> RebuiltLinesAgree(file, f.hunks[i]) {
      HunkLineByLine(file, f.hunks[i]);
    }
  }

  // ----- Applying a diff -----

  /** Where the lines of a range begin: a range of none begins after the line it names. */
  function FirstAt(start: nat, count: nat): int {
    if count == 0 then start else start - 1
  }

  /**
   * The hunks turn the lines of `before` from o on into the lines of `after`
   * from n on: what lies between hunks is kept, and each hunk sits on both
   * sides where its header says.
   */
  ghost predicate Applies(hunks: seq<Hunk>, before: seq<string>, after: seq<string>, o: nat, n: nat)
    requires o <= |before| && n <= |after|
  {
    if |hunks| == 0 then before[o..] == after[n..]
    else
      var h := hunks[0];
      var gone, come := OldSide(h.lines), NewSide(h.lines);
      var oAt, nAt := FirstAt(h.oldStart, |gone|), FirstAt(h.newStart, |come|);
      && o <= oAt && oAt + |gone| <= |before|
      && n <= nAt && nAt + |come| <= |after|
      && before[o..oAt] == after[n..nAt]
      && before[oAt..oAt + |gone|] == gone
      && after[nAt..nAt + |come|] == come
      && Applies(hunks[1..], before, after, oAt + |gone|, nAt + |come|)
  }

  /** A diff applied to a file has one outcome. */
  lemma {:induction false} AppliesOnce(hunks: seq<Hunk>, before: seq<string>, after1: seq<string>, after2: seq<string>, o: nat, n: nat)
    requires o <= |before| && n <= |after1| && n <= |after2|
    requires Applies(hunks, before, after1, o, n) && Applies(hunks, before, after2, o, n)
    ensures after1[n..] == after2[n..]
  {
    if |hunks| > 0 {
      var h := hunks[0];
      var gone, come := OldSide(h.lines), NewSide(h.lines);
      hide OldSide, NewSide;
      var oAt, nAt := FirstAt(h.oldStart, |gone|), FirstAt(h.newStart, |come|);
      var end := nAt + |come|;
      AppliesOnce(hunks[1..], before, after1, after2, oAt + |gone|, end);
      InThree(after1, n, nAt, end);
      InThree(after2, n, nAt, end);
    }
  }

  lemma InThree(s: seq<string>, a: nat, b: nat, c: nat)
    requires a <= b <= c <= |s|
    ensures s[a..] == s[a..b] + s[b..c] + s[c..]
  {
  }

  /** The content has these lines, but for carriage returns and what may follow them. */
  ghost predicate Holds(content: string, lines: seq<string>) {
    SitsAt(SplitLines(content), 1, lines)
  }

  lemma SliceSits(file: seq<string>, lines: seq<string>, at: nat, part: seq<string>)
    requires SitsAt(file, 1, lines) && at + |part| <= |lines| && lines[at..at + |part|] == part
    ensures SitsAt(file, at + 1, part)
  {
    hide LineIs;
    forall j | 0 <= j < |part| ensures LineIs(file, at + 1 + j, part[j]) {
      assert part[j] == lines[at + j];
      assert LineIs(file, 1 + (at + j), lines[at + j]);
    }
  }

  lemma {:induction false} AppliedAgrees(hunks: seq<Hunk>, before: seq<string>, after: seq<string>, o: nat, n: nat, file: seq<string>)
    requires o <= |before| && n <= |after| && Applies(hunks, before, after, o, n)
    requires SitsAt(file, 1, after)
    ensures Agrees(file, hunks)
  {
    hide SitsAt, OldSide, NewSide;
    if |hunks| > 0 {
      var h := hunks[0];
      var gone, come := OldSide(h.lines), NewSide(h.lines);
      var oAt, nAt := FirstAt(h.oldStart, |gone|), FirstAt(h.newStart, |come|);
      AppliedAgrees(hunks[1..], before, after, oAt + |gone|, nAt + |come|, file);
      SliceSits(file, after, nAt, come);
      if |come| == 0 {
        NothingSits(file, h.newStart, come);
      }
      assert HunkAgrees(file, h);
      assert forall i :: 0 < i < |hunks| ==> hunks[i] == hunks[1..][i - 1];
    }
  }

  lemma NothingSits(file: seq<string>, number: int, side: seq<string>)
    requires |side| == 0
    ensures SitsAt(file, number, side)
  {
  }

  /** A working tree the diff was applied to is never taken for another. */
  lemma AppliedFileMatches(f: File, before: seq<string>, after: seq<string>, content: string)
    requires Applies(f.hunks, before, after, 0, 0) && Holds(content, after)
    ensures Matches(content, Some(f))
  {
    hide Agrees, SplitLines, SitsAt;
    AppliedAgrees(f.hunks, before, after, 0, 0, SplitLines(content));
  }

  /** Line endings: any number of carriage returns. */
  function CRs(n: nat): (s: string)
    ensures |s| == n && forall k :: 0 <= k < n ==> s[k] == '\r'
  {
    seq(n, k => '\r')
  }

  lemma {:induction false} TrimmedOf(line: string, n: nat)
    requires line != "" ==> line[|line| - 1] != '\r'
    ensures TrimLineEnd(line + CRs(n)) == line
  {
    if n > 0 {
      assert (line + CRs(n))[..|line| + n - 1] == line + CRs(n - 1);
      TrimmedOf(line, n - 1);
    } else {
      assert line + CRs(0) == line;
    }
  }

  lemma {:induction false} TrimmedIs(line: string) returns (n: nat)
    ensures line == TrimLineEnd(line) + CRs(n)
    ensures TrimLineEnd(line) != "" ==> TrimLineEnd(line)[|TrimLineEnd(line)| - 1] != '\r'
  {
    if line != "" && line[|line| - 1] == '\r' {
      var init := line[..|line| - 1];
      var m := TrimmedIs(init);
      n := m + 1;
      assert CRs(n) == CRs(m) + "\r";
      assert line == init + "\r";
    } else {
      n := 0;
      assert line + CRs(0) == line;
    }
  }

  /** Two lines are one when they differ in nothing but the carriage returns at their ends. */
  lemma SameButForCRs(a: string, b: string)
    ensures TrimLineEnd(a) == TrimLineEnd(b)
       <==> exists line, m, n :: (line != "" ==> line[|line| - 1] != '\r') && a == line + CRs(m) && b == line + CRs(n)
  {
    if line, m, n :| (line != "" ==> line[|line| - 1] != '\r') && a == line + CRs(m) && b == line + CRs(n) {
      TrimmedOf(line, m);
      TrimmedOf(line, n);
    }
    var m := TrimmedIs(a);
    var n := TrimmedIs(b);
  }

  /** The same lines, each ended by carriage returns. */
  function WithCRs(lines: seq<string>, n: nat): (r: seq<string>)
    ensures |r| == |lines| && forall k :: 0 <= k < |r| ==> r[k] == lines[k] + CRs(n)
  {
    seq(|lines|, k requires 0 <= k < |lines| => lines[k] + CRs(n))
  }

  lemma CRsAreIgnored(line: string, n: nat)
    ensures TrimLineEnd(line + CRs(n)) == TrimLineEnd(line)
  {
    var m := TrimmedIs(line);
    var t := TrimLineEnd(line);
    assert line + CRs(n) == t + CRs(m + n);
    TrimmedOf(t, m + n);
  }

  /** A file written from lines, with or without a newline at its end. */
  function Written(lines: seq<string>, newlineAtEnd: bool): string {
    if newlineAtEnd then JoinLines(lines + [""]) else JoinLines(lines)
  }

  lemma WrittenHolds(lines: seq<string>, newlineAtEnd: bool)
    requires forall l :: l in lines ==> '\n' !in l
    ensures Holds(Written(lines, newlineAtEnd), lines)
  {
    hide JoinLines, SplitLines, TrimLineEnd;
    var all := if newlineAtEnd then lines + [""] else lines;
    if |all| > 0 {
      SplitJoin(all);
    }
  }

  lemma HoldsUpToCRs(content: string, lines: seq<string>, n: nat)
    requires Holds(content, WithCRs(lines, n))
    ensures Holds(content, lines)
  {
    hide TrimLineEnd, SplitLines;
    forall j | 0 <= j < |lines|
      ensures LineIs(SplitLines(content), 1 + j, lines[j])
    {
      assert LineIs(SplitLines(content), 1 + j, WithCRs(lines, n)[j]);
      CRsAreIgnored(lines[j], n);
    }
  }

  /**
   * So a file written from the lines the diff gives matches: with a newline
   * at its end or without, and with carriage returns at the ends of its lines
   * or without.
   */
  lemma WrittenFileMatches(f: File, before: seq<string>, after: seq<string>, crs: nat, newlineAtEnd: bool)
    requires Applies(f.hunks, before, after, 0, 0) && forall l :: l in after ==> '\n' !in l
    ensures Matches(Written(WithCRs(after, crs), newlineAtEnd), Some(f))
  {
    hide Applies, Holds, Matches, Written;
    forall l | l in WithCRs(after, crs)
      ensures '\n' !in l
    {
      var k :| 0 <= k < |after| && l == after[k] + CRs(crs);
      assert after[k] in after;
    }
    WrittenHolds(WithCRs(after, crs), newlineAtEnd);
    HoldsUpToCRs(Written(WithCRs(after, crs), newlineAtEnd), after, crs);
    AppliedFileMatches(f, before, after, Written(WithCRs(after, crs), newlineAtEnd));
  }

  // ----- Rebuilding -----

  function Terminated(lines: seq<string>): string {
    if |lines| == 0 then "" else Terminated(lines[..|lines| - 1]) + lines[|lines| - 1] + "\n"
  }

  /** The next new-side line expected after some lines. */
  function NextNumber(lines: seq<Line>, next: nat): nat {
    if |lines| == 0 then next
    else
      var l := lines[|lines| - 1];
      if l.kind != Delete && l.newNumber > 0 then l.newNumber + 1 else NextNumber(lines[..|lines| - 1], next)
  }

  function Rebuilt(hunks: seq<Hunk>): seq<string> {
    if |hunks| == 0 then [] else NewSide(hunks[0].lines) + Rebuilt(hunks[1..])
  }

  /** No hunk begins past the line expected next. */
  predicate NoGap(hunks: seq<Hunk>, next: nat) {
    |hunks| == 0 || (hunks[0].newStart <= next && NoGap(hunks[1..], NextNumber(hunks[0].lines, next)))
  }

  predicate IsComplete(f: File) {
    NoGap(f.hunks, 1) || (f.status == Added && |f.hunks| > 0)
  }

  /** Reconstruct, on a file nothing is inserted into. */
  method Reconstruct(f: File) returns (content: string, complete: bool)
    ensures content == Terminated(Rebuilt(f.hunks)) && complete == IsComplete(f)
  {
    hide Terminated, NextNumber, NewSide;
    content, complete := "", true;
    var next: nat := 1;
    ghost var done: seq<string> := [];
    TerminatedNone();
    for i := 0 to |f.hunks|
      invariant content == Terminated(done) && Rebuilt(f.hunks) == done + Rebuilt(f.hunks[i..])
      invariant NoGap(f.hunks, 1) == (complete && NoGap(f.hunks[i..], next))
    {
      var h := f.hunks[i];
      assert f.hunks[i..][0] == h && f.hunks[i..][1..] == f.hunks[i + 1..];
      complete := complete && h.newStart <= next;
      content, next := WriteHunk(content, h, next, done);
      done := done + NewSide(h.lines);
    }
    assert f.hunks[|f.hunks|..] == [];
    assert done + [] == done;
    if f.status == Added && |f.hunks| > 0 {
      complete := true;
    }
  }

  lemma TerminatedNone()
    ensures Terminated([]) == ""
  {
  }

  lemma TerminatedSnoc(lines: seq<string>, line: string)
    ensures Terminated(lines + [line]) == Terminated(lines) + line + "\n"
  {
    assert (lines + [line])[..|lines|] == lines;
  }

  /** What is rebuilt has these lines, each ended by a newline, and no other. */
  lemma {:induction false} TerminatedReads(lines: seq<string>)
    requires forall l :: l in lines ==> '\n' !in l
    ensures SplitLines(Terminated(lines)) == lines + [""]
  {
    hide SplitLines;
    if |lines| == 0 {
      SplitOne("");
    } else {
      var init, last := lines[..|lines| - 1], lines[|lines| - 1];
      assert lines == init + [last];
      TerminatedReads(init);
      assert Terminated(lines) == Terminated(init) + (last + "\n");
      SplitOne(last);
      SplitOne("");
      SplitConcat(last, "");
      assert last + "\n" + "" == last + "\n";
      SplitBehind(Terminated(init), init, last + "\n");
    }
  }

  /** Text that ends in a newline, and more behind it. */
  lemma SplitBehind(text: string, lines: seq<string>, more: string)
    requires SplitLines(text) == lines + [""]
    ensures SplitLines(text + more) == lines + SplitLines(more)
  {
    hide SplitLines;
    if |lines| == 0 {
      JoinSplit(text);
      JoinOne("");
      assert text == "" && text + more == more;
      assert lines + SplitLines(more) == SplitLines(more);
    } else {
      var front := JoinLines(lines);
      JoinSplit(text);
      JoinConcat(lines, [""]);
      JoinOne("");
      assert text == front + "\n" + "";
      assert text + more == front + "\n" + more;
      SplitConcat(front, more);
      SplitConcat(front, "");
      SplitOne("");
      assert SplitLines(front) + [""] == lines + [""];
      assert SplitLines(front) == (SplitLines(front) + [""])[..|SplitLines(front)|];
      assert lines == (lines + [""])[..|lines|];
    }
  }

  method WriteHunk(written: string, h: Hunk, from: nat, ghost done: seq<string>) returns (content: string, next: nat)
    requires written == Terminated(done)
    ensures content == Terminated(done + NewSide(h.lines)) && next == NextNumber(h.lines, from)
  {
    hide Terminated, NewSide;
    content, next := written, from;
    assert h.lines[..0] == [];
    NewSideNone();
    assert done + NewSide(h.lines[..0]) == done;
    for k := 0 to |h.lines|
      invariant content == Terminated(done + NewSide(h.lines[..k])) && next == NextNumber(h.lines[..k], from)
    {
      var l := h.lines[k];
      NewSideNext(h.lines, k);
      assert h.lines[..k + 1][..k] == h.lines[..k];
      if l.kind == Delete {
        continue;
      }
      TerminatedSnoc(done + NewSide(h.lines[..k]), l.content);
      assert done + NewSide(h.lines[..k]) + [l.content] == done + NewSide(h.lines[..k + 1]);
      content := content + l.content + "\n";
      if l.newNumber > 0 {
        next := l.newNumber + 1;
      }
    }
    assert h.lines[..|h.lines|] == h.lines;
  }

  lemma NewSideNone()
    ensures NewSide([]) == []
  {
  }

  // ----- A complete file is a prefix -----

  /** Each hunk begins at or after the line expected next. */
  predicate Ascending(hunks: seq<Hunk>, next: nat) {
    |hunks| == 0
    || ((NewSide(hunks[0].lines) != [] ==> next <= hunks[0].newStart) && Ascending(hunks[1..], NextNumber(hunks[0].lines, next)))
  }

  lemma {:induction false} NextAfterNumbers(lines: seq<Line>, next: nat)
    ensures NewNumbers(lines) == [] ==> NextNumber(lines, next) == next
    ensures |NewNumbers(lines)| > 0 && NewNumbers(lines)[|NewNumbers(lines)| - 1] > 0 ==>
              NextNumber(lines, next) == NewNumbers(lines)[|NewNumbers(lines)| - 1] + 1
  {
    if |lines| > 0 {
      NextAfterNumbers(lines[..|lines| - 1], next);
    }
  }

  lemma NextIsEnd(h: Hunk, next: nat)
    requires h.newStart >= 1 && Numbered(h.lines, h.oldStart, h.newStart)
    ensures NextNumber(h.lines, next) == if NewSide(h.lines) == [] then next else h.newStart + |NewSide(h.lines)|
  {
    NumbersOfSide(h.lines, 0);
    NextAfterNumbers(h.lines, next);
  }

  lemma NextOfNone(h: Hunk, next: nat)
    requires NewSide(h.lines) == []
    ensures NextNumber(h.lines, next) == next
  {
    NumbersOfSide(h.lines, 0);
    NextAfterNumbers(h.lines, next);
  }

  lemma SitsAtConcat(file: seq<string>, number: int, a: seq<string>, b: seq<string>)
    requires SitsAt(file, number, a) && SitsAt(file, number + |a|, b)
    ensures SitsAt(file, number, a + b)
  {
    hide LineIs;
    forall j | 0 <= j < |a + b| ensures LineIs(file, number + j, (a + b)[j]) {
      if j >= |a| {
        assert LineIs(file, number + |a| + (j - |a|), b[j - |a|]);
      }
    }
  }

  lemma {:induction false} GaplessSits(file: seq<string>, hunks: seq<Hunk>, next: nat)
    requires next >= 1 && AllNumbered(hunks) && Agrees(file, hunks) && NoGap(hunks, next) && Ascending(hunks, next)
    ensures SitsAt(file, next, Rebuilt(hunks))
  {
    hide SitsAt, NewSide, Numbered, NextNumber;
    if |hunks| == 0 {
      NothingSits(file, next, []);
    } else {
      var h, more := hunks[0], hunks[1..];
      var side := NewSide(h.lines);
      assert HunkAgrees(file, h);
      if side == [] {
        NextOfNone(h, next);
        assert side + Rebuilt(more) == Rebuilt(more);
        RestAgrees(file, hunks);
        GaplessSits(file, more, next);
      } else {
        NextIsEnd(h, next);
        RestAgrees(file, hunks);
        GaplessSits(file, more, next + |side|);
        SitsAtConcat(file, next, side, Rebuilt(more));
      }
    }
  }

  lemma RebuiltFirst(hunks: seq<Hunk>, k: nat)
    requires 0 < k <= |hunks|
    ensures Rebuilt(hunks[..k]) == NewSide(hunks[0].lines) + Rebuilt(hunks[1..][..k - 1])
  {
    hide NewSide;
    assert hunks[..k][1..] == hunks[1..][..k - 1];
  }

  /** Hunks that ascend leave no gap when each begins no later than behind the lines rebuilt before it. */
  lemma {:induction false} NoGapMeans(hunks: seq<Hunk>, next: nat)
    requires next >= 1 && AllNumbered(hunks) && Ascending(hunks, next)
    ensures NoGap(hunks, next) <==> forall k :: 0 <= k < |hunks| ==> hunks[k].newStart <= next + |Rebuilt(hunks[..k])|
  {
    hide NewSide, Numbered, NextNumber, Rebuilt;
    if |hunks| > 0 {
      var h, more := hunks[0], hunks[1..];
      var side := NewSide(h.lines);
      NothingRebuilt();
      assert hunks[..0] == [];
      if h.newStart <= next {
        if side == [] {
          NextOfNone(h, next);
        } else {
          NextIsEnd(h, next);
        }
        RestNumbered(hunks);
        NoGapMeans(more, next + |side|);
        forall k | 0 <= k < |more|
          ensures |Rebuilt(hunks[..k + 1])| == |side| + |Rebuilt(more[..k])| && more[k] == hunks[k + 1]
        {
          RebuiltFirst(hunks, k + 1);
        }
        assert forall k :: 0 < k < |hunks| ==> hunks[k] == more[k - 1] && |Rebuilt(hunks[..k])| == |side| + |Rebuilt(more[..k - 1])|;
      } else {
        assert hunks[0].newStart > next + |Rebuilt(hunks[..0])|;
      }
    }
  }

  lemma NothingRebuilt()
    ensures Rebuilt([]) == []
  {
  }

  /** A file that was added is rebuilt whole; another one when every hunk begins no later than behind the lines rebuilt before it. */
  lemma CompleteMeans(f: File)
    requires AllNumbered(f.hunks) && Ascending(f.hunks, 1)
    ensures IsComplete(f)
       <==> (f.status == Added && f.hunks != [])
            || forall k :: 0 <= k < |f.hunks| ==> f.hunks[k].newStart <= 1 + |Rebuilt(f.hunks[..k])|
  {
    hide NewSide, Numbered, NextNumber, Rebuilt, Ascending, NoGap;
    NoGapMeans(f.hunks, 1);
  }

  lemma RestAgrees(file: seq<string>, hunks: seq<Hunk>)
    requires |hunks| > 0 && AllNumbered(hunks) && Agrees(file, hunks)
    ensures AllNumbered(hunks[1..]) && Agrees(file, hunks[1..])
  {
    hide HunkAgrees, Numbered;
  }

  /** A file that is not new and was rebuilt whole begins a working file that matches it. */
  lemma CompleteIsPrefix(content: string, f: File)
    requires !f.isBinary && f.status != Added && AllNumbered(f.hunks) && Ascending(f.hunks, 1)
    requires Matches(content, Some(f)) && IsComplete(f)
    ensures Holds(content, Rebuilt(f.hunks))
  {
    hide Agrees, SplitLines, SitsAt, NoGap, Ascending, AllNumbered;
    GaplessSits(SplitLines(content), f.hunks, 1);
  }

  /** The hunks of a diff that applies to some file ascend. */
  lemma {:induction false} AppliedAscends(hunks: seq<Hunk>, before: seq<string>, after: seq<string>, o: nat, n: nat, next: nat)
    requires o <= |before| && n <= |after| && Applies(hunks, before, after, o, n) && AllNumbered(hunks) && 1 <= next <= n + 1
    ensures Ascending(hunks, next)
  {
    hide OldSide, NewSide, Numbered, NextNumber;
    if |hunks| > 0 {
      var h := hunks[0];
      var gone, come := OldSide(h.lines), NewSide(h.lines);
      var oAt, nAt := FirstAt(h.oldStart, |gone|), FirstAt(h.newStart, |come|);
      if come == [] {
        NextOfNone(h, next);
      } else {
        NextIsEnd(h, next);
      }
      RestNumbered(hunks);
      AppliedAscends(hunks[1..], before, after, oAt + |gone|, nAt + |come|, NextNumber(h.lines, next));
    }
  }

  lemma RestNumbered(hunks: seq<Hunk>)
    requires |hunks| > 0 && AllNumbered(hunks)
    ensures AllNumbered(hunks[1..])
  {
    hide Numbered;
  }

  // ----- What is handed back -----

  datatype SourceKind = FromWorktree | FromDiff

  datatype Result = Result(content: string, kind: SourceKind, path: string, complete: bool)

  /** newSide: a working tree file is believed only when it can be the new side. */
  method BelievedNewSide(got: Result, f: File) returns (r: Result)
    ensures r.kind == FromWorktree ==> r == got && Matches(r.content, Some(f))
    ensures r != got ==> !Matches(got.content, Some(f)) && r == Result(Terminated(Rebuilt(f.hunks)), FromDiff, "", IsComplete(f))
  {
    if got.kind != FromWorktree {
      return got;
    }
    var ok := WorktreeMatchesNewSide(got.content, Some(f));
    if ok {
      return got;
    }
    var content, complete := Reconstruct(f);
    r := Result(content, FromDiff, "", complete);
  }
}
