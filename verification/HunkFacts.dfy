/** What the body of a hunk is, whatever lines follow its header. */
module HunkFacts {
  import opened Prelude
  import opened DiffModel

  // ----- What the lines of a body say, counts aside -----

  datatype Shape = Shape(kind: Kind, content: string, noNewline: bool)

  predicate OfBody(raw: seq<string>) {
    forall k :: 0 <= k < |raw| ==> IsBody(raw[k]) || IsMarker(raw[k])
  }

  /** One shape for each line, and none for a marker: it marks the line before it. */
  ghost function ShapesOfText(raw: seq<string>): seq<Shape>
    requires OfBody(raw)
  {
    if |raw| == 0 then []
    else
      var before := ShapesOfText(raw[..|raw| - 1]);
      var l := raw[|raw| - 1];
      if !IsMarker(l) then before + [Shape(KindOf(l), ContentOf(l), false)]
      else if |before| == 0 then before
      else before[|before| - 1 := before[|before| - 1].(noNewline := true)]
  }

  ghost function ShapesOf(lines: seq<Line>): seq<Shape> {
    seq(|lines|, k requires 0 <= k < |lines| => Shape(lines[k].kind, lines[k].content, lines[k].noNewline))
  }

  ghost predicate Shows(lines: seq<string>, from: nat, i: nat, got: seq<Line>) {
    from <= i <= |lines| && OfBody(lines[from..i]) && ShapesOf(got) == ShapesOfText(lines[from..i])
  }

  lemma ShowsNone(lines: seq<string>, from: nat)
    requires from <= |lines|
    ensures Shows(lines, from, from, [])
  {
    assert lines[from..from] == [];
  }

  lemma ShowsMarker(lines: seq<string>, from: nat, i: nat, got: seq<Line>)
    requires Shows(lines, from, i, got) && i < |lines| && IsMarker(lines[i])
    ensures Shows(lines, from, i + 1, MarkLast(got))
  {
    var more := lines[from..i + 1];
    assert more[..|more| - 1] == lines[from..i];
    ShapesMarked(got);
    assert OfBody(more);
  }

  lemma ShapesSnoc(got: seq<Line>, line: Line)
    ensures ShapesOf(got + [line]) == ShapesOf(got) + [Shape(line.kind, line.content, line.noNewline)]
  {
    var shapes := ShapesOf(got + [line]);
    assert shapes[..|got|] == ShapesOf(got);
    assert shapes == shapes[..|got|] + [shapes[|got|]];
  }

  lemma ShapesMarked(got: seq<Line>)
    ensures var shapes := ShapesOf(got);
            ShapesOf(MarkLast(got)) == if got == [] then [] else shapes[|got| - 1 := shapes[|got| - 1].(noNewline := true)]
  {
  }

  lemma ShowsLine(lines: seq<string>, from: nat, i: nat, got: seq<Line>, line: Line)
    requires Shows(lines, from, i, got) && i < |lines| && !IsMarker(lines[i]) && IsBody(lines[i])
    requires line.kind == KindOf(lines[i]) && line.content == ContentOf(lines[i]) && !line.noNewline
    ensures Shows(lines, from, i + 1, got + [line])
  {
    hide ShapesOf;
    var more := lines[from..i + 1];
    assert more[..|more| - 1] == lines[from..i];
    ShapesSnoc(got, line);
    assert OfBody(more);
  }

  lemma {:induction false} BodyShows(lines: seq<string>, from: nat, i: nat, oldNo: nat, newNo: nat, oldLeft: int, newLeft: int,
                                     surplus: Option<nat>, got: seq<Line>)
    requires i <= |lines| && SurplusOk(lines, i, oldLeft, newLeft, surplus)
    requires Shows(lines, from, i, got)
    ensures var b := ReadBody(lines, i, oldNo, newNo, oldLeft, newLeft, surplus, got);
            Shows(lines, from, b.next, b.lines)
    decreases |lines| - i, if oldLeft > 0 || newLeft > 0 then 1 else 0
  {
    hide Shows, SurplusFrom;
    if i == |lines| {
      return;
    }
    var l := lines[i];
    if IsMarker(l) {
      ShowsMarker(lines, from, i, got);
      BodyShows(lines, from, i + 1, oldNo, newNo, oldLeft, newLeft, surplus, MarkLast(got));
      return;
    }
    var out := oldLeft <= 0 && newLeft <= 0;
    var end := if out && surplus.None? then Some(SurplusBodyEnd(lines, i)) else surplus;
    if out && i >= end.value {
    } else if !IsBody(l) {
      BodyShows(lines, from, i, oldNo, newNo, 0, 0, end, got);
    } else {
      var c := ContentOf(l);
      match KindOf(l) {
        case Context =>
          var line := Line(Context, oldNo, newNo, c, false);
          ShowsLine(lines, from, i, got, line);
          BodyShows(lines, from, i + 1, oldNo + 1, newNo + 1, oldLeft - 1, newLeft - 1, end, got + [line]);
        case Add =>
          var line := Line(Add, 0, newNo, c, false);
          ShowsLine(lines, from, i, got, line);
          BodyShows(lines, from, i + 1, oldNo, newNo + 1, oldLeft, newLeft - 1, end, got + [line]);
        case Delete =>
          var line := Line(Delete, oldNo, 0, c, false);
          ShowsLine(lines, from, i, got, line);
          BodyShows(lines, from, i + 1, oldNo + 1, newNo, oldLeft - 1, newLeft, end, got + [line]);
      }
    }
  }

  /** Every line a hunk takes is in it, once, in its order, as what it is. */
  lemma EveryLineIsShown(lines: seq<string>, i: nat, h: Hunk)
    requires i <= |lines|
    ensures var b := ReadHunkBody(lines, i, h);
            OfBody(lines[i..b.next]) && ShapesOf(b.lines) == ShapesOfText(lines[i..b.next])
  {
    hide ReadBody;
    ShowsNone(lines, i);
    BodyShows(lines, i, i, h.oldStart, h.newStart, h.oldLines, h.newLines, None, []);
  }

  // ----- Numbers -----

  ghost function OldNumbers(lines: seq<Line>): seq<nat> {
    if |lines| == 0 then []
    else if lines[|lines| - 1].kind == Add then OldNumbers(lines[..|lines| - 1])
    else OldNumbers(lines[..|lines| - 1]) + [lines[|lines| - 1].oldNumber]
  }

  ghost function NewNumbers(lines: seq<Line>): seq<nat> {
    if |lines| == 0 then []
    else if lines[|lines| - 1].kind == Delete then NewNumbers(lines[..|lines| - 1])
    else NewNumbers(lines[..|lines| - 1]) + [lines[|lines| - 1].newNumber]
  }

  ghost function UpFrom(start: nat, n: nat): seq<nat> {
    seq(n, k requires 0 <= k => start + k)
  }

  /** The lines of each side are numbered without a gap, and a line is not numbered on the side it is not on. */
  ghost predicate Numbered(lines: seq<Line>, oldStart: nat, newStart: nat) {
    && OldNumbers(lines) == UpFrom(oldStart, |OldNumbers(lines)|)
    && NewNumbers(lines) == UpFrom(newStart, |NewNumbers(lines)|)
    && forall k :: 0 <= k < |lines| ==>
         (lines[k].kind == Add ==> lines[k].oldNumber == 0) && (lines[k].kind == Delete ==> lines[k].newNumber == 0)
  }

  /** The lines got are numbered, and these are the next numbers. */
  ghost predicate Counted(got: seq<Line>, oldStart: nat, newStart: nat, oldNo: nat, newNo: nat) {
    && Numbered(got, oldStart, newStart)
    && oldNo == oldStart + |OldNumbers(got)|
    && newNo == newStart + |NewNumbers(got)|
  }

  lemma CountedLine(got: seq<Line>, oldStart: nat, newStart: nat, oldNo: nat, newNo: nat, line: Line)
    requires Counted(got, oldStart, newStart, oldNo, newNo)
    requires line.oldNumber == if line.kind == Add then 0 else oldNo
    requires line.newNumber == if line.kind == Delete then 0 else newNo
    ensures Counted(got + [line], oldStart, newStart, if line.kind == Add then oldNo else oldNo + 1,
                    if line.kind == Delete then newNo else newNo + 1)
  {
    var more := got + [line];
    assert more[..|more| - 1] == got;
  }

  lemma {:induction false} MarkedNumbers(got: seq<Line>)
    ensures OldNumbers(MarkLast(got)) == OldNumbers(got) && NewNumbers(MarkLast(got)) == NewNumbers(got)
  {
    if |got| > 0 {
      var marked := MarkLast(got);
      assert marked[..|marked| - 1] == got[..|got| - 1];
    }
  }

  lemma {:induction false} BodyCounts(lines: seq<string>, i: nat, oldNo: nat, newNo: nat, oldLeft: int, newLeft: int,
                                      surplus: Option<nat>, got: seq<Line>, oldStart: nat, newStart: nat)
    requires i <= |lines| && SurplusOk(lines, i, oldLeft, newLeft, surplus)
    requires Counted(got, oldStart, newStart, oldNo, newNo)
    ensures var b := ReadBody(lines, i, oldNo, newNo, oldLeft, newLeft, surplus, got);
            Numbered(b.lines, oldStart, newStart)
    decreases |lines| - i, if oldLeft > 0 || newLeft > 0 then 1 else 0
  {
    hide SurplusFrom, Numbered, OldNumbers, NewNumbers;
    if i == |lines| {
      return;
    }
    var l := lines[i];
    if IsMarker(l) {
      CountedMarked(got, oldStart, newStart, oldNo, newNo);
      BodyCounts(lines, i + 1, oldNo, newNo, oldLeft, newLeft, surplus, MarkLast(got), oldStart, newStart);
      return;
    }
    var out := oldLeft <= 0 && newLeft <= 0;
    var end := if out && surplus.None? then Some(SurplusBodyEnd(lines, i)) else surplus;
    if out && i >= end.value {
    } else if !IsBody(l) {
      BodyCounts(lines, i, oldNo, newNo, 0, 0, end, got, oldStart, newStart);
    } else {
      var c := ContentOf(l);
      match KindOf(l) {
        case Context =>
          var line := Line(Context, oldNo, newNo, c, false);
          CountedLine(got, oldStart, newStart, oldNo, newNo, line);
          BodyCounts(lines, i + 1, oldNo + 1, newNo + 1, oldLeft - 1, newLeft - 1, end, got + [line], oldStart, newStart);
        case Add =>
          var line := Line(Add, 0, newNo, c, false);
          CountedLine(got, oldStart, newStart, oldNo, newNo, line);
          BodyCounts(lines, i + 1, oldNo, newNo + 1, oldLeft, newLeft - 1, end, got + [line], oldStart, newStart);
        case Delete =>
          var line := Line(Delete, oldNo, 0, c, false);
          CountedLine(got, oldStart, newStart, oldNo, newNo, line);
          BodyCounts(lines, i + 1, oldNo + 1, newNo, oldLeft - 1, newLeft, end, got + [line], oldStart, newStart);
      }
    }
  }

  lemma CountedMarked(got: seq<Line>, oldStart: nat, newStart: nat, oldNo: nat, newNo: nat)
    requires Counted(got, oldStart, newStart, oldNo, newNo)
    ensures Counted(MarkLast(got), oldStart, newStart, oldNo, newNo)
  {
    MarkedNumbers(got);
  }

  /** Whatever the counts of its header say, a hunk numbers each side without a gap from the header's start. */
  lemma NumbersAreContiguous(lines: seq<string>, i: nat, h: Hunk)
    requires i <= |lines|
    ensures Numbered(ReadHunkBody(lines, i, h).lines, h.oldStart, h.newStart)
  {
    hide ReadBody;
    BodyCounts(lines, i, h.oldStart, h.newStart, h.oldLines, h.newLines, None, [], h.oldStart, h.newStart);
  }

  // ----- Changes, in characters -----

  /** A run of dashes, and spaces: what a mail reader takes for the end of the text. */
  ghost predicate IsDashes(l: string) {
    exists n: nat :: 1 <= n <= |l| && DashesAndSpaces(l, n)
  }

  predicate DashesAndSpaces(l: string, n: nat)
    requires n <= |l|
  {
    (forall k :: 0 <= k < n ==> l[k] == '-') && forall k :: n <= k < |l| ==> l[k] == ' '
  }

  lemma {:induction false} TrimmedToDashes(l: string, n: nat)
    requires 1 <= n <= |l| && DashesAndSpaces(l, n)
    ensures TrimSpacesRight(l) == l[..n]
  {
    if n < |l| {
      TrimmedToDashes(l[..|l| - 1], n);
      assert l[..|l| - 1][..n] == l[..n];
    } else {
      assert l[..n] == l;
    }
  }

  lemma {:induction false} TrimmedSpaces(l: string)
    ensures TrimSpacesRight(l) <= l && forall k :: |TrimSpacesRight(l)| <= k < |l| ==> l[k] == ' '
  {
    if l != "" && l[|l| - 1] == ' ' {
      TrimmedSpaces(l[..|l| - 1]);
    }
  }

  /** What the parser takes for a run of dashes is one, in characters. */
  lemma DashesAreDashRun(l: string)
    ensures IsDashRun(l) <==> IsDashes(l)
  {
    if n: nat :| 1 <= n <= |l| && DashesAndSpaces(l, n) {
      TrimmedToDashes(l, n);
    }
    if IsDashRun(l) {
      TrimmedSpaces(l);
      var t := TrimSpacesRight(l);
      assert forall k :: 0 <= k < |t| ==> l[k] == t[k];
      assert DashesAndSpaces(l, |t|);
    }
  }

  /** An addition that is no header, or a deletion that is neither a header nor dashes. */
  ghost predicate LooksLikeChange(l: string) {
    && l != ""
    && ((l[0] == '+' && !("+++ " <= l)) || (l[0] == '-' && !("--- " <= l) && !IsDashes(l)))
  }

  /** A line that a body may hold without a change. */
  predicate LooksLikeContext(l: string) {
    l == "" || l[0] == ' ' || l[0] == '\\'
  }

  lemma LooksAre(l: string)
    ensures IsChange(l) <==> LooksLikeChange(l)
    ensures IsAmbiguous(l) <==> LooksLikeContext(l)
  {
    hide IsDashRun, IsDashes;
    DashesAreDashRun(l);
  }

  // ----- Surplus -----

  /** The end found so far matters only when no change follows. */
  lemma {:induction false} SurplusEnd(lines: seq<string>, i: nat, end: nat)
    requires end <= i <= |lines|
    ensures SurplusFrom(lines, i, end) == if SurplusFrom(lines, i, i) == i then end else SurplusFrom(lines, i, i)
    decreases |lines| - i
  {
    if i < |lines| && IsAmbiguous(lines[i]) {
      SurplusEnd(lines, i + 1, end);
      SurplusEnd(lines, i + 1, i);
    }
  }

  /** What is known of the surplus once it has been computed. */
  ghost predicate SurplusKnown(lines: seq<string>, i: nat, surplus: Option<nat>)
    requires i <= |lines|
  {
    surplus.Some? ==> SurplusBodyEnd(lines, i) == if i < surplus.value then surplus.value else i
  }

  lemma NoneAtTheEnd(lines: seq<string>)
    ensures SurplusBodyEnd(lines, |lines|) == |lines|
  {
  }

  lemma SurplusStep(lines: seq<string>, i: nat, surplus: Option<nat>)
    requires i < |lines| && SurplusKnown(lines, i, surplus)
    requires IsMarker(lines[i]) || (surplus.Some? ==> i < surplus.value)
    ensures SurplusKnown(lines, i + 1, surplus)
  {
    hide IsChange;
    if IsAmbiguous(lines[i]) {
      SurplusEnd(lines, i + 1, i);
    }
  }

  lemma {:induction false} BodyTakesSurplus(lines: seq<string>, i: nat, oldNo: nat, newNo: nat, oldLeft: int, newLeft: int,
                                            surplus: Option<nat>, got: seq<Line>)
    requires i <= |lines| && SurplusOk(lines, i, oldLeft, newLeft, surplus)
    requires SurplusKnown(lines, i, surplus)
    ensures var next := ReadBody(lines, i, oldNo, newNo, oldLeft, newLeft, surplus, got).next;
            SurplusBodyEnd(lines, next) == next
    decreases |lines| - i, if oldLeft > 0 || newLeft > 0 then 1 else 0
  {
    hide SurplusBodyEnd, MarkLast, IsMarker, IsBody, ContentOf;
    if i == |lines| {
      NoneAtTheEnd(lines);
      return;
    }
    var l := lines[i];
    if IsMarker(l) {
      SurplusStep(lines, i, surplus);
      BodyTakesSurplus(lines, i + 1, oldNo, newNo, oldLeft, newLeft, surplus, MarkLast(got));
      return;
    }
    var out := oldLeft <= 0 && newLeft <= 0;
    var end := if out && surplus.None? then Some(SurplusBodyEnd(lines, i)) else surplus;
    if out && i >= end.value {
    } else if !IsBody(l) {
      BodyTakesSurplus(lines, i, oldNo, newNo, 0, 0, end, got);
    } else {
      SurplusStep(lines, i, end);
      var c := ContentOf(l);
      match KindOf(l) {
        case Context =>
          BodyTakesSurplus(lines, i + 1, oldNo + 1, newNo + 1, oldLeft - 1, newLeft - 1, end,
                           got + [Line(Context, oldNo, newNo, c, false)]);
        case Add =>
          BodyTakesSurplus(lines, i + 1, oldNo, newNo + 1, oldLeft, newLeft - 1, end, got + [Line(Add, 0, newNo, c, false)]);
        case Delete =>
          BodyTakesSurplus(lines, i + 1, oldNo + 1, newNo, oldLeft - 1, newLeft, end, got + [Line(Delete, oldNo, 0, c, false)]);
      }
    }
  }

  /** A scan that finds no surplus passes no change before a line that ends it. */
  lemma {:induction false} NoSurplusNoChange(lines: seq<string>, i: nat, k: nat)
    requires i <= k < |lines| && SurplusBodyEnd(lines, i) == i
    requires forall m :: i <= m < k ==> IsAmbiguous(lines[m]) || IsChange(lines[m])
    ensures !IsChange(lines[k])
    decreases k - i
  {
    if i < k {
      NotBoth(lines[i]);
      hide IsChange;
      if IsAmbiguous(lines[i]) {
        SurplusEnd(lines, i + 1, i);
        NoSurplusNoChange(lines, i + 1, k);
      }
    } else {
      NotBoth(lines[k]);
    }
  }

  lemma NotBoth(l: string)
    ensures !(IsAmbiguous(l) && IsChange(l))
  {
  }

  lemma {:induction false} SurplusEnds(lines: seq<string>, i: nat, end: nat)
    requires end <= i <= |lines|
    ensures var r := SurplusFrom(lines, i, end);
            && (r == end || (r > i && IsChange(lines[r - 1])))
            && forall k :: i <= k < r ==> IsAmbiguous(lines[k]) || IsChange(lines[k])
    decreases |lines| - i
  {
    hide IsChange, IsAmbiguous;
    if i < |lines| {
      if IsAmbiguous(lines[i]) {
        SurplusEnds(lines, i + 1, end);
      } else if IsChange(lines[i]) {
        SurplusEnds(lines, i + 1, i + 1);
      }
    }
  }

  /** Surplus ends in a change, so the context and the blank lines that trail a hunk are not taken for part of it. */
  lemma SurplusEndsInChange(lines: seq<string>, i: nat)
    requires i <= |lines|
    ensures var r := SurplusBodyEnd(lines, i);
            && (r > i ==> LooksLikeChange(lines[r - 1]))
            && forall k :: i <= k < r ==> LooksLikeContext(lines[k]) || LooksLikeChange(lines[k])
  {
    hide IsChange, IsAmbiguous, LooksLikeChange, LooksLikeContext;
    SurplusEnds(lines, i, i);
    forall k | i <= k < |lines| {
      LooksAre(lines[k]);
    }
  }

  /** Where a hunk ends no change follows, but behind a line that no body could hold, whatever the counts say. */
  lemma NoChangeIsLeftOut(lines: seq<string>, i: nat, h: Hunk, k: nat)
    requires i <= |lines| && ReadHunkBody(lines, i, h).next <= k < |lines|
    requires forall m :: ReadHunkBody(lines, i, h).next <= m < k ==> LooksLikeContext(lines[m]) || LooksLikeChange(lines[m])
    ensures !LooksLikeChange(lines[k])
  {
    hide ReadBody, SurplusBodyEnd, IsChange, IsAmbiguous, LooksLikeChange, LooksLikeContext;
    var next := ReadHunkBody(lines, i, h).next;
    BodyTakesSurplus(lines, i, h.oldStart, h.newStart, h.oldLines, h.newLines, None, []);
    forall m | next <= m <= k {
      LooksAre(lines[m]);
    }
    NoSurplusNoChange(lines, next, k);
  }
}
