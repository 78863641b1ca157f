/** Hunk headers as they are written, and that reading one gives back what it says. */
module HunkHeaders {
  import opened Prelude
  import opened Text
  import opened DiffModel
  import Decimal

  // ----- Searching -----

  lemma {:induction false} FirstOccurrence(before: string, part: string, after: string)
    requires |part| > 0 && part[0] !in before
    ensures IndexOf(before + part + after, part) == |before|
  {
    var s := before + part + after;
    if |before| == 0 {
      assert s == part + after;
    } else {
      assert s[0] == before[0];
      assert s[1..] == before[1..] + part + after;
      FirstOccurrence(before[1..], part, after);
    }
  }

  lemma {:induction false} NoOccurrence(s: string, part: string)
    requires |part| > 0 && part[0] !in s
    ensures IndexOf(s, part) == |s|
  {
    if |s| > 0 {
      NoOccurrence(s[1..], part);
    }
  }

  // ----- Words -----

  predicate IsWord(w: string) {
    |w| > 0 && forall k :: 0 <= k < |w| ==> !IsSpace(w[k])
  }

  lemma {:induction false} WordEnds(w: string, tail: string)
    requires forall k :: 0 <= k < |w| ==> !IsSpace(w[k])
    requires tail != "" ==> IsSpace(tail[0])
    ensures WordLength(w + tail) == |w|
  {
    hide IsSpace;
    if |w| == 0 {
      assert w + tail == tail;
    } else {
      assert (w + tail)[1..] == w[1..] + tail;
      WordEnds(w[1..], tail);
    }
  }

  lemma FieldsSpace(s: string)
    ensures Fields(" " + s) == Fields(s)
  {
    assert (" " + s)[1..] == s;
  }

  lemma FieldsWord(w: string, tail: string)
    requires IsWord(w) && tail != "" && IsSpace(tail[0])
    ensures Fields(w + tail) == [w] + Fields(tail)
  {
    hide IsSpace;
    WordEnds(w, tail);
    var s := w + tail;
    assert s[0] == w[0];
    assert s[..|w|] == w && s[|w|..] == tail;
  }

  lemma TwoFields(a: string, b: string)
    requires IsWord(a) && IsWord(b)
    ensures Fields(" " + a + " " + b + " ") == [a, b]
  {
    hide Fields, IsWord;
    var tail := " " + b + " ";
    assert " " + a + " " + b + " " == " " + (a + tail);
    FieldsSpace(a + tail);
    FieldsWord(a, tail);
    assert tail == " " + (b + " ");
    FieldsSpace(b + " ");
    FieldsWord(b, " ");
    NoFields();
  }

  lemma NoFields()
    ensures Fields(" ") == []
  {
    assert " "[1..] == "";
  }

  // ----- Ranges -----

  /** One side of a hunk header; the count may be left out when it is 1. */
  function RangeText(sign: char, start: nat, count: nat, short: bool): string {
    if short then [sign] + Decimal.Digits(start) else [sign] + Decimal.Digits(start) + "," + Decimal.Digits(count)
  }

  lemma CountReads(n: nat)
    requires n <= MAX_INT
    ensures ParseCount(Decimal.Digits(n)) == Some(n)
  {
    Decimal.ParseDigits(n);
  }

  lemma RangeReads(sign: char, start: nat, count: nat, short: bool)
    requires start <= MAX_INT && count <= MAX_INT && (short ==> count == 1)
    ensures ParseRange(RangeText(sign, start, count, short), sign) == Some(Range(start, count))
  {
    hide ParseCount, IndexOf;
    var s, c := Decimal.Digits(start), Decimal.Digits(count);
    CountReads(start);
    CountReads(count);
    var text := RangeText(sign, start, count, short);
    if short {
      assert text[1..] == s;
      NoOccurrence(s, ",");
    } else {
      assert text[1..] == s + "," + c;
      FirstOccurrence(s, ",", c);
      assert (s + "," + c)[..|s|] == s && (s + "," + c)[|s| + 1..] == c;
    }
  }

  lemma RangeIsWord(sign: char, start: nat, count: nat, short: bool)
    requires sign == '-' || sign == '+'
    ensures IsWord(RangeText(sign, start, count, short))
    ensures '@' !in RangeText(sign, start, count, short)
    ensures '\n' !in RangeText(sign, start, count, short)
  {
  }

  // ----- Headers -----

  /** A section is shown without the spaces around it. */
  predicate IsSection(s: string) {
    '\n' !in s && (s != "" ==> !IsSpace(s[0]) && !IsSpace(s[|s| - 1]))
  }

  function SectionText(section: string): string {
    if section == "" then "" else " " + section
  }

  function RangesText(h: Hunk, shortOld: bool, shortNew: bool): string {
    " " + RangeText('-', h.oldStart, h.oldLines, shortOld) + " " + RangeText('+', h.newStart, h.newLines, shortNew) + " "
  }

  function HeaderText(h: Hunk, shortOld: bool, shortNew: bool): string {
    "@@" + RangesText(h, shortOld, shortNew) + "@@" + SectionText(h.section)
  }

  predicate HeaderOk(h: Hunk, shortOld: bool, shortNew: bool) {
    && (shortOld ==> h.oldLines == 1) && (shortNew ==> h.newLines == 1)
    && h.oldStart <= MAX_INT && h.oldLines <= MAX_INT && h.newStart <= MAX_INT && h.newLines <= MAX_INT
    && IsSection(h.section)
    && h.header == HeaderText(h, shortOld, shortNew)
  }

  lemma SectionReads(section: string)
    requires IsSection(section)
    ensures TrimSpace(SectionText(section)) == section
  {
    if section != "" {
      assert (" " + section)[1..] == section;
      TrimSpaceTight(section);
    }
  }

  lemma RangesRead(h: Hunk, shortOld: bool, shortNew: bool)
    ensures Fields(RangesText(h, shortOld, shortNew))
         == [RangeText('-', h.oldStart, h.oldLines, shortOld), RangeText('+', h.newStart, h.newLines, shortNew)]
    ensures '@' !in RangesText(h, shortOld, shortNew) && '\n' !in RangesText(h, shortOld, shortNew)
  {
    hide RangeText, Fields, IsWord;
    RangeIsWord('-', h.oldStart, h.oldLines, shortOld);
    RangeIsWord('+', h.newStart, h.newLines, shortNew);
    TwoFields(RangeText('-', h.oldStart, h.oldLines, shortOld), RangeText('+', h.newStart, h.newLines, shortNew));
  }

  /** Reading a hunk header gives the ranges and the section it was written from. */
  lemma HeaderReads(h: Hunk, shortOld: bool, shortNew: bool)
    requires HeaderOk(h, shortOld, shortNew)
    ensures ParseHunkHeader(h.header) == Some(h.(lines := []))
  {
    hide RangesText, SectionText, Fields, ParseRange, IndexOf, TrimSpace, IsSection;
    var ranges, tail := RangesText(h, shortOld, shortNew), SectionText(h.section);
    var rest := TrimPrefix(h.header, "@@");
    assert rest == ranges + "@@" + tail;
    RangesRead(h, shortOld, shortNew);
    FirstOccurrence(ranges, "@@", tail);
    assert rest[..|ranges|] == ranges && rest[|ranges| + 2..] == tail;
    SectionReads(h.section);
    RangeReads('-', h.oldStart, h.oldLines, shortOld);
    RangeReads('+', h.newStart, h.newLines, shortNew);
  }
}
