/** The parts of Go's `strings` package the parsers are written with. */
module Text {

  // ----- Lines -----

  /** `strings.Split(s, "\n")`. */
  function SplitLines(s: string): (lines: seq<string>)
    ensures |lines| >= 1
  {
    if |s| == 0 then [""] else Prepend(s[0], SplitLines(s[1..]))
  }

  function Prepend(c: char, lines: seq<string>): (r: seq<string>)
    requires |lines| >= 1
    ensures |r| >= 1
  {
    if c == '\n' then [""] + lines else [[c] + lines[0]] + lines[1..]
  }

  /** `strings.Join(lines, "\n")`. */
  function JoinLines(lines: seq<string>): string {
    if |lines| == 0 then ""
    else if |lines| == 1 then lines[0]
    else lines[0] + "\n" + JoinLines(lines[1..])
  }

  /** Splitting at a newline splits the two sides apart. */
  lemma {:induction false} SplitConcat(a: string, b: string)
    ensures SplitLines(a + "\n" + b) == SplitLines(a) + SplitLines(b)
  {
    var whole := a + "\n" + b;
    if |a| == 0 {
      assert whole[0] == '\n';
      assert whole[1..] == b;
    } else {
      SplitConcat(a[1..], b);
      assert whole[0] == a[0];
      assert whole[1..] == a[1..] + "\n" + b;
      PrependConcat(a[0], SplitLines(a[1..]), SplitLines(b));
    }
  }

  lemma PrependConcat(c: char, lines: seq<string>, tail: seq<string>)
    requires |lines| >= 1
    ensures Prepend(c, lines + tail) == Prepend(c, lines) + tail
  {
  }

  lemma {:induction false} SplitOne(s: string)
    requires '\n' !in s
    ensures SplitLines(s) == [s]
  {
    if |s| > 0 {
      SplitOne(s[1..]);
      assert [s[0]] + s[1..] == s;
    }
  }

  lemma {:induction false} JoinSplit(s: string)
    ensures JoinLines(SplitLines(s)) == s
  {
    if |s| > 0 {
      JoinSplit(s[1..]);
      JoinPrepend(s[0], SplitLines(s[1..]));
      assert [s[0]] + s[1..] == s;
    }
  }

  lemma JoinPrepend(c: char, lines: seq<string>)
    requires |lines| >= 1
    ensures JoinLines(Prepend(c, lines)) == [c] + JoinLines(lines)
  {
    hide JoinLines;
    if c == '\n' {
      JoinAfterEmpty(lines);
    } else {
      JoinLonger(c, lines[0], lines[1..]);
      assert lines == [lines[0]] + lines[1..];
    }
  }

  lemma JoinLonger(c: char, line: string, rest: seq<string>)
    ensures JoinLines([[c] + line] + rest) == [c] + JoinLines([line] + rest)
  {
    hide JoinLines;
    if |rest| == 0 {
      JoinOne(line);
      JoinOne([c] + line);
      assert [line] + rest == [line] && [[c] + line] + rest == [[c] + line];
    } else {
      JoinCons(line, rest);
      JoinCons([c] + line, rest);
      var tail := JoinLines(rest);
      assert ([c] + line) + "\n" + tail == [c] + (line + "\n" + tail);
    }
  }

  lemma JoinCons(line: string, rest: seq<string>)
    requires |rest| >= 1
    ensures JoinLines([line] + rest) == line + "\n" + JoinLines(rest)
  {
    assert ([line] + rest)[1..] == rest;
  }

  lemma JoinAfterEmpty(rest: seq<string>)
    requires |rest| >= 1
    ensures JoinLines([""] + rest) == ['\n'] + JoinLines(rest)
  {
    hide JoinLines;
    JoinCons("", rest);
    var tail := JoinLines(rest);
    assert "" + "\n" + tail == ['\n'] + tail;
  }

  lemma JoinOne(line: string)
    ensures JoinLines([line]) == line
  {
  }

  lemma {:induction false} SplitJoin(lines: seq<string>)
    requires |lines| >= 1
    requires forall l :: l in lines ==> '\n' !in l
    ensures SplitLines(JoinLines(lines)) == lines
  {
    SplitOne(lines[0]);
    if |lines| > 1 {
      SplitJoin(lines[1..]);
      SplitConcat(lines[0], JoinLines(lines[1..]));
    }
  }

  lemma {:induction false} JoinConcat(a: seq<string>, b: seq<string>)
    requires |a| >= 1 && |b| >= 1
    ensures JoinLines(a + b) == JoinLines(a) + "\n" + JoinLines(b)
  {
    if |a| == 1 {
      assert (a + b)[1..] == b;
    } else {
      JoinConcat(a[1..], b);
      assert (a + b)[1..] == a[1..] + b;
    }
  }

  // ----- Trimming -----

  /** `unicode.IsSpace`, spelled out. */
  predicate IsSpace(c: char) {
    c in " \t\n\r" || c == '\U{0B}' || c == '\U{0C}' || c == '\U{85}' || c == '\U{A0}' || c == '\U{1680}'
    || '\U{2000}' <= c <= '\U{200A}' || c == '\U{2028}' || c == '\U{2029}' || c == '\U{202F}' || c == '\U{205F}'
    || c == '\U{3000}'
  }

  function TrimLeft(s: string): string {
    if s != "" && IsSpace(s[0]) then TrimLeft(s[1..]) else s
  }

  function TrimRight(s: string): string {
    if s != "" && IsSpace(s[|s| - 1]) then TrimRight(s[..|s| - 1]) else s
  }

  /** `strings.TrimSpace`. */
  function TrimSpace(s: string): string {
    TrimRight(TrimLeft(s))
  }

  predicate Blank(s: string) {
    forall i :: 0 <= i < |s| ==> IsSpace(s[i])
  }

  lemma {:induction false} TrimRightBlank(s: string)
    ensures TrimRight(s) == "" <==> Blank(s)
  {
    if s != "" && IsSpace(s[|s| - 1]) {
      TrimRightBlank(s[..|s| - 1]);
      if Blank(s[..|s| - 1]) {
        assert forall i :: 0 <= i < |s| - 1 ==> s[i] == s[..|s| - 1][i];
      }
    }
  }

  lemma {:induction false} TrimSpaceBlank(s: string)
    ensures TrimSpace(s) == "" <==> Blank(s)
  {
    if s != "" && IsSpace(s[0]) {
      TrimSpaceBlank(s[1..]);
      if Blank(s[1..]) {
        assert forall i :: 1 <= i < |s| ==> s[i] == s[1..][i - 1];
      }
    } else {
      TrimRightBlank(s);
    }
  }

  /** What trimming leaves is a part of the text, so it holds nothing the text does not. */
  lemma {:induction false} TrimSpaceWithin(s: string) returns (lo: nat, hi: nat)
    ensures lo <= hi <= |s| && TrimSpace(s) == s[lo..hi]
  {
    if s != "" && IsSpace(s[0]) {
      var l, h := TrimSpaceWithin(s[1..]);
      lo, hi := l + 1, h + 1;
      assert s[1..][l..h] == s[lo..hi];
    } else {
      lo := 0;
      hi := TrimRightWithin(s);
    }
  }

  lemma {:induction false} TrimRightWithin(s: string) returns (hi: nat)
    ensures hi <= |s| && TrimRight(s) == s[..hi]
  {
    hi := |s|;
    if s != "" && IsSpace(s[|s| - 1]) {
      hi := TrimRightWithin(s[..|s| - 1]);
      assert s[..|s| - 1][..hi] == s[..hi];
    }
  }

  /** A text that starts and ends with a character that is not space is left alone. */
  lemma TrimSpaceTight(s: string)
    requires s != "" ==> !IsSpace(s[0]) && !IsSpace(s[|s| - 1])
    ensures TrimSpace(s) == s
  {
  }

  /** `strings.TrimRight(s, "\n")`. */
  function TrimNewlines(s: string): string {
    if s != "" && s[|s| - 1] == '\n' then TrimNewlines(s[..|s| - 1]) else s
  }

  /** `strings.TrimSuffix(s, "\r")`. */
  function TrimCR(s: string): string {
    if s != "" && s[|s| - 1] == '\r' then s[..|s| - 1] else s
  }

  // ----- Searching -----

  predicate HasPrefix(s: string, prefix: string) {
    prefix <= s
  }

  /** `strings.Contains(s, part)`. */
  predicate Contains(s: string, part: string) {
    exists i :: 0 <= i <= |s| - |part| && OccursAt(s, part, i)
  }

  predicate OccursAt(s: string, part: string, i: nat)
    requires i + |part| <= |s|
  {
    s[i..i + |part|] == part
  }

  /** `strings.EqualFold(s, t)` for a lower-case ASCII `t`: the long s folds to s, as Unicode has it. */
  predicate EqualFold(s: string, t: string) {
    |s| == |t| && forall i :: 0 <= i < |s| ==> Fold(s[i]) == t[i]
  }

  function Fold(c: char): char {
    if 'A' <= c <= 'Z' then (c as int + 32) as char
    else if c == '\U{017F}' then 's'
    else if c == '\U{212A}' then 'k'
    else c
  }
}
