/** A diff as it is written, and that parsing one gives back what it was written from. */
module DiffRoundTrip {
  import opened Prelude
  import opened Text
  import opened DiffModel
  import opened DiffParser
  import opened HunkHeaders
  import Decimal
  import HunkFacts

  // ----- Writing -----

  function Mark(kind: Kind): char {
    match kind
    case Context => ' '
    case Add => '+'
    case Delete => '-'
  }

  const NO_NEWLINE := "\\ No newline at end of file"

  function LineText(l: Line): seq<string> {
    if l.noNewline then [[Mark(l.kind)] + l.content, NO_NEWLINE] else [[Mark(l.kind)] + l.content]
  }

  function BodyText(lines: seq<Line>): seq<string> {
    if |lines| == 0 then [] else LineText(lines[0]) + BodyText(lines[1..])
  }

  function HunkText(h: Hunk): seq<string> {
    [h.header] + BodyText(h.lines)
  }

  function HunksText(hunks: seq<Hunk>): seq<string> {
    if |hunks| == 0 then [] else HunkText(hunks[0]) + HunksText(hunks[1..])
  }

  /** git writes its names behind a/ and b/; `diff -u` writes them bare, with a stamp behind a tab. Spaces behind a name are none of it. */
  datatype Style = Style(prefixed: bool, stamp: string)

  function OldName(f: File, style: Style): string {
    if f.status == Added then DEV_NULL else if style.prefixed then "a/" + f.oldPath else f.oldPath
  }

  function NewName(f: File, style: Style): string {
    if f.status == Deleted then DEV_NULL else if style.prefixed then "b/" + f.newPath else f.newPath
  }

  function FileText(f: File, style: Style): seq<string> {
    ["--- " + OldName(f, style) + style.stamp, "+++ " + NewName(f, style) + style.stamp] + HunksText(f.hunks)
  }

  function FilesText(files: seq<File>, style: Style): seq<string> {
    if |files| == 0 then [] else FileText(files[0], style) + FilesText(files[1..], style)
  }

  function Print(files: seq<File>, style: Style): string {
    if |files| == 0 then "" else JoinLines(FilesText(files, style)) + "\n"
  }

  // ----- What can be written -----

  /** The lines of a hunk: numbered from its starts, and as many on each side as its counts say. */
  predicate LinesOk(lines: seq<Line>, oldNo: nat, newNo: nat, oldLeft: int, newLeft: int) {
    if |lines| == 0 then oldLeft == 0 && newLeft == 0
    else
      var l := lines[0];
      && '\n' !in l.content
      && match l.kind
         case Context => l.oldNumber == oldNo && l.newNumber == newNo && LinesOk(lines[1..], oldNo + 1, newNo + 1, oldLeft - 1, newLeft - 1)
         case Add => l.oldNumber == 0 && l.newNumber == newNo && LinesOk(lines[1..], oldNo, newNo + 1, oldLeft, newLeft - 1)
         case Delete => l.oldNumber == oldNo && l.newNumber == 0 && LinesOk(lines[1..], oldNo + 1, newNo, oldLeft - 1, newLeft)
  }

  ghost predicate HunkOk(h: Hunk) {
    && (exists shortOld, shortNew :: HeaderOk(h, shortOld, shortNew))
    && LinesOk(h.lines, h.oldStart, h.newStart, h.oldLines, h.newLines)
  }

  ghost predicate HunksOk(hunks: seq<Hunk>) {
    forall k :: 0 <= k < |hunks| ==> HunkOk(hunks[k])
  }

  /** A bare name must not read as quoted, as no file, or with a space trimmed. */
  predicate PathOk(path: string, style: Style) {
    && path != "" && '\t' !in path && '\n' !in path && !IsSpace(path[|path| - 1])
    && (!style.prefixed ==> !IsSpace(path[0]) && path[0] != '"' && path != DEV_NULL)
  }

  predicate NamesOk(f: File, style: Style) {
    && match f.status {
         case Added => f.oldPath == "" && PathOk(f.newPath, style)
         case Deleted => PathOk(f.oldPath, style) && f.newPath == ""
         case Modified => PathOk(f.oldPath, style) && PathOk(f.newPath, style)
         case _ => false
       }
    && (!style.prefixed ==> !(HasSide(OldName(f, style), "a") && HasSide(NewName(f, style), "b")))
  }

  /** A file of a plain diff, its counts and its view being those of its hunks. */
  ghost predicate FileOk(f: File, style: Style) {
    && NamesOk(f, style) && HunksOk(f.hunks)
    && !f.isBinary && f.oldMode == "" && f.newMode == "" && f.index == ""
    && f.additions == CountInHunks(f.hunks, Add) && f.deletions == CountInHunks(f.hunks, Delete)
    && f.split == (f.status == Modified && f.deletions > 0)
  }

  predicate StyleOk(style: Style) {
    && BehindName(style.stamp)
    && (style.stamp != "" ==> '\n' !in style.stamp && style.stamp[|style.stamp| - 1] != '\r')
  }

  /** What may stand behind a name: anything behind a tab, or spaces. */
  predicate BehindName(stamp: string) {
    (stamp != "" && stamp[0] == '\t') || forall k :: 0 <= k < |stamp| ==> stamp[k] == ' '
  }

  ghost predicate FilesOk(files: seq<File>, style: Style) {
    StyleOk(style) && forall k :: 0 <= k < |files| ==> FileOk(files[k], style)
  }

  // ----- Reading a body -----

  /** What follows a hunk: nothing, another hunk, another file, or a signature. */
  ghost predicate Follows(rest: seq<string>) {
    |rest| > 0 ==> HasPrefix(rest[0], "@@") || HasPrefix(rest[0], "--- ") || HasPrefix(rest[0], "diff ") || HunkFacts.IsDashes(rest[0])
  }

  lemma FollowsIsNoBody(l: string)
    requires HasPrefix(l, "@@") || HasPrefix(l, "--- ") || HasPrefix(l, "diff ") || HunkFacts.IsDashes(l)
    ensures !IsMarker(l) && !IsAmbiguous(l) && !IsChange(l)
  {
    if HunkFacts.IsDashes(l) {
      HunkFacts.DashesAreDashRun(l);
      assert l[0] == '-';
    } else {
      assert l[..1] == "@" || l[..1] == "-" || l[..1] == "d";
    }
  }

  lemma {:induction false} LeftIsNatural(lines: seq<Line>, oldNo: nat, newNo: nat, oldLeft: int, newLeft: int)
    requires LinesOk(lines, oldNo, newNo, oldLeft, newLeft)
    ensures oldLeft >= 0 && newLeft >= 0
    ensures |lines| > 0 ==> oldLeft > 0 || newLeft > 0
  {
    if |lines| > 0 {
      match lines[0].kind
      case Context => LeftIsNatural(lines[1..], oldNo + 1, newNo + 1, oldLeft - 1, newLeft - 1);
      case Add => LeftIsNatural(lines[1..], oldNo, newNo + 1, oldLeft, newLeft - 1);
      case Delete => LeftIsNatural(lines[1..], oldNo + 1, newNo, oldLeft - 1, newLeft);
    }
  }

  lemma AtHead(lines: seq<string>, i: nat, head: string, tail: seq<string>)
    requires i <= |lines| && lines[i..] == [head] + tail
    ensures i < |lines| && lines[i] == head && lines[i + 1..] == tail
  {
    assert lines[i..][0] == head;
    assert lines[i..][1..] == tail;
  }

  lemma BodyEnds(lines: seq<string>, i: nat, oldNo: nat, newNo: nat, got: seq<Line>)
    requires i <= |lines| && Follows(lines[i..])
    ensures ReadBody(lines, i, oldNo, newNo, 0, 0, None, got) == Body(got, i)
  {
    if i < |lines| {
      assert lines[i..][0] == lines[i];
      FollowsIsNoBody(lines[i]);
      hide IsAmbiguous, IsChange, IsMarker;
    }
  }

  /** A line as it is read, before the marker behind it. */
  function Unmarked(l: Line): Line {
    l.(noNewline := false)
  }

  lemma BodyLine(lines: seq<string>, i: nat, oldNo: nat, newNo: nat, oldLeft: int, newLeft: int, got: seq<Line>, l: Line)
    requires i < |lines| && lines[i] == [Mark(l.kind)] + l.content && (oldLeft > 0 || newLeft > 0)
    requires l.oldNumber == (if l.kind == Add then 0 else oldNo) && l.newNumber == if l.kind == Delete then 0 else newNo
    ensures ReadBody(lines, i, oldNo, newNo, oldLeft, newLeft, None, got)
         == (match l.kind
             case Context => ReadBody(lines, i + 1, oldNo + 1, newNo + 1, oldLeft - 1, newLeft - 1, None, got + [Unmarked(l)])
             case Add => ReadBody(lines, i + 1, oldNo, newNo + 1, oldLeft, newLeft - 1, None, got + [Unmarked(l)])
             case Delete => ReadBody(lines, i + 1, oldNo + 1, newNo, oldLeft - 1, newLeft, None, got + [Unmarked(l)]))
  {
    hide SurplusBodyEnd;
    assert lines[i][1..] == l.content;
  }

  lemma BodyMarker(lines: seq<string>, i: nat, oldNo: nat, newNo: nat, oldLeft: int, newLeft: int, got: seq<Line>, l: Line)
    requires i < |lines| && lines[i] == NO_NEWLINE && l.noNewline
    ensures ReadBody(lines, i, oldNo, newNo, oldLeft, newLeft, None, got + [Unmarked(l)])
         == ReadBody(lines, i + 1, oldNo, newNo, oldLeft, newLeft, None, got + [l])
  {
    hide SurplusBodyEnd;
    assert MarkLast(got + [Unmarked(l)]) == got + [l];
  }

  /** One line, with its marker. */
  lemma LineReads(lines: seq<string>, i: nat, oldNo: nat, newNo: nat, oldLeft: int, newLeft: int, got: seq<Line>, l: Line, tail: seq<string>)
    requires i <= |lines| && lines[i..] == LineText(l) + tail && (oldLeft > 0 || newLeft > 0)
    requires l.oldNumber == (if l.kind == Add then 0 else oldNo) && l.newNumber == if l.kind == Delete then 0 else newNo
    ensures i + |LineText(l)| <= |lines| && lines[i + |LineText(l)|..] == tail
    ensures ReadBody(lines, i, oldNo, newNo, oldLeft, newLeft, None, got)
         == (var next := i + |LineText(l)|;
             match l.kind
             case Context => ReadBody(lines, next, oldNo + 1, newNo + 1, oldLeft - 1, newLeft - 1, None, got + [l])
             case Add => ReadBody(lines, next, oldNo, newNo + 1, oldLeft, newLeft - 1, None, got + [l])
             case Delete => ReadBody(lines, next, oldNo + 1, newNo, oldLeft - 1, newLeft, None, got + [l]))
  {
    hide ReadBody;
    var text := [Mark(l.kind)] + l.content;
    var after := if l.noNewline then [NO_NEWLINE] + tail else tail;
    assert LineText(l) + tail == [text] + after;
    AtHead(lines, i, text, after);
    BodyLine(lines, i, oldNo, newNo, oldLeft, newLeft, got, l);
    if l.noNewline {
      AtHead(lines, i + 1, NO_NEWLINE, tail);
      match l.kind
      case Context => BodyMarker(lines, i + 1, oldNo + 1, newNo + 1, oldLeft - 1, newLeft - 1, got, l);
      case Add => BodyMarker(lines, i + 1, oldNo, newNo + 1, oldLeft, newLeft - 1, got, l);
      case Delete => BodyMarker(lines, i + 1, oldNo + 1, newNo, oldLeft - 1, newLeft, got, l);
    } else {
      assert Unmarked(l) == l;
    }
  }

  lemma {:induction false} BodyReads(lines: seq<string>, i: nat, oldNo: nat, newNo: nat, oldLeft: int, newLeft: int, got: seq<Line>,
                                     body: seq<Line>, rest: seq<string>)
    requires i <= |lines| && lines[i..] == BodyText(body) + rest && Follows(rest)
    requires LinesOk(body, oldNo, newNo, oldLeft, newLeft)
    ensures i + |BodyText(body)| <= |lines| && lines[i + |BodyText(body)|..] == rest
    ensures ReadBody(lines, i, oldNo, newNo, oldLeft, newLeft, None, got) == Body(got + body, i + |BodyText(body)|)
    decreases |body|
  {
    hide ReadBody, Follows, LineText;
    LeftIsNatural(body, oldNo, newNo, oldLeft, newLeft);
    if |body| == 0 {
      assert BodyText(body) + rest == rest;
      BodyEnds(lines, i, oldNo, newNo, got);
      assert got + body == got;
    } else {
      var l, more := body[0], body[1..];
      var next := i + |LineText(l)|;
      assert LineText(l) + (BodyText(more) + rest) == BodyText(body) + rest;
      LineReads(lines, i, oldNo, newNo, oldLeft, newLeft, got, l, BodyText(more) + rest);
      match l.kind {
        case Context => BodyReads(lines, next, oldNo + 1, newNo + 1, oldLeft - 1, newLeft - 1, got + [l], more, rest);
        case Add => BodyReads(lines, next, oldNo, newNo + 1, oldLeft, newLeft - 1, got + [l], more, rest);
        case Delete => BodyReads(lines, next, oldNo + 1, newNo, oldLeft - 1, newLeft, got + [l], more, rest);
      }
      assert got + [l] + more == got + body;
    }
  }

  // ----- Reading a hunk -----

  lemma HeaderLooks(h: Hunk)
    requires HunkOk(h)
    ensures HasPrefix(h.header, "@@") && !HasPrefix(h.header, "@@@") && !HasPrefix(h.header, "diff ") && !HasPrefix(h.header, "--- ")
    ensures ParseHunkHeader(h.header) == Some(h.(lines := []))
  {
    hide ParseHunkHeader, LinesOk;
    var shortOld, shortNew :| HeaderOk(h, shortOld, shortNew);
    HeaderReads(h, shortOld, shortNew);
    HeaderStarts(h, shortOld, shortNew);
  }

  lemma HeaderStarts(h: Hunk, shortOld: bool, shortNew: bool)
    requires HeaderOk(h, shortOld, shortNew)
    ensures |h.header| > 2 && h.header[..3] == "@@ "
    ensures HasPrefix(h.header, "@@") && !HasPrefix(h.header, "@@@") && !HasPrefix(h.header, "diff ") && !HasPrefix(h.header, "--- ")
  {
    hide RangeText;
    assert h.header[0] == '@' && h.header[1] == '@' && h.header[2] == ' ';
    assert "@@" == h.header[..2];
  }

  lemma NotGit(line: string)
    requires !HasPrefix(line, "diff ")
    ensures !HasPrefix(line, "diff --git ") && !HasPrefix(line, "diff --cc ") && !HasPrefix(line, "diff --combined ")
  {
    if |line| >= 5 {
      assert line[..5] != "diff ";
      assert "diff --git "[..5] == "diff --cc "[..5] == "diff --combined "[..5] == "diff ";
    }
  }

  lemma HunkReads(lines: seq<string>, c: Cursor, h: Hunk, rest: seq<string>)
    requires |c.files| > 0 && HunkOk(h) && Follows(rest)
    requires c.i <= |lines| && lines[c.i..] == HunkText(h) + rest
    ensures c.i < |lines| && Step(lines, c) == AddHunk(c, h).(i := c.i + |HunkText(h)|)
    ensures c.i + |HunkText(h)| <= |lines| && lines[c.i + |HunkText(h)|..] == rest
  {
    hide ParseHunkHeader, HeaderOk, LinesOk, ReadBody, Follows;
    assert HunkText(h) + rest == [h.header] + (BodyText(h.lines) + rest);
    AtHead(lines, c.i, h.header, BodyText(h.lines) + rest);
    HeaderLooks(h);
    NotGit(h.header);
    BodyReads(lines, c.i + 1, h.oldStart, h.newStart, h.oldLines, h.newLines, [], h.lines, rest);
    assert [] + h.lines == h.lines;
  }

  function AddHunks(c: Cursor, hunks: seq<Hunk>): Cursor
    requires |c.files| > 0
  {
    SetLast(c, Last(c).(hunks := Last(c).hunks + hunks))
  }

  lemma HunksFollow(hunks: seq<Hunk>, rest: seq<string>)
    requires HunksOk(hunks) && Follows(rest)
    ensures Follows(HunksText(hunks) + rest)
  {
    if |hunks| > 0 {
      hide HunkOk;
      HeaderLooks(hunks[0]);
    } else {
      assert HunksText(hunks) + rest == rest;
    }
  }

  lemma {:induction false} HunksRead(lines: seq<string>, c: Cursor, hunks: seq<Hunk>, rest: seq<string>)
    requires |c.files| > 0 && HunksOk(hunks) && Follows(rest)
    requires c.i <= |lines| && lines[c.i..] == HunksText(hunks) + rest
    ensures RunFrom(lines, c) == RunFrom(lines, AddHunks(c, hunks).(i := c.i + |HunksText(hunks)|))
    ensures c.i + |HunksText(hunks)| <= |lines| && lines[c.i + |HunksText(hunks)|..] == rest
    decreases |hunks|
  {
    hide HunkOk, Follows, Step, HunkText;
    if |hunks| == 0 {
      assert HunksText(hunks) + rest == rest;
      assert Last(c).hunks + hunks == Last(c).hunks;
      assert AddHunks(c, hunks).(i := c.i) == c;
    } else {
      var h, more := hunks[0], hunks[1..];
      HunksFollow(more, rest);
      assert HunkText(h) + (HunksText(more) + rest) == HunksText(hunks) + rest;
      HunkReads(lines, c, h, HunksText(more) + rest);
      var next := AddHunk(c, h).(i := c.i + |HunkText(h)|);
      assert RunFrom(lines, c) == RunFrom(lines, next);
      HunksRead(lines, next, more, rest);
      assert next.i + |HunksText(more)| == c.i + |HunksText(hunks)|;
      AddHunksCons(c, h, more, c.i + |HunksText(hunks)|, next.i);
      assert [h] + more == hunks;
    }
  }

  lemma AddHunksCons(c: Cursor, h: Hunk, more: seq<Hunk>, i: nat, j: nat)
    requires |c.files| > 0
    ensures AddHunks(AddHunk(c, h).(i := j), more).(i := i) == AddHunks(c, [h] + more).(i := i)
  {
    assert Last(c).hunks + [h] + more == Last(c).hunks + ([h] + more);
  }

  // ----- Reading a file -----

  /** A file as it is before it is finished. */
  function Raw(f: File): File {
    f.(additions := 0, deletions := 0, split := false, status := if f.status == Modified then Unset else f.status)
  }

  lemma {:induction false} SpacesTrimmed(s: string, spaces: string)
    requires (s == "" || s[|s| - 1] != ' ') && forall k :: 0 <= k < |spaces| ==> spaces[k] == ' '
    ensures TrimSpacesRight(s + spaces) == s
  {
    if spaces == "" {
      assert s + spaces == s;
    } else {
      var less := spaces[..|spaces| - 1];
      assert (s + spaces)[..|s + spaces| - 1] == s + less;
      SpacesTrimmed(s, less);
    }
  }

  lemma NameReads(name: string, stamp: string)
    requires '\t' !in name && (name != "" ==> name[|name| - 1] != ' ')
    requires BehindName(stamp)
    ensures TrimTimestamp(name + stamp) == name
  {
    hide TrimSpacesRight;
    if stamp == "" || stamp[0] != '\t' {
      assert '\t' !in stamp;
      NoOccurrence(name + stamp, "\t");
      SpacesTrimmed(name, stamp);
    } else {
      assert name + stamp == name + "\t" + stamp[1..];
      FirstOccurrence(name, "\t", stamp[1..]);
      assert (name + stamp)[..|name|] == name;
    }
  }

  lemma NoSpaces()
    ensures !IsSpace('/') && !IsSpace('l') && !IsSpace('a') && !IsSpace('b')
  {
  }

  /** The name of a file that is there. */
  function SideName(path: string, side: string, style: Style): string {
    if style.prefixed then side + "/" + path else path
  }

  lemma SideReads(path: string, side: string, style: Style)
    requires PathOk(path, style) && (side == "a" || side == "b")
    ensures var name := SideName(path, side, style);
            && '\t' !in name && '\n' !in name && name != DEV_NULL && name != "" && !IsSpace(name[|name| - 1])
            && NormalizePath(name, style.prefixed) == path
            && (style.prefixed ==> HasSide(name, side))
  {
    hide IsSpace, TrimSpace;
    NoSpaces();
    var name := SideName(path, side, style);
    if style.prefixed {
      assert name == [side[0], '/'] + path;
      assert name[2..] == path;
      assert side + "/" == name[..2];
    }
    TrimSpaceTight(name);
  }

  lemma DevNullReads(strip: bool)
    ensures '\t' !in DEV_NULL && '\n' !in DEV_NULL && NormalizePath(DEV_NULL, strip) == "" && !IsSpace(DEV_NULL[|DEV_NULL| - 1])
  {
    NoSpaces();
    TrimSpaceTight(DEV_NULL);
  }

  /** What the two names of a file say. */
  lemma NamesRead(f: File, style: Style)
    requires NamesOk(f, style)
    ensures var o, n := OldName(f, style), NewName(f, style);
            && '\t' !in o && '\n' !in o && o != "" && !IsSpace(o[|o| - 1])
            && '\t' !in n && '\n' !in n && n != "" && !IsSpace(n[|n| - 1])
            && (HasSide(o, "a") && HasSide(n, "b") <==> style.prefixed)
            && NormalizePath(o, style.prefixed) == f.oldPath && NormalizePath(n, style.prefixed) == f.newPath
            && (o == DEV_NULL <==> f.status == Added) && (n == DEV_NULL <==> f.status == Deleted)
            && (f.status == Added || f.status == Deleted || f.status == Modified)
            && (f.status == Added ==> f.oldPath == "") && (f.status == Deleted ==> f.newPath == "")
  {
    hide IsSpace, NormalizePath, PathOk;
    DevNullReads(style.prefixed);
    if f.status != Added {
      SideReads(f.oldPath, "a", style);
      assert OldName(f, style) == SideName(f.oldPath, "a", style);
    }
    if f.status != Deleted {
      SideReads(f.newPath, "b", style);
      assert NewName(f, style) == SideName(f.newPath, "b", style);
    }
  }

  lemma HeadersRead(f: File, style: Style)
    requires NamesOk(f, style) && StyleOk(style)
    ensures WithHeaders(NEW_FILE, "--- " + OldName(f, style) + style.stamp, "+++ " + NewName(f, style) + style.stamp, false, false)
         == NEW_FILE.(oldPath := f.oldPath, newPath := f.newPath, status := if f.status == Modified then Unset else f.status)
  {
    hide NamesOk, NormalizePath, TrimTimestamp, TrimPrefix, HasSide, OldName, NewName, StyleOk, IsSpace;
    NamesRead(f, style);
    HeaderLine("--- ", OldName(f, style), style);
    HeaderLine("+++ ", NewName(f, style), style);
  }

  lemma HeaderLine(mark: string, name: string, style: Style)
    requires StyleOk(style) && '\t' !in name && name != "" && !IsSpace(name[|name| - 1])
    ensures TrimTimestamp(TrimPrefix(mark + name + style.stamp, mark)) == name
  {
    hide TrimTimestamp, IsSpace;
    Spaced(name);
    NameReads(name, style.stamp);
    assert mark + name + style.stamp == mark + (name + style.stamp);
  }

  lemma Spaced(name: string)
    requires name != "" && !IsSpace(name[|name| - 1])
    ensures name[|name| - 1] != ' ' && name[|name| - 1] != '\r'
  {
  }

  predicate Fresh(c: Cursor) {
    |c.files| == 0 || |Last(c).hunks| > 0 || c.headersRead
  }

  lemma PairLooks(lines: seq<string>, i: nat, o: string, n: string)
    requires i + 1 < |lines| && lines[i] == "--- " + o && lines[i + 1] == "+++ " + n
    ensures StartsPair(lines, i) && !HasPrefix(lines[i], "diff ")
  {
    assert lines[i][0] == '-';
  }

  lemma PairReads(lines: seq<string>, c: Cursor, f: File, style: Style, rest: seq<string>)
    requires FileOk(f, style) && StyleOk(style) && Fresh(c)
    requires c.i <= |lines|
    requires lines[c.i..] == ["--- " + OldName(f, style) + style.stamp, "+++ " + NewName(f, style) + style.stamp] + rest
    ensures c.i + 2 <= |lines| && lines[c.i + 2..] == rest
    ensures Step(lines, c) == Cursor(c.i + 2, c.files + [Raw(f).(hunks := [])], false, true, false)
  {
    hide WithHeaders, HunksOk, OldName, NewName, NamesOk, CountInHunks;
    var o, n := OldName(f, style) + style.stamp, NewName(f, style) + style.stamp;
    assert "--- " + OldName(f, style) + style.stamp == "--- " + o;
    assert "+++ " + NewName(f, style) + style.stamp == "+++ " + n;
    assert lines[c.i..] == ["--- " + o] + (["+++ " + n] + rest);
    AtHead(lines, c.i, "--- " + o, ["+++ " + n] + rest);
    AtHead(lines, c.i + 1, "+++ " + n, rest);
    PairLooks(lines, c.i, o, n);
    NotGit(lines[c.i]);
    HeadersRead(f, style);
    var read := WithHeaders(NEW_FILE, lines[c.i], lines[c.i + 1], false, false);
    assert read == Raw(f).(hunks := []);
    var at := Push(c, NEW_FILE).(git := false);
    assert SetLast(at, read).files == c.files + [read];
  }

  lemma FileReads(lines: seq<string>, c: Cursor, f: File, style: Style, rest: seq<string>)
    requires FileOk(f, style) && StyleOk(style) && Fresh(c) && Follows(rest)
    requires c.i <= |lines| && lines[c.i..] == FileText(f, style) + rest
    ensures c.i + |FileText(f, style)| <= |lines| && lines[c.i + |FileText(f, style)|..] == rest
    ensures RunFrom(lines, c) == RunFrom(lines, Cursor(c.i + |FileText(f, style)|, c.files + [Raw(f)], false, true, false))
  {
    hide NamesOk, HunksOk, CountInHunks, Step, OldName, NewName, Follows, HunksText, StyleOk;
    var pair := ["--- " + OldName(f, style) + style.stamp, "+++ " + NewName(f, style) + style.stamp];
    assert FileText(f, style) + rest == pair + (HunksText(f.hunks) + rest);
    PairReads(lines, c, f, style, HunksText(f.hunks) + rest);
    var at := Cursor(c.i + 2, c.files + [Raw(f).(hunks := [])], false, true, false);
    assert RunFrom(lines, c) == RunFrom(lines, at);
    HunksRead(lines, at, f.hunks, rest);
    assert [] + f.hunks == f.hunks;
    assert AddHunks(at, f.hunks).files == c.files + [Raw(f)];
  }

  function RawAll(files: seq<File>): seq<File> {
    if |files| == 0 then [] else [Raw(files[0])] + RawAll(files[1..])
  }

  lemma FilesFollow(files: seq<File>, style: Style, rest: seq<string>)
    requires Follows(rest)
    ensures Follows(FilesText(files, style) + rest)
  {
    if |files| > 0 {
      var first := (FilesText(files, style) + rest)[0];
      assert first == "--- " + OldName(files[0], style) + style.stamp;
      assert first[..4] == "--- ";
    } else {
      assert FilesText(files, style) + rest == rest;
    }
  }

  lemma FirstAndRest(files: seq<File>, style: Style)
    requires FilesOk(files, style) && |files| > 0
    ensures FileOk(files[0], style) && StyleOk(style) && FilesOk(files[1..], style)
    ensures FilesText(files, style) == FileText(files[0], style) + FilesText(files[1..], style)
    ensures RawAll(files) == [Raw(files[0])] + RawAll(files[1..])
  {
    hide FileOk, StyleOk, FileText, Raw;
  }

  lemma NoFiles(files: seq<File>, style: Style)
    requires files == []
    ensures FilesText(files, style) == [] && RawAll(files) == []
  {
  }

  lemma ReadIsFresh(c: Cursor)
    requires c.headersRead
    ensures Fresh(c)
  {
  }

  lemma {:induction false} FilesRead(lines: seq<string>, c: Cursor, files: seq<File>, style: Style, rest: seq<string>) returns (next: Cursor)
    requires FilesOk(files, style) && Fresh(c) && Follows(rest)
    requires c.i <= |lines| && lines[c.i..] == FilesText(files, style) + rest
    ensures RunFrom(lines, c) == RunFrom(lines, next) && next.files == c.files + RawAll(files)
    ensures next.i <= |lines| && lines[next.i..] == rest && (files == [] ==> next == c)
    decreases |files|
  {
    hide FilesOk, FileOk, StyleOk, FilesText, FileText, RunFrom, Raw, RawAll, Follows, Fresh;
    if |files| == 0 {
      NoFiles(files, style);
      assert FilesText(files, style) + rest == rest;
      assert c.files + RawAll(files) == c.files;
      next := c;
    } else {
      FirstAndRest(files, style);
      var f, more := files[0], files[1..];
      var tail := FilesText(more, style) + rest;
      FilesFollow(more, style, rest);
      assert FileText(f, style) + tail == FilesText(files, style) + rest;
      FileReads(lines, c, f, style, tail);
      var after := Cursor(c.i + |FileText(f, style)|, c.files + [Raw(f)], false, true, false);
      ReadIsFresh(after);
      next := FilesRead(lines, after, more, style, rest);
      assert c.files + [Raw(f)] + RawAll(more) == c.files + RawAll(files);
    }
  }

  lemma FinishedAgain(f: File, style: Style)
    requires FileOk(f, style)
    ensures Finalized(Raw(f)) == f
  {
    hide HunksOk, CountInHunks, IsSpace, HasSide;
  }

  lemma {:induction false} AllFinishedAgain(files: seq<File>, style: Style)
    requires FilesOk(files, style)
    ensures FinalizeAll(RawAll(files)) == files
  {
    hide FileOk, Finalized, Raw, StyleOk;
    if |files| > 0 {
      FinishedAgain(files[0], style);
      AllFinishedAgain(files[1..], style);
      assert RawAll(files)[1..] == RawAll(files[1..]);
    }
  }

  // ----- From the text and back -----

  /** What is left of a line: parsing drops one carriage return at its end. */
  function TrimmedLines(lines: seq<Line>): seq<Line> {
    if |lines| == 0 then [] else [lines[0].(content := TrimCR(lines[0].content))] + TrimmedLines(lines[1..])
  }

  function TrimmedHunks(hunks: seq<Hunk>): seq<Hunk> {
    if |hunks| == 0 then [] else [hunks[0].(lines := TrimmedLines(hunks[0].lines))] + TrimmedHunks(hunks[1..])
  }

  function TrimmedFile(f: File): File {
    f.(hunks := TrimmedHunks(f.hunks))
  }

  function TrimmedFiles(files: seq<File>): seq<File> {
    if |files| == 0 then [] else [TrimmedFile(files[0])] + TrimmedFiles(files[1..])
  }

  /** The lines that parsing reads from a text of these lines. */
  ghost predicate ReadsAs(text: seq<string>, read: seq<string>) {
    && |text| == |read|
    && forall k :: 0 <= k < |text| ==> '\n' !in text[k] && TrimCR(text[k]) == read[k]
  }

  lemma ReadsAsConcat(a: seq<string>, b: seq<string>, readA: seq<string>, readB: seq<string>)
    requires ReadsAs(a, readA) && ReadsAs(b, readB)
    ensures ReadsAs(a + b, readA + readB)
  {
  }

  lemma LineReadsAs(l: Line)
    requires '\n' !in l.content
    ensures ReadsAs(LineText(l), LineText(l.(content := TrimCR(l.content))))
  {
    var text := [Mark(l.kind)] + l.content;
    assert TrimCR(text) == [Mark(l.kind)] + TrimCR(l.content);
  }

  lemma {:induction false} BodyReadsAs(lines: seq<Line>, oldNo: nat, newNo: nat, oldLeft: int, newLeft: int)
    requires LinesOk(lines, oldNo, newNo, oldLeft, newLeft)
    ensures ReadsAs(BodyText(lines), BodyText(TrimmedLines(lines)))
    ensures LinesOk(TrimmedLines(lines), oldNo, newNo, oldLeft, newLeft)
    ensures |TrimmedLines(lines)| == |lines|
    ensures forall kind :: CountKind(TrimmedLines(lines), kind) == CountKind(lines, kind)
  {
    hide ReadsAs, LineText, TrimCR;
    if |lines| > 0 {
      var l, more := lines[0], lines[1..];
      match l.kind {
        case Context => BodyReadsAs(more, oldNo + 1, newNo + 1, oldLeft - 1, newLeft - 1);
        case Add => BodyReadsAs(more, oldNo, newNo + 1, oldLeft, newLeft - 1);
        case Delete => BodyReadsAs(more, oldNo + 1, newNo, oldLeft - 1, newLeft);
      }
      LineAndBody(l, more);
      assert [l] + more == lines;
    } else {
      EmptyReadsAs();
    }
  }

  lemma LineAndBody(l: Line, more: seq<Line>)
    requires '\n' !in l.content && ReadsAs(BodyText(more), BodyText(TrimmedLines(more)))
    ensures ReadsAs(BodyText([l] + more), BodyText(TrimmedLines([l] + more)))
    ensures TrimmedLines([l] + more) == [l.(content := TrimCR(l.content))] + TrimmedLines(more)
    ensures TrimmedLines([l] + more)[1..] == TrimmedLines(more)
    ensures '\n' !in TrimCR(l.content)
  {
    hide ReadsAs, LineText;
    var t := l.(content := TrimCR(l.content));
    LineReadsAs(l);
    assert ([l] + more)[1..] == more && ([t] + TrimmedLines(more))[1..] == TrimmedLines(more);
    ReadsAsConcat(LineText(l), BodyText(more), LineText(t), BodyText(TrimmedLines(more)));
  }

  lemma EmptyReadsAs()
    ensures ReadsAs([], [])
  {
  }

  lemma OneReadsAs(l: string)
    requires '\n' !in l && (l != "" ==> l[|l| - 1] != '\r')
    ensures ReadsAs([l], [l])
  {
  }

  lemma HeaderIsPlain(h: Hunk)
    requires HunkOk(h)
    ensures ReadsAs([h.header], [h.header])
  {
    hide LinesOk, RangesText, ReadsAs;
    var shortOld, shortNew :| HeaderOk(h, shortOld, shortNew);
    RangesRead(h, shortOld, shortNew);
    OneReadsAs(h.header);
  }

  lemma HunkReadsAs(h: Hunk)
    requires HunkOk(h)
    ensures var t := h.(lines := TrimmedLines(h.lines));
            && ReadsAs(HunkText(h), HunkText(t)) && HunkOk(t)
            && forall kind :: CountKind(t.lines, kind) == CountKind(h.lines, kind)
  {
    hide ReadsAs, LinesOk, RangesText, SectionText, IsSection, CountKind;
    HeaderIsPlain(h);
    BodyReadsAs(h.lines, h.oldStart, h.newStart, h.oldLines, h.newLines);
    ReadsAsConcat([h.header], BodyText(h.lines), [h.header], BodyText(TrimmedLines(h.lines)));
    var shortOld, shortNew :| HeaderOk(h, shortOld, shortNew);
    HeaderOfAll(h, TrimmedLines(h.lines), shortOld, shortNew);
  }

  lemma HeaderOfAll(h: Hunk, lines: seq<Line>, shortOld: bool, shortNew: bool)
    requires HeaderOk(h, shortOld, shortNew)
    ensures HeaderOk(h.(lines := lines), shortOld, shortNew)
  {
    hide RangeText, IsSection;
  }

  lemma {:induction false} HunksReadAs(hunks: seq<Hunk>)
    requires HunksOk(hunks)
    ensures ReadsAs(HunksText(hunks), HunksText(TrimmedHunks(hunks)))
    ensures HunksOk(TrimmedHunks(hunks)) && |TrimmedHunks(hunks)| == |hunks|
    ensures forall kind :: CountInHunks(TrimmedHunks(hunks), kind) == CountInHunks(hunks, kind)
  {
    hide ReadsAs, HunkOk, HunkText, CountKind, TrimmedLines;
    if |hunks| > 0 {
      var h, more := hunks[0], hunks[1..];
      HunkReadsAs(h);
      HunksReadAs(more);
      var t := h.(lines := TrimmedLines(h.lines));
      ReadsAsConcat(HunkText(h), HunksText(more), HunkText(t), HunksText(TrimmedHunks(more)));
      assert TrimmedHunks(hunks)[1..] == TrimmedHunks(more);
    } else {
      EmptyReadsAs();
    }
  }

  lemma NameReadsAs(mark: string, name: string, stamp: string)
    requires '\n' !in mark && '\n' !in name && name != "" && name[|name| - 1] != '\r'
    requires stamp != "" ==> '\n' !in stamp && stamp[|stamp| - 1] != '\r'
    ensures ReadsAs([mark + name + stamp], [mark + name + stamp])
  {
    hide ReadsAs;
    OneReadsAs(mark + name + stamp);
  }

  lemma FileReadsAs(f: File, style: Style)
    requires FileOk(f, style) && StyleOk(style)
    ensures ReadsAs(FileText(f, style), FileText(TrimmedFile(f), style)) && FileOk(TrimmedFile(f), style)
  {
    hide ReadsAs, HunksOk, HunksText, CountInHunks, NormalizePath, PathOk, HasSide, IsSpace;
    var o, n := OldName(f, style), NewName(f, style);
    NamesRead(f, style);
    Spaced(o);
    Spaced(n);
    NameReadsAs("--- ", o, style.stamp);
    NameReadsAs("+++ ", n, style.stamp);
    HunksReadAs(f.hunks);
    var t := TrimmedFile(f);
    assert OldName(t, style) == o && NewName(t, style) == n;
    hide OldName, NewName;
    var a, b := ["--- " + o + style.stamp], ["+++ " + n + style.stamp];
    ReadsAsConcat(a, b, a, b);
    ReadsAsConcat(a + b, HunksText(f.hunks), a + b, HunksText(t.hunks));
    assert a + b == ["--- " + o + style.stamp, "+++ " + n + style.stamp];
  }

  lemma {:induction false} FilesReadAs(files: seq<File>, style: Style)
    requires FilesOk(files, style)
    ensures ReadsAs(FilesText(files, style), FilesText(TrimmedFiles(files), style))
    ensures FilesOk(TrimmedFiles(files), style)
  {
    hide ReadsAs, FileOk, FileText, StyleOk, TrimmedFile;
    if |files| > 0 {
      var f, more := files[0], files[1..];
      FileReadsAs(f, style);
      FilesReadAs(more, style);
      ReadsAsConcat(FileText(f, style), FilesText(more, style), FileText(TrimmedFile(f), style), FilesText(TrimmedFiles(more), style));
      assert TrimmedFiles(files)[1..] == TrimmedFiles(more);
    } else {
      EmptyReadsAs();
    }
  }

  lemma LinesOfText(text: seq<string>, read: seq<string>)
    requires |text| > 0 && text[0] != "" && ReadsAs(text, read)
    ensures LinesOf(JoinLines(text) + "\n") == read
  {
    hide JoinLines, SplitLines, TrimCR;
    var joined := JoinLines(text);
    SplitJoin(text);
    JoinStarts(text);
    assert (joined + "\n")[..|joined|] == joined;
  }

  lemma JoinStarts(text: seq<string>)
    requires |text| > 0
    ensures |JoinLines(text)| >= |text[0]|
  {
  }

  /** Parsing what was written gives back the files, but for a carriage return at the end of a line. */
  lemma PrintedFilesParse(files: seq<File>, style: Style)
    requires FilesOk(files, style)
    ensures FilesOf(Print(files, style)) == TrimmedFiles(files)
  {
    hide FilesOk, FilesText, TrimmedFiles, FinalizeAll, ReadsAs, LinesOf, StyleOk;
    var trimmed := TrimmedFiles(files);
    FilesReadAs(files, style);
    var read := FilesText(trimmed, style);
    PrintedLines(files, style);
    assert LinesOf(Print(files, style)) == read;
    assert read[0..] == read + [];
    var next := FilesRead(read, AT_START, trimmed, style, []);
    assert next.i == |read|;
    assert [] + RawAll(trimmed) == RawAll(trimmed);
    AllFinishedAgain(trimmed, style);
  }

  lemma PrintedLines(files: seq<File>, style: Style)
    requires ReadsAs(FilesText(files, style), FilesText(TrimmedFiles(files), style))
    ensures LinesOf(Print(files, style)) == FilesText(TrimmedFiles(files), style)
  {
    hide ReadsAs, LinesOf, JoinLines, OldName, NewName, HunksText;
    if |files| > 0 {
      var text := FilesText(files, style);
      assert text[0] == "--- " + OldName(files[0], style) + style.stamp;
      LinesOfText(text, FilesText(TrimmedFiles(files), style));
    } else {
      NoLines();
    }
  }

  lemma NoLines()
    ensures LinesOf("") == []
  {
  }

  // ----- Exactly when nothing is lost -----

  predicate EndsInCR(l: Line) {
    l.content != "" && l.content[|l.content| - 1] == '\r'
  }

  predicate AnyCR(files: seq<File>) {
    exists i, j, k :: 0 <= i < |files| && 0 <= j < |files[i].hunks| && 0 <= k < |files[i].hunks[j].lines|
                      && EndsInCR(files[i].hunks[j].lines[k])
  }

  lemma {:induction false} TrimmedLinesAre(lines: seq<Line>)
    ensures TrimmedLines(lines) == lines <==> forall k :: 0 <= k < |lines| ==> !EndsInCR(lines[k])
  {
    if |lines| > 0 {
      TrimmedLinesAre(lines[1..]);
      assert lines == [lines[0]] + lines[1..];
      assert forall k :: 0 < k < |lines| ==> lines[k] == lines[1..][k - 1];
      assert TrimmedLines(lines)[1..] == TrimmedLines(lines[1..]);
    }
  }

  predicate HunkHasCR(h: Hunk) {
    exists k :: 0 <= k < |h.lines| && EndsInCR(h.lines[k])
  }

  lemma {:induction false} TrimmedHunksAre(hunks: seq<Hunk>)
    ensures TrimmedHunks(hunks) == hunks <==> forall j :: 0 <= j < |hunks| ==> !HunkHasCR(hunks[j])
  {
    hide EndsInCR;
    if |hunks| > 0 {
      TrimmedLinesAre(hunks[0].lines);
      hide HunkHasCR, TrimmedLines;
      TrimmedHunksAre(hunks[1..]);
      assert hunks == [hunks[0]] + hunks[1..];
      assert forall k :: 0 < k < |hunks| ==> hunks[k] == hunks[1..][k - 1];
      assert TrimmedHunks(hunks)[1..] == TrimmedHunks(hunks[1..]);
    }
  }

  predicate FileHasCR(f: File) {
    exists j :: 0 <= j < |f.hunks| && HunkHasCR(f.hunks[j])
  }

  lemma {:induction false} TrimmedFilesAre(files: seq<File>)
    ensures TrimmedFiles(files) == files <==> forall i :: 0 <= i < |files| ==> !FileHasCR(files[i])
  {
    hide HunkHasCR;
    if |files| > 0 {
      TrimmedHunksAre(files[0].hunks);
      hide FileHasCR, TrimmedHunks;
      TrimmedFilesAre(files[1..]);
      assert files == [files[0]] + files[1..];
      assert forall k :: 0 < k < |files| ==> files[k] == files[1..][k - 1];
      assert TrimmedFiles(files)[1..] == TrimmedFiles(files[1..]);
    }
  }

  lemma AnyCRMeans(files: seq<File>)
    ensures AnyCR(files) <==> exists i :: 0 <= i < |files| && FileHasCR(files[i])
  {
    hide EndsInCR;
    if i :| 0 <= i < |files| && FileHasCR(files[i]) {
      var j :| 0 <= j < |files[i].hunks| && HunkHasCR(files[i].hunks[j]);
      var k :| 0 <= k < |files[i].hunks[j].lines| && EndsInCR(files[i].hunks[j].lines[k]);
    }
    if AnyCR(files) {
      var i, j, k :| 0 <= i < |files| && 0 <= j < |files[i].hunks| && 0 <= k < |files[i].hunks[j].lines|
                     && EndsInCR(files[i].hunks[j].lines[k]);
      assert HunkHasCR(files[i].hunks[j]);
      assert FileHasCR(files[i]);
    }
  }

  /**
   * A diff survives being written and parsed, whatever its lines look like,
   * exactly when none of them ends in a carriage return.
   */
  lemma DiffRoundTrips(files: seq<File>, style: Style)
    requires FilesOk(files, style)
    ensures FilesOf(Print(files, style)) == files <==> !AnyCR(files)
  {
    hide FilesOk, Print, FilesOf, TrimmedFiles, FileHasCR, AnyCR;
    PrintedFilesParse(files, style);
    TrimmedFilesAre(files);
    AnyCRMeans(files);
  }

  // ----- A body that looks like a header -----

  const LOOKALIKE := Hunk("@@ -1 +1 @@", 1, 1, 1, 1, "", [Line(Delete, 1, 0, "-- a/x", false), Line(Add, 0, 1, "++ b/x", false)])

  /** The body of a hunk that can be written may hold what would be a file header anywhere else. */
  lemma BodyMayLookLikeAPair()
    ensures HunkOk(LOOKALIKE) && StartsPair(HunkText(LOOKALIKE), 1)
  {
    assert Decimal.Digits(1) == "1";
    assert HeaderText(LOOKALIKE, true, true) == "@@ -1 +1 @@";
    assert HeaderOk(LOOKALIKE, true, true);
    var lines := LOOKALIKE.lines;
    assert lines[1..] == [lines[1]];
    assert HunkText(LOOKALIKE)[1] == "--- a/x" && HunkText(LOOKALIKE)[2] == "+++ b/x";
  }
}
