/** What stands around plain hunks in the output of git: signatures, extended headers, and combined hunks. */
module PatchText {
  import opened Text
  import opened DiffModel
  import opened DiffParser
  import opened HunkHeaders
  import opened DiffRoundTrip
  import opened HunkFacts

  // ----- A signature -----

  /** A line of a signature: dashes, a version, or nothing. */
  ghost predicate IsIdle(l: string) {
    && '\n' !in l && (l != "" ==> l[|l| - 1] != '\r')
    && (l == "" || '0' <= l[0] <= '9' || IsDashes(l))
  }

  lemma IdleLooks(l: string)
    requires IsIdle(l)
    ensures !HasPrefix(l, "diff ") && !HasPrefix(l, "@@") && !HasPrefix(l, "+++ ")
    ensures forall f :: ExtendedHeader(f, l).NoHeader?
  {
    hide IsIdle, HasPrefix, TrimSpace, TrimPrefix, HasSuffix;
    FirstOfIdle(l);
    NotPrefix(l, "diff ");
    NotPrefix(l, "@@");
    NotPrefix(l, "+++ ");
    NotPrefix(l, "old mode ");
    NotPrefix(l, "new mode ");
    NotPrefix(l, "new file mode ");
    NotPrefix(l, "deleted file mode ");
    NotPrefix(l, "rename from ");
    NotPrefix(l, "rename to ");
    NotPrefix(l, "copy from ");
    NotPrefix(l, "copy to ");
    NotPrefix(l, "index ");
    NotPrefix(l, "Binary files ");
    NotPrefix(l, "GIT binary patch");
    NotPrefix(l, "Files ");
  }

  lemma NotPrefix(l: string, prefix: string)
    requires prefix != "" && (l == "" || l[0] != prefix[0])
    ensures !HasPrefix(l, prefix)
  {
  }

  lemma FirstOfIdle(l: string)
    requires IsIdle(l)
    ensures l != "" ==> l[0] == '-' || '0' <= l[0] <= '9'
  {
  }

  lemma IdleStep(lines: seq<string>, c: Cursor)
    requires c.i < |lines| && IsIdle(lines[c.i]) && (c.i + 1 < |lines| ==> IsIdle(lines[c.i + 1]))
    ensures Step(lines, c) == c.(i := c.i + 1)
  {
    hide IsIdle, ExtendedHeader, PairStep, HunkStep, TrimSpace, TrimPrefix;
    IdleLooks(lines[c.i]);
    NotGit(lines[c.i]);
    if c.i + 1 < |lines| {
      IdleLooks(lines[c.i + 1]);
    }
  }

  lemma {:induction false} IdleRun(lines: seq<string>, c: Cursor)
    requires c.i <= |lines| && forall k :: c.i <= k < |lines| ==> IsIdle(lines[k])
    ensures RunFrom(lines, c).files == c.files
    decreases |lines| - c.i
  {
    hide IsIdle, Step;
    if c.i < |lines| {
      IdleStep(lines, c);
      IdleRun(lines, c.(i := c.i + 1));
    }
  }

  /** A signature behind the last hunk is no part of it: the same files are read. */
  lemma SignedPatchParses(files: seq<File>, style: Style, signature: seq<string>)
    requires FilesOk(files, style) && files != []
    requires signature != [] && IsDashes(signature[0]) && forall l :: l in signature ==> IsIdle(l)
    ensures FilesOf(JoinLines(FilesText(files, style) + signature) + "\n") == TrimmedFiles(files)
  {
    hide FilesOk, FilesText, TrimmedFiles, FinalizeAll, ReadsAs, LinesOf, JoinLines, Follows, IsDashes, IsIdle;
    FilesReadAs(files, style);
    SignedLines(files, style, signature);
    SignedFilesRead(TrimmedFiles(files), style, signature);
    AllFinishedAgain(TrimmedFiles(files), style);
  }

  lemma SignedFilesRead(files: seq<File>, style: Style, signature: seq<string>)
    requires FilesOk(files, style)
    requires signature != [] && IsDashes(signature[0]) && forall l :: l in signature ==> IsIdle(l)
    ensures RunFrom(FilesText(files, style) + signature, AT_START).files == RawAll(files)
  {
    hide FilesOk, RunFrom, Follows, IsDashes, IsIdle;
    var read := FilesText(files, style) + signature;
    assert read[0..] == read;
    SignatureFollows(signature);
    var next := FilesRead(read, AT_START, files, style, signature);
    RestIs(read, next.i, signature);
    IdleRun(read, next);
    assert [] + RawAll(files) == RawAll(files);
  }

  lemma SignatureFollows(signature: seq<string>)
    requires signature != [] && IsDashes(signature[0])
    ensures Follows(signature)
  {
  }

  lemma RestIs(read: seq<string>, i: nat, rest: seq<string>)
    requires i <= |read| && read[i..] == rest && forall l :: l in rest ==> IsIdle(l)
    ensures forall k :: i <= k < |read| ==> IsIdle(read[k])
  {
    hide IsIdle;
    forall k | i <= k < |read|
      ensures IsIdle(read[k])
    {
      assert read[k] == read[i..][k - i];
    }
  }

  lemma SignatureReadsAs(signature: seq<string>)
    requires forall l :: l in signature ==> IsIdle(l)
    ensures ReadsAs(signature, signature)
  {
    hide IsDashes, TrimCR;
    forall k | 0 <= k < |signature|
      ensures '\n' !in signature[k] && TrimCR(signature[k]) == signature[k]
    {
      assert signature[k] in signature;
      NoCR(signature[k]);
    }
  }

  lemma NoCR(l: string)
    requires l != "" ==> l[|l| - 1] != '\r'
    ensures TrimCR(l) == l
  {
  }

  lemma SignedLines(files: seq<File>, style: Style, signature: seq<string>)
    requires files != [] && ReadsAs(FilesText(files, style), FilesText(TrimmedFiles(files), style))
    requires forall l :: l in signature ==> IsIdle(l)
    ensures LinesOf(JoinLines(FilesText(files, style) + signature) + "\n") == FilesText(TrimmedFiles(files), style) + signature
  {
    hide ReadsAs, LinesOf, JoinLines, OldName, NewName, HunksText, IsIdle;
    var text, read := FilesText(files, style), FilesText(TrimmedFiles(files), style);
    assert text[0] == "--- " + OldName(files[0], style) + style.stamp;
    SignatureReadsAs(signature);
    ReadsAsConcat(text, signature, read, signature);
    assert (text + signature)[0] == text[0];
    LinesOfText(text + signature, read + signature);
  }

  // ----- Combined hunks -----

  /** A line of a merge: a mark for each parent, then the text, and whether a no-newline marker follows. */
  datatype Marked = Marked(marks: string, content: string, noNewline: bool)

  predicate MarksOk(m: Marked, parents: nat) {
    |m.marks| == parents && forall k :: 0 <= k < parents ==> m.marks[k] in " +-"
  }

  function MarkedText(m: Marked): seq<string> {
    if m.noNewline then [m.marks + m.content, NO_NEWLINE] else [m.marks + m.content]
  }

  function CombinedText(body: seq<Marked>): seq<string> {
    if |body| == 0 then [] else MarkedText(body[0]) + CombinedText(body[1..])
  }

  /** What a line of a merge is: gone if any parent lost it, else new if any had it not, else context. */
  function MarkedLine(m: Marked): Line {
    Line(if exists k :: 0 <= k < |m.marks| && m.marks[k] == '-' then Delete
         else if exists k :: 0 <= k < |m.marks| && m.marks[k] == '+' then Add
         else Context, 0, 0, m.content, false)
  }

  function MarkedLines(body: seq<Marked>): seq<Line> {
    if |body| == 0 then [] else [MarkedLine(body[0])] + MarkedLines(body[1..])
  }

  lemma {:induction false} MarksRead(marks: string, content: string)
    requires forall k :: 0 <= k < |marks| ==> marks[k] in " +-"
    ensures MarkerColumns(marks + content, |marks|) == |marks|
  {
    if |marks| > 0 {
      assert (marks + content)[1..] == marks[1..] + content;
      MarksRead(marks[1..], content);
    }
  }

  lemma MarkedReads(m: Marked, parents: nat)
    requires MarksOk(m, parents)
    ensures CombinedLine(m.marks + m.content, parents) == MarkedLine(m)
  {
    hide MarkerColumns;
    MarksRead(m.marks, m.content);
    assert (m.marks + m.content)[..parents] == m.marks && (m.marks + m.content)[parents..] == m.content;
  }

  lemma {:induction false} ParentsRead(n: nat, tail: string)
    requires tail == "" || tail[0] != '@'
    ensures AtSigns(seq(n, k => '@') + tail) == n
  {
    var header := seq(n, k => '@') + tail;
    if n > 0 {
      assert header[1..] == seq(n - 1, k => '@') + tail;
      ParentsRead(n - 1, tail);
    } else {
      assert header == tail;
    }
  }

  /** What follows a combined hunk: nothing, another hunk, or another file. */
  predicate EndsCombined(rest: seq<string>) {
    |rest| > 0 ==> HasPrefix(rest[0], "@@") || HasPrefix(rest[0], "diff ")
  }

  lemma MarkedStep(lines: seq<string>, i: nat, parents: nat, got: seq<Line>, m: Marked, tail: seq<string>)
    requires parents > 0 && MarksOk(m, parents) && i <= |lines| && lines[i..] == MarkedText(m) + tail
    ensures i + |MarkedText(m)| <= |lines| && lines[i + |MarkedText(m)|..] == tail
    ensures ReadCombined(lines, i, parents, got) == ReadCombined(lines, i + |MarkedText(m)|, parents, got + [MarkedLine(m)])
  {
    hide CombinedLine, MarkedLine;
    var text := m.marks + m.content;
    assert text[0] in " +-";
    MarkedReads(m, parents);
    if m.noNewline {
      assert MarkedText(m) + tail == [text] + ([NO_NEWLINE] + tail);
      AtHead(lines, i, text, [NO_NEWLINE] + tail);
      AtHead(lines, i + 1, NO_NEWLINE, tail);
    } else {
      AtHead(lines, i, text, tail);
    }
  }

  lemma CombinedEnds(lines: seq<string>, i: nat, parents: nat, got: seq<Line>)
    requires i <= |lines| && EndsCombined(lines[i..])
    ensures ReadCombined(lines, i, parents, got) == Body(got, i)
  {
    if i < |lines| {
      assert lines[i..][0] == lines[i];
    }
  }

  lemma {:induction false} CombinedBodyReads(lines: seq<string>, i: nat, parents: nat, got: seq<Line>, body: seq<Marked>, rest: seq<string>)
    requires parents > 0 && (forall k :: 0 <= k < |body| ==> MarksOk(body[k], parents)) && EndsCombined(rest)
    requires i <= |lines| && lines[i..] == CombinedText(body) + rest
    ensures i + |CombinedText(body)| <= |lines| && lines[i + |CombinedText(body)|..] == rest
    ensures ReadCombined(lines, i, parents, got) == Body(got + MarkedLines(body), i + |CombinedText(body)|)
    decreases |body|
  {
    hide MarksOk, MarkedText, MarkedLine, ReadCombined, EndsCombined;
    if |body| == 0 {
      assert CombinedText(body) + rest == rest;
      assert got + MarkedLines(body) == got;
      CombinedEnds(lines, i, parents, got);
    } else {
      var m, more := body[0], body[1..];
      var tail := CombinedText(more) + rest;
      assert MarkedText(m) + tail == CombinedText(body) + rest;
      MarkedStep(lines, i, parents, got, m, tail);
      CombinedBodyReads(lines, i + |MarkedText(m)|, parents, got + [MarkedLine(m)], more, rest);
      assert got + [MarkedLine(m)] + MarkedLines(more) == got + MarkedLines(body);
    }
  }

  /** A hunk of a merge reads back: every line once, in order, as what the marks of its parents make it, and none numbered. */
  lemma CombinedHunkReads(lines: seq<string>, c: Cursor, parents: nat, tail: string, body: seq<Marked>, rest: seq<string>)
    requires |c.files| > 0 && parents >= 2 && (tail == "" || tail[0] != '@')
    requires (forall k :: 0 <= k < |body| ==> MarksOk(body[k], parents)) && EndsCombined(rest)
    requires var header := seq(parents + 1, k => '@') + tail; c.i <= |lines| && lines[c.i..] == [header] + CombinedText(body) + rest
    ensures var header := seq(parents + 1, k => '@') + tail;
            c.i < |lines| && Step(lines, c)
            == AddHunk(c, Hunk(header, 0, 0, 0, 0, "", MarkedLines(body))).(i := c.i + 1 + |CombinedText(body)|)
  {
    hide MarksOk, CombinedText, MarkedLines, ReadCombined, EndsCombined, AtSigns;
    var header := seq(parents + 1, k => '@') + tail;
    assert [header] + CombinedText(body) + rest == [header] + (CombinedText(body) + rest);
    AtHead(lines, c.i, header, CombinedText(body) + rest);
    ParentsRead(parents + 1, tail);
    assert header[..3] == "@@@" && header[..2] == "@@" && header[0] == '@';
    NotGit(header);
    CombinedBodyReads(lines, c.i + 1, parents, [], body, rest);
    assert [] + MarkedLines(body) == MarkedLines(body);
  }

  /** The file of a merge has one name, on both sides. */
  lemma CombinedFileNamed(lines: seq<string>, c: Cursor, word: string, name: string)
    requires c.i < |lines| && (word == "diff --cc " || word == "diff --combined ") && lines[c.i] == word + name
    requires name != "" && !IsSpace(name[0]) && !IsSpace(name[|name| - 1]) && !HasPrefix(name, "diff --combined ")
    ensures Step(lines, c) == Cursor(c.i + 1, c.files + [NEW_FILE.(oldPath := name, newPath := name, status := Modified)], true, false, false)
  {
    hide IsSpace, PairStep, HunkStep, OtherStep;
    assert word <= word + name && (word + name)[|word|..] == name;
    assert (word + name)[7] == 'c';
    assert word == "diff --combined " ==> (word + name)[8] == 'o';
    TrimSpaceTight(name);
  }

  // ----- Lines on their own -----

  /** A hunk header without its second mark is no header: it is passed over. */
  lemma BrokenHeaderIsSkipped(lines: seq<string>, c: Cursor, text: string)
    requires c.i < |lines| && lines[c.i] == "@@" + text && (text == "" || text[0] != '@')
    requires forall k :: 0 <= k < |text| - 1 ==> !(text[k] == '@' && text[k + 1] == '@')
    ensures Step(lines, c) == c.(i := c.i + 1)
  {
    hide Fields, ParseRange, PairStep, OtherStep, ReadHunkBody;
    var line := lines[c.i];
    assert line[2..] == text && "@@" <= line && line[0] == '@';
    NoSecondMark(text);
    NotGit(line);
    assert |line| > 2 ==> line[2] == text[0];
  }

  lemma {:induction false} NoSecondMark(text: string)
    requires forall k :: 0 <= k < |text| - 1 ==> !(text[k] == '@' && text[k + 1] == '@')
    ensures IndexOf(text, "@@") == |text|
  {
    if |text| > 0 {
      assert forall k :: 0 <= k < |text[1..]| ==> text[1..][k] == text[k + 1];
      NoSecondMark(text[1..]);
      assert |text| > 1 ==> !(text[0] == '@' && text[1] == '@');
    }
  }

  /** Hunks that no header stands before belong to one file without a name. */
  lemma BareHunksParse(hunks: seq<Hunk>)
    requires HunksOk(hunks) && hunks != []
    ensures RunFrom(HunksText(hunks), AT_START).files == [NEW_FILE.(hunks := hunks)]
  {
    hide HunkOk, Step, HunkText, HunksText, Follows;
    var lines := HunksText(hunks);
    HunksBegin(hunks);
    var begun := Push(AT_START, NEW_FILE);
    assert lines[0..] == HunksText(hunks) + [];
    HunkOnNothing(lines, hunks[0]);
    assert RunFrom(lines, AT_START) == RunFrom(lines, begun);
    NothingFollows();
    HunksRead(lines, begun, hunks, []);
    assert [] + hunks == hunks;
  }

  lemma HunksBegin(hunks: seq<Hunk>)
    requires hunks != []
    ensures |HunksText(hunks)| > 0 && HunksText(hunks)[0] == hunks[0].header
  {
  }

  lemma NothingFollows()
    ensures Follows([])
  {
  }

  lemma HunkOnNothing(lines: seq<string>, h: Hunk)
    requires |lines| > 0 && HunkOk(h) && lines[0] == h.header
    ensures Step(lines, AT_START) == Step(lines, Push(AT_START, NEW_FILE))
  {
    hide ParseHunkHeader, HeaderOk, LinesOk, ReadHunkBody, HunkOk;
    HeaderLooks(h);
    NotGit(h.header);
  }

  lemma BinaryLine(f: File, text: string)
    ensures ExtendedHeader(f, "Binary files " + text) == Header(f.(isBinary := true), false)
  {
    hide After, HasSuffix;
    assert ("Binary files " + text)[0] == 'B';
  }

  lemma BinaryPatchLine(f: File, text: string)
    ensures ExtendedHeader(f, "GIT binary patch" + text) == Header(f.(isBinary := true), false)
  {
    hide After, HasSuffix;
    assert ("GIT binary patch" + text)[0] == 'G';
  }

  lemma FilesDifferLine(f: File, text: string)
    ensures ExtendedHeader(f, "Files " + text + " differ") == Header(f.(isBinary := true), false)
  {
    hide After, HasSuffix;
    var files := "Files " + text + " differ";
    assert files == "Files " + (text + " differ");
    assert files[0] == 'F';
    EndsIn("Files " + text, " differ");
  }

  lemma EndsIn(s: string, suffix: string)
    ensures HasSuffix(s + suffix, suffix)
  {
  }

  /** What git and diff say of files they do not show. */
  lemma BinaryLines(f: File, text: string)
    ensures ExtendedHeader(f, "Binary files " + text) == Header(f.(isBinary := true), false)
    ensures ExtendedHeader(f, "GIT binary patch" + text) == Header(f.(isBinary := true), false)
    ensures ExtendedHeader(f, "Files " + text + " differ") == Header(f.(isBinary := true), false)
  {
    hide ExtendedHeader;
    BinaryLine(f, text);
    BinaryPatchLine(f, text);
    FilesDifferLine(f, text);
  }

  /** A file nothing said the status of was added, deleted or changed by the names it has; with modes and nothing else, they are what changed. */
  lemma StatusOfNames(f: File)
    requires f.status == Unset
    ensures var status := Finalized(f).status;
            && (f.oldPath == "" && f.newPath != "" ==> status == Added)
            && (f.oldPath != "" && f.newPath == "" ==> status == Deleted)
            && ((f.oldPath == "") == (f.newPath == "") ==>
                  status == if f.hunks == [] && !f.isBinary && (f.oldMode != "" || f.newMode != "") then ModeOnly else Modified)
  {
    hide CountInHunks;
  }
}
