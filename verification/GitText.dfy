/** Diffs as git writes them: a line that begins each file, extended headers for modes, renames and copies, then plain hunks. */
module GitText {
  import opened Text
  import opened DiffModel
  import opened DiffParser
  import opened DiffRoundTrip
  import PatchText
  import HunkFacts

  // ----- Writing -----

  /** A file, with what stands in its header that says nothing of it: both names once more, and how alike the two sides are. */
  datatype GitFile = GitFile(file: File, names: string, similarity: string)

  const GIT := Style(true, "")

  function ModeText(f: File): seq<string> {
    if f.status == Added then ["new file mode " + f.newMode]
    else if f.status == Deleted then ["deleted file mode " + f.oldMode]
    else if f.oldMode != "" then ["old mode " + f.oldMode, "new mode " + f.newMode]
    else []
  }

  function MoveText(g: GitFile): seq<string> {
    var f := g.file;
    if f.status == Renamed then ["similarity index " + g.similarity, "rename from " + f.oldPath, "rename to " + f.newPath]
    else if f.status == Copied then ["similarity index " + g.similarity, "copy from " + f.oldPath, "copy to " + f.newPath]
    else []
  }

  function IndexText(f: File): seq<string> {
    if f.index != "" then ["index " + f.index] else []
  }

  function HeadText(g: GitFile): seq<string> {
    ModeText(g.file) + MoveText(g) + IndexText(g.file)
  }

  /** A file that was only moved has neither the pair of names nor a hunk. */
  function ChangesText(f: File): seq<string> {
    if f.hunks == [] then [] else ["--- " + OldName(f, GIT), "+++ " + NewName(f, GIT)] + HunksText(f.hunks)
  }

  function GitFileText(g: GitFile): seq<string> {
    ["diff --git " + g.names] + HeadText(g) + ChangesText(g.file)
  }

  function GitFilesText(gs: seq<GitFile>): seq<string> {
    if |gs| == 0 then [] else GitFileText(gs[0]) + GitFilesText(gs[1..])
  }

  function FilesIn(gs: seq<GitFile>): seq<File> {
    if |gs| == 0 then [] else [gs[0].file] + FilesIn(gs[1..])
  }

  // ----- What can be written -----

  predicate IsWord(s: string) {
    s != "" && '\n' !in s && !IsSpace(s[0]) && !IsSpace(s[|s| - 1])
  }

  predicate IsLine(s: string) {
    '\n' !in s && (s != "" ==> s[|s| - 1] != '\r')
  }

  predicate ModesOk(f: File) {
    if f.status == Added then IsWord(f.newMode) && f.oldMode == ""
    else if f.status == Deleted then IsWord(f.oldMode) && f.newMode == ""
    else (f.oldMode == "" && f.newMode == "") || (IsWord(f.oldMode) && IsWord(f.newMode))
  }

  predicate GitNamesOk(f: File) {
    match f.status
    case Added => f.oldPath == "" && PathOk(f.newPath, GIT) && f.hunks != []
    case Deleted => PathOk(f.oldPath, GIT) && f.newPath == "" && f.hunks != []
    case Modified => PathOk(f.oldPath, GIT) && PathOk(f.newPath, GIT) && f.hunks != []
    case Renamed => PathOk(f.oldPath, GIT) && PathOk(f.newPath, GIT) && IsWord(f.oldPath) && IsWord(f.newPath)
    case Copied => PathOk(f.oldPath, GIT) && PathOk(f.newPath, GIT) && IsWord(f.oldPath) && IsWord(f.newPath)
    case _ => false
  }

  ghost predicate GitFileOk(g: GitFile) {
    var f := g.file;
    && GitNamesOk(f) && ModesOk(f) && HunksOk(f.hunks) && (f.index != "" ==> IsWord(f.index)) && !f.isBinary
    && f.additions == CountInHunks(f.hunks, Add) && f.deletions == CountInHunks(f.hunks, Delete)
    && f.split == (f.status != Added && f.status != Deleted && f.deletions > 0)
    && IsLine(g.names) && IsLine(g.similarity)
  }

  ghost predicate GitFilesOk(gs: seq<GitFile>) {
    forall k :: 0 <= k < |gs| ==> GitFileOk(gs[k])
  }

  // ----- Extended headers -----

  /** A file and whether its paths are known, after some header lines. */
  datatype Headed = Headed(file: File, known: bool)

  function AfterHeader(h: Headed, line: string): Headed {
    match ExtendedHeader(h.file, line)
    case NoHeader => h
    case Header(file, paths) => Headed(file, h.known || paths)
  }

  function AfterHeaders(h: Headed, lines: seq<string>): Headed
    decreases |lines|
  {
    if |lines| == 0 then h else AfterHeaders(AfterHeader(h, lines[0]), lines[1..])
  }

  lemma {:induction false} HeadersConcat(h: Headed, a: seq<string>, b: seq<string>)
    ensures AfterHeaders(h, a + b) == AfterHeaders(AfterHeaders(h, a), b)
    decreases |a|
  {
    hide AfterHeader;
    if |a| == 0 {
      assert a + b == b;
    } else {
      assert (a + b)[1..] == a[1..] + b;
      HeadersConcat(AfterHeader(h, a[0]), a[1..], b);
    }
  }

  lemma OneHeader(h: Headed, line: string)
    ensures AfterHeaders(h, [line]) == AfterHeader(h, line)
  {
    hide AfterHeader;
    assert [line][1..] == [];
  }

  lemma TwoHeaders(h: Headed, a: string, b: string)
    ensures AfterHeaders(h, [a, b]) == AfterHeader(AfterHeader(h, a), b)
  {
    hide AfterHeader, AfterHeaders;
    assert [a, b] == [a] + [b];
    HeadersConcat(h, [a], [b]);
    OneHeader(h, a);
    OneHeader(AfterHeader(h, a), b);
  }

  lemma WordBehind(prefix: string, word: string)
    requires IsWord(word)
    ensures After(prefix + word, prefix) == word
  {
    hide IsSpace;
    assert prefix <= prefix + word;
    assert (prefix + word)[|prefix|..] == word;
    TrimSpaceTight(word);
  }

  lemma OldModeLine(f: File, mode: string)
    requires IsWord(mode)
    ensures ExtendedHeader(f, "old mode " + mode) == Header(f.(oldMode := mode), false)
  {
    hide After, IsWord, HasSuffix;
    WordBehind("old mode ", mode);
    assert ("old mode " + mode)[0] == 'o';
  }

  lemma NewModeLine(f: File, mode: string)
    requires IsWord(mode)
    ensures ExtendedHeader(f, "new mode " + mode) == Header(f.(newMode := mode), false)
  {
    hide After, IsWord, HasSuffix;
    WordBehind("new mode ", mode);
    assert ("new mode " + mode)[0] == 'n' && ("new mode " + mode)[4] == 'm';
  }

  lemma NewFileLine(f: File, mode: string)
    requires IsWord(mode)
    ensures ExtendedHeader(f, "new file mode " + mode) == Header(f.(status := Added, newMode := mode), false)
  {
    hide After, IsWord, HasSuffix;
    WordBehind("new file mode ", mode);
    assert ("new file mode " + mode)[0] == 'n' && ("new file mode " + mode)[4] == 'f';
  }

  lemma DeletedFileLine(f: File, mode: string)
    requires IsWord(mode)
    ensures ExtendedHeader(f, "deleted file mode " + mode) == Header(f.(status := Deleted, oldMode := mode), false)
  {
    hide After, IsWord, HasSuffix;
    WordBehind("deleted file mode ", mode);
    assert ("deleted file mode " + mode)[0] == 'd';
  }

  lemma RenameFromLine(f: File, path: string)
    requires IsWord(path)
    ensures ExtendedHeader(f, "rename from " + path) == Header(f.(status := Renamed, oldPath := path), true)
  {
    hide After, IsWord, HasSuffix;
    WordBehind("rename from ", path);
    assert ("rename from " + path)[0] == 'r' && ("rename from " + path)[7] == 'f';
  }

  lemma RenameToLine(f: File, path: string)
    requires IsWord(path)
    ensures ExtendedHeader(f, "rename to " + path) == Header(f.(status := Renamed, newPath := path), true)
  {
    hide After, IsWord, HasSuffix;
    WordBehind("rename to ", path);
    assert ("rename to " + path)[0] == 'r' && ("rename to " + path)[7] == 't';
  }

  lemma CopyFromLine(f: File, path: string)
    requires IsWord(path)
    ensures ExtendedHeader(f, "copy from " + path) == Header(f.(status := Copied, oldPath := path), true)
  {
    hide After, IsWord, HasSuffix;
    WordBehind("copy from ", path);
    assert ("copy from " + path)[0] == 'c' && ("copy from " + path)[5] == 'f';
  }

  lemma CopyToLine(f: File, path: string)
    requires IsWord(path)
    ensures ExtendedHeader(f, "copy to " + path) == Header(f.(status := Copied, newPath := path), true)
  {
    hide After, IsWord, HasSuffix;
    WordBehind("copy to ", path);
    assert ("copy to " + path)[0] == 'c' && ("copy to " + path)[5] == 't';
  }

  lemma IndexLine(f: File, index: string)
    requires IsWord(index)
    ensures ExtendedHeader(f, "index " + index) == Header(f.(index := index), false)
  {
    hide After, IsWord, HasSuffix;
    WordBehind("index ", index);
    assert ("index " + index)[0] == 'i';
  }

  lemma SimilarityLine(f: File, text: string)
    ensures ExtendedHeader(f, "similarity index " + text) == NoHeader
  {
    hide After, HasSuffix;
    assert ("similarity index " + text)[0] == 's';
  }

  // ----- Reading the head of a file -----

  /** What the head says of the file: its modes, its index, and where it was moved from. */
  function HeadSays(f: File): Headed {
    var moved := f.status == Renamed || f.status == Copied;
    Headed(NEW_FILE.(status := if f.status == Modified then Unset else f.status, oldMode := f.oldMode, newMode := f.newMode,
                     index := f.index, oldPath := if moved then f.oldPath else "", newPath := if moved then f.newPath else ""), moved)
  }

  lemma ModesRead(f: File)
    requires ModesOk(f)
    ensures AfterHeaders(Headed(NEW_FILE, false), ModeText(f))
         == Headed(NEW_FILE.(status := if f.status == Added || f.status == Deleted then f.status else Unset,
                             oldMode := f.oldMode, newMode := f.newMode), false)
  {
    hide ExtendedHeader, AfterHeaders, IsSpace;
    var none := Headed(NEW_FILE, false);
    if f.status == Added {
      NewFileLine(NEW_FILE, f.newMode);
      OneHeader(none, "new file mode " + f.newMode);
    } else if f.status == Deleted {
      DeletedFileLine(NEW_FILE, f.oldMode);
      OneHeader(none, "deleted file mode " + f.oldMode);
    } else if f.oldMode != "" {
      OldModeLine(NEW_FILE, f.oldMode);
      NewModeLine(NEW_FILE.(oldMode := f.oldMode), f.newMode);
      TwoHeaders(none, "old mode " + f.oldMode, "new mode " + f.newMode);
    } else {
      NoHeaders(none);
    }
  }

  lemma NoHeaders(h: Headed)
    ensures AfterHeaders(h, []) == h
  {
  }

  lemma MoveRead(g: GitFile, h: Headed)
    requires GitNamesOk(g.file)
    ensures AfterHeaders(h, MoveText(g))
         == if g.file.status != Renamed && g.file.status != Copied then h
            else Headed(h.file.(status := g.file.status, oldPath := g.file.oldPath, newPath := g.file.newPath), true)
  {
    hide ExtendedHeader, AfterHeaders, IsWord, PathOk;
    var f := g.file;
    var alike := "similarity index " + g.similarity;
    if f.status == Renamed || f.status == Copied {
      SimilarityLine(h.file, g.similarity);
      var from := h.file.(status := f.status, oldPath := f.oldPath);
      if f.status == Renamed {
        RenameFromLine(h.file, f.oldPath);
        RenameToLine(from, f.newPath);
      } else {
        CopyFromLine(h.file, f.oldPath);
        CopyToLine(from, f.newPath);
      }
      assert MoveText(g) == [alike] + [MoveText(g)[1], MoveText(g)[2]];
      HeadersConcat(h, [alike], [MoveText(g)[1], MoveText(g)[2]]);
      OneHeader(h, alike);
      TwoHeaders(h, MoveText(g)[1], MoveText(g)[2]);
    } else {
      NoHeaders(h);
    }
  }

  lemma IndexRead(f: File, h: Headed)
    requires (f.index != "" ==> IsWord(f.index)) && h.file.index == ""
    ensures AfterHeaders(h, IndexText(f)) == Headed(h.file.(index := f.index), h.known)
  {
    hide ExtendedHeader, AfterHeaders, IsWord;
    if f.index != "" {
      IndexLine(h.file, f.index);
      OneHeader(h, "index " + f.index);
    } else {
      NoHeaders(h);
    }
  }

  lemma HeadRead(g: GitFile)
    requires GitNamesOk(g.file) && ModesOk(g.file) && (g.file.index != "" ==> IsWord(g.file.index))
    ensures AfterHeaders(Headed(NEW_FILE, false), HeadText(g)) == HeadSays(g.file)
  {
    hide AfterHeaders, ModeText, MoveText, IndexText, IsWord, PathOk;
    var none := Headed(NEW_FILE, false);
    var f := g.file;
    ModesRead(f);
    var a := AfterHeaders(none, ModeText(f));
    MoveRead(g, a);
    var b := AfterHeaders(a, MoveText(g));
    IndexRead(f, b);
    HeadersConcat(none, ModeText(f), MoveText(g));
    HeadersConcat(none, ModeText(f) + MoveText(g), IndexText(f));
  }

  // ----- Reading a file -----

  /** A line of a head begins with a letter, and not like what begins a file or a hunk. */
  predicate IsHead(line: string) {
    && !HasPrefix(line, "diff ") && !HasPrefix(line, "@@") && !HasPrefix(line, "--- ")
  }

  lemma HeadsAreHeads(g: GitFile)
    ensures forall k :: 0 <= k < |HeadText(g)| ==> IsHead(HeadText(g)[k])
  {
    var f := g.file;
    forall l | l in ModeText(f) || l in MoveText(g) || l in IndexText(f)
      ensures IsHead(l)
    {
      if l in ModeText(f) {
        assert l[0] == 'n' || l[0] == 'o' || l[1] == 'e';
      } else if l in MoveText(g) {
        assert l[0] == 's' || l[0] == 'r' || l[0] == 'c';
      } else {
        assert l[0] == 'i';
      }
    }
    forall k | 0 <= k < |HeadText(g)|
      ensures IsHead(HeadText(g)[k])
    {
      assert HeadText(g)[k] in ModeText(f) || HeadText(g)[k] in MoveText(g) || HeadText(g)[k] in IndexText(f);
    }
  }

  /** The cursor behind some header lines. */
  function Behind(c: Cursor, h: Headed, i: nat): Cursor
    requires |c.files| > 0
  {
    SetLast(c, h.file).(i := i, pathsKnown := h.known)
  }

  lemma HeaderStep(lines: seq<string>, c: Cursor)
    requires |c.files| > 0 && c.i < |lines| && IsHead(lines[c.i])
    ensures Step(lines, c) == Behind(c, AfterHeader(Headed(Last(c), c.pathsKnown), lines[c.i]), c.i + 1)
  {
    hide ExtendedHeader, PairStep, HunkStep, TrimSpace, TrimPrefix;
    NotGit(lines[c.i]);
    assert c.files[|c.files| - 1 := Last(c)] == c.files;
  }

  lemma {:induction false} HeadersStep(lines: seq<string>, c: Cursor, heads: seq<string>, rest: seq<string>)
    requires |c.files| > 0 && c.i <= |lines| && lines[c.i..] == heads + rest
    requires forall k :: 0 <= k < |heads| ==> IsHead(heads[k])
    ensures c.i + |heads| <= |lines| && lines[c.i + |heads|..] == rest
    ensures RunFrom(lines, c) == RunFrom(lines, Behind(c, AfterHeaders(Headed(Last(c), c.pathsKnown), heads), c.i + |heads|))
    decreases |heads|
  {
    hide Step, IsHead, AfterHeader;
    if |heads| == 0 {
      assert heads + rest == rest;
      assert c.files[|c.files| - 1 := Last(c)] == c.files;
    } else {
      assert heads + rest == [heads[0]] + (heads[1..] + rest);
      AtHead(lines, c.i, heads[0], heads[1..] + rest);
      HeaderStep(lines, c);
      var h := AfterHeader(Headed(Last(c), c.pathsKnown), heads[0]);
      var next := Behind(c, h, c.i + 1);
      HeadersStep(lines, next, heads[1..], rest);
      assert Last(next) == h.file;
      BehindTwice(c, h, AfterHeaders(h, heads[1..]), c.i + 1, c.i + |heads|);
    }
  }

  lemma BehindTwice(c: Cursor, h: Headed, k: Headed, i: nat, j: nat)
    requires |c.files| > 0
    ensures Behind(Behind(c, h, i), k, j) == Behind(c, k, j)
  {
  }

  lemma PairSays(f: File)
    requires GitNamesOk(f) && f.hunks != []
    ensures WithHeaders(HeadSays(f).file, "--- " + OldName(f, GIT), "+++ " + NewName(f, GIT), true, HeadSays(f).known)
         == HeadSays(f).file.(oldPath := f.oldPath, newPath := f.newPath)
  {
    hide NormalizePath, TrimTimestamp, TrimPrefix, HasSide, IsSpace, IsWord;
    var plain := f.(status := if f.status == Renamed || f.status == Copied then Modified else f.status);
    PlainNamesOk(plain);
    NamesRead(plain, GIT);
    assert OldName(f, GIT) == OldName(plain, GIT) && NewName(f, GIT) == NewName(plain, GIT);
    HeaderLine("--- ", OldName(f, GIT), GIT);
    HeaderLine("+++ ", NewName(f, GIT), GIT);
    assert "--- " + OldName(f, GIT) + "" == "--- " + OldName(f, GIT);
    assert "+++ " + NewName(f, GIT) + "" == "+++ " + NewName(f, GIT);
  }

  lemma PlainNamesOk(f: File)
    requires f.status == Added || f.status == Deleted || f.status == Modified
    requires GitNamesOk(f)
    ensures NamesOk(f, GIT)
  {
    hide PathOk, HasSide;
  }

  /** A file as its text has it, before it is finished. */
  function GitRaw(f: File): File {
    f.(additions := 0, deletions := 0, split := false, status := if f.status == Modified then Unset else f.status)
  }

  lemma ChangesRead(lines: seq<string>, c: Cursor, f: File, rest: seq<string>) returns (next: Cursor)
    requires GitNamesOk(f) && HunksOk(f.hunks) && !f.isBinary && HunkFollows(rest)
    requires |c.files| > 0 && Last(c) == HeadSays(f).file && c.pathsKnown == HeadSays(f).known && c.git && !c.headersRead
    requires c.i <= |lines| && lines[c.i..] == ChangesText(f) + rest
    ensures RunFrom(lines, c) == RunFrom(lines, next)
    ensures next.i <= |lines| && lines[next.i..] == rest && next.files == c.files[|c.files| - 1 := GitRaw(f)]
  {
    hide WithHeaders, HunksOk, OldName, NewName, Step, HunksText, Follows;
    if f.hunks == [] {
      assert ChangesText(f) + rest == rest;
      next := c;
    } else {
      var o, n := "--- " + OldName(f, GIT), "+++ " + NewName(f, GIT);
      var body := HunksText(f.hunks) + rest;
      assert ChangesText(f) + rest == [o] + ([n] + body);
      AtHead(lines, c.i, o, [n] + body);
      AtHead(lines, c.i + 1, n, body);
      var at := GitPairStep(lines, c, f);
      HunksRead(lines, at, f.hunks, rest);
      next := AddHunks(at, f.hunks).(i := at.i + |HunksText(f.hunks)|);
      assert Last(at).hunks + f.hunks == f.hunks;
    }
  }

  /** What may follow a file. */
  ghost predicate HunkFollows(rest: seq<string>) {
    Follows(rest)
  }

  lemma GitPairStep(lines: seq<string>, c: Cursor, f: File) returns (at: Cursor)
    requires GitNamesOk(f) && f.hunks != []
    requires |c.files| > 0 && Last(c) == HeadSays(f).file && c.pathsKnown == HeadSays(f).known && c.git && !c.headersRead
    requires c.i + 1 < |lines| && lines[c.i] == "--- " + OldName(f, GIT) && lines[c.i + 1] == "+++ " + NewName(f, GIT)
    ensures RunFrom(lines, c) == RunFrom(lines, at) && at.i == c.i + 2
    ensures at.files == c.files[|c.files| - 1 := HeadSays(f).file.(oldPath := f.oldPath, newPath := f.newPath)]
  {
    hide WithHeaders, OldName, NewName, HunkStep, OtherStep, GitNamesOk;
    PairSays(f);
    PairLooks(lines, c.i, OldName(f, GIT), NewName(f, GIT));
    NotGit(lines[c.i]);
    at := Step(lines, c);
    assert at == PairStep(lines, c);
  }

  lemma GitStart(lines: seq<string>, c: Cursor, names: string)
    requires c.i < |lines| && lines[c.i] == "diff --git " + names
    ensures Step(lines, c) == Cursor(c.i + 1, c.files + [NEW_FILE], true, false, false)
  {
    assert lines[c.i][..11] == "diff --git ";
  }

  lemma GitFileReads(lines: seq<string>, c: Cursor, g: GitFile, rest: seq<string>) returns (next: Cursor)
    requires GitFileOk(g) && HunkFollows(rest)
    requires c.i <= |lines| && lines[c.i..] == GitFileText(g) + rest
    ensures RunFrom(lines, c) == RunFrom(lines, next)
    ensures next.i <= |lines| && lines[next.i..] == rest && next.files == c.files + [GitRaw(g.file)]
  {
    hide HunksOk, GitNamesOk, ModesOk, CountInHunks, Step, HeadText, ChangesText, AfterHeaders, HeadSays, IsHead, HunkFollows, IsWord;
    var f := g.file;
    var start, body := "diff --git " + g.names, ChangesText(f) + rest;
    assert GitFileText(g) + rest == [start] + (HeadText(g) + body);
    AtHead(lines, c.i, start, HeadText(g) + body);
    GitStart(lines, c, g.names);
    var begun := Cursor(c.i + 1, c.files + [NEW_FILE], true, false, false);
    assert RunFrom(lines, c) == RunFrom(lines, begun);
    HeadsAreHeads(g);
    HeadersStep(lines, begun, HeadText(g), body);
    HeadRead(g);
    var headed := Behind(begun, HeadSays(f), begun.i + |HeadText(g)|);
    assert RunFrom(lines, begun) == RunFrom(lines, headed);
    next := ChangesRead(lines, headed, f, rest);
    assert next.files == c.files + [GitRaw(f)];
  }

  function GitRawAll(gs: seq<GitFile>): seq<File> {
    if |gs| == 0 then [] else [GitRaw(gs[0].file)] + GitRawAll(gs[1..])
  }

  lemma GitFollows(gs: seq<GitFile>, rest: seq<string>)
    requires HunkFollows(rest)
    ensures HunkFollows(GitFilesText(gs) + rest)
  {
    if |gs| > 0 {
      var first := (GitFilesText(gs) + rest)[0];
      assert first == "diff --git " + gs[0].names;
      assert first[..5] == "diff ";
    } else {
      assert GitFilesText(gs) + rest == rest;
    }
  }

  lemma GitNone(gs: seq<GitFile>)
    requires gs == []
    ensures GitFilesText(gs) == [] && GitRawAll(gs) == []
  {
  }

  lemma GitFirstAndRest(gs: seq<GitFile>)
    requires GitFilesOk(gs) && |gs| > 0
    ensures GitFileOk(gs[0]) && GitFilesOk(gs[1..])
    ensures GitFilesText(gs) == GitFileText(gs[0]) + GitFilesText(gs[1..])
    ensures GitRawAll(gs) == [GitRaw(gs[0].file)] + GitRawAll(gs[1..])
  {
    hide GitFileOk, GitFileText, GitRaw;
  }

  lemma {:induction false} GitFilesRead(lines: seq<string>, c: Cursor, gs: seq<GitFile>, rest: seq<string>) returns (next: Cursor)
    requires GitFilesOk(gs) && HunkFollows(rest)
    requires c.i <= |lines| && lines[c.i..] == GitFilesText(gs) + rest
    ensures RunFrom(lines, c) == RunFrom(lines, next)
    ensures next.i <= |lines| && lines[next.i..] == rest && next.files == c.files + GitRawAll(gs)
    decreases |gs|
  {
    hide GitFilesOk, GitFileOk, HunkFollows, GitFilesText, GitFileText, RunFrom, GitRaw, GitRawAll;
    if |gs| == 0 {
      GitNone(gs);
      assert GitFilesText(gs) + rest == rest;
      next := c;
    } else {
      GitFirstAndRest(gs);
      var g, more := gs[0], gs[1..];
      var tail := GitFilesText(more) + rest;
      GitFollows(more, rest);
      assert GitFileText(g) + tail == GitFilesText(gs) + rest;
      var after := GitFileReads(lines, c, g, tail);
      next := GitFilesRead(lines, after, more, rest);
      assert c.files + [GitRaw(g.file)] + GitRawAll(more) == c.files + GitRawAll(gs);
    }
  }

  // ----- Finishing -----

  lemma GitFinished(g: GitFile)
    requires GitFileOk(g)
    ensures Finalized(GitRaw(g.file)) == g.file
  {
    hide HunksOk, CountInHunks, ModesOk, IsWord, IsLine, IsSpace;
  }

  lemma {:induction false} AllGitFinished(gs: seq<GitFile>)
    requires GitFilesOk(gs)
    ensures FinalizeAll(GitRawAll(gs)) == FilesIn(gs)
  {
    hide GitFileOk, Finalized, GitRaw;
    if |gs| > 0 {
      GitFinished(gs[0]);
      AllGitFinished(gs[1..]);
      assert GitRawAll(gs)[1..] == GitRawAll(gs[1..]);
    }
  }

  // ----- From the text and back -----

  /** A carriage return at the end of a line of a hunk is lost. */
  function TrimmedGit(gs: seq<GitFile>): seq<GitFile> {
    if |gs| == 0 then [] else [gs[0].(file := TrimmedFile(gs[0].file))] + TrimmedGit(gs[1..])
  }

  lemma IsLineReads(l: string)
    requires IsLine(l)
    ensures ReadsAs([l], [l])
  {
  }

  lemma {:induction false} LinesReadAs(lines: seq<string>)
    requires forall l :: l in lines ==> IsLine(l)
    ensures ReadsAs(lines, lines)
  {
    hide ReadsAs, IsLine;
    if |lines| == 0 {
      EmptyReadsAs();
    } else {
      IsLineReads(lines[0]);
      LinesReadAs(lines[1..]);
      ReadsAsConcat([lines[0]], lines[1..], [lines[0]], lines[1..]);
      assert [lines[0]] + lines[1..] == lines;
    }
  }

  lemma LineBehind(prefix: string, text: string)
    requires IsLine(text) && '\n' !in prefix && prefix != "" && prefix[|prefix| - 1] == ' '
    ensures IsLine(prefix + text)
  {
  }

  lemma WordIsLine(word: string)
    requires IsWord(word)
    ensures IsLine(word)
  {
  }

  lemma PathIsLine(path: string)
    requires PathOk(path, GIT)
    ensures IsLine(path) && IsLine("a/" + path) && IsLine("b/" + path)
  {
  }

  lemma HeadIsLines(g: GitFile)
    requires GitNamesOk(g.file) && ModesOk(g.file) && (g.file.index != "" ==> IsWord(g.file.index)) && IsLine(g.similarity)
    ensures forall l :: l in HeadText(g) ==> IsLine(l)
  {
    hide IsLine, IsWord, PathOk, ModeText, MoveText, IndexText, ModesOk;
    ModeIsLines(g.file);
    MoveIsLines(g);
    IndexIsLines(g.file);
  }

  lemma ModeIsLines(f: File)
    requires ModesOk(f)
    ensures forall l :: l in ModeText(f) ==> IsLine(l)
  {
    hide IsLine, IsSpace;
    if f.newMode != "" {
      WordIsLine(f.newMode);
      LineBehind("new file mode ", f.newMode);
      LineBehind("new mode ", f.newMode);
    }
    if f.oldMode != "" {
      WordIsLine(f.oldMode);
      LineBehind("deleted file mode ", f.oldMode);
      LineBehind("old mode ", f.oldMode);
    }
  }

  lemma MoveIsLines(g: GitFile)
    requires GitNamesOk(g.file) && IsLine(g.similarity)
    ensures forall l :: l in MoveText(g) ==> IsLine(l)
  {
    hide IsLine, IsWord, PathOk;
    var f := g.file;
    LineBehind("similarity index ", g.similarity);
    if f.status == Renamed {
      PathIsLine(f.oldPath);
      PathIsLine(f.newPath);
      LineBehind("rename from ", f.oldPath);
      LineBehind("rename to ", f.newPath);
    } else if f.status == Copied {
      PathIsLine(f.oldPath);
      PathIsLine(f.newPath);
      LineBehind("copy from ", f.oldPath);
      LineBehind("copy to ", f.newPath);
    }
  }

  lemma IndexIsLines(f: File)
    requires f.index != "" ==> IsWord(f.index)
    ensures forall l :: l in IndexText(f) ==> IsLine(l)
  {
    hide IsLine, IsWord;
    if f.index != "" {
      WordIsLine(f.index);
      LineBehind("index ", f.index);
    }
  }

  lemma PairIsLines(f: File)
    requires GitNamesOk(f) && f.hunks != []
    ensures IsLine("--- " + OldName(f, GIT)) && IsLine("+++ " + NewName(f, GIT))
  {
    hide IsLine, IsWord, PathOk;
    DevNullIsLine();
    if f.status != Added {
      PathIsLine(f.oldPath);
    }
    if f.status != Deleted {
      PathIsLine(f.newPath);
    }
    LineBehind("--- ", OldName(f, GIT));
    LineBehind("+++ ", NewName(f, GIT));
  }

  lemma DevNullIsLine()
    ensures IsLine(DEV_NULL)
  {
  }

  lemma ChangesReadAs(f: File)
    requires GitNamesOk(f) && HunksOk(f.hunks)
    ensures ReadsAs(ChangesText(f), ChangesText(TrimmedFile(f)))
    ensures HunksOk(TrimmedFile(f).hunks) && |TrimmedFile(f).hunks| == |f.hunks|
    ensures forall kind :: CountInHunks(TrimmedFile(f).hunks, kind) == CountInHunks(f.hunks, kind)
  {
    hide ReadsAs, HunksOk, HunksText, CountInHunks, OldName, NewName, GitNamesOk, IsLine;
    HunksReadAs(f.hunks);
    var t := TrimmedFile(f);
    if f.hunks == [] {
      EmptyReadsAs();
    } else {
      PairIsLines(f);
      SameNames(f);
      var pair := ["--- " + OldName(f, GIT), "+++ " + NewName(f, GIT)];
      LinesReadAs(pair);
      ReadsAsConcat(pair, HunksText(f.hunks), pair, HunksText(t.hunks));
    }
  }

  lemma SameNames(f: File)
    ensures OldName(TrimmedFile(f), GIT) == OldName(f, GIT) && NewName(TrimmedFile(f), GIT) == NewName(f, GIT)
  {
    hide TrimmedHunks;
  }

  lemma GitFileReadsAs(g: GitFile)
    requires GitFileOk(g)
    ensures var t := g.(file := TrimmedFile(g.file)); GitFileOk(t) && ReadsAs(GitFileText(g), GitFileText(t))
  {
    hide ReadsAs, HunksOk, ModesOk, CountInHunks, TrimmedHunks, IsLine, IsWord, PathOk, ChangesText;
    var t := g.(file := TrimmedFile(g.file));
    ChangesReadAs(g.file);
    HeadIsLines(g);
    LineBehind("diff --git ", g.names);
    SameHead(g);
    var head := ["diff --git " + g.names] + HeadText(g);
    LinesReadAs(head);
    ReadsAsConcat(head, ChangesText(g.file), head, ChangesText(t.file));
  }

  lemma SameHead(g: GitFile)
    ensures var t := g.(file := TrimmedFile(g.file)); HeadText(t) == HeadText(g) && (ModesOk(t.file) <==> ModesOk(g.file))
  {
    hide TrimmedHunks, IsWord;
  }

  lemma {:induction false} GitFilesReadAs(gs: seq<GitFile>)
    requires GitFilesOk(gs)
    ensures ReadsAs(GitFilesText(gs), GitFilesText(TrimmedGit(gs))) && GitFilesOk(TrimmedGit(gs))
    ensures FilesIn(TrimmedGit(gs)) == TrimmedFiles(FilesIn(gs))
  {
    hide ReadsAs, GitFileOk, GitFileText, TrimmedFile;
    if |gs| > 0 {
      var g, more := gs[0], gs[1..];
      var t := g.(file := TrimmedFile(g.file));
      GitFileReadsAs(g);
      GitFilesReadAs(more);
      ReadsAsConcat(GitFileText(g), GitFilesText(more), GitFileText(t), GitFilesText(TrimmedGit(more)));
      assert TrimmedGit(gs)[1..] == TrimmedGit(more);
      assert FilesIn(gs)[1..] == FilesIn(more);
    } else {
      EmptyReadsAs();
    }
  }

  /**
   * A diff as git writes it, of files that were added, deleted, changed,
   * renamed or copied, with their modes, and with or without a signature, is
   * read as those files.
   */
  lemma GitDiffParses(gs: seq<GitFile>, signature: seq<string>)
    requires GitFilesOk(gs) && gs != []
    requires signature != [] ==> HunkFacts.IsDashes(signature[0]) && forall l :: l in signature ==> PatchText.IsIdle(l)
    ensures FilesOf(JoinLines(GitFilesText(gs) + signature) + "\n") == TrimmedFiles(FilesIn(gs))
  {
    hide GitFilesOk, GitFilesText, TrimmedFiles, FinalizeAll, LinesOf, JoinLines, ReadsAs, HunkFacts.IsDashes, PatchText.IsIdle;
    GitFilesReadAs(gs);
    GitLines(gs, signature);
    SignedGitReads(TrimmedGit(gs), signature);
    AllGitFinished(TrimmedGit(gs));
  }

  lemma GitLines(gs: seq<GitFile>, signature: seq<string>)
    requires gs != [] && ReadsAs(GitFilesText(gs), GitFilesText(TrimmedGit(gs)))
    requires forall l :: l in signature ==> PatchText.IsIdle(l)
    ensures LinesOf(JoinLines(GitFilesText(gs) + signature) + "\n") == GitFilesText(TrimmedGit(gs)) + signature
  {
    hide ReadsAs, LinesOf, JoinLines, HeadText, ChangesText, PatchText.IsIdle;
    var text, read := GitFilesText(gs), GitFilesText(TrimmedGit(gs));
    assert text[0] == "diff --git " + gs[0].names;
    PatchText.SignatureReadsAs(signature);
    ReadsAsConcat(text, signature, read, signature);
    assert (text + signature)[0] == text[0];
    LinesOfText(text + signature, read + signature);
  }

  lemma SignedGitReads(gs: seq<GitFile>, signature: seq<string>)
    requires GitFilesOk(gs)
    requires signature != [] ==> HunkFacts.IsDashes(signature[0]) && forall l :: l in signature ==> PatchText.IsIdle(l)
    ensures RunFrom(GitFilesText(gs) + signature, AT_START).files == GitRawAll(gs)
  {
    hide GitFilesOk, RunFrom, HunkFacts.IsDashes, PatchText.IsIdle;
    var read := GitFilesText(gs) + signature;
    assert read[0..] == read;
    var next := GitFilesRead(read, AT_START, gs, signature);
    PatchText.RestIs(read, next.i, signature);
    PatchText.IdleRun(read, next);
    assert [] + GitRawAll(gs) == GitRawAll(gs);
  }
}
