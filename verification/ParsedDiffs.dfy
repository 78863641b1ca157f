/** What holds of every file that parsing any text gives. */
module ParsedDiffs {
  import opened Prelude
  import opened Text
  import opened DiffModel
  import opened DiffParser
  import opened HunkFacts
  import opened Worktree

  /** A hunk with a place on the new side is numbered from its starts. */
  ghost predicate HunkNumbered(h: Hunk) {
    h.newStart >= 1 ==> Numbered(h.lines, h.oldStart, h.newStart)
  }

  /** A file while it is read: not counted yet, its hunks numbered. */
  ghost predicate Kept(f: File) {
    f.additions == 0 && f.deletions == 0 && forall i :: 0 <= i < |f.hunks| ==> HunkNumbered(f.hunks[i])
  }

  ghost predicate AllKept(files: seq<File>) {
    forall i :: 0 <= i < |files| ==> Kept(files[i])
  }

  lemma KeptInPush(c: Cursor, f: File)
    requires AllKept(c.files) && Kept(f)
    ensures AllKept(Push(c, f).files)
  {
    hide Kept;
  }

  lemma KeptInSetLast(c: Cursor, f: File)
    requires AllKept(c.files) && |c.files| > 0 && Kept(f)
    ensures AllKept(SetLast(c, f).files)
  {
    hide Kept;
  }

  lemma NewIsKept()
    ensures Kept(NEW_FILE)
  {
  }

  lemma KeptInAddHunk(c: Cursor, h: Hunk)
    requires AllKept(c.files) && HunkNumbered(h)
    ensures AllKept(AddHunk(WithFile(c), h).files)
  {
    hide HunkNumbered;
    var at := WithFile(c);
    NewIsKept();
    KeptInPush(c, NEW_FILE);
    assert AllKept(at.files);
    var f := Last(at);
    assert Kept(f);
    KeptInSetLast(at, f.(hunks := f.hunks + [h]));
  }

  lemma ReadHunkIsNumbered(lines: seq<string>, i: nat, h: Hunk)
    requires i <= |lines|
    ensures HunkNumbered(h.(lines := ReadHunkBody(lines, i, h).lines))
  {
    hide ReadHunkBody, Numbered;
    NumbersAreContiguous(lines, i, h);
  }

  lemma HunkStepKeeps(lines: seq<string>, c: Cursor)
    requires c.i < |lines| && AllKept(c.files)
    ensures AllKept(HunkStep(lines, c).files)
  {
    hide AllKept, HunkNumbered, ReadHunkBody, ReadCombined, ParseHunkHeader, AddHunk;
    var line := lines[c.i];
    if HasPrefix(line, "@@@") {
      var b := ReadCombined(lines, c.i + 1, CombinedParents(line), []);
      var h := Hunk(line, 0, 0, 0, 0, "", b.lines);
      CombinedHasNoPlace(h);
      KeptInAddHunk(c, h);
    } else if ParseHunkHeader(line).Some? {
      var h := ParseHunkHeader(line).value;
      ReadHunkIsNumbered(lines, c.i + 1, h);
      KeptInAddHunk(c, h.(lines := ReadHunkBody(lines, c.i + 1, h).lines));
    }
  }

  lemma CombinedHasNoPlace(h: Hunk)
    requires h.newStart == 0
    ensures HunkNumbered(h)
  {
  }

  lemma HeadersKeep(f: File, oldLine: string, newLine: string, git: bool, pathsKnown: bool)
    requires Kept(f)
    ensures Kept(WithHeaders(f, oldLine, newLine, git, pathsKnown))
  {
    hide HunkNumbered, NormalizePath, TrimTimestamp, HasSide, TrimPrefix;
  }

  lemma PairStepKeeps(lines: seq<string>, c: Cursor)
    requires StartsPair(lines, c.i) && AllKept(c.files)
    ensures AllKept(PairStep(lines, c).files)
  {
    hide Kept, WithHeaders;
    NewIsKept();
    KeptInPush(c, NEW_FILE);
    var at := if |c.files| == 0 || |Last(c).hunks| > 0 || c.headersRead then Push(c, NEW_FILE).(git := false) else c;
    assert AllKept(at.files);
    HeadersKeep(Last(at), lines[c.i], lines[c.i + 1], at.git, at.pathsKnown);
    KeptInSetLast(at, WithHeaders(Last(at), lines[c.i], lines[c.i + 1], at.git, at.pathsKnown));
  }

  lemma ExtendedKeeps(f: File, line: string)
    requires Kept(f)
    ensures ExtendedHeader(f, line).Header? ==> Kept(ExtendedHeader(f, line).file)
  {
    hide HunkNumbered, After, HasPrefix, HasSuffix;
  }

  lemma OtherStepKeeps(lines: seq<string>, c: Cursor)
    requires c.i < |lines| && AllKept(c.files)
    ensures AllKept(OtherStep(lines, c).files)
  {
    hide Kept, ExtendedHeader;
    if |c.files| > 0 {
      ExtendedKeeps(Last(c), lines[c.i]);
      if ExtendedHeader(Last(c), lines[c.i]).Header? {
        KeptInSetLast(c, ExtendedHeader(Last(c), lines[c.i]).file);
      }
    }
  }

  lemma StepKeeps(lines: seq<string>, c: Cursor)
    requires c.i < |lines| && AllKept(c.files)
    ensures AllKept(Step(lines, c).files)
  {
    hide AllKept, Push, HunkStep, PairStep, OtherStep, TrimSpace, HunkNumbered;
    var line := lines[c.i];
    var name := TrimSpace(TrimPrefix(TrimPrefix(line, "diff --cc "), "diff --combined "));
    NewIsKept();
    KeptInPush(c, NEW_FILE);
    KeptInPush(c, NEW_FILE.(oldPath := name, newPath := name, status := Modified));
    HunkStepKeeps(lines, c);
    OtherStepKeeps(lines, c);
    if StartsPair(lines, c.i) {
      PairStepKeeps(lines, c);
    }
  }

  lemma {:induction false} RunKeeps(lines: seq<string>, c: Cursor)
    requires AllKept(c.files)
    ensures AllKept(RunFrom(lines, c).files)
    decreases |lines| - c.i
  {
    hide AllKept, Step;
    if c.i < |lines| {
      StepKeeps(lines, c);
      RunKeeps(lines, Step(lines, c));
    }
  }

  lemma {:induction false} FinalizeAllAt(files: seq<File>)
    ensures |FinalizeAll(files)| == |files|
    ensures forall k :: 0 <= k < |files| ==> FinalizeAll(files)[k] == Finalized(files[k])
  {
    hide Finalized;
    if |files| > 0 {
      FinalizeAllAt(files[1..]);
    }
  }

  lemma FinishedAddsUp(f: File)
    requires Kept(f)
    ensures var r := Finalized(f);
            && AllNumbered(r.hunks)
            && r.additions == CountInHunks(r.hunks, Add) && r.deletions == CountInHunks(r.hunks, Delete)
            && r.status != Unset && (r.oldPath != "" || r.newPath != "")
  {
    hide Numbered, CountInHunks;
    forall i | 0 <= i < |f.hunks| ensures HunkNumbered(f.hunks[i]) {
    }
  }

  /**
   * Whatever the text: every file parsed from it has a name and a status, its
   * counts are those of its lines, and every hunk of it with a place on the
   * new side numbers both sides without a gap from its starts.
   */
  lemma EveryParsedFile(src: string, k: nat)
    requires k < |FilesOf(src)|
    ensures var f := FilesOf(src)[k];
            && AllNumbered(f.hunks)
            && f.additions == CountInHunks(f.hunks, Add) && f.deletions == CountInHunks(f.hunks, Delete)
            && f.status != Unset && (f.oldPath != "" || f.newPath != "")
  {
    hide Kept, AllNumbered, CountInHunks, Finalized, FinalizeAll, RunFrom, LinesOf;
    var lines := LinesOf(src);
    RunKeeps(lines, AT_START);
    var files := RunFrom(lines, AT_START).files;
    FinalizeAllAt(files);
    FinishedAddsUp(files[k]);
  }

  /** For any diff and any working tree: the check holds exactly when every rebuilt line is where its number says. */
  lemma ParsedMatchIsLineByLine(src: string, k: nat, content: string)
    requires k < |FilesOf(src)| && !FilesOf(src)[k].isBinary
    ensures Matches(content, Some(FilesOf(src)[k]))
       <==> forall i :: 0 <= i < |FilesOf(src)[k].hunks| ==> RebuiltLinesAgree(SplitLines(content), FilesOf(src)[k].hunks[i])
  {
    hide FilesOf, Matches, RebuiltLinesAgree, AllNumbered, CountInHunks;
    EveryParsedFile(src, k);
    MatchIsLineByLine(content, FilesOf(src)[k]);
  }
}
