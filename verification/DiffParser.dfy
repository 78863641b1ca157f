/** The cursor that walks the lines of a diff, and the step it takes at each. */
module DiffParser {
  import opened Prelude
  import opened Text
  import opened DiffModel

  // ----- One step -----

  /** `git`, `headersRead` and `pathsKnown` are about the last file. */
  datatype Cursor = Cursor(i: nat, files: seq<File>, git: bool, headersRead: bool, pathsKnown: bool)

  const AT_START := Cursor(0, [], false, false, false)

  function Push(c: Cursor, f: File): Cursor {
    c.(files := c.files + [f], headersRead := false, pathsKnown := false)
  }

  /** With a file to fill. */
  function WithFile(c: Cursor): (r: Cursor)
    ensures |r.files| > 0 && r.i == c.i
  {
    if |c.files| > 0 then c else Push(c, NEW_FILE)
  }

  function Last(c: Cursor): File
    requires |c.files| > 0
  {
    c.files[|c.files| - 1]
  }

  function SetLast(c: Cursor, f: File): Cursor
    requires |c.files| > 0
  {
    c.(files := c.files[|c.files| - 1 := f])
  }

  function AddHunk(c: Cursor, h: Hunk): Cursor
    requires |c.files| > 0
  {
    SetLast(c, Last(c).(hunks := Last(c).hunks + [h]))
  }

  /** A hunk at line i: its header, then its body. */
  function HunkStep(lines: seq<string>, c: Cursor): (r: Cursor)
    requires c.i < |lines|
    ensures c.i < r.i <= |lines|
  {
    var line := lines[c.i];
    if HasPrefix(line, "@@@") then
      var b := ReadCombined(lines, c.i + 1, CombinedParents(line), []);
      AddHunk(WithFile(c), Hunk(line, 0, 0, 0, 0, "", b.lines)).(i := b.next)
    else
      match ParseHunkHeader(line)
      case None => c.(i := c.i + 1)
      case Some(h) =>
        var b := ReadHunkBody(lines, c.i + 1, h);
        AddHunk(WithFile(c), h.(lines := b.lines)).(i := b.next)
  }

  predicate StartsPair(lines: seq<string>, i: nat) {
    i + 1 < |lines| && HasPrefix(lines[i], "--- ") && HasPrefix(lines[i + 1], "+++ ")
  }

  /** A "--- / +++" pair: it begins a new file unless the last one is still waiting for it. */
  function PairStep(lines: seq<string>, c: Cursor): (r: Cursor)
    requires StartsPair(lines, c.i)
    ensures r.i == c.i + 2
  {
    var at := if |c.files| == 0 || |Last(c).hunks| > 0 || c.headersRead then Push(c, NEW_FILE).(git := false) else c;
    SetLast(at, WithHeaders(Last(at), lines[c.i], lines[c.i + 1], at.git, at.pathsKnown)).(i := c.i + 2, headersRead := true)
  }

  function OtherStep(lines: seq<string>, c: Cursor): (r: Cursor)
    requires c.i < |lines|
    ensures r.i == c.i + 1
  {
    var header := ExtendedHeader(if |c.files| > 0 then Last(c) else NEW_FILE, lines[c.i]);
    if header.NoHeader? || |c.files| == 0 then c.(i := c.i + 1)
    else SetLast(c, header.file).(i := c.i + 1, pathsKnown := c.pathsKnown || header.paths)
  }

  /** One turn of run. The paths of a "diff --git" line are not split here. */
  function Step(lines: seq<string>, c: Cursor): (r: Cursor)
    requires c.i < |lines|
    ensures c.i < r.i <= |lines|
  {
    var line := lines[c.i];
    if HasPrefix(line, "diff --git ") then Push(c, NEW_FILE).(git := true, i := c.i + 1)
    else if HasPrefix(line, "diff --cc ") || HasPrefix(line, "diff --combined ") then
      var name := TrimSpace(TrimPrefix(TrimPrefix(line, "diff --cc "), "diff --combined "));
      Push(c, NEW_FILE.(oldPath := name, newPath := name, status := Modified)).(git := true, i := c.i + 1)
    else if StartsPair(lines, c.i) then PairStep(lines, c)
    else if HasPrefix(line, "@@") then HunkStep(lines, c)
    else OtherStep(lines, c)
  }

  function RunFrom(lines: seq<string>, c: Cursor): Cursor
    decreases |lines| - c.i
  {
    if c.i >= |lines| then c else RunFrom(lines, Step(lines, c))
  }

  function FinalizeAll(files: seq<File>): seq<File> {
    if |files| == 0 then [] else [Finalized(files[0])] + FinalizeAll(files[1..])
  }

  /** What Parse reads. */
  function FilesOf(src: string): seq<File> {
    FinalizeAll(RunFrom(LinesOf(src), AT_START).files)
  }

  // ----- The parser -----

  class Parser {
    const lines: seq<string>
    var i: nat
    var files: seq<File>
    var git: bool
    var headersRead: bool
    var pathsKnown: bool

    function Here(): Cursor
      reads this
    {
      Cursor(i, files, git, headersRead, pathsKnown)
    }

    constructor (lines: seq<string>)
      ensures this.lines == lines && Here() == AT_START
    {
      this.lines := lines;
      i, files, git, headersRead, pathsKnown := 0, [], false, false, false;
    }

    method Run()
      requires i <= |lines|
      modifies this
      ensures Here() == RunFrom(lines, old(Here()))
    {
      hide Step;
      while i < |lines|
        invariant RunFrom(lines, old(Here())) == RunFrom(lines, Here())
        decreases |lines| - i
      {
        ghost var was := Here();
        Turn();
        assert RunFrom(lines, was) == RunFrom(lines, Here());
      }
    }

    method Turn()
      requires i < |lines|
      modifies this
      ensures Here() == Step(lines, old(Here()))
    {
      hide WithHeaders, ReadHunkBody, ReadCombined, ParseHunkHeader, ExtendedHeader, TrimSpace;
      var line := lines[i];
      if HasPrefix(line, "diff --git ") {
        PushFile(NEW_FILE);
        git := true;
        i := i + 1;
      } else if HasPrefix(line, "diff --cc ") || HasPrefix(line, "diff --combined ") {
        var name := TrimSpace(TrimPrefix(TrimPrefix(line, "diff --cc "), "diff --combined "));
        PushFile(NEW_FILE.(oldPath := name, newPath := name, status := Modified));
        git := true;
        i := i + 1;
      } else if StartsPair(lines, i) {
        if |files| == 0 || |files[|files| - 1].hunks| > 0 || headersRead {
          PushFile(NEW_FILE);
          git := false;
        }
        ReadFileHeaders();
      } else if HasPrefix(line, "@@") {
        ReadHunk();
      } else {
        var known := ReadExtendedHeader();
      }
    }

    method PushFile(f: File)
      modifies this
      ensures Here() == Push(old(Here()), f)
    {
      files := files + [f];
      headersRead := false;
      pathsKnown := false;
    }

    method ReadFileHeaders()
      requires |files| > 0 && i + 1 < |lines|
      modifies this
      ensures var was := old(Here());
              Here() == SetLast(was, WithHeaders(Last(was), lines[was.i], lines[was.i + 1], was.git, was.pathsKnown))
                          .(i := was.i + 2, headersRead := true)
    {
      hide WithHeaders;
      var f := files[|files| - 1];
      files := files[|files| - 1 := WithHeaders(f, lines[i], lines[i + 1], git, pathsKnown)];
      i := i + 2;
      headersRead := true;
    }

    method ReadExtendedHeader() returns (known: bool)
      requires i < |lines|
      modifies this
      ensures Here() == OtherStep(lines, old(Here()))
    {
      hide ExtendedHeader;
      var header := ExtendedHeader(if |files| > 0 then files[|files| - 1] else NEW_FILE, lines[i]);
      known := header.Header?;
      if known && |files| > 0 {
        files := files[|files| - 1 := header.file];
        pathsKnown := pathsKnown || header.paths;
      }
      i := i + 1;
    }

    method ReadHunk()
      requires i < |lines|
      modifies this
      ensures Here() == HunkStep(lines, old(Here()))
    {
      hide ParseHunkHeader, CombinedParents;
      var line := lines[i];
      if HasPrefix(line, "@@@") {
        ReadCombinedHunk();
        return;
      }
      var header := ParseHunkHeader(line);
      i := i + 1;
      if header.None? {
        return;
      }
      var h := header.value;
      EnsureFile();
      var body := ReadHunkLines(h);
      var f := files[|files| - 1];
      files := files[|files| - 1 := f.(hunks := f.hunks + [h.(lines := body)])];
    }

    /** file: one is created for a diff that starts straight with a hunk. */
    method EnsureFile()
      modifies this
      ensures Here() == WithFile(old(Here()))
    {
      if |files| == 0 {
        PushFile(NEW_FILE);
      }
    }

    /** The loop of readHunk. */
    method ReadHunkLines(h: Hunk) returns (got: seq<Line>)
      requires i <= |lines|
      modifies this`i
      ensures Body(got, i) == ReadHunkBody(lines, old(i), h)
    {
      hide SurplusBodyEnd, IsMarker, IsBody, MarkLast, ContentOf;
      got := [];
      var oldNo, newNo := h.oldStart, h.newStart;
      var oldLeft: int, newLeft: int := h.oldLines, h.newLines;
      var surplus: Option<nat> := None;
      while i < |lines|
        invariant i <= |lines| && SurplusOk(lines, i, oldLeft, newLeft, surplus)
        invariant ReadHunkBody(lines, old(i), h) == ReadBody(lines, i, oldNo, newNo, oldLeft, newLeft, surplus, got)
        decreases |lines| - i, if oldLeft > 0 || newLeft > 0 then 1 else 0
      {
        var l := lines[i];
        if IsMarker(l) {
          got := MarkLast(got);
          i := i + 1;
          continue;
        }
        if oldLeft <= 0 && newLeft <= 0 {
          if surplus.None? {
            var end := FindSurplusEnd();
            surplus := Some(end);
          }
          if i >= surplus.value {
            break;
          }
        }
        if !IsBody(l) {
          oldLeft, newLeft := 0, 0;
          continue;
        }
        var c := ContentOf(l);
        match KindOf(l) {
          case Context =>
            got := got + [Line(Context, oldNo, newNo, c, false)];
            oldNo, newNo, oldLeft, newLeft := oldNo + 1, newNo + 1, oldLeft - 1, newLeft - 1;
          case Add =>
            got := got + [Line(Add, 0, newNo, c, false)];
            newNo, newLeft := newNo + 1, newLeft - 1;
          case Delete =>
            got := got + [Line(Delete, oldNo, 0, c, false)];
            oldNo, oldLeft := oldNo + 1, oldLeft - 1;
        }
        i := i + 1;
      }
    }

    /** surplusBodyEnd. */
    method FindSurplusEnd() returns (end: nat)
      requires i <= |lines|
      ensures end == SurplusBodyEnd(lines, i)
    {
      hide IsAmbiguous, IsChange;
      end := i;
      for j := i to |lines|
        invariant i <= end <= j
        invariant SurplusBodyEnd(lines, i) == SurplusFrom(lines, j, end)
      {
        if IsAmbiguous(lines[j]) {
        } else if IsChange(lines[j]) {
          end := j + 1;
        } else {
          return;
        }
      }
    }

    method ReadCombinedHunk()
      requires i < |lines|
      modifies this
      ensures var was := old(Here());
              var b := ReadCombined(lines, was.i + 1, CombinedParents(lines[was.i]), []);
              Here() == AddHunk(WithFile(was), Hunk(lines[was.i], 0, 0, 0, 0, "", b.lines)).(i := b.next)
    {
      hide CombinedParents, CombinedLine;
      EnsureFile();
      var header := lines[i];
      var parents := CombinedParents(header);
      var got: seq<Line> := [];
      i := i + 1;
      ghost var b := ReadCombined(lines, i, parents, []);
      while i < |lines| && !HasPrefix(lines[i], "@@") && !HasPrefix(lines[i], "diff ")
        invariant i <= |lines| && b == ReadCombined(lines, i, parents, got)
        invariant Here() == WithFile(old(Here())).(i := i)
        decreases |lines| - i
      {
        if !IsMarker(lines[i]) {
          got := got + [CombinedLine(lines[i], parents)];
        }
        i := i + 1;
      }
      var f := files[|files| - 1];
      files := files[|files| - 1 := f.(hunks := f.hunks + [Hunk(header, 0, 0, 0, 0, "", got)])];
    }
  }

  /** Parse. */
  method Parse(src: string) returns (files: seq<File>)
    ensures files == FilesOf(src)
  {
    hide RunFrom, Finalized;
    var p := new Parser(LinesOf(src));
    p.Run();
    files := [];
    for k := 0 to |p.files|
      invariant FinalizeAll(p.files) == files + FinalizeAll(p.files[k..])
    {
      assert p.files[k..][1..] == p.files[k + 1..];
      files := files + [Finalized(p.files[k])];
    }
  }
}
