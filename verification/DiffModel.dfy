/** A parsed diff, and the small readers of its header lines. */
module DiffModel {
  import opened Prelude
  import opened Text
  import Decimal

  // ----- Entities -----

  datatype Kind = Context | Add | Delete

  /** A number is 0 on the side the line is not on. */
  datatype Line = Line(kind: Kind, oldNumber: nat, newNumber: nat, content: string, noNewline: bool)

  datatype Hunk = Hunk(header: string, oldStart: nat, oldLines: nat, newStart: nat, newLines: nat, section: string, lines: seq<Line>)

  datatype Status = Unset | Added | Deleted | Modified | Renamed | Copied | ModeOnly

  datatype File = File(
    oldPath: string, newPath: string, status: Status, isBinary: bool, oldMode: string, newMode: string, index: string,
    additions: nat, deletions: nat, split: bool, hunks: seq<Hunk>)

  const NEW_FILE := File("", "", Unset, false, "", "", "", 0, 0, false, [])

  const DEV_NULL := "/dev/null"

  const UNNAMED := "(unnamed)"

  // ----- Words -----

  function TrimPrefix(s: string, prefix: string): string {
    if prefix <= s then s[|prefix|..] else s
  }

  function TrimSpacesRight(s: string): string {
    if s != "" && s[|s| - 1] == ' ' then TrimSpacesRight(s[..|s| - 1]) else s
  }

  /** Where `part` first occurs in s, or |s|. */
  function IndexOf(s: string, part: string): (i: nat)
    ensures i <= |s|
    ensures i < |s| ==> part <= s[i..]
  {
    if |s| == 0 || part <= s then 0 else 1 + IndexOf(s[1..], part)
  }

  /** `strings.Fields`. */
  function Fields(s: string): seq<string> {
    if |s| == 0 then []
    else if IsSpace(s[0]) then Fields(s[1..])
    else
      var n := WordLength(s);
      [s[..n]] + Fields(s[n..])
  }

  function WordLength(s: string): (n: nat)
    ensures n <= |s|
    ensures |s| > 0 && !IsSpace(s[0]) ==> n > 0
  {
    if |s| == 0 || IsSpace(s[0]) then 0 else 1 + WordLength(s[1..])
  }

  // ----- Hunk headers -----

  /** The largest int of the platform sbnn is built for. */
  const MAX_INT := 0x7FFF_FFFF_FFFF_FFFF

  /** parseCount: plain digits, of a number an int can hold. */
  function ParseCount(s: string): Option<nat> {
    var n :- Decimal.Parse(s);
    if n <= MAX_INT then Some(n) else None
  }

  datatype Range = Range(start: nat, count: nat)

  /** parseRange. */
  function ParseRange(s: string, sign: char): Option<Range> {
    if |s| == 0 || s[0] != sign then None
    else
      var r := s[1..];
      var i := IndexOf(r, ",");
      if i < |r| then
        var count :- ParseCount(r[i + 1..]);
        var start :- ParseCount(r[..i]);
        Some(Range(start, count))
      else
        var start :- ParseCount(r);
        Some(Range(start, 1))
  }

  /** parseHunkHeader. */
  function ParseHunkHeader(line: string): Option<Hunk> {
    var rest := TrimPrefix(line, "@@");
    var i := IndexOf(rest, "@@");
    if i == |rest| then None
    else
      var ranges := Fields(rest[..i]);
      if |ranges| < 2 then None
      else
        var o :- ParseRange(ranges[0], '-');
        var n :- ParseRange(ranges[1], '+');
        Some(Hunk(line, o.start, o.count, n.start, n.count, TrimSpace(rest[i + 2..]), []))
  }

  // ----- Body lines -----

  predicate IsMarker(l: string) {
    |l| > 0 && l[0] == '\\'
  }

  /** isDashRun. */
  predicate IsDashRun(l: string) {
    var t := TrimSpacesRight(l);
    t != "" && forall i :: 0 <= i < |t| ==> t[i] == '-'
  }

  /** A line that can only be a change: an addition or a deletion that is not a file header or a run of dashes. */
  predicate IsChange(l: string) {
    |l| > 0
    && ((l[0] == '+' && !HasPrefix(l, "+++ ")) || (l[0] == '-' && !HasPrefix(l, "--- ") && !IsDashRun(l)))
  }

  /** A line that may be context, and belongs to a hunk only if a change follows. */
  predicate IsAmbiguous(l: string) {
    l == "" || l[0] == ' ' || l[0] == '\\'
  }

  /** surplusBodyEnd from line i, the last change having ended at `end`. */
  function SurplusFrom(lines: seq<string>, i: nat, end: nat): (r: nat)
    requires end <= i <= |lines|
    ensures end <= r <= |lines|
    ensures forall k :: i <= k < r ==> IsBody(lines[k]) || IsMarker(lines[k])
    decreases |lines| - i
  {
    if i == |lines| then end
    else if IsAmbiguous(lines[i]) then SurplusFrom(lines, i + 1, end)
    else if IsChange(lines[i]) then SurplusFrom(lines, i + 1, i + 1)
    else end
  }

  function SurplusBodyEnd(lines: seq<string>, i: nat): (r: nat)
    requires i <= |lines|
    ensures i <= r <= |lines|
    ensures forall k :: i <= k < r ==> IsBody(lines[k]) || IsMarker(lines[k])
  {
    SurplusFrom(lines, i, i)
  }

  predicate IsBody(l: string) {
    l == "" || l[0] == ' ' || l[0] == '+' || l[0] == '-'
  }

  function KindOf(l: string): Kind
    requires IsBody(l)
  {
    if l == "" || l[0] == ' ' then Context else if l[0] == '+' then Add else Delete
  }

  function ContentOf(l: string): string {
    if l == "" then "" else l[1..]
  }

  function MarkLast(lines: seq<Line>): seq<Line> {
    if |lines| == 0 then lines else lines[|lines| - 1 := lines[|lines| - 1].(noNewline := true)]
  }

  datatype Body = Body(lines: seq<Line>, next: nat)

  /** The surplus is computed once nothing is left to read, and is made of lines of a body. */
  predicate SurplusOk(lines: seq<string>, i: nat, oldLeft: int, newLeft: int, surplus: Option<nat>) {
    surplus.Some? ==>
      && oldLeft <= 0 && newLeft <= 0
      && surplus.value <= |lines|
      && forall k :: i <= k < surplus.value ==> IsBody(lines[k]) || IsMarker(lines[k])
  }

  /**
   * The body of a hunk from line i on. A count is down to 0 or below once its
   * side has been read; `surplus` is where the surplus ends, None until the
   * counts run out. A line that is not of a body sets both counts to 0 and is
   * looked at again: that happens once, since no such line is in the surplus.
   */
  function ReadBody(lines: seq<string>, i: nat, oldNo: nat, newNo: nat, oldLeft: int, newLeft: int,
                    surplus: Option<nat>, got: seq<Line>): (b: Body)
    requires i <= |lines| && SurplusOk(lines, i, oldLeft, newLeft, surplus)
    ensures i <= b.next <= |lines|
    decreases |lines| - i, if oldLeft > 0 || newLeft > 0 then 1 else 0
  {
    if i == |lines| then Body(got, i)
    else
      var l := lines[i];
      if IsMarker(l) then ReadBody(lines, i + 1, oldNo, newNo, oldLeft, newLeft, surplus, MarkLast(got))
      else
        var out := oldLeft <= 0 && newLeft <= 0;
        var end := if out && surplus.None? then Some(SurplusBodyEnd(lines, i)) else surplus;
        if out && i >= end.value then Body(got, i)
        else if !IsBody(l) then ReadBody(lines, i, oldNo, newNo, 0, 0, end, got)
        else
          var c := ContentOf(l);
          match KindOf(l)
          case Context =>
            ReadBody(lines, i + 1, oldNo + 1, newNo + 1, oldLeft - 1, newLeft - 1, end,
                     got + [Line(Context, oldNo, newNo, c, false)])
          case Add => ReadBody(lines, i + 1, oldNo, newNo + 1, oldLeft, newLeft - 1, end, got + [Line(Add, 0, newNo, c, false)])
          case Delete => ReadBody(lines, i + 1, oldNo + 1, newNo, oldLeft - 1, newLeft, end, got + [Line(Delete, oldNo, 0, c, false)])
  }

  /** A hunk with its body, from the line after its header. */
  function ReadHunkBody(lines: seq<string>, i: nat, h: Hunk): Body
    requires i <= |lines|
  {
    ReadBody(lines, i, h.oldStart, h.newStart, h.oldLines, h.newLines, None, [])
  }

  // ----- Combined hunks -----

  /** combinedParents: how many marker columns the lines of a combined hunk carry. */
  function CombinedParents(header: string): nat {
    var n := AtSigns(header);
    if n < 2 then 1 else n - 1
  }

  function AtSigns(s: string): (n: nat)
    ensures n <= |s|
  {
    if |s| == 0 || s[0] != '@' then 0 else 1 + AtSigns(s[1..])
  }

  function MarkerColumns(l: string, parents: nat): (n: nat)
    ensures n <= |l| && n <= parents
  {
    if parents == 0 || |l| == 0 || l[0] !in " +-" then 0 else 1 + MarkerColumns(l[1..], parents - 1)
  }

  /** splitCombinedLine: a deletion in any column, else an addition in any, else context. */
  function CombinedLine(l: string, parents: nat): Line {
    var n := MarkerColumns(l, parents);
    var markers := l[..n];
    Line(if '-' in markers then Delete else if '+' in markers then Add else Context, 0, 0, l[n..], false)
  }

  function ReadCombined(lines: seq<string>, i: nat, parents: nat, got: seq<Line>): (b: Body)
    requires i <= |lines|
    ensures i <= b.next <= |lines|
    decreases |lines| - i
  {
    if i == |lines| || HasPrefix(lines[i], "@@") || HasPrefix(lines[i], "diff ") then Body(got, i)
    else if IsMarker(lines[i]) then ReadCombined(lines, i + 1, parents, got)
    else ReadCombined(lines, i + 1, parents, got + [CombinedLine(lines[i], parents)])
  }

  // ----- File headers -----

  predicate HasSide(s: string, side: string) {
    s == DEV_NULL || HasPrefix(s, side + "/")
  }

  /** trimTimestamp. */
  function TrimTimestamp(s: string): string {
    var i := IndexOf(s, "\t");
    if i < |s| then s[..i] else TrimSpacesRight(s)
  }

  /** normalizePath, without the quoting git gives to unusual paths. */
  function NormalizePath(s: string, strip: bool): string {
    var t := TrimSpace(s);
    if t == DEV_NULL then ""
    else if strip && |t| > 2 && (t[0] == 'a' || t[0] == 'b') && t[1] == '/' then t[2..]
    else t
  }

  /** What a "--- / +++" pair says about the file it belongs to. */
  function WithHeaders(f: File, oldLine: string, newLine: string, git: bool, pathsKnown: bool): File {
    var oldRaw := TrimTimestamp(TrimPrefix(oldLine, "--- "));
    var newRaw := TrimTimestamp(TrimPrefix(newLine, "+++ "));
    var strip := git || (HasSide(oldRaw, "a") && HasSide(newRaw, "b"));
    var old_ := NormalizePath(oldRaw, strip);
    var new_ := NormalizePath(newRaw, strip);
    var named := if pathsKnown then f
                 else f.(oldPath := if old_ != "" then old_ else f.oldPath, newPath := if new_ != "" then new_ else f.newPath);
    if oldRaw == DEV_NULL then named.(status := Added, oldPath := "")
    else if newRaw == DEV_NULL then named.(status := Deleted, newPath := "")
    else named
  }

  /** An extended header: what it says about the file, and whether it gives the real paths. */
  datatype Extended = NoHeader | Header(file: File, paths: bool)

  function After(line: string, prefix: string): string {
    TrimSpace(TrimPrefix(line, prefix))
  }

  function HasSuffix(s: string, suffix: string): bool {
    |suffix| <= |s| && s[|s| - |suffix|..] == suffix
  }

  function ExtendedHeader(f: File, line: string): Extended {
    if HasPrefix(line, "old mode ") then Header(f.(oldMode := After(line, "old mode ")), false)
    else if HasPrefix(line, "new mode ") then Header(f.(newMode := After(line, "new mode ")), false)
    else if HasPrefix(line, "new file mode ") then
      Header(f.(status := Added, newMode := After(line, "new file mode ")), false)
    else if HasPrefix(line, "deleted file mode ") then
      Header(f.(status := Deleted, oldMode := After(line, "deleted file mode ")), false)
    else if HasPrefix(line, "rename from ") then Header(f.(status := Renamed, oldPath := After(line, "rename from ")), true)
    else if HasPrefix(line, "rename to ") then Header(f.(status := Renamed, newPath := After(line, "rename to ")), true)
    else if HasPrefix(line, "copy from ") then Header(f.(status := Copied, oldPath := After(line, "copy from ")), true)
    else if HasPrefix(line, "copy to ") then Header(f.(status := Copied, newPath := After(line, "copy to ")), true)
    else if HasPrefix(line, "index ") then Header(f.(index := After(line, "index ")), false)
    else if HasPrefix(line, "Binary files ") || HasPrefix(line, "GIT binary patch")
         || (HasPrefix(line, "Files ") && HasSuffix(line, " differ")) then Header(f.(isBinary := true), false)
    else NoHeader
  }

  // ----- Finishing a file -----

  function CountKind(lines: seq<Line>, kind: Kind): nat {
    if |lines| == 0 then 0 else (if lines[0].kind == kind then 1 else 0) + CountKind(lines[1..], kind)
  }

  function CountInHunks(hunks: seq<Hunk>, kind: Kind): nat {
    if |hunks| == 0 then 0 else CountKind(hunks[0].lines, kind) + CountInHunks(hunks[1..], kind)
  }

  function FinalStatus(f: File): Status {
    if f.status != Unset then f.status
    else if f.oldPath == "" && f.newPath != "" then Added
    else if f.newPath == "" && f.oldPath != "" then Deleted
    else if f.hunks == [] && !f.isBinary && (f.oldMode != "" || f.newMode != "") then ModeOnly
    else Modified
  }

  /** finalize: the counts, the status, a name, and the view. */
  function Finalized(f: File): File {
    var additions := f.additions + CountInHunks(f.hunks, Add);
    var deletions := f.deletions + CountInHunks(f.hunks, Delete);
    var status := FinalStatus(f);
    var unnamed := f.oldPath == "" && f.newPath == "";
    f.(additions := additions, deletions := deletions, status := status,
       oldPath := if unnamed && status == Deleted then UNNAMED else f.oldPath,
       newPath := if unnamed && status != Deleted then UNNAMED else f.newPath,
       split := status != Added && status != Deleted && !f.isBinary && deletions > 0)
  }

  // ----- Text to lines -----

  function TrimCRs(lines: seq<string>): (r: seq<string>)
    ensures |r| == |lines| && forall i :: 0 <= i < |r| ==> r[i] == TrimCR(lines[i])
  {
    seq(|lines|, i requires 0 <= i < |lines| => TrimCR(lines[i]))
  }

  /** splitLines. */
  function LinesOf(src: string): seq<string> {
    var s := if src != "" && src[|src| - 1] == '\n' then src[..|src| - 1] else src;
    if s == "" then [] else TrimCRs(SplitLines(s))
  }
}
