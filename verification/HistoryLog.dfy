/** Reading the review log line by line through a buffer, whatever pieces it comes in. */
module HistoryLog {
  import opened Prelude
  import opened Text
  import Sequences

  /** How long a line may be and still be read as a record. */
  const MAX_RECORD_BYTES: nat := 8 * 1024 * 1024

  datatype Record = Record(group: string, reviewedAt: nat)

  /** "" and 0 leave everything in; a limit of 0 keeps everything. */
  datatype Filter = Filter(group: string, since: nat, limit: nat)

  datatype Skipped = Skipped(broken: nat, long: nat)

  datatype Log = Log(records: seq<Record>, skipped: Skipped)

  const NOTHING_READ := Log([], Skipped(0, 0))

  // ----- Reading it all, then splitting -----

  predicate Keep(rec: Record, f: Filter) {
    (f.group == "" || rec.group == f.group) && (f.since == 0 || rec.reviewedAt >= f.since)
  }

  /** What one line without its newline adds. */
  function AddLine(log: Log, line: string, decode: string -> Option<Record>, f: Filter): Log {
    if |line| > MAX_RECORD_BYTES then log.(skipped := log.skipped.(long := log.skipped.long + 1))
    else if TrimSpace(line) == "" then log
    else
      match decode(TrimSpace(line))
      case None => log.(skipped := log.skipped.(broken := log.skipped.broken + 1))
      case Some(rec) => if Keep(rec, f) then log.(records := log.records + [rec]) else log
  }

  function AddLines(log: Log, lines: seq<string>, decode: string -> Option<Record>, f: Filter): Log
    decreases |lines|
  {
    if |lines| == 0 then log else AddLines(AddLine(log, lines[0], decode, f), lines[1..], decode, f)
  }

  function Newest(records: seq<Record>, limit: nat): seq<Record> {
    if limit > 0 && |records| > limit then records[|records| - limit..] else records
  }

  /** A limit keeps the last ones, in their order; 0 keeps them all. */
  lemma NewestAre(records: seq<Record>, limit: nat)
    ensures var n := if limit == 0 || |records| <= limit then |records| else limit;
            |Newest(records, limit)| == n && Newest(records, limit) == records[|records| - n..]
  {
  }

  /** A line within the limit, not blank, of a record that the filter lets in. */
  predicate HoldsKept(line: string, decode: string -> Option<Record>, f: Filter) {
    && |line| <= MAX_RECORD_BYTES && !Blank(line)
    && var got := decode(TrimSpace(line));
       got.Some? && (f.group != "" ==> got.value.group == f.group) && (f.since > 0 ==> got.value.reviewedAt >= f.since)
  }

  predicate IsBroken(line: string, decode: string -> Option<Record>) {
    |line| <= MAX_RECORD_BYTES && !Blank(line) && decode(TrimSpace(line)).None?
  }

  function RecordsOf(lines: seq<string>, decode: string -> Option<Record>): seq<Record> {
    if |lines| == 0 then []
    else (match decode(TrimSpace(lines[0])) case None => [] case Some(rec) => [rec]) + RecordsOf(lines[1..], decode)
  }

  /** The records read are those of the lines that hold one the filter lets in, in their order; the broken lines are counted. */
  lemma {:induction false} LinesKept(log: Log, lines: seq<string>, decode: string -> Option<Record>, f: Filter)
    ensures var all := AddLines(log, lines, decode, f);
            && all.records == log.records + RecordsOf(Sequences.Filter(lines, (l: string) => HoldsKept(l, decode, f)), decode)
            && all.skipped.broken == log.skipped.broken + |Sequences.Filter(lines, (l: string) => IsBroken(l, decode))|
            && all.skipped.long == log.skipped.long + |Sequences.Filter(lines, (l: string) => |l| > MAX_RECORD_BYTES)|
    decreases |lines|
  {
    hide AddLine, HoldsKept, IsBroken, Sequences.Filter, RecordsOf;
    var kept, broken, long := (l: string) => HoldsKept(l, decode, f), (l: string) => IsBroken(l, decode), (l: string) => |l| > MAX_RECORD_BYTES;
    if |lines| == 0 {
      NoLinesKept(decode, kept, broken, long);
    } else {
      var line, rest := lines[0], lines[1..];
      LineKept(log, line, decode, f);
      LinesKept(AddLine(log, line, decode, f), rest, decode, f);
      Sequences.FilterCons(line, rest, kept);
      Sequences.FilterCons(line, rest, broken);
      Sequences.FilterCons(line, rest, long);
      RecordsCons(line, Sequences.Filter(rest, kept), decode);
      assert [line] + rest == lines;
      var first, others := RecordsOf([line], decode), RecordsOf(Sequences.Filter(rest, kept), decode);
      assert log.records + (first + others) == (log.records + first) + others;
      assert log.records + [] == log.records;
    }
  }

  lemma NoLinesKept(decode: string -> Option<Record>, kept: string -> bool, broken: string -> bool, long: string -> bool)
    ensures RecordsOf(Sequences.Filter([], kept), decode) == []
    ensures Sequences.Filter([], broken) == [] && Sequences.Filter([], long) == []
  {
  }

  lemma LineKept(log: Log, line: string, decode: string -> Option<Record>, f: Filter)
    ensures var next := AddLine(log, line, decode, f);
            && next.records == log.records + RecordsOf(if HoldsKept(line, decode, f) then [line] else [], decode)
            && next.skipped.broken == log.skipped.broken + (if IsBroken(line, decode) then 1 else 0)
            && next.skipped.long == log.skipped.long + if |line| > MAX_RECORD_BYTES then 1 else 0
  {
    hide TrimSpace, Blank;
    TrimSpaceBlank(line);
    assert log.records + [] == log.records;
  }

  lemma RecordsCons(line: string, rest: seq<string>, decode: string -> Option<Record>)
    ensures RecordsOf([line] + rest, decode) == RecordsOf([line], decode) + RecordsOf(rest, decode)
    ensures RecordsOf([], decode) == []
  {
    hide TrimSpace;
    assert ([line] + rest)[1..] == rest;
    var first: seq<Record> := match decode(TrimSpace(line)) case None => [] case Some(rec) => [rec];
    assert [line][1..] == [];
    assert first + [] == first;
  }

  function CountLong(lines: seq<string>): nat {
    if |lines| == 0 then 0 else (if |lines[0]| > MAX_RECORD_BYTES then 1 else 0) + CountLong(lines[1..])
  }

  /** Each line that is too long is counted once, whatever the others are. */
  lemma {:induction false} EachLongLineOnce(log: Log, lines: seq<string>, decode: string -> Option<Record>, f: Filter)
    ensures AddLines(log, lines, decode, f).skipped.long == log.skipped.long + CountLong(lines)
    decreases |lines|
  {
    hide TrimSpace;
    if |lines| > 0 {
      EachLongLineOnce(AddLine(log, lines[0], decode, f), lines[1..], decode, f);
    }
  }

  // ----- The first line of a text -----

  /** Where the first newline is, or the length of the text. */
  function FirstNewline(s: string): (i: nat)
    ensures i <= |s| && (i < |s| ==> s[i] == '\n') && forall k :: 0 <= k < i ==> s[k] != '\n'
  {
    if |s| == 0 || s[0] == '\n' then 0 else 1 + FirstNewline(s[1..])
  }

  lemma {:induction false} FirstNewlineIs(s: string, i: nat)
    requires i <= |s| && (i < |s| ==> s[i] == '\n') && '\n' !in s[..i]
    ensures FirstNewline(s) == i
  {
    if i > 0 {
      assert s[..i][1..] == s[1..][..i - 1];
      assert s[..i][0] == s[0];
      FirstNewlineIs(s[1..], i - 1);
    }
  }

  lemma NoneBefore(s: string)
    ensures '\n' !in s[..FirstNewline(s)]
  {
  }

  lemma SplitAtFirst(s: string)
    ensures var i := FirstNewline(s);
            SplitLines(s) == if i == |s| then [s] else [s[..i]] + SplitLines(s[i + 1..])
  {
    hide SplitLines, FirstNewline;
    var i := FirstNewline(s);
    NoneBefore(s);
    if i == |s| {
      assert s[..i] == s;
      SplitOne(s);
    } else {
      SplitThere(s, s[..i], s[i + 1..]);
    }
  }

  lemma SplitThere(s: string, head: string, tail: string)
    requires '\n' !in head && |s| == |head| + 1 + |tail|
    requires s[..|head|] == head && s[|head|] == '\n' && s[|head| + 1..] == tail
    ensures SplitLines(s) == [head] + SplitLines(tail)
  {
    hide SplitLines;
    assert s == head + "\n" + tail;
    SplitOne(head);
    SplitConcat(head, tail);
  }

  // ----- The buffered reader -----

  datatype Slice = Newline | BufferFull | End

  datatype ReadError = NoError | EOF | Failure

  /** A reader whose underlying reads, and so whose full buffers, come in pieces of any size. */
  class Reader {
    /** What has not been read yet. */
    var rest: string
    /** How the input ends: at its end, or where reading it fails. */
    const end: ReadError

    constructor (data: string, end: ReadError)
      requires end != NoError
      ensures rest == data && this.end == end
    {
      rest := data;
      this.end := end;
    }

    /** ReadSlice('\n'): up to the newline, or a full buffer without one, or what is left. */
    method ReadSlice() returns (chunk: string, how: Slice)
      modifies this
      ensures old(rest) == chunk + rest
      ensures how == Newline ==> chunk != "" && chunk[|chunk| - 1] == '\n' && '\n' !in chunk[..|chunk| - 1]
      ensures how == BufferFull ==> chunk != "" && '\n' !in chunk
      ensures how == End ==> rest == "" && '\n' !in chunk
    {
      var i := FirstNewline(rest);
      if * {
        var n := PieceOf(i);
        if n > 0 {
          chunk, how := rest[..n], BufferFull;
          rest := rest[n..];
          return;
        }
      }
      if i < |rest| {
        chunk, how := rest[..i + 1], Newline;
        rest := rest[i + 1..];
      } else {
        chunk, how := rest, End;
        rest := "";
      }
    }

    /** A piece of any size. */
    method PieceOf(i: nat) returns (n: nat)
      ensures n <= i
    {
      n :| 0 <= n <= i;
    }
  }

  // ----- Lines -----

  /** What readLine returns for a text that ends as it does: the line as it stands, nothing if too long, and how the read ended. */
  ghost predicate LineOf(text: string, end: ReadError, line: string, long: bool, err: ReadError, rest: string) {
    var i := FirstNewline(text);
    && long == (i > MAX_RECORD_BYTES)
    && line == (if long then "" else if i < |text| then text[..i + 1] else text)
    && err == (if i < |text| then NoError else end)
    && rest == if i < |text| then text[i + 1..] else ""
  }

  /** readLine. A line past the limit is drained to its end. */
  method ReadLine(br: Reader) returns (line: string, long: bool, err: ReadError)
    requires br.end != NoError
    modifies br
    ensures LineOf(old(br.rest), br.end, line, long, err, br.rest)
  {
    hide FirstNewline, WithoutNewline, LineOf;
    line, long := "", false;
    ghost var text := br.rest;
    ghost var got := "";
    while true
      invariant text == got + br.rest && '\n' !in got
      invariant long == (|got| > MAX_RECORD_BYTES) && line == if long then "" else got
      decreases |br.rest|
    {
      var chunk, how := br.ReadSlice();
      if how == BufferFull {
        Regroup(got, chunk, br.rest);
        got := got + chunk;
        if !long && |line| + |chunk| <= MAX_RECORD_BYTES {
          line := line + chunk;
          continue;
        }
        long, line := true, "";
        continue;
      }
      LastSlice(text, got, chunk, how, br.end, br.rest);
      if !long {
        line := line + chunk;
        if |WithoutNewline(line)| > MAX_RECORD_BYTES {
          long, line := true, "";
        }
      }
      if how == End {
        if br.end == EOF && !long && |line| == 0 {
          return "", false, EOF;
        }
        return line, long, br.end;
      }
      return line, long, NoError;
    }
  }

  lemma Regroup(got: string, chunk: string, rest: string)
    ensures got + (chunk + rest) == got + chunk + rest
  {
  }

  /** bytes.TrimSuffix(line, newline). */
  function WithoutNewline(line: string): string {
    if line != "" && line[|line| - 1] == '\n' then line[..|line| - 1] else line
  }

  /** The slice that ends a line, after the pieces got so far. */
  lemma LastSlice(text: string, got: string, chunk: string, how: Slice, end: ReadError, rest: string)
    requires text == got + (chunk + rest) && '\n' !in got && how != BufferFull
    requires how == Newline ==> chunk != "" && chunk[|chunk| - 1] == '\n' && '\n' !in chunk[..|chunk| - 1]
    requires how == End ==> rest == "" && '\n' !in chunk
    ensures var all := got + chunk;
            var long := |WithoutNewline(all)| > MAX_RECORD_BYTES;
            && LineOf(text, end, if long then "" else all, long, if how == End then end else NoError, rest)
            && (|got| > MAX_RECORD_BYTES ==> long)
  {
    hide FirstNewline;
    var all := got + chunk;
    if how == Newline {
      var i := |all| - 1;
      assert text[..i] == got + chunk[..|chunk| - 1];
      FirstNewlineIs(text, i);
      assert text[..i + 1] == all && text[i + 1..] == rest;
    } else {
      assert text == all;
      assert text[..|text|] == all;
      FirstNewlineIs(text, |text|);
      NoNewlineToTrim(all);
    }
  }

  lemma NoNewlineToTrim(line: string)
    requires '\n' !in line
    ensures WithoutNewline(line) == line
  {
  }

  // ----- The log -----

  lemma {:induction false} TrimRightOneSpace(s: string, c: char)
    requires IsSpace(c)
    ensures TrimRight(s + [c]) == TrimRight(s)
  {
    assert (s + [c])[..|s|] == s;
  }

  lemma {:induction false} TrimSpaceNewline(s: string)
    ensures TrimSpace(s + "\n") == TrimSpace(s)
  {
    if s == "" {
      assert "\n"[1..] == "";
    } else if IsSpace(s[0]) {
      TrimSpaceNewline(s[1..]);
      assert (s + "\n")[1..] == s[1..] + "\n";
    } else {
      TrimRightOneSpace(s, '\n');
    }
  }

  /** ReadSkipped: the log as it is when all of it is read and split, or what was skipped when reading it fails. */
  method ReadSkipped(br: Reader, decode: string -> Option<Record>, f: Filter) returns (log: Log, err: bool)
    requires br.end != NoError
    modifies br
    ensures err == (br.end == Failure)
    ensures var all := AddLines(NOTHING_READ, SplitLines(old(br.rest)), decode, f);
            log == Log(if err then [] else Newest(all.records, f.limit), all.skipped)
  {
    hide TrimSpace, SplitLines, AddLine, FirstNewline, LineOf;
    log := NOTHING_READ;
    ghost var all := AddLines(NOTHING_READ, SplitLines(br.rest), decode, f);
    while true
      invariant all == AddLines(log, SplitLines(br.rest), decode, f)
      decreases |br.rest|
    {
      ghost var text := br.rest;
      var line, long, e := ReadLine(br);
      LineIsAdded(log, text, br.end, line, long, e, br.rest, decode, f);
      log := TakeLine(log, line, long, decode, f);
      if e != NoError {
        if e == EOF {
          break;
        }
        return log.(records := []), true;
      }
    }
    return log.(records := Newest(log.records, f.limit)), false;
  }

  /** What the loop does with one line. */
  function TakeLine(log: Log, line: string, long: bool, decode: string -> Option<Record>, f: Filter): Log {
    if long then log.(skipped := log.skipped.(long := log.skipped.long + 1))
    else if |TrimSpace(line)| == 0 then log
    else
      match decode(TrimSpace(line))
      case None => log.(skipped := log.skipped.(broken := log.skipped.broken + 1))
      case Some(rec) => if Keep(rec, f) then log.(records := log.records + [rec]) else log
  }

  lemma TakenIsAdded(log: Log, line: string, content: string, long: bool, decode: string -> Option<Record>, f: Filter)
    requires long == (|content| > MAX_RECORD_BYTES)
    requires !long ==> TrimSpace(line) == TrimSpace(content)
    ensures TakeLine(log, line, long, decode, f) == AddLine(log, content, decode, f)
  {
    hide TrimSpace;
  }

  lemma LineIsAdded(log: Log, text: string, end: ReadError, line: string, long: bool, err: ReadError, rest: string,
                    decode: string -> Option<Record>, f: Filter)
    requires end != NoError && LineOf(text, end, line, long, err, rest)
    ensures err == NoError ==> |rest| < |text|
    ensures var taken := TakeLine(log, line, long, decode, f);
            AddLines(log, SplitLines(text), decode, f) == if err == NoError then AddLines(taken, SplitLines(rest), decode, f) else taken
    ensures err == NoError || err == end
  {
    hide TrimSpace, SplitLines, TakeLine, AddLine, FirstNewline;
    var i := FirstNewline(text);
    SplitAtFirst(text);
    FirstNewlineWithin(text);
    if i < |text| {
      UpToNewline(text, i);
      TrimSpaceNewline(text[..i]);
      TakenIsAdded(log, line, text[..i], long, decode, f);
      assert SplitLines(text)[1..] == SplitLines(rest);
    } else {
      TakenIsAdded(log, line, text, long, decode, f);
    }
  }

  lemma UpToNewline(s: string, i: nat)
    requires i < |s| && s[i] == '\n'
    ensures s[..i + 1] == s[..i] + "\n"
  {
  }

  lemma FirstNewlineWithin(s: string)
    ensures FirstNewline(s) < |s| ==> s[FirstNewline(s)] == '\n'
  {
  }
}
