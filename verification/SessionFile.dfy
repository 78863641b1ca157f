/**
 * The session file: a snapshot followed by a log. How it is read, and that
 * reading undoes writing - after a whole append, after a snapshot, and after
 * an append that was cut short.
 */
module SessionFile {
  import opened Prelude
  import opened Text
  import opened Codec
  import opened Session
  import opened SessionCodec

  // ----- Reading -----

  function NewlineAt(s: string): (i: nat)
    ensures i <= |s|
    ensures i < |s| ==> s[i] == '\n'
    ensures '\n' !in s[..i]
  {
    if |s| == 0 || s[0] == '\n' then 0 else 1 + NewlineAt(s[1..])
  }

  /** `json.Unmarshal` of one line. */
  function DecodeLine(line: string): Option<Record> {
    var read :- Decode(TrimLeft(line));
    if Blank(read.rest) then RecordOf(read.value) else None
  }

  datatype Log = Log(records: seq<Record>, bytes: nat, dirty: bool) | BrokenLog

  function Before(records: seq<Record>, bytes: nat, rest: Log): Log {
    if rest.BrokenLog? then BrokenLog else Log(records + rest.records, bytes + rest.bytes, rest.dirty)
  }

  /** The lines after the snapshot. A last line that was cut short is dropped, not an error. */
  function ReadLog(rest: string): Log
    decreases |rest|
  {
    if |rest| == 0 then Log([], 0, false)
    else
      var nl := NewlineAt(rest);
      if nl == |rest| then Log([], 0, true)
      else
        var line, more := rest[..nl], rest[nl + 1..];
        if Blank(line) then Before([], nl + 1, ReadLog(more))
        else
          match DecodeLine(line)
          case None => if more == "" then Log([], 0, true) else BrokenLog
          case Some(rec) => Before([rec], nl + 1, ReadLog(more))
  }

  datatype Parsed =
    | Broken
    | Parsed(snap: Snapshot, records: seq<Record>, snapBytes: nat, logBytes: nat, dirty: bool)

  function ParseRest(snap: Snapshot, snapBytes: nat, rest: string): Parsed {
    if snap.version > PERSIST_VERSION then Parsed(snap, [], 0, 0, false)
    else if Blank(rest) then Parsed(snap, [], snapBytes, 0, !HasPrefix(rest, "\n"))
    else if rest[0] != '\n' then Broken
    else
      match ReadLog(rest[1..])
      case BrokenLog => Broken
      case Log(records, bytes, dirty) => Parsed(snap, records, snapBytes, bytes, dirty)
  }

  function Parse(b: string): Parsed {
    match Decode(TrimLeft(b))
    case None => Broken
    case Some(Read(t, rest)) =>
      match SnapshotOf(t)
      case None => Broken
      case Some(snap) => ParseRest(snap, if |rest| <= |b| then |b| - |rest| else 0, rest)
  }

  /** parseSession. */
  method ParseSession(b: string) returns (p: Parsed)
    ensures p == Parse(b)
  {
    hide TrimLeft, Decode, SnapshotOf, DecodeLine, Blank;
    var read := Decode(TrimLeft(b));
    if read.None? {
      return Broken;
    }
    var rest := read.value.rest;
    var decoded := SnapshotOf(read.value.value);
    if decoded.None? {
      return Broken;
    }
    var snap := decoded.value;
    if snap.version > PERSIST_VERSION {
      return Parsed(snap, [], 0, 0, false);
    }
    var snapBytes := if |rest| <= |b| then |b| - |rest| else 0;
    if Blank(rest) {
      return Parsed(snap, [], snapBytes, 0, !HasPrefix(rest, "\n"));
    }
    BlankIsNot(rest);
    if rest[0] != '\n' {
      return Broken;
    }
    var log := ScanLog(rest[1..]);
    if log.BrokenLog? {
      return Broken;
    }
    return Parsed(snap, log.records, snapBytes, log.bytes, log.dirty);
  }

  lemma BlankIsNot(s: string)
    ensures Blank(s) || |s| > 0
  {
  }

  method ScanLog(lines: string) returns (log: Log)
    ensures log == ReadLog(lines)
  {
    hide DecodeLine, Blank, NewlineAt, Before;
    BeforeNothing(ReadLog(lines));
    var rest := lines;
    var records: seq<Record>, bytes, dirty := [], 0, false;
    while |rest| > 0
      invariant !dirty
      invariant ReadLog(lines) == Before(records, bytes, ReadLog(rest))
      decreases |rest|
    {
      var nl := NewlineAt(rest);
      if nl == |rest| {
        dirty := true;
        break;
      }
      var line, more := rest[..nl], rest[nl + 1..];
      BeforeTwice(records, bytes, [], nl + 1, ReadLog(more));
      assert records + [] == records;
      if !Blank(line) {
        var rec := DecodeLine(line);
        if rec.None? {
          if more == "" {
            dirty := true;
            break;
          }
          BeforeBroken(records, bytes);
          return BrokenLog;
        }
        BeforeTwice(records, bytes, [rec.value], nl + 1, ReadLog(more));
        records := records + [rec.value];
      }
      bytes := bytes + nl + 1;
      rest := more;
    }
    BeforeEnd(records, bytes, dirty);
    log := Log(records, bytes, dirty);
  }

  lemma BeforeNothing(log: Log)
    ensures Before([], 0, log) == log
  {
  }

  lemma BeforeBroken(records: seq<Record>, bytes: nat)
    ensures Before(records, bytes, BrokenLog) == BrokenLog
  {
  }

  lemma BeforeEnd(records: seq<Record>, bytes: nat, dirty: bool)
    ensures Before(records, bytes, Log([], 0, dirty)) == Log(records, bytes, dirty)
  {
  }

  lemma BeforeTwice(r1: seq<Record>, n1: nat, r2: seq<Record>, n2: nat, rest: Log)
    ensures Before(r1, n1, Before(r2, n2, rest)) == Before(r1 + r2, n1 + n2, rest)
  {
    if rest.Log? {
      assert r1 + (r2 + rest.records) == r1 + r2 + rest.records;
    }
    assert r1 + [] == r1;
  }

  // ----- Writing -----

  function Line(rec: Record): string {
    Encode(RecordTo(rec)) + "\n"
  }

  /** What reading makes of a line that was written. */
  lemma LineReads(rec: Record)
    requires !rec.op.OpUnknown?
    ensures ReadLog(Line(rec)) == Log([rec], |Line(rec)|, false)
    ensures |Line(rec)| > 0 && !IsSpace(Line(rec)[0])
    ensures NewlineAt(Line(rec)) == |Line(rec)| - 1
  {
    var b := Encode(RecordTo(rec));
    EncodeHasNoNewline(RecordTo(rec));
    hide Encode;
    NewlineEnds(b);
    LineDecodes(rec);
    assert Line(rec)[..|b|] == b && Line(rec)[|b| + 1..] == "";
    assert !IsSpace(b[0]);
    assert !Blank(b);
    hide DecodeLine, Blank, NewlineAt, IsSpace;
    assert ReadLog("") == Log([], 0, false);
    assert ReadLog(Line(rec)) == Before([rec], |b| + 1, ReadLog(""));
    assert [rec] + [] == [rec];
  }

  lemma {:induction false} NewlineEnds(b: string)
    requires '\n' !in b
    ensures NewlineAt(b + "\n") == |b|
  {
    if |b| > 0 {
      assert (b + "\n")[1..] == b[1..] + "\n";
      NewlineEnds(b[1..]);
    } else {
      assert (b + "\n")[0] == '\n';
    }
  }

  lemma LineDecodes(rec: Record)
    requires !rec.op.OpUnknown?
    ensures DecodeLine(Encode(RecordTo(rec))) == Some(rec)
  {
    var b := Encode(RecordTo(rec));
    DecodeEncode(RecordTo(rec), "");
    RecordRoundTrip(rec);
    assert b + "" == b;
    assert TrimLeft(b) == b;
    hide RecordTo, RecordOf, Encode, Decode, TrimLeft;
  }

  // ----- Appending to a log -----

  lemma {:induction false} NewlineAtConcat(a: string, b: string)
    ensures NewlineAt(a + b) == if NewlineAt(a) < |a| then NewlineAt(a) else |a| + NewlineAt(b)
  {
    if |a| == 0 {
      assert a + b == b;
    } else if a[0] != '\n' {
      assert (a + b)[1..] == a[1..] + b;
      NewlineAtConcat(a[1..], b);
    }
  }

  /** A log that ends cleanly is read the same whatever comes after it. */
  lemma {:induction false} ReadLogConcat(a: string, b: string)
    requires ReadLog(a).Log? && !ReadLog(a).dirty
    ensures ReadLog(a + b) == Before(ReadLog(a).records, ReadLog(a).bytes, ReadLog(b))
    decreases |a|
  {
    hide DecodeLine, Blank, NewlineAt;
    if |a| == 0 {
      assert a + b == b;
      assert Before([], 0, ReadLog(b)) == ReadLog(b);
    } else {
      var nl := NewlineAt(a);
      var more := a[nl + 1..];
      NewlineAtConcat(a, b);
      assert (a + b)[..nl] == a[..nl];
      assert (a + b)[nl + 1..] == more + b;
      ReadLogConcat(more, b);
      var got: seq<Record> := if Blank(a[..nl]) then [] else [DecodeLine(a[..nl]).value];
      BeforeTwice(got, nl + 1, ReadLog(more).records, ReadLog(more).bytes, ReadLog(b));
    }
  }

  // ----- What an interrupted append leaves -----

  /**
   * What a crash, or an append that failed, can leave of a line: any prefix of
   * it; or, when the file was extended before the data reached it, something
   * else that holds no newline, or a line of something that is not a record.
   */
  ghost predicate Torn(t: string, line: string) {
    t <= line || Loose(t) || Garbled(t)
  }

  predicate Loose(t: string) {
    |t| > 0 && NewlineAt(t) == |t|
  }

  ghost predicate Garbled(t: string) {
    && |t| > 0
    && NewlineAt(t) == |t| - 1
    && !IsSpace(t[0])
    && DecodeLine(t[..|t| - 1]).None?
  }

  lemma {:induction false} NewlineAtPrefix(t: string, line: string)
    requires t <= line
    ensures NewlineAt(t) == if |t| <= NewlineAt(line) then |t| else NewlineAt(line)
  {
    if |t| > 0 && t[0] != '\n' {
      NewlineAtPrefix(t[1..], line[1..]);
    }
  }

  /** A torn line is dropped, unless all of it is there. */
  lemma TornReads(t: string, rec: Record)
    requires !rec.op.OpUnknown? && Torn(t, Line(rec))
    ensures t != Line(rec) ==> ReadLog(t) == Log([], 0, t != "")
  {
    LineReads(rec);
    if t <= Line(rec) {
      NewlineAtPrefix(t, Line(rec));
    } else if Loose(t) {
      ReadNoLine(t);
    } else {
      GarbledReads(t);
    }
  }

  lemma GarbledReads(t: string)
    requires Garbled(t)
    ensures ReadLog(t) == Log([], 0, true)
  {
    hide DecodeLine;
    NewlineIsSpace();
    var line := t[..|t| - 1];
    assert t[|t| - 1] == '\n';
    assert line + "\n" == t;
    assert t[|t|..] == "";
    assert line != "" && line[0] == t[0];
    hide IsSpace;
  }

  lemma NewlineIsSpace()
    ensures IsSpace('\n')
  {
  }

  // ----- Appending to a file -----

  lemma {:induction false} TrimLeftBlank(u: string, t: string)
    requires Blank(u) && |t| > 0 && !IsSpace(t[0])
    ensures TrimLeft(u + t) == t
  {
    if |u| == 0 {
      assert u + t == t;
    } else {
      assert (u + t)[1..] == u[1..] + t;
      assert Blank(u[1..]);
      TrimLeftBlank(u[1..], t);
    }
  }

  /** At most one line, and nothing white before it. */
  predicate OneLine(t: string) {
    |t| > 0 && !IsSpace(t[0]) && NewlineAt(t) >= |t| - 1
  }

  /** The same records, and the same verdict on the end of the file. */
  predicate ReadsAlike(a: Log, b: Log) {
    a.Log? && b.Log? && a.records == b.records && a.dirty == b.dirty
  }

  /** White space before a line changes nothing but the sizes. */
  lemma {:induction false} BlankLead(w: string, t: string)
    requires Blank(w) && OneLine(t)
    ensures ReadsAlike(ReadLog(w + t), ReadLog(t))
    decreases |w|
  {
    hide IsSpace, DecodeLine;
    var nl := NewlineAt(w);
    if nl < |w| {
      var more := w[nl + 1..];
      assert Blank(more) && Blank(w[..nl]);
      BlankLead(more, t);
      BlankLineSkipped(w, t);
    } else {
      LastLineLed(w, t);
    }
  }

  lemma BlankLineSkipped(w: string, t: string)
    requires NewlineAt(w) < |w| && Blank(w[..NewlineAt(w)])
    ensures ReadLog(w + t) == Before([], NewlineAt(w) + 1, ReadLog(w[NewlineAt(w) + 1..] + t))
  {
    hide DecodeLine, Blank, NewlineAt;
    var nl := NewlineAt(w);
    NewlineAtConcat(w, t);
    assert (w + t)[..nl] == w[..nl];
    assert (w + t)[nl + 1..] == w[nl + 1..] + t;
  }

  lemma LastLineLed(w: string, t: string)
    requires Blank(w) && NewlineAt(w) == |w| && OneLine(t)
    ensures ReadsAlike(ReadLog(w + t), ReadLog(t))
  {
    NewlineAtConcat(w, t);
    if NewlineAt(t) < |t| {
      WholeLineLed(w, t);
    } else {
      ReadNoLine(w + t);
      ReadNoLine(t);
    }
  }

  lemma WholeLineLed(w: string, t: string)
    requires Blank(w) && OneLine(t) && NewlineAt(t) < |t| && NewlineAt(w + t) == |w| + |t| - 1
    ensures ReadsAlike(ReadLog(w + t), ReadLog(t))
  {
    hide DecodeLine, Blank, NewlineAt, IsSpace, ReadLog;
    var line := t[..|t| - 1];
    NotJustNewline(t);
    LeadDecodes(w, line);
    assert (w + t)[..|w + t| - 1] == w + line;
    ReadOneLine(w + t);
    ReadOneLine(t);
  }

  lemma ReadNoLine(x: string)
    requires |x| > 0 && NewlineAt(x) == |x|
    ensures ReadLog(x) == Log([], 0, true)
  {
  }

  lemma ReadOneLine(x: string)
    requires |x| > 0 && NewlineAt(x) == |x| - 1 && !Blank(x[..|x| - 1])
    ensures ReadLog(x) ==
            match DecodeLine(x[..|x| - 1]) case None => Log([], 0, true) case Some(rec) => Log([rec], |x|, false)
  {
    hide DecodeLine, Blank, NewlineAt;
    assert x[|x|..] == "";
    assert ReadLog("") == Log([], 0, false);
  }

  lemma NotJustNewline(t: string)
    requires OneLine(t) && NewlineAt(t) < |t|
    ensures |t| > 1 && t[..|t| - 1] + "\n" == t
  {
    NewlineIsSpace();
    hide IsSpace, NewlineAt;
    assert t[|t| - 1] == '\n';
    assert t[..|t| - 1] + [t[|t| - 1]] == t;
  }

  lemma LeadDecodes(w: string, line: string)
    requires Blank(w) && |line| > 0 && !IsSpace(line[0])
    ensures DecodeLine(w + line) == DecodeLine(line)
    ensures !Blank(w + line) && !Blank(line)
  {
    TrimLeftBlank(w, line);
    TrimLeftBlank("", line);
    assert "" + line == line;
    assert (w + line)[|w|] == line[0];
    hide TrimLeft, Decode;
  }

  /** A file a record may be appended to. */
  predicate Appendable(b: string) {
    Parse(b).Parsed? && !Parse(b).dirty && Parse(b).snap.version <= PERSIST_VERSION
  }

  lemma {:induction false} TrimLeftExtend(b: string, t: string)
    requires TrimLeft(b) != ""
    ensures TrimLeft(b + t) == TrimLeft(b) + t
  {
    if IsSpace(b[0]) {
      assert (b + t)[1..] == b[1..] + t;
      TrimLeftExtend(b[1..], t);
    }
  }

  /** What follows a file is read after it. */
  lemma ParseExtend(b: string, t: string)
    requires Appendable(b)
    ensures var rest := Decode(TrimLeft(b)).value.rest;
            Decode(TrimLeft(b)).Some? && SnapshotOf(Decode(TrimLeft(b)).value.value) == Some(Parse(b).snap)
            && Parse(b) == ParseRest(Parse(b).snap, Parse(b).snapBytes, rest)
            && Parse(b + t) == ParseRest(Parse(b).snap, Parse(b).snapBytes, rest + t)
  {
    hide SnapshotOf, ReadLog, Blank, IsSpace;
    TrimLeftExtend(b, t);
    DecodeExtend(TrimLeft(b), t);
    hide Decode, TrimLeft;
    TrimLeftShorter(b);
  }

  lemma {:induction false} TrimLeftShorter(b: string)
    ensures |TrimLeft(b)| <= |b|
  {
    if |b| > 0 && IsSpace(b[0]) {
      TrimLeftShorter(b[1..]);
    }
  }

  /** The tail after an appendable file: the records it held, then those of the tail. */
  lemma ParseTail(b: string, t: string)
    requires Appendable(b)
    requires t == "" || OneLine(t)
    ensures var log := ReadLog(t);
            log.Log? && Parse(b + t).Parsed?
            && Parse(b + t).snap == Parse(b).snap
            && Parse(b + t).records == Parse(b).records + log.records
            && Parse(b + t).dirty == log.dirty
  {
    if t == "" {
      assert b + t == b;
    } else {
      ParseExtend(b, t);
      hide Parse, Decode, TrimLeft, SnapshotOf, DecodeLine, NewlineAt;
      TailAfter(Parse(b).snap, Parse(b).snapBytes, Decode(TrimLeft(b)).value.rest, t);
    }
  }

  lemma TailAfter(snap: Snapshot, snapBytes: nat, rest: string, t: string)
    requires snap.version <= PERSIST_VERSION && OneLine(t)
    requires var p := ParseRest(snap, snapBytes, rest); p.Parsed? && !p.dirty
    ensures var p, q, log := ParseRest(snap, snapBytes, rest), ParseRest(snap, snapBytes, rest + t), ReadLog(t);
            q.Parsed? && log.Log? && q.snap == snap && q.records == p.records + log.records && q.dirty == log.dirty
  {
    assert (rest + t)[|rest|] == t[0];
    assert !Blank(rest + t);
    StartsWithNewline(snap, snapBytes, rest);
    hide ReadLog, DecodeLine, NewlineAt, IsSpace;
    assert (rest + t)[0] == '\n' && (rest + t)[1..] == rest[1..] + t;
    if Blank(rest) {
      assert Blank(rest[1..]);
      BlankLead(rest[1..], t);
    } else {
      OneLineReads(t);
      ReadLogConcat(rest[1..], t);
    }
  }

  // ----- Something without a newline behind a file -----

  lemma {:induction false} BlankThenLoose(w: string, t: string)
    requires Blank(w) && Loose(t)
    ensures ReadLog(w + t).Log? && ReadLog(w + t).records == []
    decreases |w|
  {
    hide IsSpace, DecodeLine, ReadLog;
    var nl := NewlineAt(w);
    if nl < |w| {
      var more := w[nl + 1..];
      assert Blank(more) && Blank(w[..nl]);
      BlankThenLoose(more, t);
      BlankLineSkipped(w, t);
    } else {
      NewlineAtConcat(w, t);
      ReadNoLine(w + t);
    }
  }

  /** Behind an appendable file, whatever holds no newline leaves the records as they were. */
  lemma ParseLoose(b: string, t: string)
    requires Appendable(b) && Loose(t)
    ensures Parse(b + t).Parsed? && Parse(b + t).snap == Parse(b).snap && Parse(b + t).records == Parse(b).records
  {
    ParseExtend(b, t);
    hide Parse, Decode, TrimLeft, SnapshotOf, DecodeLine, NewlineAt, Loose;
    LooseAfter(Parse(b).snap, Parse(b).snapBytes, Decode(TrimLeft(b)).value.rest, t);
  }

  lemma LooseAfter(snap: Snapshot, snapBytes: nat, rest: string, t: string)
    requires snap.version <= PERSIST_VERSION && Loose(t)
    requires var p := ParseRest(snap, snapBytes, rest); p.Parsed? && !p.dirty
    ensures var p, q := ParseRest(snap, snapBytes, rest), ParseRest(snap, snapBytes, rest + t);
            q.Parsed? && q.snap == snap && q.records == p.records
  {
    StartsWithNewline(snap, snapBytes, rest);
    ReadNoLine(t);
    hide ReadLog, DecodeLine, NewlineAt, IsSpace, Loose;
    assert (rest + t)[0] == '\n' && (rest + t)[1..] == rest[1..] + t;
    if Blank(rest) {
      assert Blank(rest[1..]);
      BlankThenLoose(rest[1..], t);
    } else {
      NotBlankExtended(rest, t);
      ReadLogConcat(rest[1..], t);
    }
  }

  lemma NotBlankExtended(rest: string, t: string)
    requires !Blank(rest)
    ensures !Blank(rest + t)
  {
    hide IsSpace;
    var i :| 0 <= i < |rest| && !IsSpace(rest[i]);
    assert (rest + t)[i] == rest[i];
  }

  lemma StartsWithNewline(snap: Snapshot, snapBytes: nat, rest: string)
    requires snap.version <= PERSIST_VERSION
    requires var p := ParseRest(snap, snapBytes, rest); p.Parsed? && !p.dirty
    ensures |rest| > 0 && rest[0] == '\n'
  {
    hide ReadLog, Blank;
    BlankIsNot(rest);
  }

  lemma OneLineReads(t: string)
    requires OneLine(t)
    ensures ReadLog(t).Log?
  {
    if NewlineAt(t) < |t| {
      assert t[|t|..] == "";
    }
  }

  // ----- Sizes -----

  /** A log that was read to its end was read whole. */
  lemma {:induction false} LogIsWhole(rest: string)
    requires ReadLog(rest).Log? && !ReadLog(rest).dirty
    ensures ReadLog(rest).bytes == |rest|
    decreases |rest|
  {
    hide DecodeLine, Blank, NewlineAt;
    if |rest| > 0 {
      LogIsWhole(rest[NewlineAt(rest) + 1..]);
    }
  }

  /** The snapshot, the newline behind it and the log are the file: its size is what the next save goes by. */
  lemma SizesAddUp(b: string)
    requires Appendable(b) && Parse(b).records != []
    ensures Parse(b).snapBytes + 1 + Parse(b).logBytes == |b|
  {
    hide SnapshotOf, Blank, IsSpace, Decode, TrimLeft, ReadLog;
    TrimLeftShorter(b);
    var rest := Decode(TrimLeft(b)).value.rest;
    BlankIsNot(rest);
    LogIsWhole(rest[1..]);
  }
}
