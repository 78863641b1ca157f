/** Looking for a marker in a file read in pieces, with one buffer. */
module ExportedPage {
  import opened Prelude
  import opened Text

  const MARKER := "window.__SBNN_DATA__ = "

  /** How far into a file the marker is looked for. */
  const SCAN_LIMIT: nat := 8 * 1024 * 1024

  const BUFFER: nat := 64 * 1024

  // ----- Where an occurrence can be -----

  lemma SliceOfSlice(s: string, lo: nat, hi: nat, a: nat, b: nat)
    requires lo <= hi <= |s| && a <= b <= hi - lo
    ensures s[lo..hi][a..b] == s[lo + a..lo + b]
  {
    forall k | 0 <= k < b - a ensures s[lo..hi][a..b][k] == s[lo + a..lo + b][k] {
      assert s[lo..hi][a..b][k] == s[lo..hi][a + k];
    }
  }

  /** An occurrence in a part of a text is one in the text. */
  lemma OccursInPart(s: string, part: string, j: nat, lo: nat, hi: nat)
    requires lo <= hi <= |s| && j + |part| <= hi - lo
    ensures OccursAt(s[lo..hi], part, j) <==> OccursAt(s, part, lo + j)
  {
    SliceOfSlice(s, lo, hi, j, j + |part|);
  }

  lemma ContainsPart(s: string, part: string, lo: nat, hi: nat)
    requires lo <= hi <= |s| && Contains(s[lo..hi], part)
    ensures Contains(s, part)
  {
    hide OccursAt;
    var j :| 0 <= j <= hi - lo - |part| && OccursAt(s[lo..hi], part, j);
    OccursInPart(s, part, j, lo, hi);
  }

  /** The bytes carried over: all of them, or one fewer than the marker has. */
  function Carried(seen: nat, part: string): nat
    requires |part| > 0
  {
    if seen < |part| - 1 then seen else |part| - 1
  }

  /** What is new in a longer text lies in its new bytes and the ones carried over. */
  lemma Straddling(seen: string, more: string, part: string)
    requires |part| > 0 && !Contains(seen, part)
    ensures var keep := Carried(|seen|, part);
            Contains(seen + more, part) <==> Contains(seen[|seen| - keep..] + more, part)
  {
    hide OccursAt, Contains;
    var keep := Carried(|seen|, part);
    var all := seen + more;
    var lo := |seen| - keep;
    assert seen[lo..] + more == all[lo..|all|];
    if Contains(all, part) {
      var i := Occurrence(all, part);
      if i + |part| <= |seen| {
        OccursBefore(seen, more, part, i);
      } else {
        OccursInPart(all, part, i - lo, lo, |all|);
        OccursHere(all[lo..|all|], part, i - lo);
      }
    }
    if Contains(all[lo..|all|], part) {
      ContainsPart(all, part, lo, |all|);
    }
  }

  lemma Occurrence(s: string, part: string) returns (i: nat)
    requires Contains(s, part)
    ensures i + |part| <= |s| && OccursAt(s, part, i)
  {
    i :| 0 <= i <= |s| - |part| && OccursAt(s, part, i);
  }

  lemma OccursHere(s: string, part: string, i: nat)
    requires i + |part| <= |s| && OccursAt(s, part, i)
    ensures Contains(s, part)
  {
  }

  lemma OccursBefore(seen: string, more: string, part: string, i: nat)
    requires i + |part| <= |seen| && OccursAt(seen + more, part, i)
    ensures Contains(seen, part)
  {
    assert (seen + more)[i..i + |part|] == seen[i..i + |part|];
    OccursHere(seen, part, i);
  }

  lemma NothingInShort(s: string, part: string)
    requires |s| < |part|
    ensures !Contains(s, part)
  {
  }

  // ----- The file -----

  /** A file whose reads give pieces of any size, until it ends or cannot be read on. */
  class Input {
    /** What can be read of it. */
    const data: string
    var at: nat

    constructor (data: string)
      ensures this.data == data && at == 0
    {
      this.data, at := data, 0;
    }

    /** Read into buf[from..]: at least a byte, or the end; the last bytes may come with it. */
    method Read(buf: array<char>, from: nat) returns (n: nat, ended: bool)
      requires from < buf.Length && at <= |data|
      modifies this`at, buf
      ensures at == old(at) + n <= |data| && from + n <= buf.Length
      ensures n == 0 ==> ended
      ensures ended ==> at == |data|
      ensures buf[from..from + n] == data[old(at)..at] && buf[..from] == old(buf[..from])
    {
      var room := Min(buf.Length - from, |data| - at);
      n := 0;
      if room > 0 {
        n := Piece(room);
      }
      for k := 0 to n
        invariant at == old(at)
        invariant buf[from..from + k] == data[at..at + k] && buf[..from] == old(buf[..from])
      {
        buf[from + k] := data[at + k];
        assert buf[from..from + k + 1] == buf[from..from + k] + [data[at + k]];
        assert data[at..at + k + 1] == data[at..at + k] + [data[at + k]];
      }
      at := at + n;
      ended := n == 0;
      if * {
        ended := at == |data|;
      }
    }

    method Piece(room: nat) returns (n: nat)
      requires room > 0
      ensures 1 <= n <= room
    {
      n :| 1 <= n <= room;
    }
  }

  /** copy(buf, buf[from:from+n]). */
  method CopyDown(buf: array<char>, from: nat, n: nat)
    requires from + n <= buf.Length
    modifies buf
    ensures buf[..n] == old(buf[from..from + n])
  {
    for k := 0 to n
      invariant forall j :: 0 <= j < k ==> buf[j] == old(buf[from + j])
      invariant forall j :: k <= j < buf.Length ==> buf[j] == old(buf[j])
    {
      buf[k] := buf[from + k];
    }
  }

  /**
   * isExportedPage, once the file is open: true exactly when the marker is in
   * the bytes read, which are all there are unless the limit is reached. So
   * for a file within the limit it is whether the marker is in it, however
   * the reads cut it.
   */
  method IsExportedPage(f: Input) returns (found: bool)
    requires f.at == 0
    modifies f
    ensures f.at <= |f.data|
    ensures found <==> Contains(f.data[..f.at], MARKER)
    ensures !found ==> f.at == |f.data| || f.at >= SCAN_LIMIT
    ensures |f.data| <= SCAN_LIMIT ==> (found <==> Contains(f.data, MARKER))
  {
    found := ScanForMarker(f);
    if |f.data| <= SCAN_LIMIT {
      assert f.data[..|f.data|] == f.data;
      if found {
        ContainsLonger(f.data, f.at, MARKER);
      }
    }
  }

  /** Its loop. */
  method ScanForMarker(f: Input) returns (found: bool)
    requires f.at == 0
    modifies f
    ensures f.at <= |f.data|
    ensures found <==> Contains(f.data[..f.at], MARKER)
    ensures !found ==> f.at == |f.data| || f.at >= SCAN_LIMIT
  {
    hide Contains, Carried;
    var buf := new char[BUFFER];
    var keep, read := 0, 0;
    NothingYet(f.data);
    while read < SCAN_LIMIT
      invariant read == f.at && Holding(f.data, f.at, buf[..], keep)
      decreases |f.data| - f.at
    {
      var n, ended;
      n, ended, keep, found := Turn(f, buf, keep);
      if found {
        return;
      }
      read := read + n;
      if ended {
        return false;
      }
    }
    return false;
  }

  /** Between reads: the marker is not in what was read, and the buffer begins with the bytes carried over. */
  ghost predicate Holding(data: string, at: nat, held: string, keep: nat) {
    && at <= |data| && !Contains(data[..at], MARKER)
    && keep == Carried(at, MARKER) && keep < |held| && held[..keep] == data[at - keep..at]
  }

  lemma NothingYet(data: string)
    ensures forall held: string :: |held| > 0 ==> Holding(data, 0, held, 0)
  {
    NothingInShort(data[..0], MARKER);
  }

  /** One turn of the loop. */
  method Turn(f: Input, buf: array<char>, keep: nat) returns (n: nat, ended: bool, kept: nat, found: bool)
    requires buf.Length == BUFFER && Holding(f.data, f.at, buf[..], keep)
    modifies f`at, buf
    ensures f.at == old(f.at) + n <= |f.data| && (n == 0 ==> ended) && (ended ==> f.at == |f.data|)
    ensures found ==> Contains(f.data[..f.at], MARKER)
    ensures !found ==> Holding(f.data, f.at, buf[..], kept)
  {
    hide Contains, Carried, Holding;
    ghost var was, before := f.at, buf[..];
    HoldsRoom(f.data, was, before, keep);
    n, ended := f.Read(buf, keep);
    kept := keep;
    found := false;
    if n > 0 {
      var end := keep + n;
      assert buf[..end] == before[..keep] + f.data[was..f.at];
      AfterRead(f.data, was, f.at, before, keep, buf[..end]);
      if Contains(buf[..end], MARKER) {
        return n, ended, kept, true;
      }
      kept := Min(|MARKER| - 1, end);
      SlidCopy(f, buf, was, before, keep, end, kept);
    } else {
      assert buf[..][..keep] == before[..keep];
      HoldsSame(f.data, was, before, buf[..], keep);
    }
  }

  /** The bytes carried over, moved to the front. */
  method SlidCopy(f: Input, buf: array<char>, ghost was: nat, ghost before: string, ghost keep: nat, end: nat, kept: nat)
    requires buf.Length == BUFFER && Holding(f.data, was, before, keep) && was <= f.at <= |f.data|
    requires end == keep + (f.at - was) <= buf.Length && kept == Min(|MARKER| - 1, end)
    requires buf[..end] == before[..keep] + f.data[was..f.at] && !Contains(f.data[..f.at], MARKER)
    modifies buf
    ensures Holding(f.data, f.at, buf[..], kept)
  {
    hide Contains, Carried, Holding;
    HoldsRoom(f.data, was, before, keep);
    Slid(f.data, was, f.at, before, keep, end, kept);
    assert buf[end - kept..end] == buf[..end][end - kept..end];
    CopyDown(buf, end - kept, kept);
    assert buf[..][..kept] == buf[..kept];
    HoldsNow(f.data, f.at, buf[..], kept);
  }

  lemma HoldsRoom(data: string, at: nat, held: string, keep: nat)
    requires Holding(data, at, held, keep)
    ensures at <= |data| && keep < |held| && keep < |MARKER| && keep <= at
  {
    CarriedIsShort(at);
  }

  lemma HoldsSame(data: string, at: nat, before: string, held: string, keep: nat)
    requires Holding(data, at, before, keep) && |held| == |before| && held[..keep] == before[..keep]
    ensures Holding(data, at, held, keep)
  {
    hide Contains, Carried;
  }

  lemma HoldsNow(data: string, at: nat, held: string, kept: nat)
    requires at <= |data| && kept <= at && |held| == BUFFER && !Contains(data[..at], MARKER)
    requires kept == Carried(at, MARKER) && held[..kept] == data[at - kept..at]
    ensures Holding(data, at, held, kept)
  {
    hide Contains;
    CarriedIsShort(at);
  }

  lemma CarriedIsShort(seen: nat)
    ensures Carried(seen, MARKER) < |MARKER| < BUFFER && Carried(seen, MARKER) <= seen
  {
  }

  /** After a read the buffer holds the bytes carried over and the new ones, which is enough to find the marker in. */
  lemma AfterRead(data: string, was: nat, at: nat, before: string, keep: nat, held: string)
    requires Holding(data, was, before, keep) && was <= at <= |data|
    requires held == before[..keep] + data[was..at]
    ensures Contains(held, MARKER) <==> Contains(data[..at], MARKER)
  {
    hide Contains;
    Straddling(data[..was], data[was..at], MARKER);
    assert data[..was] + data[was..at] == data[..at];
    CarriedIsShort(was);
    assert data[..was][was - keep..] == data[was - keep..was];
  }

  lemma Slid(data: string, was: nat, at: nat, before: string, keep: nat, end: nat, kept: nat)
    requires Holding(data, was, before, keep) && was <= at <= |data|
    requires end == keep + (at - was) && kept == Min(|MARKER| - 1, end)
    ensures kept == Carried(at, MARKER) && kept <= at
    ensures (before[..keep] + data[was..at])[end - kept..end] == data[at - kept..at]
  {
    hide Contains;
    assert keep <= was;
    assert before[..keep] + data[was..at] == data[was - keep..at];
    SliceOfSlice(data, was - keep, at, end - kept, end);
  }

  lemma {:induction false} ContainsLonger(data: string, n: nat, part: string)
    requires n <= |data| && Contains(data[..n], part)
    ensures Contains(data, part)
  {
    assert data[0..n] == data[..n];
    ContainsPart(data, part, 0, n);
  }

}
