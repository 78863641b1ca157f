/**
 * A small concrete codec standing in for `encoding/json`: it keeps the three
 * properties the session file relies on. A value reads back as itself, the
 * encoding says where it ends, and it holds no newline.
 */
module Codec {
  import opened Prelude

  datatype Tree = Atom(text: string) | List(items: seq<Tree>)

  // ----- Writing -----

  function EscapeChar(c: char): string {
    if c == '\n' then "\\n" else if c == '"' then "\\\"" else if c == '\\' then "\\\\" else [c]
  }

  function Escape(s: string): string {
    if |s| == 0 then "" else EscapeChar(s[0]) + Escape(s[1..])
  }

  function Encode(t: Tree): (b: string)
    ensures |b| >= 1 && b[0] in "\"["
    decreases t, 0
  {
    match t
    case Atom(text) => "\"" + Escape(text) + "\""
    case List(items) => "[" + EncodeAll(items) + "]"
  }

  function EncodeAll(items: seq<Tree>): string
    decreases items, 1
  {
    if |items| == 0 then "" else Encode(items[0]) + EncodeAll(items[1..])
  }

  // ----- Reading -----

  datatype Read<+T> = Read(value: T, rest: string)

  function Unescape(b: string): (r: Option<Read<string>>)
    ensures r.Some? ==> |r.value.rest| < |b|
  {
    if |b| == 0 || b[0] == '\n' then None
    else if b[0] == '"' then Some(Read("", b[1..]))
    else if b[0] != '\\' then Push(b[0], Unescape(b[1..]))
    else if |b| == 1 then None
    else if b[1] == 'n' then Push('\n', Unescape(b[2..]))
    else if b[1] == '"' || b[1] == '\\' then Push(b[1], Unescape(b[2..]))
    else None
  }

  function Push(c: char, r: Option<Read<string>>): Option<Read<string>> {
    match r
    case None => None
    case Some(Read(s, rest)) => Some(Read([c] + s, rest))
  }

  /** The value `b` begins with, and what follows it. */
  function Decode(b: string): (r: Option<Read<Tree>>)
    ensures r.Some? ==> |r.value.rest| < |b|
    decreases |b|, 0
  {
    if |b| == 0 then None
    else if b[0] == '"' then
      match Unescape(b[1..])
      case None => None
      case Some(Read(text, rest)) => Some(Read(Atom(text), rest))
    else if b[0] == '[' then
      match DecodeAll(b[1..])
      case None => None
      case Some(Read(items, rest)) => Some(Read(List(items), rest))
    else None
  }

  function DecodeAll(b: string): (r: Option<Read<seq<Tree>>>)
    ensures r.Some? ==> |r.value.rest| < |b|
    decreases |b|, 1
  {
    if |b| == 0 then None
    else if b[0] == ']' then Some(Read([], b[1..]))
    else
      match Decode(b)
      case None => None
      case Some(Read(item, rest)) => Prefix(item, DecodeAll(rest))
  }

  function Prefix(item: Tree, r: Option<Read<seq<Tree>>>): Option<Read<seq<Tree>>> {
    match r
    case None => None
    case Some(Read(items, rest)) => Some(Read([item] + items, rest))
  }

  // ----- The three laws -----

  lemma {:induction false} UnescapeEscape(s: string, rest: string)
    ensures Unescape(Escape(s) + "\"" + rest) == Some(Read(s, rest))
  {
    var b := Escape(s) + "\"" + rest;
    if |s| == 0 {
      assert b[1..] == rest;
    } else {
      var e := EscapeChar(s[0]);
      var tail := Escape(s[1..]) + "\"" + rest;
      assert b == e + tail;
      UnescapeEscape(s[1..], rest);
      UnescapeStep(s[0], tail);
      assert [s[0]] + s[1..] == s;
    }
  }

  lemma UnescapeStep(c: char, tail: string)
    ensures Unescape(EscapeChar(c) + tail) == Push(c, Unescape(tail))
  {
    var b := EscapeChar(c) + tail;
    if |EscapeChar(c)| == 2 {
      assert b[2..] == tail;
    } else {
      assert b[1..] == tail;
    }
  }

  /** A value reads back as itself and the encoding says where it ends. */
  lemma {:induction false} DecodeEncode(t: Tree, rest: string)
    ensures Decode(Encode(t) + rest) == Some(Read(t, rest))
    decreases t, 0
  {
    hide Escape, Unescape, EncodeAll, DecodeAll;
    var b := Encode(t) + rest;
    match t {
      case Atom(text) =>
        UnescapeEscape(text, rest);
        assert b[1..] == Escape(text) + "\"" + rest;
      case List(items) =>
        DecodeEncodeAll(items, rest);
        assert b[1..] == EncodeAll(items) + "]" + rest;
    }
  }

  lemma {:induction false} DecodeEncodeAll(items: seq<Tree>, rest: string)
    ensures DecodeAll(EncodeAll(items) + "]" + rest) == Some(Read(items, rest))
    decreases items, 1
  {
    var b := EncodeAll(items) + "]" + rest;
    if |items| == 0 {
      assert b[1..] == rest;
    } else {
      var tail := EncodeAll(items[1..]) + "]" + rest;
      assert b == Encode(items[0]) + tail;
      DecodeEncode(items[0], tail);
      DecodeEncodeAll(items[1..], rest);
      assert [items[0]] + items[1..] == items;
    }
  }

  lemma {:induction false} EscapeHasNoNewline(s: string)
    ensures '\n' !in Escape(s)
  {
    if |s| > 0 {
      EscapeHasNoNewline(s[1..]);
    }
  }

  lemma {:induction false} EncodeHasNoNewline(t: Tree)
    ensures '\n' !in Encode(t)
    decreases t, 0
  {
    match t {
      case Atom(text) => EscapeHasNoNewline(text);
      case List(items) => EncodeAllHasNoNewline(items);
    }
  }

  lemma {:induction false} EncodeAllHasNoNewline(items: seq<Tree>)
    ensures '\n' !in EncodeAll(items)
    decreases items, 1
  {
    if |items| > 0 {
      EncodeHasNoNewline(items[0]);
      EncodeAllHasNoNewline(items[1..]);
    }
  }

  // ----- What follows a value does not change how it reads -----

  lemma {:induction false} UnescapeExtend(b: string, more: string)
    requires Unescape(b).Some?
    ensures Unescape(b + more) == Some(Read(Unescape(b).value.value, Unescape(b).value.rest + more))
  {
    if b[0] == '"' {
      assert (b + more)[1..] == b[1..] + more;
    } else if b[0] != '\\' {
      assert (b + more)[1..] == b[1..] + more;
      UnescapeExtend(b[1..], more);
    } else {
      assert (b + more)[2..] == b[2..] + more;
      UnescapeExtend(b[2..], more);
    }
  }

  lemma {:induction false} DecodeExtend(b: string, more: string)
    requires Decode(b).Some?
    ensures Decode(b + more) == Some(Read(Decode(b).value.value, Decode(b).value.rest + more))
    decreases |b|, 0
  {
    assert (b + more)[1..] == b[1..] + more;
    if b[0] == '"' {
      UnescapeExtend(b[1..], more);
    } else {
      DecodeAllExtend(b[1..], more);
    }
  }

  lemma {:induction false} DecodeAllExtend(b: string, more: string)
    requires DecodeAll(b).Some?
    ensures DecodeAll(b + more) == Some(Read(DecodeAll(b).value.value, DecodeAll(b).value.rest + more))
    decreases |b|, 1
  {
    assert (b + more)[1..] == b[1..] + more;
    if b[0] != ']' {
      DecodeExtend(b, more);
      DecodeAllExtend(Decode(b).value.rest, more);
    }
  }
}
