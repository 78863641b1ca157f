/** The keys of a map in the order `encoding/json` writes them: sorted. */
module Keys {

  /** Lexicographic order. */
  predicate AtMost(a: string, b: string) {
    if |a| == 0 then true
    else if |b| == 0 then false
    else a[0] < b[0] || (a[0] == b[0] && AtMost(a[1..], b[1..]))
  }

  lemma {:induction false} Total(a: string, b: string)
    ensures AtMost(a, b) || AtMost(b, a)
  {
    if |a| > 0 && |b| > 0 && a[0] == b[0] {
      Total(a[1..], b[1..]);
    }
  }

  lemma {:induction false} Antisymmetric(a: string, b: string)
    requires AtMost(a, b) && AtMost(b, a)
    ensures a == b
  {
    if |a| > 0 {
      Antisymmetric(a[1..], b[1..]);
      assert a == [a[0]] + a[1..] && b == [b[0]] + b[1..];
    }
  }

  lemma {:induction false} Transitive(a: string, b: string, c: string)
    requires AtMost(a, b) && AtMost(b, c)
    ensures AtMost(a, c)
  {
    if |a| > 0 && a[0] == b[0] == c[0] {
      Transitive(a[1..], b[1..], c[1..]);
    }
  }

  predicate IsLeast(least: string, keys: set<string>) {
    least in keys && forall k :: k in keys ==> AtMost(least, k)
  }

  lemma {:induction false} LeastExists(keys: set<string>) returns (least: string)
    requires keys != {}
    ensures IsLeast(least, keys)
  {
    var x :| x in keys;
    if keys == {x} {
      least := x;
      Total(x, x);
    } else {
      var rest := keys - {x};
      assert keys == {x} + rest;
      var m := LeastExists(rest);
      Total(x, m);
      Total(x, x);
      if AtMost(x, m) {
        least := x;
        forall k | k in keys
          ensures AtMost(x, k)
        {
          if k != x {
            Transitive(x, m, k);
          }
        }
      } else {
        least := m;
      }
    }
  }

  function Least(keys: set<string>): (least: string)
    requires keys != {}
    ensures IsLeast(least, keys)
  {
    OneLeast(keys);
    var least :| least in keys && IsLeast(least, keys);
    least
  }

  lemma OneLeast(keys: set<string>)
    requires keys != {}
    ensures exists least :: IsLeast(least, keys)
    ensures forall a, b :: IsLeast(a, keys) && IsLeast(b, keys) ==> a == b
  {
    var least := LeastExists(keys);
    forall a, b | IsLeast(a, keys) && IsLeast(b, keys)
      ensures a == b
    {
      Antisymmetric(a, b);
    }
  }

  datatype Pair = Pair(key: string, value: nat)

  /** The entries of the map, by key. */
  function Entries(m: map<string, nat>): seq<Pair>
    decreases |m|
  {
    if m == map[] then []
    else
      var k := Least(m.Keys);
      Smaller(m, k);
      [Pair(k, m[k])] + Entries(m - {k})
  }

  lemma Smaller(m: map<string, nat>, k: string)
    requires k in m
    ensures |m - {k}| < |m|
  {
    assert (m - {k}).Keys == m.Keys - {k};
    assert |m - {k}| == |(m - {k}).Keys| && |m| == |m.Keys|;
  }

  function MapOf(pairs: seq<Pair>): map<string, nat> {
    if |pairs| == 0 then map[] else MapOf(pairs[1..])[pairs[0].key := pairs[0].value]
  }

  /** The entries say the whole map. */
  lemma {:induction false} MapOfEntries(m: map<string, nat>)
    ensures MapOf(Entries(m)) == m
    decreases |m|
  {
    if m != map[] {
      var k := Least(m.Keys);
      Smaller(m, k);
      MapOfEntries(m - {k});
      assert Entries(m)[1..] == Entries(m - {k});
      assert m == (m - {k})[k := m[k]];
    }
  }
}
