/**
 Orders: the byte-wise lexicographic order in which the key-value store keeps its keys, the ordered
 containers (`std::set`, `std::map`) seen as strictly increasing sequences, and the big-endian
 encoding of 64-bit keys.
 */
module Ordering {
  import opened Bytes

  // ---------------------------------------------------------------- lexicographic order

  predicate Less(a: Data, b: Data) {
    b != [] && (a == [] || a[0] < b[0] || (a[0] == b[0] && Less(a[1..], b[1..])))
  }

  predicate AtMost(a: Data, b: Data) {
    a == b || Less(a, b)
  }

  lemma {:induction false} LessIrreflexive(a: Data)
    ensures !Less(a, a)
  {
    if a != [] {
      LessIrreflexive(a[1..]);
    }
  }

  lemma {:induction false} LessTransitive(a: Data, b: Data, c: Data)
    requires Less(a, b) && Less(b, c)
    ensures Less(a, c)
  {
    if a != [] && a[0] == b[0] == c[0] {
      LessTransitive(a[1..], b[1..], c[1..]);
    }
  }

  lemma {:induction false} LessTotal(a: Data, b: Data)
    ensures a == b || Less(a, b) || Less(b, a)
  {
    if a != [] && b != [] && a[0] == b[0] {
      LessTotal(a[1..], b[1..]);
      assert a == [a[0]] + a[1..] && b == [b[0]] + b[1..];
    }
  }

  lemma LessAsymmetric(a: Data, b: Data)
    requires Less(a, b)
    ensures !Less(b, a) && a != b
  {
    LessIrreflexive(a);
    if Less(b, a) {
      LessTransitive(a, b, a);
    }
  }

  // ---------------------------------------------------------------- ordered containers

  /** Strictly increasing by key: the iteration order of an ordered container. */
  ghost predicate Sorted<T>(key: T -> Data, m: seq<T>) {
    forall i, j :: 0 <= i < j < |m| ==> Less(key(m[i]), key(m[j]))
  }

  ghost predicate HasKey<T>(key: T -> Data, m: seq<T>, k: Data) {
    exists i :: 0 <= i < |m| && key(m[i]) == k
  }

  /** `insert` of an ordered container: an element whose key is present changes nothing. */
  function Insert<T>(key: T -> Data, m: seq<T>, x: T): seq<T> {
    if m == [] then [x]
    else if key(x) == key(m[0]) then m
    else if Less(key(x), key(m[0])) then [x] + m
    else [m[0]] + Insert(key, m[1..], x)
  }

  lemma {:induction false} InsertMembers<T>(key: T -> Data, m: seq<T>, x: T)
    requires Sorted(key, m)
    ensures forall y :: y in Insert(key, m, x) <==> y in m || (y == x && !HasKey(key, m, key(x)))
    ensures HasKey(key, m, key(x)) ==> Insert(key, m, x) == m
  {
    if m == [] || key(x) == key(m[0]) {
    } else if Less(key(x), key(m[0])) {
      forall i | 0 <= i < |m| ensures key(m[i]) != key(x) {
        if i > 0 { LessTransitive(key(x), key(m[0]), key(m[i])); }
        LessIrreflexive(key(x));
      }
    } else {
      InsertMembers(key, m[1..], x);
      assert m == [m[0]] + m[1..];
      assert HasKey(key, m[1..], key(x)) <==> HasKey(key, m, key(x)) by {
        forall i | 0 <= i < |m| && key(m[i]) == key(x) ensures HasKey(key, m[1..], key(x)) {
          assert m[1..][i - 1] == m[i];
        }
      }
    }
  }

  lemma {:induction false} InsertAbove<T>(key: T -> Data, m: seq<T>, x: T, low: Data)
    requires Less(low, key(x)) && forall i :: 0 <= i < |m| ==> Less(low, key(m[i]))
    ensures forall i :: 0 <= i < |Insert(key, m, x)| ==> Less(low, key(Insert(key, m, x)[i]))
  {
    if m != [] {
      InsertAbove(key, m[1..], x, low);
    }
  }

  lemma {:induction false} InsertSorted<T>(key: T -> Data, m: seq<T>, x: T)
    requires Sorted(key, m)
    ensures Sorted(key, Insert(key, m, x))
  {
    if m == [] || key(x) == key(m[0]) {
    } else if Less(key(x), key(m[0])) {
      forall i | 0 < i < |m| ensures Less(key(x), key(m[i])) {
        LessTransitive(key(x), key(m[0]), key(m[i]));
      }
    } else {
      LessTotal(key(x), key(m[0]));
      InsertSorted(key, m[1..], x);
      InsertAbove(key, m[1..], x, key(m[0]));
    }
  }

  /** Inserting above every key present appends. */
  lemma {:induction false} InsertLast<T>(key: T -> Data, m: seq<T>, x: T)
    requires Sorted(key, m + [x])
    ensures Insert(key, m, x) == m + [x]
  {
    if m != [] {
      var all := m + [x];
      assert Less(key(all[0]), key(all[|m|]));
      LessAsymmetric(key(m[0]), key(x));
      assert m[1..] + [x] == all[1..];
      InsertLast(key, m[1..], x);
    }
  }

  /** Inserting a list of elements one by one. */
  function InsertAll<T>(key: T -> Data, m: seq<T>, xs: seq<T>): seq<T>
    decreases |xs|
  {
    if xs == [] then m else InsertAll(key, Insert(key, m, xs[0]), xs[1..])
  }

  lemma {:induction false} InsertAllSorted<T>(key: T -> Data, m: seq<T>, xs: seq<T>)
    requires Sorted(key, m)
    ensures Sorted(key, InsertAll(key, m, xs))
    decreases |xs|
  {
    if xs != [] {
      InsertSorted(key, m, xs[0]);
      InsertAllSorted(key, Insert(key, m, xs[0]), xs[1..]);
    }
  }

  lemma {:induction false} InsertAllSnoc<T>(key: T -> Data, m: seq<T>, xs: seq<T>, x: T)
    ensures InsertAll(key, m, xs + [x]) == Insert(key, InsertAll(key, m, xs), x)
    decreases |xs|
  {
    if xs == [] {
      assert xs + [x] == [x];
    } else {
      assert (xs + [x])[1..] == xs[1..] + [x];
      InsertAllSnoc(key, Insert(key, m, xs[0]), xs[1..], x);
    }
  }

  /** A container read back in its own iteration order is rebuilt exactly. */
  lemma {:induction false} InsertAllRebuilds<T>(key: T -> Data, m: seq<T>, xs: seq<T>)
    requires Sorted(key, m + xs)
    ensures InsertAll(key, m, xs) == m + xs
    decreases |xs|
  {
    if xs == [] {
      assert m + xs == m;
    } else {
      assert m + xs == (m + [xs[0]]) + xs[1..];
      assert m + [xs[0]] == (m + xs)[..|m| + 1];
      InsertLast(key, m, xs[0]);
      InsertAllRebuilds(key, m + [xs[0]], xs[1..]);
    }
  }

  /** Elements with equal keys are equal. */
  ghost predicate Functional<T>(key: T -> Data, xs: seq<T>) {
    forall i, j :: 0 <= i < |xs| && 0 <= j < |xs| && key(xs[i]) == key(xs[j]) ==> xs[i] == xs[j]
  }

  /** Nothing comes out that did not go in, and every key that went in is present. */
  lemma {:induction false} InsertAllKeys<T>(key: T -> Data, m: seq<T>, xs: seq<T>)
    requires Sorted(key, m)
    ensures forall y :: y in InsertAll(key, m, xs) ==> y in m || y in xs
    ensures forall y :: y in m ==> y in InsertAll(key, m, xs)
    ensures forall i :: 0 <= i < |xs| ==> HasKey(key, InsertAll(key, m, xs), key(xs[i]))
    decreases |xs|
  {
    if xs != [] {
      var m1 := Insert(key, m, xs[0]);
      InsertSorted(key, m, xs[0]);
      InsertMembers(key, m, xs[0]);
      InsertAllKeys(key, m1, xs[1..]);
      assert xs == [xs[0]] + xs[1..];
      assert HasKey(key, m1, key(xs[0])) by {
        if !HasKey(key, m, key(xs[0])) {
          assert xs[0] in m1;
        }
      }
      var k :| 0 <= k < |m1| && key(m1[k]) == key(xs[0]);
      assert m1[k] in InsertAll(key, m1, xs[1..]);
      forall i | 0 < i < |xs| ensures HasKey(key, InsertAll(key, m, xs), key(xs[i])) {
        assert xs[i] == xs[1..][i - 1];
      }
    }
  }

  /** With one element per key, exactly the elements with new keys are added. */
  lemma {:induction false} InsertAllMembers<T>(key: T -> Data, m: seq<T>, xs: seq<T>)
    requires Sorted(key, m) && Functional(key, xs)
    ensures forall y :: y in InsertAll(key, m, xs) <==> y in m || (y in xs && !HasKey(key, m, key(y)))
  {
    InsertAllKeys(key, m, xs);
    InsertAllSorted(key, m, xs);
    var r := InsertAll(key, m, xs);
    forall y ensures y in r <==> y in m || (y in xs && !HasKey(key, m, key(y))) {
      if y in xs && !HasKey(key, m, key(y)) {
        var i :| 0 <= i < |xs| && xs[i] == y;
        var k :| 0 <= k < |r| && key(r[k]) == key(xs[i]);
        assert r[k] in r;
        assert forall j :: 0 <= j < |m| ==> key(m[j]) != key(y);
        assert r[k] in xs;
      }
      if y in r && y !in m && HasKey(key, m, key(y)) {
        var j :| 0 <= j < |m| && key(m[j]) == key(y);
        assert m[j] in r;
        var a :| 0 <= a < |r| && r[a] == m[j];
        var b :| 0 <= b < |r| && r[b] == y;
        LessIrreflexive(key(y));
        assert false;
      }
    }
  }

  lemma {:induction false} InsertLength<T>(key: T -> Data, m: seq<T>, x: T)
    requires Sorted(key, m)
    ensures |Insert(key, m, x)| == |m| + if HasKey(key, m, key(x)) then 0 else 1
    ensures forall k :: HasKey(key, Insert(key, m, x), k) <==> HasKey(key, m, k) || k == key(x)
  {
    InsertMembers(key, m, x);
    var r := Insert(key, m, x);
    forall k ensures HasKey(key, r, k) <==> HasKey(key, m, k) || k == key(x) {
      if HasKey(key, r, k) {
        var i :| 0 <= i < |r| && key(r[i]) == k;
        assert r[i] in r;
      }
      if HasKey(key, m, k) {
        var i :| 0 <= i < |m| && key(m[i]) == k;
        assert m[i] in r;
      }
      assert x in r || HasKey(key, m, key(x));
    }
    InsertGrows(key, m, x);
  }

  lemma {:induction false} InsertGrows<T>(key: T -> Data, m: seq<T>, x: T)
    requires Sorted(key, m)
    ensures |Insert(key, m, x)| == |m| + if Insert(key, m, x) == m then 0 else 1
    ensures !HasKey(key, m, key(x)) ==> Insert(key, m, x) != m
  {
    if m != [] && key(x) != key(m[0]) && !Less(key(x), key(m[0])) {
      InsertGrows(key, m[1..], x);
      assert m == [m[0]] + m[1..];
      assert Insert(key, m, x)[1..] == Insert(key, m[1..], x);
      assert HasKey(key, m[1..], key(x)) ==> HasKey(key, m, key(x)) by {
        if HasKey(key, m[1..], key(x)) {
          var i :| 0 <= i < |m[1..]| && key(m[1..][i]) == key(x);
          assert key(m[i + 1]) == key(x);
        }
      }
    } else if m == [] || key(x) != key(m[0]) {
      assert |Insert(key, m, x)| == |m| + 1;
    } else {
      assert HasKey(key, m, key(x));
    }
  }

  /** Sorting with removal of repeated keys loses nothing exactly when no key is repeated. */
  lemma {:induction false} DedupeLength<T>(key: T -> Data, m: seq<T>, xs: seq<T>)
    requires Sorted(key, m)
    ensures |InsertAll(key, m, xs)| <= |m| + |xs|
    ensures |InsertAll(key, m, xs)| == |m| + |xs| <==>
      (forall i, j :: 0 <= i < j < |xs| ==> key(xs[i]) != key(xs[j])) &&
      (forall i :: 0 <= i < |xs| ==> !HasKey(key, m, key(xs[i])))
    decreases |xs|
  {
    if xs != [] {
      InsertLength(key, m, xs[0]);
      InsertSorted(key, m, xs[0]);
      DedupeLength(key, Insert(key, m, xs[0]), xs[1..]);
      assert xs == [xs[0]] + xs[1..];
    }
  }

  lemma HeadIsFirst<T>(key: T -> Data, m: seq<T>)
    requires m != [] && Sorted(key, m)
    ensures m[0] !in m[1..]
  {
    if m[0] in m[1..] {
      var i :| 0 <= i < |m[1..]| && m[1..][i] == m[0];
      assert Less(key(m[0]), key(m[i + 1]));
      LessIrreflexive(key(m[0]));
    }
  }

  /** Equal contents means equal representation. */
  lemma {:induction false} SortedUnique<T>(key: T -> Data, a: seq<T>, b: seq<T>)
    requires Sorted(key, a) && Sorted(key, b)
    requires forall x :: x in a <==> x in b
    ensures a == b
  {
    assert a != [] ==> a[0] in a;
    assert b != [] ==> b[0] in b;
    if a != [] {
      assert a[0] in b && b[0] in a;
      var i :| 0 <= i < |b| && b[i] == a[0];
      var j :| 0 <= j < |a| && a[j] == b[0];
      if i > 0 && j > 0 {
        LessAsymmetric(key(b[0]), key(b[i]));
      }
      assert a[0] == b[0];
      HeadIsFirst(key, a);
      HeadIsFirst(key, b);
      forall x ensures x in a[1..] <==> x in b[1..] {
        assert x in a <==> x == a[0] || x in a[1..];
        assert x in b <==> x == b[0] || x in b[1..];
      }
      assert a == [a[0]] + a[1..] && b == [b[0]] + b[1..];
      SortedUnique(key, a[1..], b[1..]);
    }
  }

  // ---------------------------------------------------------------- big-endian integers

  /** The `n` low-order bytes of `v`, most significant first. */
  function BigEndian(n: nat, v: nat): (r: Data)
    ensures |r| == n
  {
    if n == 0 then [] else BigEndian(n - 1, v / 0x100) + [v % 0x100]
  }

  function FromBigEndian(s: Data): nat {
    if s == [] then 0 else FromBigEndian(s[..|s| - 1]) * 0x100 + s[|s| - 1]
  }

  function Pow256(n: nat): (r: nat)
    ensures r > 0
  {
    if n == 0 then 1 else 0x100 * Pow256(n - 1)
  }

  lemma {:induction false} BigEndianRoundTrip(n: nat, v: nat)
    requires v < Pow256(n)
    ensures FromBigEndian(BigEndian(n, v)) == v
  {
    if n > 0 {
      BigEndianRoundTrip(n - 1, v / 0x100);
      assert BigEndian(n, v)[..n - 1] == BigEndian(n - 1, v / 0x100);
    }
  }

  lemma {:induction false} LessSnoc(a: Data, x: byte, b: Data, y: byte)
    requires |a| == |b|
    ensures Less(a + [x], b + [y]) <==> Less(a, b) || (a == b && x < y)
  {
    if a == [] {
      assert a + [x] == [x] && b + [y] == [y];
    } else {
      assert (a + [x])[1..] == a[1..] + [x] && (b + [y])[1..] == b[1..] + [y];
      LessSnoc(a[1..], x, b[1..], y);
      assert a == [a[0]] + a[1..] && b == [b[0]] + b[1..];
    }
  }

  /** Byte order of fixed-width big-endian keys is numeric order. */
  lemma {:induction false} BigEndianOrder(n: nat, v: nat, w: nat)
    requires v < Pow256(n) && w < Pow256(n)
    ensures Less(BigEndian(n, v), BigEndian(n, w)) <==> v < w
  {
    if n > 0 {
      BigEndianOrder(n - 1, v / 0x100, w / 0x100);
      BigEndianRoundTrip(n - 1, v / 0x100);
      BigEndianRoundTrip(n - 1, w / 0x100);
      LessSnoc(BigEndian(n - 1, v / 0x100), v % 0x100, BigEndian(n - 1, w / 0x100), w % 0x100);
    }
  }

  /** The database key of a 64-bit integer. */
  function Index(v: uint64): (r: Data)
    ensures |r| == 8
  {
    BigEndian(8, v)
  }

  lemma IndexOrder(v: uint64, w: uint64)
    ensures Less(Index(v), Index(w)) <==> v < w
    ensures Index(v) == Index(w) ==> v == w
    ensures FromBigEndian(Index(v)) == v
  {
    assert Pow256(8) == TWO_64 by {
      assert Pow256(4) == 0x1_0000_0000;
      assert Pow256(8) == 0x1_0000_0000 * Pow256(4);
    }
    BigEndianOrder(8, v, w);
    BigEndianRoundTrip(8, v);
    BigEndianRoundTrip(8, w);
  }
}
