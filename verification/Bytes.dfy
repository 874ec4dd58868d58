/**
 The byte-level vocabulary of the chain: fixed-width keys, 64-bit integers, the little-endian
 base-128 varint, big-endian integers used as database keys, and counted lists.
 A decoder takes the unread bytes and returns the value together with the bytes that follow it;
 `None` stands for the exception the reader throws.
 */
module Bytes {

  type byte = x: int | 0 <= x < 0x100
  type Data = seq<byte>

  const TWO_64 := 0x1_0000_0000_0000_0000
  type uint64 = x: int | 0 <= x < TWO_64

  /** A 32-byte field: a hash, a public or secret key, a key image, a commitment. */
  type Key = k: Data | |k| == 32 witness ZEROS_32

  /** A 64-byte Schnorr signature. */
  type Signature = s: Data | |s| == 64 witness ZEROS_32 + ZEROS_32

  const ZEROS_8: Data := [0, 0, 0, 0, 0, 0, 0, 0]
  const ZEROS_32: Data := ZEROS_8 + ZEROS_8 + ZEROS_8 + ZEROS_8

  /** The default-initialised key; `empty()` on a key compares with it. */
  const EMPTY_KEY: Key := ZEROS_32
  const EMPTY_SIGNATURE: Signature := EMPTY_KEY + EMPTY_KEY

  datatype Option<+T> = None | Some(value: T) {
    predicate IsFailure() {
      None?
    }

    function PropagateFailure<U>(): Option<U>
      requires None?
    {
      None
    }

    function Extract(): T
      requires Some?
    {
      value
    }
  }

  type Parsed<T> = Option<(T, Data)>

  lemma Assoc(a: Data, b: Data, c: Data)
    ensures (a + b) + c == a + (b + c)
  {
  }

  // ---------------------------------------------------------------- varints

  function EncodeVarint(v: nat): (r: Data)
    ensures |r| > 0
  {
    if v < 0x80 then [v] else [0x80 + v % 0x80] + EncodeVarint(v / 0x80)
  }

  function DecodeVarint(s: Data): (r: Parsed<nat>)
    ensures r.Some? ==> |r.value.1| < |s|
  {
    if s == [] then None
    else if s[0] < 0x80 then Some((s[0], s[1..]))
    else
      var (high, rest) :- DecodeVarint(s[1..]);
      Some((s[0] - 0x80 + 0x80 * high, rest))
  }

  lemma {:induction false} VarintRoundTrip(v: nat, rest: Data)
    ensures DecodeVarint(EncodeVarint(v) + rest) == Some((v, rest))
  {
    var s := EncodeVarint(v) + rest;
    if v < 0x80 {
      assert s[1..] == rest;
    } else {
      VarintRoundTrip(v / 0x80, rest);
      assert s[1..] == EncodeVarint(v / 0x80) + rest;
    }
  }

  /** `reader.varint<uint64_t>()`: a varint that does not fit 64 bits is an error. */
  function DecodeUint64(s: Data): (r: Parsed<uint64>)
    ensures r.Some? ==> |r.value.1| < |s|
  {
    var (v, rest) :- DecodeVarint(s);
    if v < TWO_64 then Some((v, rest)) else None
  }

  lemma Uint64RoundTrip(v: uint64, rest: Data)
    ensures DecodeUint64(EncodeVarint(v) + rest) == Some((v, rest))
  {
    VarintRoundTrip(v, rest);
  }

  /** Different numbers never share an encoding, whatever follows them. */
  lemma VarintInjective(v: nat, w: nat, r: Data, t: Data)
    requires EncodeVarint(v) + r == EncodeVarint(w) + t
    ensures v == w && r == t
  {
    VarintRoundTrip(v, r);
    VarintRoundTrip(w, t);
  }

  // ---------------------------------------------------------------- fixed-width fields

  function DecodeKey(s: Data): (r: Parsed<Key>)
    ensures r.Some? <==> |s| >= 32
    ensures r.Some? ==> |r.value.1| == |s| - 32
  {
    if |s| < 32 then None else Some((s[..32], s[32..]))
  }

  lemma KeyRoundTrip(k: Key, rest: Data)
    ensures DecodeKey(k + rest) == Some((k, rest))
  {
    assert (k + rest)[..32] == k;
    assert (k + rest)[32..] == rest;
  }

  function DecodeSignature(s: Data): (r: Parsed<Signature>)
    ensures r.Some? <==> |s| >= 64
    ensures r.Some? ==> |r.value.1| == |s| - 64
  {
    if |s| < 64 then None else Some((s[..64], s[64..]))
  }

  lemma SignatureRoundTrip(g: Signature, rest: Data)
    ensures DecodeSignature(g + rest) == Some((g, rest))
  {
    assert (g + rest)[..64] == g;
    assert (g + rest)[64..] == rest;
  }

  function EncodeBool(b: bool): (r: Data)
    ensures |r| == 1
  {
    if b then [1] else [0]
  }

  function DecodeBool(s: Data): (r: Parsed<bool>)
    ensures r.Some? <==> |s| >= 1
    ensures r.Some? ==> |r.value.1| == |s| - 1
  {
    if s == [] then None else Some((s[0] != 0, s[1..]))
  }

  lemma BoolRoundTrip(b: bool, rest: Data)
    ensures DecodeBool(EncodeBool(b) + rest) == Some((b, rest))
  {
    assert (EncodeBool(b) + rest)[1..] == rest;
  }

  // ---------------------------------------------------------------- counted lists

  /** The elements one after the other, without the count. */
  function EncodeAll<T>(enc: T -> Data, xs: seq<T>): Data {
    if xs == [] then [] else enc(xs[0]) + EncodeAll(enc, xs[1..])
  }

  function DecodeAll<T>(dec: Data -> Parsed<T>, n: nat, s: Data): (r: Parsed<seq<T>>)
    ensures r.Some? ==> |r.value.0| == n
  {
    if n == 0 then Some(([], s))
    else
      var (x, s1) :- dec(s);
      var (xs, s2) :- DecodeAll(dec, n - 1, s1);
      Some(([x] + xs, s2))
  }

  function EncodeList<T>(enc: T -> Data, xs: seq<T>): (r: Data)
    ensures |r| > 0
  {
    EncodeVarint(|xs|) + EncodeAll(enc, xs)
  }

  function DecodeList<T>(dec: Data -> Parsed<T>, s: Data): Parsed<seq<T>> {
    var (n, s1) :- DecodeVarint(s);
    DecodeAll(dec, n, s1)
  }

  /** `dec` undoes `enc` in front of any bytes. */
  ghost predicate Inverse<T(!new)>(enc: T -> Data, dec: Data -> Parsed<T>) {
    forall x: T, rest: Data :: dec(enc(x) + rest) == Some((x, rest))
  }

  lemma {:induction false} AllRoundTrip<T(!new)>(enc: T -> Data, dec: Data -> Parsed<T>, xs: seq<T>, rest: Data)
    requires Inverse(enc, dec)
    ensures DecodeAll(dec, |xs|, EncodeAll(enc, xs) + rest) == Some((xs, rest))
  {
    if xs == [] {
      assert EncodeAll(enc, xs) + rest == rest;
    } else {
      var tail := EncodeAll(enc, xs[1..]) + rest;
      assert EncodeAll(enc, xs) + rest == enc(xs[0]) + tail;
      AllRoundTrip(enc, dec, xs[1..], rest);
      assert [xs[0]] + xs[1..] == xs;
    }
  }

  lemma ListRoundTrip<T(!new)>(enc: T -> Data, dec: Data -> Parsed<T>, xs: seq<T>, rest: Data)
    requires Inverse(enc, dec)
    ensures DecodeList(dec, EncodeList(enc, xs) + rest) == Some((xs, rest))
  {
    assert EncodeList(enc, xs) + rest == EncodeVarint(|xs|) + (EncodeAll(enc, xs) + rest);
    VarintRoundTrip(|xs|, EncodeAll(enc, xs) + rest);
    AllRoundTrip(enc, dec, xs, rest);
  }

  /** Writing the next element extends the encoding of the elements already written. */
  lemma {:induction false} EncodeAllSnoc<T>(enc: T -> Data, xs: seq<T>, x: T)
    ensures EncodeAll(enc, xs + [x]) == EncodeAll(enc, xs) + enc(x)
  {
    if xs == [] {
      assert xs + [x] == [x];
    } else {
      EncodeAllSnoc(enc, xs[1..], x);
      assert (xs + [x])[1..] == xs[1..] + [x];
    }
  }
}
