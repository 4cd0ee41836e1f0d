/** Bytes, big-endian words and the byte order that `memcmp` implements.

    Every keyed table of an `.s2db` file stores its keys big-endian, so that a raw
    byte comparison of two rows equals the comparison of their column tuples. */
module Bytes {

  type byte = x: int | 0 <= x < 256

  const U32: nat := 0x1_0000_0000
  const U64: nat := 0x1_0000_0000_0000_0000

  datatype Option<+T> = None | Some(value: T)

  function Zeros(n: nat): (z: seq<byte>)
    ensures |z| == n && forall i :: 0 <= i < n ==> z[i] == 0
  {
    if n == 0 then [] else [0] + Zeros(n - 1)
  }

  /** No two keys map to one value. */
  ghost predicate Injective<K(!new)>(m: map<K, nat>)
  {
    forall p, q :: p in m && q in m && m[p] == m[q] ==> p == q
  }

  /** `256^w`: the number of values a `w`-byte word can hold. */
  function Pow256(w: nat): (r: nat)
    ensures r >= 1
  {
    if w == 0 then 1 else 256 * Pow256(w - 1)
  }

  lemma PowValues()
    ensures Pow256(1) == 0x100
    ensures Pow256(4) == U32
    ensures Pow256(8) == U64
  {
    assert Pow256(2) == 0x1_0000;
    assert Pow256(4) == 0x1_0000 * Pow256(2);
    assert Pow256(6) == 0x1_0000 * Pow256(4);
    assert Pow256(8) == 0x1_0000 * Pow256(6);
  }

  /** The `w`-byte big-endian encoding of `v`. */
  function BigEndian(w: nat, v: nat): (r: seq<byte>)
    requires v < Pow256(w)
    ensures |r| == w
  {
    if w == 0 then [] else BigEndian(w - 1, v / 256) + [v % 256]
  }

  function FromBigEndian(s: seq<byte>): (v: nat)
  {
    if s == [] then 0 else 256 * FromBigEndian(s[..|s| - 1]) + s[|s| - 1]
  }

  lemma {:induction false} BigEndianRoundTrip(w: nat, v: nat)
    requires v < Pow256(w)
    ensures FromBigEndian(BigEndian(w, v)) == v
  {
    if w != 0 {
      BigEndianRoundTrip(w - 1, v / 256);
      var r := BigEndian(w, v);
      assert r[..|r| - 1] == BigEndian(w - 1, v / 256);
    }
  }

  /** Strict lexicographic order: what `<` on `&[u8]` decides, and on column tuples. */
  predicate LexLess(a: seq<int>, b: seq<int>)
  {
    if b == [] then false
    else if a == [] then true
    else a[0] < b[0] || (a[0] == b[0] && LexLess(a[1..], b[1..]))
  }

  lemma {:induction false} LexIrreflexive(a: seq<int>)
    ensures !LexLess(a, a)
  {
    if a != [] { LexIrreflexive(a[1..]); }
  }

  lemma {:induction false} LexTransitive(a: seq<int>, b: seq<int>, c: seq<int>)
    requires LexLess(a, b) && LexLess(b, c)
    ensures LexLess(a, c)
  {
    if a != [] && a[0] == b[0] && b[0] == c[0] { LexTransitive(a[1..], b[1..], c[1..]); }
  }

  lemma {:induction false} LexTotal(a: seq<int>, b: seq<int>)
    ensures LexLess(a, b) || a == b || LexLess(b, a)
  {
    if a != [] && b != [] && a[0] == b[0] {
      LexTotal(a[1..], b[1..]);
      assert a == [a[0]] + a[1..] && b == [b[0]] + b[1..];
    }
  }

  /** Comparing two concatenations whose first parts have equal length compares
      the first parts and, only when those are equal, the rest. */
  lemma {:induction false} LexConcat(a: seq<int>, b: seq<int>, x: seq<int>, y: seq<int>)
    requires |a| == |b|
    ensures LexLess(a + x, b + y) <==> LexLess(a, b) || (a == b && LexLess(x, y))
  {
    if a == [] {
      assert a + x == x && b + y == y;
    } else {
      LexConcat(a[1..], b[1..], x, y);
      assert (a + x)[1..] == a[1..] + x && (b + y)[1..] == b[1..] + y;
      assert a == [a[0]] + a[1..] && b == [b[0]] + b[1..];
    }
  }

  /** Big-endian words compare as bytes exactly as they compare as numbers. */
  lemma {:induction false} BigEndianOrder(w: nat, u: nat, v: nat)
    requires u < Pow256(w) && v < Pow256(w)
    ensures LexLess(BigEndian(w, u), BigEndian(w, v)) <==> u < v
    ensures BigEndian(w, u) == BigEndian(w, v) <==> u == v
  {
    BigEndianRoundTrip(w, u);
    BigEndianRoundTrip(w, v);
    if w != 0 {
      BigEndianOrder(w - 1, u / 256, v / 256);
      LexConcat(BigEndian(w - 1, u / 256), BigEndian(w - 1, v / 256), [u % 256], [v % 256]);
    }
  }

  /** The `w`-byte little-endian encoding of `v`. */
  function Little(w: nat, v: nat): (r: seq<byte>)
    requires v < Pow256(w)
    ensures |r| == w
  {
    if w == 0 then [] else [v % 256] + Little(w - 1, v / 256)
  }

  function FromLittle(s: seq<byte>): (v: nat)
  {
    if s == [] then 0 else s[0] + 256 * FromLittle(s[1..])
  }

  lemma {:induction false} LittleRoundTrip(w: nat, v: nat)
    requires v < Pow256(w)
    ensures FromLittle(Little(w, v)) == v
  {
    if w != 0 {
      LittleRoundTrip(w - 1, v / 256);
      assert Little(w, v)[1..] == Little(w - 1, v / 256);
    }
  }

  /** Little-endian bytes are the big-endian ones the other way round. */
  lemma {:induction false} LittleIsReversed(w: nat, v: nat, i: nat)
    requires v < Pow256(w) && i < w
    ensures Little(w, v)[i] == BigEndian(w, v)[w - 1 - i]
  {
    if i > 0 { LittleIsReversed(w - 1, v / 256, i - 1); }
  }
}
