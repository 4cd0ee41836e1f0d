/** Unsigned LEB128 (section 7.6 of DWARF Version 5), as `format.rs` writes trigram
    gap-deltas and as `kzip.rs` writes protobuf tags and lengths. */
module Varint {
  import opened Bytes

  /** Seven data bits per byte, low group first; the high bit says "more follow". */
  function Encode(v: nat): (r: seq<byte>)
    ensures |r| >= 1
  {
    if v < 128 then [v] else [v % 128 + 128] + Encode(v / 128)
  }

  /** What the bytes at `pos` say: the value and the number of bytes it took, or
      `None` when the buffer ends before a byte without the high bit. */
  function Decode(buf: seq<byte>, pos: nat): (r: Option<(nat, nat)>)
    requires pos <= |buf|
    ensures r.Some? ==> 1 <= r.value.1 <= |buf| - pos
    decreases |buf| - pos
  {
    if pos == |buf| then None
    else if buf[pos] < 128 then Some((buf[pos] as nat, 1))
    else
      match Decode(buf, pos + 1)
      case None => None
      case Some((v, n)) => Some((buf[pos] - 128 + 128 * v, n + 1))
  }

  /** `s` sits in `buf` at `pos`. */
  predicate BytesAt(buf: seq<byte>, pos: nat, s: seq<byte>)
  {
    pos + |s| <= |buf| && buf[pos..pos + |s|] == s
  }

  /** Two strings side by side. */
  lemma BytesAtConcat(buf: seq<byte>, pos: nat, x: seq<byte>, y: seq<byte>)
    ensures BytesAt(buf, pos, x + y) <==> BytesAt(buf, pos, x) && BytesAt(buf, pos + |x|, y)
  {
    if pos + |x + y| <= |buf| {
      var cut := buf[pos..pos + |x + y|];
      assert cut[..|x|] == buf[pos..pos + |x|] && cut[|x|..] == buf[pos + |x|..pos + |x| + |y|];
      assert cut == cut[..|x|] + cut[|x|..];
      assert (x + y)[..|x|] == x && (x + y)[|x|..] == y;
    }
  }

  /** Decoding inverts encoding, wherever the encoding sits and whatever follows. */
  lemma {:induction false} DecodeEncode(buf: seq<byte>, pos: nat, v: nat)
    requires BytesAt(buf, pos, Encode(v))
    ensures Decode(buf, pos) == Some((v, |Encode(v)|))
    decreases v
  {
    var e := Encode(v);
    assert buf[pos] == buf[pos..pos + |e|][0] == e[0];
    if v >= 128 {
      assert buf[pos + 1..pos + 1 + |e| - 1] == buf[pos..pos + |e|][1..] == Encode(v / 128);
      DecodeEncode(buf, pos + 1, v / 128);
    }
  }

  /** No encoding is a proper prefix of another: equal bytes, equal values. */
  lemma EncodePrefixFree(u: nat, v: nat, x: seq<byte>, y: seq<byte>)
    requires Encode(u) + x == Encode(v) + y
    ensures u == v && x == y
  {
    var buf := Encode(u) + x;
    DecodeEncode(buf, 0, u);
    assert buf[0..|Encode(v)|] == (Encode(v) + y)[0..|Encode(v)|] == Encode(v);
    DecodeEncode(buf, 0, v);
    assert x == buf[|Encode(u)|..];
    assert y == (Encode(v) + y)[|Encode(v)|..];
  }

  function Pow128(k: nat): (r: nat)
    ensures r >= 1
  {
    if k == 0 then 1 else 128 * Pow128(k - 1)
  }

  /** Byte `i` holds bits `7i` to `7i + 6`, and its high bit says whether another follows. */
  lemma {:induction false} EncodeByte(v: nat, i: nat)
    requires i < |Encode(v)|
    ensures Encode(v)[i] % 128 == v / Pow128(i) % 128
    ensures Encode(v)[i] >= 128 <==> i < |Encode(v)| - 1
    ensures v < Pow128(|Encode(v)|)
  {
    if v < 128 {
      assert Pow128(1) == 128 * Pow128(0) == 128;
      QuotientIs(v, 1, v, 0);
    } else {
      var rest := v / 128;
      assert Encode(v) == [v % 128 + 128] + Encode(rest);
      EncodeByte(rest, if i == 0 then 0 else i - 1);
      assert Pow128(|Encode(v)|) == 128 * Pow128(|Encode(rest)|);
      BelowTimes(v, Pow128(|Encode(rest)|));
      if i > 0 {
        assert Encode(v)[i] == Encode(rest)[i - 1];
        DivDiv(v, 128, Pow128(i - 1));
      } else {
        QuotientIs(v, 1, v, 0);
      }
    }
  }

  lemma BelowTimes(v: nat, p: nat)
    requires v / 128 < p
    ensures v < 128 * p
  {
  }

  lemma DivParts(v: nat, a: nat)
    requires a >= 1
    ensures v == a * (v / a) + v % a && v % a < a
  {
  }

  lemma DivDiv(v: nat, a: nat, b: nat)
    requires a >= 1 && b >= 1
    ensures a * b >= 1 && v / a / b == v / (a * b)
  {
    DivParts(v, a);
    DivParts(v / a, b);
    Combine(v, a, b, v / a, v % a, v / a / b, v / a % b);
    QuotientIs(v, a * b, v / a / b, a * (v / a % b) + v % a);
  }

  lemma Combine(v: nat, a: nat, b: nat, q: nat, r: nat, p: nat, s: nat)
    requires v == a * q + r && r < a && q == b * p + s && s < b
    ensures a * b >= 1 && a * s >= 0 && v == (a * b) * p + (a * s + r) && a * s + r < a * b
  {
    Below(a, b, s, r);
    Expand(a, b, p, s, r);
  }

  lemma Expand(a: nat, b: nat, p: nat, s: nat, r: nat)
    ensures a * (b * p + s) + r == (a * b) * p + (a * s + r)
  {
  }

  lemma Below(a: nat, b: nat, s: nat, r: nat)
    requires r < a && s < b
    ensures 0 <= a * s && a * s + r < a * b
  {
    assert a * b == a * s + a * (b - s);
    assert a * (b - s) >= a by { Times(a, b - s); }
  }

  lemma QuotientIs(v: nat, n: nat, q: nat, r: nat)
    requires n >= 1 && v == n * q + r && r < n
    ensures v / n == q
  {
    var d := v / n - q;
    assert n * d == r - v % n;
    Times(n, d);
  }

  lemma Times(n: nat, d: int)
    ensures d >= 1 ==> n * d >= n
    ensures d <= -1 ==> n * d <= -(n as int)
  {
    if d <= -1 { assert n * (-d) >= n; }
  }

  /** A value below `128^k` takes at most `k` bytes. */
  lemma {:induction false} EncodeLength(v: nat, k: nat)
    requires k >= 1 && v < Pow128(k)
    ensures |Encode(v)| <= k
  {
    assert Pow128(1) == 128 * Pow128(0) == 128;
    if v >= 128 {
      EncodeLength(v / 128, k - 1);
    }
  }

  /** A `u32` takes one to five bytes, a `u64` one to ten. */
  lemma WordLength(v: nat)
    ensures v < U32 ==> |Encode(v)| <= 5
    ensures v < U64 ==> |Encode(v)| <= 10
  {
    assert Pow128(2) == 128 * Pow128(1) == 128 * 128;
    assert Pow128(4) == 128 * Pow128(3) == 128 * 128 * Pow128(2);
    assert Pow128(5) == 128 * Pow128(4);
    assert Pow128(7) == 128 * Pow128(6) == 128 * 128 * Pow128(5);
    assert Pow128(9) == 128 * Pow128(8) == 128 * 128 * Pow128(7);
    assert Pow128(10) == 128 * Pow128(9);
    if v < U32 { EncodeLength(v, 5); }
    if v < U64 { EncodeLength(v, 10); }
  }

  /** `write_varint`: append `v` to `out` one group at a time. */
  method Write(out: seq<byte>, v: nat) returns (r: seq<byte>)
    ensures r == out + Encode(v)
  {
    r := out;
    var rest := v;
    while rest >= 128
      invariant r + Encode(rest) == out + Encode(v)
    {
      assert r + Encode(rest) == r + [rest % 128 + 128] + Encode(rest / 128);
      r := r + [rest % 128 + 128];
      rest := rest / 128;
    }
    r := r + [rest];
  }

  /** `varint_len`: the encoded length, without materialising the bytes. */
  method Length(v: nat) returns (n: nat)
    ensures n == |Encode(v)|
  {
    n := 1;
    var rest := v;
    while rest >= 128
      invariant n - 1 + |Encode(rest)| == |Encode(v)|
    {
      rest := rest / 128;
      n := n + 1;
    }
  }

  lemma ShiftStep(v: nat, unit: nat, low: nat, rest: nat)
    ensures v + unit * (low + 128 * rest) == v + unit * low + unit * 128 * rest
  {
  }

  /** `read_varint`. The groups occupy disjoint bits, so the source's `|=` of a shifted
      group is an addition. Like the source it must find a final byte before the end. */
  method Read(buf: seq<byte>, pos: nat) returns (v: nat, used: nat)
    requires pos <= |buf| && Decode(buf, pos).Some?
    ensures Decode(buf, pos) == Some((v, used))
  {
    v := 0;
    var unit := 1;
    var i := pos;
    ghost var whole := Decode(buf, pos).value;
    while buf[i] >= 128
      invariant pos <= i < |buf| && unit >= 1
      invariant Decode(buf, i).Some?
      invariant whole.0 == v + unit * Decode(buf, i).value.0
      invariant whole.1 == i - pos + Decode(buf, i).value.1
      decreases |buf| - i
    {
      ShiftStep(v, unit, buf[i] - 128, Decode(buf, i + 1).value.0);
      v := v + unit * (buf[i] - 128);
      unit := unit * 128;
      i := i + 1;
    }
    v := v + unit * buf[i];
    used := i + 1 - pos;
  }
}
