/** The content digest of a compilation unit: the bytes fed to the hash. */
module Digest {
  import opened Bytes
  import opened Kzip
  import Order

  const SchemaVersion: nat := 2

  type Pair = (Text, Text)

  // ---------------------------------------------------------------- length-prefixed fields

  /** A count or a length, in eight bytes. */
  function Word64(v: nat): (r: seq<byte>)
    requires v < U64
    ensures |r| == 8
  {
    PowValues();
    Little(8, v)
  }

  lemma WordSplits(u: nat, v: nat, x: seq<byte>, y: seq<byte>)
    requires u < U64 && v < U64 && Word64(u) + x == Word64(v) + y
    ensures u == v && x == y
  {
    PowValues();
    assert Word64(u) == (Word64(u) + x)[..8] && Word64(v) == (Word64(v) + y)[..8];
    assert x == (Word64(u) + x)[8..] && y == (Word64(v) + y)[8..];
    LittleRoundTrip(8, u);
    LittleRoundTrip(8, v);
  }

  function Str(s: Text): (r: seq<byte>)
    requires |s| < U64
  {
    Word64(|s|) + s
  }

  lemma StrSplits(s: Text, t: Text, x: seq<byte>, y: seq<byte>)
    requires |s| < U64 && |t| < U64 && Str(s) + x == Str(t) + y
    ensures s == t && x == y
  {
    hide Word64;
    assert Str(s) + x == Word64(|s|) + (s + x) && Str(t) + y == Word64(|t|) + (t + y);
    WordSplits(|s|, |t|, s + x, t + y);
    assert s == (s + x)[..|s|] && t == (t + y)[..|t|];
    assert x == (s + x)[|s|..] && y == (t + y)[|t|..];
  }

  ghost predicate Fit(ss: seq<Text>)
  {
    forall i :: 0 <= i < |ss| ==> |ss[i]| < U64
  }

  ghost function Strs(ss: seq<Text>): (r: seq<byte>)
    requires Fit(ss)
  {
    if ss == [] then [] else Str(ss[0]) + Strs(ss[1..])
  }

  lemma {:induction false} StrsSplit(ss: seq<Text>, ts: seq<Text>, x: seq<byte>, y: seq<byte>)
    requires Fit(ss) && Fit(ts) && |ss| == |ts| && Strs(ss) + x == Strs(ts) + y
    ensures ss == ts && x == y
  {
    hide Str;
    if ss == [] {
      assert Strs(ss) + x == x && Strs(ts) + y == y;
    } else {
      assert Strs(ss) + x == Str(ss[0]) + (Strs(ss[1..]) + x) && Strs(ts) + y == Str(ts[0]) + (Strs(ts[1..]) + y);
      StrSplits(ss[0], ts[0], Strs(ss[1..]) + x, Strs(ts[1..]) + y);
      StrsSplit(ss[1..], ts[1..], x, y);
      assert ss == [ss[0]] + ss[1..] && ts == [ts[0]] + ts[1..];
    }
  }

  /** A counted list. */
  ghost function List(ss: seq<Text>): (r: seq<byte>)
    requires |ss| < U64 && Fit(ss)
  {
    Word64(|ss|) + Strs(ss)
  }

  // ---------------------------------------------------------------- inputs

  predicate PairLess(a: Pair, b: Pair)
  {
    LexLess(a.0, b.0) || (a.0 == b.0 && LexLess(a.1, b.1))
  }

  lemma PairsOrdered()
    ensures Order.StrictOrder(PairLess)
  {
    forall x: Pair ensures !PairLess(x, x) { LexIrreflexive(x.0); LexIrreflexive(x.1); }
    forall x: Pair, y: Pair, z: Pair | PairLess(x, y) && PairLess(y, z) ensures PairLess(x, z) {
      if LexLess(x.0, y.0) && LexLess(y.0, z.0) { LexTransitive(x.0, y.0, z.0); }
      if LexLess(x.1, y.1) && LexLess(y.1, z.1) { LexTransitive(x.1, y.1, z.1); }
    }
    forall x: Pair, y: Pair ensures PairLess(x, y) || x == y || PairLess(y, x) {
      LexTotal(x.0, y.0);
      LexTotal(x.1, y.1);
    }
  }

  function PairOf(fi: FileInput): Pair
  {
    (fi.vName.path, fi.info.digest)
  }

  /** The (path, digest) pairs of the required inputs. */
  ghost function InputSet(c: CompilationUnit): set<Pair>
  {
    set i | 0 <= i < |c.requiredInput| :: (c.requiredInput[i].vName.path, c.requiredInput[i].info.digest)
  }

  /** The ascending enumeration a BTreeSet gives. */
  ghost predicate Enumerates(ps: seq<Pair>, c: CompilationUnit)
  {
    Order.Ascending(PairLess, ps) && (forall p :: p in ps <==> p in InputSet(c)) && |ps| <= |c.requiredInput|
  }

  ghost function Flat(ps: seq<Pair>): (r: seq<Text>)
    ensures |r| == 2 * |ps| && forall i :: 0 <= i < |ps| ==> r[2 * i] == ps[i].0 && r[2 * i + 1] == ps[i].1
  {
    if ps == [] then [] else Flat(ps[..|ps| - 1]) + [ps[|ps| - 1].0, ps[|ps| - 1].1]
  }

  ghost predicate UnitFits(c: CompilationUnit)
  {
    && |c.vName.language| < U64 && |c.argument| < U64 && Fit(c.argument) && |c.requiredInput| < U64
    && (forall i :: 0 <= i < |c.requiredInput| ==> |c.requiredInput[i].vName.path| < U64 && |c.requiredInput[i].info.digest| < U64)
  }

  lemma FlatFits(c: CompilationUnit, ps: seq<Pair>)
    requires UnitFits(c) && Enumerates(ps, c)
    ensures Fit(Flat(ps))
  {
    forall k | 0 <= k < |Flat(ps)| ensures |Flat(ps)[k]| < U64 {
      var i := k / 2;
      assert ps[i] in InputSet(c);
      assert k == 2 * i || k == 2 * i + 1;
    }
  }

  // ---------------------------------------------------------------- the buffer

  ghost function Buffer(tag: Text, c: CompilationUnit, ps: seq<Pair>): (r: seq<byte>)
    requires |tag| < U64 && UnitFits(c) && |ps| < U64 && Fit(Flat(ps))
  {
    Word64(SchemaVersion) + (Str(tag) + (Str(c.vName.language) + (List(c.argument) + (Word64(|ps|) + Strs(Flat(ps))))))
  }

  /** `Hasher`: a growing byte buffer. */
  class Hasher {
    var buf: seq<byte>

    constructor ()
      ensures buf == []
    {
      buf := [];
    }

    method AddU64(v: nat)
      requires v < U64
      modifies this
      ensures buf == old(buf) + Word64(v)
    {
      buf := buf + Word64(v);
    }

    method AddStr(s: Text)
      requires |s| < U64
      modifies this
      ensures buf == old(buf) + Str(s)
    {
      buf := buf + Word64(|s|);
      buf := buf + s;
      assert buf == old(buf) + (Word64(|s|) + s);
    }
  }

  lemma StrsSnoc(ss: seq<Text>, s: Text)
    requires Fit(ss + [s])
    ensures Fit(ss) && |s| < U64 && Strs(ss + [s]) == Strs(ss) + Str(s)
    decreases |ss|
  {
    hide Str;
    assert (ss + [s])[|ss|] == s && forall i :: 0 <= i < |ss| ==> (ss + [s])[i] == ss[i];
    if ss == [] {
      assert (ss + [s])[1..] == [];
      assert Strs([]) == [];
      assert Strs(ss + [s]) == Str(s) + Strs([]) == Str(s);
    } else {
      assert (ss + [s])[1..] == ss[1..] + [s];
      StrsSnoc(ss[1..], s);
      assert Strs(ss + [s]) == Str(ss[0]) + (Strs(ss[1..]) + Str(s)) == Strs(ss) + Str(s);
    }
  }

  lemma PrefixFits(ss: seq<Text>, n: nat)
    requires Fit(ss) && n <= |ss|
    ensures Fit(ss[..n])
  {
  }

  /** Append every string of a list. */
  method AddAll(h: Hasher, ss: seq<Text>)
    requires Fit(ss)
    modifies h
    ensures h.buf == old(h.buf) + Strs(ss)
  {
    hide Str, Strs;
    NoStrs();
    for i := 0 to |ss|
      invariant Fit(ss[..i]) && h.buf == old(h.buf) + Strs(ss[..i])
    {
      PrefixFits(ss, i + 1);
      assert ss[..i + 1] == ss[..i] + [ss[i]];
      StrsSnoc(ss[..i], ss[i]);
      h.AddStr(ss[i]);
      assert h.buf == old(h.buf) + (Strs(ss[..i]) + Str(ss[i]));
    }
    assert ss[..|ss|] == ss;
  }

  lemma NoStrs()
    ensures Strs([]) == []
  {
  }

  method SortedInputs(c: CompilationUnit) returns (ps: seq<Pair>)
    ensures Enumerates(ps, c)
  {
    PairsOrdered();
    var all := seq(|c.requiredInput|, i requires 0 <= i < |c.requiredInput| => PairOf(c.requiredInput[i]));
    ps := Order.SortDedup(PairLess, all);
    forall p ensures p in ps <==> p in InputSet(c) {
      if p in ps {
        var i :| 0 <= i < |all| && all[i] == p;
        assert p == PairOf(c.requiredInput[i]);
      }
      if p in InputSet(c) {
        var i :| 0 <= i < |c.requiredInput| && p == PairOf(c.requiredInput[i]);
        assert all[i] == p;
      }
    }
    NoLonger(ps, all);
  }

  lemma NoLonger(ps: seq<Pair>, all: seq<Pair>)
    requires Order.StrictOrder(PairLess) && Order.Ascending(PairLess, ps) && forall p :: p in ps ==> p in all
    ensures |ps| <= |all|
  {
    DistinctSize(ps);
    SetSize(all);
    var a, b := set p | p in ps, set p | p in all;
    SubsetSize(a, b);
  }

  lemma {:induction false} DistinctSize(ps: seq<Pair>)
    requires Order.StrictOrder(PairLess) && Order.Ascending(PairLess, ps)
    ensures |set p | p in ps| == |ps|
  {
    if ps != [] {
      var n := |ps| - 1;
      DistinctSize(ps[..n]);
      assert (set p | p in ps) == (set p | p in ps[..n]) + {ps[n]};
      assert ps[n] !in ps[..n];
    }
  }

  lemma {:induction false} SetSize(ps: seq<Pair>)
    ensures |set p | p in ps| <= |ps|
  {
    if ps != [] {
      var n := |ps| - 1;
      SetSize(ps[..n]);
      assert (set p | p in ps) == (set p | p in ps[..n]) + {ps[n]};
    }
  }

  lemma SubsetSize(a: set<Pair>, b: set<Pair>)
    requires a <= b
    ensures |a| <= |b|
  {
    assert b == a + (b - a);
    assert |a + (b - a)| == |a| + |b - a|;
  }

  /** `cu_content_digest`, up to the hash. */
  method ContentDigest(c: CompilationUnit, tag: Text) returns (buf: seq<byte>)
    requires |tag| < U64 && UnitFits(c)
    ensures IsDigest(tag, c, buf)
  {
    var ps := SortedInputs(c);
    FlatFits(c, ps);
    assert |ps| < U64;
    hide Word64, Str, Strs, Flat, Fit, Enumerates;
    var h := new Hasher();
    h.AddU64(SchemaVersion);
    h.AddStr(tag);
    h.AddStr(c.vName.language);
    h.AddU64(|c.argument|);
    AddAll(h, c.argument);
    h.AddU64(|ps|);
    AddPairs(h, ps);
    buf := h.buf;
    Joined(Word64(SchemaVersion), Str(tag), Str(c.vName.language), Word64(|c.argument|), Strs(c.argument), Word64(|ps|), Strs(Flat(ps)));
    assert buf == Buffer(tag, c, ps);
  }

  lemma Joined(a: seq<byte>, b: seq<byte>, c: seq<byte>, n: seq<byte>, d: seq<byte>, m: seq<byte>, e: seq<byte>)
    ensures [] + a + b + c + n + d + m + e == a + (b + (c + ((n + d) + (m + e))))
  {
    assert [] + a == a;
    assert c + n + d + m + e == c + ((n + d) + (m + e));
  }

  method AddPairs(h: Hasher, ps: seq<Pair>)
    requires Fit(Flat(ps))
    modifies h
    ensures h.buf == old(h.buf) + Strs(Flat(ps))
  {
    NoStrs();
    hide Str, Strs;
    for i := 0 to |ps|
      invariant Fit(Flat(ps[..i])) && h.buf == old(h.buf) + Strs(Flat(ps[..i]))
    {
      assert ps[..i + 1][..i] == ps[..i];
      FlatStep(ps, i);
      h.AddStr(ps[i].0);
      h.AddStr(ps[i].1);
      assert h.buf == old(h.buf) + (Strs(Flat(ps[..i])) + Str(ps[i].0) + Str(ps[i].1));
    }
    assert ps[..|ps|] == ps;
  }

  lemma FlatStep(ps: seq<Pair>, i: nat)
    requires i < |ps| && Fit(Flat(ps)) && Fit(Flat(ps[..i]))
    ensures |ps[i].0| < U64 && |ps[i].1| < U64 && Fit(Flat(ps[..i + 1]))
    ensures Strs(Flat(ps[..i + 1])) == Strs(Flat(ps[..i])) + Str(ps[i].0) + Str(ps[i].1)
  {
    hide Str, Strs;
    var f := Flat(ps[..i]);
    assert ps[..i + 1][..i] == ps[..i];
    assert Flat(ps)[2 * i] == ps[i].0 && Flat(ps)[2 * i + 1] == ps[i].1;
    assert Flat(ps[..i + 1]) == f + [ps[i].0] + [ps[i].1];
    StrsSnoc(f, ps[i].0);
    StrsSnoc(f + [ps[i].0], ps[i].1);
  }

  /** `buf` is what the unit feeds to the hash. */
  ghost predicate IsDigest(tag: Text, c: CompilationUnit, buf: seq<byte>)
    requires |tag| < U64 && UnitFits(c)
  {
    exists ps :: Enumerates(ps, c) && Fit(Flat(ps)) && |ps| < U64 && buf == Buffer(tag, c, ps)
  }

  // ---------------------------------------------------------------- what the buffer determines

  lemma SameInputs(ps: seq<Pair>, qs: seq<Pair>, c: CompilationUnit, d: CompilationUnit)
    requires Enumerates(ps, c) && Enumerates(qs, d)
    ensures ps == qs <==> InputSet(c) == InputSet(d)
  {
    PairsOrdered();
    if InputSet(c) == InputSet(d) { Order.AscendingUnique(PairLess, ps, qs); }
    if ps == qs {
      assert forall p :: p in InputSet(c) <==> p in InputSet(d);
    }
  }

  lemma FlatInjective(ps: seq<Pair>, qs: seq<Pair>)
    requires |ps| == |qs| && Flat(ps) == Flat(qs)
    ensures ps == qs
  {
    forall i | 0 <= i < |ps| ensures ps[i] == qs[i] {
      assert Flat(ps)[2 * i] == Flat(qs)[2 * i] && Flat(ps)[2 * i + 1] == Flat(qs)[2 * i + 1];
    }
  }

  lemma BufferInjective(tag: Text, c: CompilationUnit, ps: seq<Pair>, other: Text, d: CompilationUnit, qs: seq<Pair>)
    requires |tag| < U64 && |other| < U64 && UnitFits(c) && UnitFits(d)
    requires |ps| < U64 && Fit(Flat(ps)) && |qs| < U64 && Fit(Flat(qs))
    requires Buffer(tag, c, ps) == Buffer(other, d, qs)
    ensures tag == other && c.vName.language == d.vName.language && c.argument == d.argument && ps == qs
  {
    hide Word64, Str, Strs, Flat, Fit, List;
    var x3, y3 := Word64(|ps|) + Strs(Flat(ps)), Word64(|qs|) + Strs(Flat(qs));
    var x2, y2 := List(c.argument) + x3, List(d.argument) + y3;
    var x1, y1 := Str(c.vName.language) + x2, Str(d.vName.language) + y2;
    WordSplits(SchemaVersion, SchemaVersion, Str(tag) + x1, Str(other) + y1);
    StrSplits(tag, other, x1, y1);
    StrSplits(c.vName.language, d.vName.language, x2, y2);
    ListSplits(c.argument, d.argument, x3, y3);
    PairsSplit(ps, qs);
  }

  lemma ListSplits(ss: seq<Text>, ts: seq<Text>, x: seq<byte>, y: seq<byte>)
    requires |ss| < U64 && |ts| < U64 && Fit(ss) && Fit(ts) && List(ss) + x == List(ts) + y
    ensures ss == ts && x == y
  {
    hide Word64, Strs, Fit;
    assert List(ss) + x == Word64(|ss|) + (Strs(ss) + x) && List(ts) + y == Word64(|ts|) + (Strs(ts) + y);
    WordSplits(|ss|, |ts|, Strs(ss) + x, Strs(ts) + y);
    StrsSplit(ss, ts, x, y);
  }

  lemma PairsSplit(ps: seq<Pair>, qs: seq<Pair>)
    requires |ps| < U64 && |qs| < U64 && Fit(Flat(ps)) && Fit(Flat(qs))
    requires Word64(|ps|) + Strs(Flat(ps)) == Word64(|qs|) + Strs(Flat(qs))
    ensures ps == qs
  {
    FlatLength(ps, qs);
    hide Word64, Strs, Flat, Fit;
    WordSplits(|ps|, |qs|, Strs(Flat(ps)), Strs(Flat(qs)));
    assert Strs(Flat(ps)) + [] == Strs(Flat(ps)) && Strs(Flat(qs)) + [] == Strs(Flat(qs));
    StrsSplit(Flat(ps), Flat(qs), [], []);
    FlatInjective(ps, qs);
  }

  lemma FlatLength(ps: seq<Pair>, qs: seq<Pair>)
    ensures |ps| == |qs| ==> |Flat(ps)| == |Flat(qs)|
  {
  }

  /** Two units feed the hash the same bytes if and only if they have the same indexer tag, the
      same language, the same arguments in order and the same set of (path, digest) inputs,
      whatever the order or repetition of the inputs. */
  lemma DigestIff(tag: Text, c: CompilationUnit, other: Text, d: CompilationUnit, x: seq<byte>, y: seq<byte>)
    requires |tag| < U64 && |other| < U64 && UnitFits(c) && UnitFits(d) && IsDigest(tag, c, x) && IsDigest(other, d, y)
    ensures x == y <==> tag == other && c.vName.language == d.vName.language && c.argument == d.argument && InputSet(c) == InputSet(d)
  {
    hide Fit, Enumerates, Flat;
    var ps :| Enumerates(ps, c) && Fit(Flat(ps)) && |ps| < U64 && x == Buffer(tag, c, ps);
    var qs :| Enumerates(qs, d) && Fit(Flat(qs)) && |qs| < U64 && y == Buffer(other, d, qs);
    SameInputs(ps, qs, c, d);
    if x == y { BufferInjective(tag, c, ps, other, d, qs); }
  }

  lemma {:induction false} LittleZeros(w: nat)
    requires 0 < Pow256(w)
    ensures Little(w, 0) == Zeros(w)
  {
    if w > 0 { LittleZeros(w - 1); }
  }

  lemma VersionWord()
    ensures Word64(SchemaVersion) == [2, 0, 0, 0, 0, 0, 0, 0]
  {
    PowValues();
    assert Little(8, 2) == [2] + Little(7, 0);
    LittleZeros(7);
  }

  /** The buffer opens with the schema version, the indexer tag and the language. */
  lemma DigestStarts(tag: Text, c: CompilationUnit, buf: seq<byte>)
    requires |tag| < U64 && UnitFits(c) && IsDigest(tag, c, buf)
    ensures [2, 0, 0, 0, 0, 0, 0, 0] + Str(tag) + Str(c.vName.language) <= buf
  {
    VersionWord();
    hide Word64, Str, Strs, Flat, Fit, List, Enumerates;
    var ps :| Enumerates(ps, c) && Fit(Flat(ps)) && |ps| < U64 && buf == Buffer(tag, c, ps);
    assert buf == [2, 0, 0, 0, 0, 0, 0, 0] + Str(tag) + Str(c.vName.language) + (List(c.argument) + (Word64(|ps|) + Strs(Flat(ps))));
  }
}
