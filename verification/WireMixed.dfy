/** Messages with records of every wire type, whole or cut off anywhere: what the truncating
    walk finds in them, and which the parser refuses. */
module WireMixed {
  import opened Bytes
  import opened Varint
  import opened Wire

  /** A record: length-delimited, a varint, eight bytes or four. */
  datatype Rec =
    | Ld(num: nat, payload: seq<byte>)
    | Vi(num: nat, value: nat)
    | F64(num: nat, bytes: seq<byte>)
    | F32(num: nat, bytes: seq<byte>)

  ghost predicate RecOk(r: Rec)
  {
    r.num < 0x2000_0000 &&
    match r
    case Ld(_, payload) => |payload| < U64
    case Vi(_, value) => value < U64
    case F64(_, bytes) => |bytes| == 8
    case F32(_, bytes) => |bytes| == 4
  }

  function WireOf(r: Rec): nat
  {
    match r case Vi(_, _) => 0 case F64(_, _) => 1 case Ld(_, _) => 2 case F32(_, _) => 5
  }

  function Tag(r: Rec): seq<byte>
  {
    Encode(8 * r.num + WireOf(r))
  }

  function Content(r: Rec): seq<byte>
  {
    match r
    case Ld(_, payload) => Encode(|payload|) + payload
    case Vi(_, value) => Encode(value)
    case F64(_, bytes) => bytes
    case F32(_, bytes) => bytes
  }

  function EncodeRec(r: Rec): seq<byte>
  {
    Tag(r) + Content(r)
  }

  function EncodeRecs(rs: seq<Rec>): seq<byte>
  {
    if rs == [] then [] else EncodeRec(rs[0]) + EncodeRecs(rs[1..])
  }

  ghost predicate RecsOk(rs: seq<Rec>)
  {
    forall i :: 0 <= i < |rs| ==> RecOk(rs[i])
  }

  // ---------------------------------------------------------------- words, whole and cut

  lemma TagIs(r: Rec)
    requires RecOk(r)
    ensures var tag := 8 * r.num + WireOf(r); tag < U64 && TagNum(tag) == r.num && TagWire(tag) == WireOf(r)
  {
  }

  /** What is left of the buffer starts with the encoding. */
  lemma WordWhole(buf: seq<byte>, pos: nat, v: nat)
    requires pos <= |buf| && v < U64 && Encode(v) <= buf[pos..]
    ensures Word(buf, pos) == Some((v, |Encode(v)|))
  {
    assert buf[pos..pos + |Encode(v)|] == buf[pos..][..|Encode(v)|];
    WordEncoded(buf, pos, v);
  }

  lemma {:induction false} DecodeCut(buf: seq<byte>, pos: nat, v: nat)
    requires pos <= |buf| && |buf| - pos < |Encode(v)| && buf[pos..] <= Encode(v)
    ensures Decode(buf, pos) == None
    decreases v
  {
    var e := Encode(v);
    if pos < |buf| {
      assert buf[pos] == buf[pos..][0] == e[0];
      assert v >= 128;
      assert buf[pos + 1..] == buf[pos..][1..] && Encode(v / 128) == e[1..];
      assert buf[pos..] == e[..|buf| - pos];
      assert buf[pos + 1..] == e[1..][..|buf| - pos - 1];
      DecodeCut(buf, pos + 1, v / 128);
    }
  }

  /** The buffer ends inside the encoding. */
  lemma WordCut(buf: seq<byte>, pos: nat, v: nat)
    requires pos <= |buf| && |buf| - pos < |Encode(v)| && buf[pos..] <= Encode(v)
    ensures Word(buf, pos) == None
  {
    DecodeCut(buf, pos, v);
  }

  /** What follows a prefix of the rest. */
  lemma After(buf: seq<byte>, pos: nat, a: seq<byte>, b: seq<byte>)
    requires pos <= |buf| && buf[pos..] <= a + b && |buf| - pos >= |a|
    ensures a <= buf[pos..] && buf[pos + |a|..] <= b && |buf| - (pos + |a|) == |buf[pos..]| - |a|
  {
    var rest := buf[pos..];
    assert rest == (a + b)[..|rest|];
    assert rest[..|a|] == a && rest[|a|..] == b[..|rest| - |a|];
    assert buf[pos + |a|..] == rest[|a|..];
  }

  lemma Inside(buf: seq<byte>, pos: nat, a: seq<byte>, b: seq<byte>)
    requires pos <= |buf| && buf[pos..] <= a + b && |buf| - pos < |a|
    ensures buf[pos..] <= a
  {
    var rest := buf[pos..];
    assert rest == (a + b)[..|rest|] == a[..|rest|];
  }

  // ---------------------------------------------------------------- one record

  lemma Clipped(buf: seq<byte>, at: nat, p: seq<byte>, more: seq<byte>)
    requires at <= |buf| && buf[at..] <= p + more
    ensures buf[at..Min(at + |p|, |buf|)] == p[..Min(|p|, |buf| - at)]
  {
    var rest := buf[at..];
    assert rest == (p + more)[..|rest|];
    assert buf[at..Min(at + |p|, |buf|)] == rest[..Min(|p|, |rest|)];
  }

  /** The length of a record and as much of the payload as there is. */
  lemma LengthRead(buf: seq<byte>, at: nat, p: seq<byte>, more: seq<byte>)
    requires at <= |buf| && |p| < U64 && buf[at..] <= Encode(|p|) + (p + more)
    ensures |buf| - at < |Encode(|p|)| ==> Word(buf, at) == None
    ensures |buf| - at >= |Encode(|p|)| ==>
      var start := at + |Encode(|p|)|;
      Word(buf, at) == Some((|p|, |Encode(|p|)|)) && buf[start..Min(start + |p|, |buf|)] == p[..Min(|p|, |buf| - start)]
  {
    hide Encode, Word;
    if |buf| - at >= |Encode(|p|)| {
      After(buf, at, Encode(|p|), p + more);
      WordWhole(buf, at, |p|);
      Clipped(buf, at + |Encode(|p|)|, p, more);
    } else {
      Inside(buf, at, Encode(|p|), p + more);
      WordCut(buf, at, |p|);
    }
  }

  /** The tag of a record that is there at least in part. */
  lemma TagRead(buf: seq<byte>, pos: nat, r: Rec, more: seq<byte>)
    requires RecOk(r) && pos <= |buf| && buf[pos..] <= Tag(r) + more
    ensures |buf| - pos >= |Tag(r)| ==> Word(buf, pos) == Some((8 * r.num + WireOf(r), |Tag(r)|)) && buf[pos + |Tag(r)|..] <= more
    ensures |buf| - pos < |Tag(r)| ==> Word(buf, pos) == None
  {
    hide Encode, Word;
    TagIs(r);
    if |buf| - pos >= |Tag(r)| {
      After(buf, pos, Tag(r), more);
      WordWhole(buf, pos, 8 * r.num + WireOf(r));
    } else {
      Inside(buf, pos, Tag(r), more);
      WordCut(buf, pos, 8 * r.num + WireOf(r));
    }
  }

  /** Skipping what follows the tag: past it if it is all there. */
  lemma SkipContent(buf: seq<byte>, at: nat, r: Rec, more: seq<byte>)
    requires RecOk(r) && at <= |buf| && buf[at..] <= Content(r) + more
    ensures Skip(buf, at, WireOf(r)) == if |buf| - at >= |Content(r)| then Some(at + |Content(r)|) else None
  {
    hide Encode, Word;
    match r
    case Vi(_, v) =>
      if |buf| - at >= |Encode(v)| { After(buf, at, Encode(v), more); WordWhole(buf, at, v); }
      else { Inside(buf, at, Encode(v), more); WordCut(buf, at, v); }
    case F64(_, _) =>
    case F32(_, _) =>
    case Ld(_, p) =>
      assert Content(r) + more == Encode(|p|) + (p + more);
      if |buf| - at >= |Encode(|p|)| { After(buf, at, Encode(|p|), p + more); WordWhole(buf, at, |p|); }
      else { Inside(buf, at, Encode(|p|), p + more); WordCut(buf, at, |p|); }
  }

  // ---------------------------------------------------------------- the truncating walk

  /** What the walk should find in the first `k` bytes of a message: the payload of the first
      length-delimited record with the number, clipped where the bytes end; nothing when they
      end before that record's length does. */
  function FoundIn(rs: seq<Rec>, target: nat, k: nat): Option<seq<byte>>
  {
    if rs == [] then None
    else
      var r := rs[0];
      if r.Ld? && r.num == target then
        var start := |Tag(r)| + |Encode(|r.payload|)|;
        if k < start then None else Some(r.payload[..Min(|r.payload|, k - start)])
      else if k < |EncodeRec(r)| then None
      else FoundIn(rs[1..], target, k - |EncodeRec(r)|)
  }

  /** Length and payload, clipped where the buffer ends. */
  function LdAt(buf: seq<byte>, at: nat): Option<seq<byte>>
    requires at <= |buf|
  {
    match Word(buf, at)
    case None => None
    case Some((len, m)) => if at + m + len >= U64 then None else Some(buf[at + m..Min(at + m + len, |buf|)])
  }

  lemma LdRead(buf: seq<byte>, at: nat, p: seq<byte>, more: seq<byte>)
    requires at <= |buf| && at + |Encode(|p|)| + |p| < U64 && buf[at..] <= Encode(|p|) + (p + more)
    ensures LdAt(buf, at) ==
      if |buf| - at < |Encode(|p|)| then None else Some(p[..Min(|p|, |buf| - at - |Encode(|p|)|)])
  {
    hide Encode, Word;
    LengthRead(buf, at, p, more);
  }

  /** The walk stands on a record it looks for, or before a tag that is cut. */
  lemma FindHere(buf: seq<byte>, pos: nat, target: nat, tag: nat, n: nat)
    requires pos < |buf| && TagNum(tag) == target && TagWire(tag) == WireLen && Word(buf, pos) == Some((tag, n))
    ensures pos + n <= |buf|
    ensures FindFrom(buf, pos, target) == LdAt(buf, pos + n)
  {
    hide Word, TagNum, TagWire, Skip;
  }

  lemma FindNoTag(buf: seq<byte>, pos: nat, target: nat)
    requires pos <= |buf| && Word(buf, pos) == None
    ensures FindFrom(buf, pos, target) == None
  {
    hide Word, TagNum, TagWire, Skip;
  }

  lemma LdParts(r: Rec, more: seq<byte>)
    requires r.Ld?
    ensures EncodeRec(r) + more == Tag(r) + (Encode(|r.payload|) + (r.payload + more))
    ensures |EncodeRec(r)| == |Tag(r)| + |Encode(|r.payload|)| + |r.payload|
  {
  }

  lemma HitOne(buf: seq<byte>, pos: nat, r: Rec, more: seq<byte>)
    requires RecOk(r) && r.Ld? && pos <= |buf| && buf[pos..] <= EncodeRec(r) + more && pos + |EncodeRec(r)| < U64
    ensures var start := |Tag(r)| + |Encode(|r.payload|)|;
      FindFrom(buf, pos, r.num) == if |buf| - pos < start then None else Some(r.payload[..Min(|r.payload|, |buf| - pos - start)])
  {
    TagIs(r);
    assert |r.payload| < U64 && WireOf(r) == WireLen;
    hide Encode, Decode, Word, TagNum, TagWire, WireOf, Tag, EncodeRec, Content, FindFrom, RecOk, LdAt;
    LdParts(r, more);
    TagNotEmpty(r);
    var p, at := r.payload, pos + |Tag(r)|;
    TagRead(buf, pos, r, Encode(|p|) + (p + more));
    if |buf| - pos >= |Tag(r)| {
      LdRead(buf, at, p, more);
      FindHere(buf, pos, r.num, 8 * r.num + WireLen, |Tag(r)|);
    } else {
      FindNoTag(buf, pos, r.num);
    }
  }

  lemma MissOne(buf: seq<byte>, pos: nat, r: Rec, more: seq<byte>, target: nat)
    requires RecOk(r) && !(r.Ld? && r.num == target) && pos <= |buf| && buf[pos..] <= EncodeRec(r) + more
    ensures |buf| - pos < |EncodeRec(r)| ==> FindFrom(buf, pos, target) == None
    ensures |buf| - pos >= |EncodeRec(r)| ==>
      buf[pos + |EncodeRec(r)|..] <= more && FindFrom(buf, pos, target) == FindFrom(buf, pos + |EncodeRec(r)|, target)
  {
    hide Encode, Word, Skip, Content;
    assert EncodeRec(r) + more == Tag(r) + (Content(r) + more);
    TagIs(r);
    TagRead(buf, pos, r, Content(r) + more);
    TagNotEmpty(r);
    if |buf| - pos >= |Tag(r)| {
      SkipContent(buf, pos + |Tag(r)|, r, more);
      if |buf| - pos >= |EncodeRec(r)| { After(buf, pos, EncodeRec(r), more); }
    }
  }

  lemma TagNotEmpty(r: Rec)
    ensures |Tag(r)| >= 1
  {
  }

  /** `find_field_ld_truncating` on any prefix of any message. */
  lemma {:induction false} FindInPrefix(buf: seq<byte>, pos: nat, rs: seq<Rec>, target: nat)
    requires RecsOk(rs) && pos <= |buf| && buf[pos..] <= EncodeRecs(rs) && pos + |EncodeRecs(rs)| < U64
    ensures FindFrom(buf, pos, target) == FoundIn(rs, target, |buf| - pos)
    decreases |rs|
  {
    hide FindFrom, EncodeRec, RecOk, Encode;
    if rs == [] {
      FindAtEnd(buf, target);
    } else {
      var r, more := rs[0], EncodeRecs(rs[1..]);
      if r.Ld? && r.num == target {
        HitOne(buf, pos, r, more);
      } else {
        MissOne(buf, pos, r, more, target);
        if |buf| - pos >= |EncodeRec(r)| { FindInPrefix(buf, pos + |EncodeRec(r)|, rs[1..], target); }
      }
    }
  }

  // ---------------------------------------------------------------- the parser

  /** What parsing the first `k` bytes of a message should give: the fold of its records if they
      all are length-delimited and `k` falls between two of them, and an error otherwise. */
  function ParsedIn<T>(set1: (T, Field) -> Option<T>, acc: T, rs: seq<Rec>, k: nat): Option<T>
  {
    if k == 0 || rs == [] then Some(acc)
    else
      var r := rs[0];
      if !r.Ld? || k < |EncodeRec(r)| then None
      else
        match set1(acc, Field(r.num, r.payload))
        case None => None
        case Some(next) => ParsedIn(set1, next, rs[1..], k - |EncodeRec(r)|)
  }

  lemma ReadOne(buf: seq<byte>, pos: nat, r: Rec, more: seq<byte>)
    requires RecOk(r) && pos < |buf| && buf[pos..] <= EncodeRec(r) + more
    ensures ReadField(buf, pos) ==
      if r.Ld? && |buf| - pos >= |EncodeRec(r)| then Some((Field(r.num, r.payload), pos + |EncodeRec(r)|)) else None
    ensures |buf| - pos >= |EncodeRec(r)| ==> buf[pos + |EncodeRec(r)|..] <= more
  {
    hide Encode, Word, TagNum, TagWire;
    assert EncodeRec(r) + more == Tag(r) + (Content(r) + more);
    TagIs(r);
    TagRead(buf, pos, r, Content(r) + more);
    if |buf| - pos >= |EncodeRec(r)| { After(buf, pos, EncodeRec(r), more); }
    assert r.Ld? ==> r.payload[..|r.payload|] == r.payload;
    if r.Ld? && |buf| - pos >= |Tag(r)| {
      var p, at := r.payload, pos + |Tag(r)|;
      assert Content(r) + more == Encode(|p|) + (p + more);
      LengthRead(buf, at, p, more);
    }
  }

  /** The parser on any prefix of any message. */
  lemma {:induction false} ParsePrefix<T>(set1: (T, Field) -> Option<T>, acc: T, buf: seq<byte>, pos: nat, rs: seq<Rec>)
    requires RecsOk(rs) && pos <= |buf| && buf[pos..] <= EncodeRecs(rs)
    ensures FoldFrom(set1, acc, buf, pos) == ParsedIn(set1, acc, rs, |buf| - pos)
    decreases |rs|
  {
    hide EncodeRec, RecOk, Encode, ReadField;
    if pos < |buf| {
      var r, more := rs[0], EncodeRecs(rs[1..]);
      ReadOne(buf, pos, r, more);
      if r.Ld? && |buf| - pos >= |EncodeRec(r)| {
        var next := set1(acc, Field(r.num, r.payload));
        if next.Some? { ParsePrefix(set1, next.value, buf, pos + |EncodeRec(r)|, rs[1..]); }
      }
    }
  }
}
