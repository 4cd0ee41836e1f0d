/** The protobuf wire format as the kzip reader and writer use it ("Base 128 Varints" and
    "Length-Delimited Records" of the Protocol Buffers Encoding specification). */
module Wire {
  import opened Bytes
  import Varint

  /** A length-delimited record. */
  datatype Field = Field(num: nat, payload: seq<byte>)

  const WireLen: nat := 2

  /** What fits: field numbers below 2^29 and lengths below 2^64. */
  predicate FieldOk(f: Field)
  {
    f.num < 0x2000_0000 && |f.payload| < U64
  }

  // ---------------------------------------------------------------- writing

  function EncodeField(f: Field): (r: seq<byte>)
  {
    Varint.Encode(8 * f.num + WireLen) + Varint.Encode(|f.payload|) + f.payload
  }

  function EncodeFields(fs: seq<Field>): (r: seq<byte>)
  {
    if fs == [] then [] else EncodeField(fs[0]) + EncodeFields(fs[1..])
  }

  /** `write_tag_len`. */
  method WriteTagLen(num: nat, data: seq<byte>, out: seq<byte>) returns (r: seq<byte>)
    ensures r == out + EncodeField(Field(num, data))
  {
    r := Varint.Write(out, 8 * num + WireLen);
    r := Varint.Write(r, |data|);
    r := r + data;
    assert r == out + (Varint.Encode(8 * num + WireLen) + Varint.Encode(|data|) + data);
  }

  // ---------------------------------------------------------------- reading a word

  /** A varint of at most ten bytes, as a 64-bit word. */
  function Word(buf: seq<byte>, pos: nat): (r: Option<(nat, nat)>)
    requires pos <= |buf|
    ensures r.Some? ==> 1 <= r.value.1 <= |buf| - pos && r.value.0 < U64
  {
    var d := Varint.Decode(buf, pos);
    if d.None? || d.value.1 > 10 then None else Some((d.value.0 % U64, d.value.1))
  }

  lemma WordEncoded(buf: seq<byte>, pos: nat, v: nat)
    requires v < U64 && Varint.BytesAt(buf, pos, Varint.Encode(v))
    ensures Word(buf, pos) == Some((v, |Varint.Encode(v)|))
  {
    hide Varint.Decode, Varint.Encode;
    Varint.DecodeEncode(buf, pos, v);
    Varint.WordLength(v);
  }

  lemma AddMod(full: nat, add: nat)
    ensures (full % U64 + add) % U64 == (full + add) % U64
  {
    assert full == U64 * (full / U64) + full % U64;
  }

  /** `read_varint_bytes` and `peek_varint`: ten rounds at most; a shifted group that runs
      past bit 63 loses its high bits. */
  method ReadWord(buf: seq<byte>, pos: nat) returns (r: Option<(nat, nat)>)
    requires pos <= |buf|
    ensures r == Word(buf, pos)
  {
    var val: nat, unit: nat := 0, 1;
    ghost var full: nat := 0;
    hide Varint.Decode;
    for i := 0 to 10
      invariant pos + i <= |buf| && unit >= 1 && val == full % U64
      invariant MoreSoFar(buf, pos, i, full, unit)
    {
      if pos + i >= |buf| {
        MoreEnds(buf, pos, i, full, unit);
        return None;
      }
      var b := buf[pos + i];
      AddMod(full, unit * (b % 128));
      MoreStep(buf, pos, i, full, unit);
      val := (val + unit * (b % 128)) % U64;
      if b < 128 { return Some((val, i + 1)); }
      full := full + unit * (b % 128);
      unit := unit * 128;
    }
    MoreEnds(buf, pos, 10, full, unit);
    return None;
  }

  /** After `i` continuation bytes worth `full`, what the whole varint at `pos` is. */
  ghost predicate MoreSoFar(buf: seq<byte>, pos: nat, i: nat, full: nat, unit: nat)
    requires pos + i <= |buf|
  {
    var whole, rest := Varint.Decode(buf, pos), Varint.Decode(buf, pos + i);
    (whole.Some? <==> rest.Some?) && (whole.Some? ==> whole.value == (full + unit * rest.value.0, i + rest.value.1))
  }

  lemma MoreStep(buf: seq<byte>, pos: nat, i: nat, full: nat, unit: nat)
    requires pos + i < |buf| && MoreSoFar(buf, pos, i, full, unit)
    ensures var b := buf[pos + i];
      if b >= 128 then MoreSoFar(buf, pos, i + 1, full + unit * (b % 128), unit * 128)
      else Varint.Decode(buf, pos) == Some((full + unit * (b % 128), i + 1))
  {
    var b := buf[pos + i];
    if b >= 128 && Varint.Decode(buf, pos + i + 1).Some? {
      Varint.ShiftStep(full, unit, b - 128, Varint.Decode(buf, pos + i + 1).value.0);
    }
  }

  lemma MoreEnds(buf: seq<byte>, pos: nat, i: nat, full: nat, unit: nat)
    requires pos + i <= |buf| && MoreSoFar(buf, pos, i, full, unit)
    ensures pos + i == |buf| || i >= 10 ==> Word(buf, pos) == None
  {
  }

  // ---------------------------------------------------------------- reading records

  function TagNum(tag: nat): nat
  {
    tag / 8 % U32
  }

  function TagWire(tag: nat): nat
  {
    tag % 8
  }

  lemma TagParts(num: nat)
    requires num < 0x2000_0000
    ensures TagNum(8 * num + WireLen) == num && TagWire(8 * num + WireLen) == WireLen && 8 * num + WireLen < U64
  {
  }

  /** Header and payload at `pos`, and where the next record starts. Anything that is not a
      length-delimited record within the buffer is an error. */
  function ReadField(buf: seq<byte>, pos: nat): (r: Option<(Field, nat)>)
    requires pos <= |buf|
    ensures r.Some? ==> pos < r.value.1 <= |buf|
  {
    match Word(buf, pos)
    case None => None
    case Some((tag, n)) =>
      if TagWire(tag) != WireLen then None
      else
        match Word(buf, pos + n)
        case None => None
        case Some((len, m)) =>
          var start := pos + n + m;
          if start + len > |buf| then None
          else Some((Field(TagNum(tag), buf[start..start + len]), start + len))
  }

  lemma SliceAt(buf: seq<byte>, pos: nat, a: seq<byte>, b: seq<byte>)
    requires Varint.BytesAt(buf, pos, a + b)
    ensures Varint.BytesAt(buf, pos, a) && Varint.BytesAt(buf, pos + |a|, b)
  {
    assert buf[pos..pos + |a|] == buf[pos..pos + |a + b|][..|a|];
    assert buf[pos + |a|..pos + |a| + |b|] == buf[pos..pos + |a + b|][|a|..];
  }

  /** Where the parts of an encoded record are, and what they read as. */
  lemma HeaderEncoded(buf: seq<byte>, pos: nat, f: Field)
    requires FieldOk(f) && Varint.BytesAt(buf, pos, EncodeField(f))
    ensures var n, m := |Varint.Encode(8 * f.num + WireLen)|, |Varint.Encode(|f.payload|)|;
      && |EncodeField(f)| == n + m + |f.payload| && pos + |EncodeField(f)| <= |buf|
      && Word(buf, pos) == Some((8 * f.num + WireLen, n)) && Word(buf, pos + n) == Some((|f.payload|, m))
      && buf[pos + n + m..pos + n + m + |f.payload|] == f.payload
  {
    hide Word;
    var t, l := Varint.Encode(8 * f.num + WireLen), Varint.Encode(|f.payload|);
    hide Varint.Encode;
    TagParts(f.num);
    SliceAt(buf, pos, t + l, f.payload);
    SliceAt(buf, pos, t, l);
    WordEncoded(buf, pos, 8 * f.num + WireLen);
    WordEncoded(buf, pos + |t|, |f.payload|);
  }

  /** An encoded record reads back, wherever it sits. */
  lemma ReadEncoded(buf: seq<byte>, pos: nat, f: Field)
    requires FieldOk(f) && Varint.BytesAt(buf, pos, EncodeField(f))
    ensures ReadField(buf, pos) == Some((f, pos + |EncodeField(f)|))
  {
    hide Word, EncodeField, Varint.BytesAt, TagNum, TagWire, Varint.Encode;
    HeaderEncoded(buf, pos, f);
    TagParts(f.num);
  }

  /** Folding a message's records into a value, record by record. */
  function FoldFrom<T>(set1: (T, Field) -> Option<T>, acc: T, buf: seq<byte>, pos: nat): (r: Option<T>)
    requires pos <= |buf|
    decreases |buf| - pos
  {
    if pos == |buf| then Some(acc)
    else
      match ReadField(buf, pos)
      case None => None
      case Some((f, next)) =>
        match set1(acc, f)
        case None => None
        case Some(acc') => FoldFrom(set1, acc', buf, next)
  }

  /** `read_field_header` and `take`. */
  method ReadFieldAt(buf: seq<byte>, pos: nat) returns (r: Option<(Field, nat)>)
    requires pos <= |buf|
    ensures r == ReadField(buf, pos)
  {
    hide Word;
    var tag := ReadWord(buf, pos);
    if tag == None || TagWire(tag.value.0) != WireLen { return None; }
    var at := pos + tag.value.1;
    var len := ReadWord(buf, at);
    if len == None || at + len.value.1 + len.value.0 > |buf| { return None; }
    var start := at + len.value.1;
    var end := start + len.value.0;
    r := Some((Field(TagNum(tag.value.0), buf[start..end]), end));
  }

  /** The loop every `parse_*` runs: header, payload, store. */
  method ParseMessage<T>(set1: (T, Field) -> Option<T>, blank: T, buf: seq<byte>) returns (r: Option<T>)
    ensures r == FoldFrom(set1, blank, buf, 0)
  {
    hide ReadField;
    var out, pos := blank, 0;
    while pos < |buf|
      invariant 0 <= pos <= |buf|
      invariant FoldFrom(set1, blank, buf, 0) == FoldFrom(set1, out, buf, pos)
    {
      var field := ReadFieldAt(buf, pos);
      if field.None? { return None; }
      var next := set1(out, field.value.0);
      if next.None? { return None; }
      out, pos := next.value, field.value.1;
    }
    r := Some(out);
  }

  function FoldFields<T>(set1: (T, Field) -> Option<T>, acc: T, fs: seq<Field>): (r: Option<T>)
  {
    if fs == [] then Some(acc)
    else
      match set1(acc, fs[0])
      case None => None
      case Some(acc') => FoldFields(set1, acc', fs[1..])
  }

  ghost predicate FieldsOk(fs: seq<Field>)
  {
    forall i :: 0 <= i < |fs| ==> FieldOk(fs[i])
  }

  lemma TailIs(buf: seq<byte>, pos: nat, e: seq<byte>, rest: seq<byte>)
    requires pos <= |buf| && buf[pos..] == e + rest
    ensures Varint.BytesAt(buf, pos, e) && pos + |e| <= |buf| && buf[pos + |e|..] == rest
  {
    assert buf[pos..pos + |e|] == buf[pos..][..|e|] == e;
    assert buf[pos + |e|..] == buf[pos..][|e|..] == rest;
  }

  /** Parsing an encoding folds exactly the records that were encoded. */
  lemma {:induction false} FoldEncoded<T>(set1: (T, Field) -> Option<T>, acc: T, buf: seq<byte>, pos: nat, fs: seq<Field>)
    requires pos <= |buf| && FieldsOk(fs) && buf[pos..] == EncodeFields(fs)
    ensures FoldFrom(set1, acc, buf, pos) == FoldFields(set1, acc, fs)
    decreases |fs|
  {
    hide ReadField, EncodeField;
    if fs != [] {
      var e := EncodeField(fs[0]);
      TailIs(buf, pos, e, EncodeFields(fs[1..]));
      ReadEncoded(buf, pos, fs[0]);
      NonEmpty(fs[0]);
      var next := set1(acc, fs[0]);
      if next.Some? { FoldEncoded(set1, next.value, buf, pos + |e|, fs[1..]); }
    }
  }

  lemma NonEmpty(f: Field)
    ensures |EncodeField(f)| >= 2 + |f.payload|
  {
  }

  lemma {:induction false} FoldConcat<T>(set1: (T, Field) -> Option<T>, acc: T, a: seq<Field>, b: seq<Field>)
    ensures FoldFields(set1, acc, a + b) ==
      (var mid := FoldFields(set1, acc, a); if mid.Some? then FoldFields(set1, mid.value, b) else None)
  {
    if a == [] {
      assert a + b == b;
    } else {
      assert (a + b)[1..] == a[1..] + b;
      var next := set1(acc, a[0]);
      if next.Some? { FoldConcat(set1, next.value, a[1..], b); }
    }
  }

  lemma {:induction false} PayloadsFit(fs: seq<Field>, i: nat)
    requires i < |fs|
    ensures |fs[i].payload| <= |EncodeFields(fs)|
  {
    NonEmpty(fs[0]);
    if i > 0 { PayloadsFit(fs[1..], i - 1); }
  }

  // ---------------------------------------------------------------- finding one record

  /** `skip_proto_field`. */
  function Skip(buf: seq<byte>, pos: nat, wire: nat): (r: Option<nat>)
    requires pos <= |buf|
    ensures r.Some? ==> pos <= r.value <= |buf|
  {
    match wire
    case 0 => (var w := Word(buf, pos); if w.None? then None else Some(pos + w.value.1))
    case 1 => if pos + 8 <= |buf| then Some(pos + 8) else None
    case 2 =>
      (var w := Word(buf, pos);
       if w.None? || pos + w.value.1 + w.value.0 > |buf| then None else Some(pos + w.value.1 + w.value.0))
    case 5 => if pos + 4 <= |buf| then Some(pos + 4) else None
    case _ => None
  }

  function Min(a: nat, b: nat): nat
  {
    if a <= b then a else b
  }

  function FindFrom(buf: seq<byte>, pos: nat, target: nat): (r: Option<seq<byte>>)
    requires pos <= |buf|
    decreases |buf| - pos
  {
    if pos == |buf| then None
    else
      match Word(buf, pos)
      case None => None
      case Some((tag, n)) =>
        var at := pos + n;
        if TagNum(tag) == target && TagWire(tag) == WireLen then
          match Word(buf, at)
          case None => None
          case Some((len, m)) => if at + m + len >= U64 then None else Some(buf[at + m..Min(at + m + len, |buf|)])
        else
          match Skip(buf, at, TagWire(tag))
          case None => None
          case Some(next) => FindFrom(buf, next, target)
  }

  /** `find_field_ld_truncating`. */
  method FindField(buf: seq<byte>, target: nat) returns (r: Option<seq<byte>>)
    ensures r == FindFrom(buf, 0, target)
  {
    var cur := 0;
    while cur < |buf|
      invariant 0 <= cur <= |buf| && FindFrom(buf, 0, target) == FindFrom(buf, cur, target)
    {
      var tag := ReadWord(buf, cur);
      if tag == None { return None; }
      var at := cur + tag.value.1;
      if TagNum(tag.value.0) == target && TagWire(tag.value.0) == WireLen {
        var len := ReadWord(buf, at);
        if len == None { return None; }
        var start := at + len.value.1;
        if start + len.value.0 >= U64 { return None; }
        return Some(buf[start..Min(start + len.value.0, |buf|)]);
      }
      var next := Skip(buf, at, TagWire(tag.value.0));
      if next == None { return None; }
      cur := next.value;
    }
    return None;
  }

  /** The payload of the first record with the number. */
  function FirstWith(fs: seq<Field>, target: nat): (r: Option<seq<byte>>)
  {
    if fs == [] then None else if fs[0].num == target then Some(fs[0].payload) else FirstWith(fs[1..], target)
  }

  lemma FindHit(buf: seq<byte>, pos: nat, f: Field)
    requires FieldOk(f) && Varint.BytesAt(buf, pos, EncodeField(f)) && |buf| < U64
    ensures FindFrom(buf, pos, f.num) == Some(f.payload)
  {
    hide Word, EncodeField, Varint.BytesAt, TagNum, TagWire, Varint.Encode;
    HeaderEncoded(buf, pos, f);
    TagParts(f.num);
  }

  lemma FindMiss(buf: seq<byte>, pos: nat, f: Field, target: nat)
    requires FieldOk(f) && Varint.BytesAt(buf, pos, EncodeField(f)) && f.num != target
    ensures FindFrom(buf, pos, target) == FindFrom(buf, pos + |EncodeField(f)|, target)
  {
    hide Word, EncodeField, Varint.BytesAt, TagNum, TagWire, Varint.Encode;
    HeaderEncoded(buf, pos, f);
    TagParts(f.num);
  }

  lemma FindAtEnd(buf: seq<byte>, target: nat)
    ensures FindFrom(buf, |buf|, target) == None
  {
  }

  /** On an encoding, the truncating walk finds exactly the first such record. */
  lemma {:induction false} FindEncoded(buf: seq<byte>, pos: nat, fs: seq<Field>, target: nat)
    requires pos <= |buf| < U64 && FieldsOk(fs) && buf[pos..] == EncodeFields(fs)
    ensures FindFrom(buf, pos, target) == FirstWith(fs, target)
    decreases |fs|
  {
    hide FindFrom, EncodeField, FieldOk, Varint.BytesAt;
    FindAtEnd(buf, target);
    if fs == [] {
      assert pos == |buf|;
    } else {
      var e, rest := EncodeField(fs[0]), EncodeFields(fs[1..]);
      TailIs(buf, pos, e, rest);
      if fs[0].num == target { FindHit(buf, pos, fs[0]); }
      else {
        FindMiss(buf, pos, fs[0], target);
        FindEncoded(buf, pos + |e|, fs[1..], target);
      }
    }
  }

  lemma {:induction false} FirstConcat(a: seq<Field>, b: seq<Field>, target: nat)
    ensures FirstWith(a + b, target) == if FirstWith(a, target).Some? then FirstWith(a, target) else FirstWith(b, target)
  {
    if a == [] {
      assert a + b == b;
    } else {
      assert (a + b)[1..] == a[1..] + b;
      FirstConcat(a[1..], b, target);
    }
  }
}
