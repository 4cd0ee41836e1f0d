/** From a builder to bytes to a query: the finished tables laid out as sections of one file,
    the checks of `open`, and what the queries answer from those bytes. */
module IndexFile {
  import opened Bytes
  import opened Facts
  import opened Builder
  import opened Store
  import opened Image
  import Coalesce
  import Header
  import Keyed
  import Layout
  import Order
  import Stream
  import Tables
  import TrigramSpec

  // ---------------------------------------------------------------- sections as columns

  /** Column widths of the sections in file order; the string blob and the postings are bytes. */
  const Widths: seq<Tables.Schema> :=
    [[8, 1, 4, 4], [8, 1, 1, 8, 2], [8, 2, 8], [4, 8, 2], [8, 8], [8, 8], [8, 8, 1], [8, 8, 1], [8, 8, 2], [8, 8], [8, 8, 2], [1],
     [1, 1, 1, 1, 8, 4, 4], [1]]

  function Cols(rows: seq<Row>): (r: seq<Tables.Cells>)
    ensures |r| == |rows| && forall i :: 0 <= i < |r| ==> r[i] == rows[i].cols
  {
    seq(|rows|, i requires 0 <= i < |rows| => rows[i].cols)
  }

  function StringCells(rows: seq<(nat, Ref)>): (r: seq<Tables.Cells>)
    ensures |r| == |rows|
  {
    seq(|rows|, i requires 0 <= i < |rows| => [rows[i].0, rows[i].1.off, rows[i].1.len])
  }

  function SymCells(rows: seq<SymRow>): (r: seq<Tables.Cells>)
    ensures |r| == |rows|
  {
    seq(|rows|, i requires 0 <= i < |rows| => [rows[i].sym, rows[i].kind, rows[i].lang, rows[i].name.off, rows[i].name.len])
  }

  function NameCells(rows: seq<NameEntry>): (r: seq<Tables.Cells>)
    ensures |r| == |rows|
  {
    seq(|rows|, i requires 0 <= i < |rows| => [rows[i].name.off, rows[i].name.len, rows[i].sym])
  }

  function DictCells(rows: seq<TrigramSpec.DictRow>): (r: seq<Tables.Cells>)
    ensures |r| == |rows|
  {
    seq(|rows|, i requires 0 <= i < |rows| =>
      [rows[i].tri.a, rows[i].tri.b, rows[i].tri.c, 0, rows[i].postOff, rows[i].postLen, rows[i].count])
  }

  function ByteCells(bytes: seq<byte>): (r: seq<Tables.Cells>)
    ensures |r| == |bytes|
  {
    seq(|bytes|, i requires 0 <= i < |bytes| => [bytes[i] as nat])
  }

  /** The rows of section `i`. */
  function Section(t: Image, i: nat): seq<Tables.Cells>
    requires i < 14
  {
    match i
    case 0 => Cols(t.xrefs)
    case 1 => SymCells(t.syms)
    case 2 => NameCells(t.names)
    case 3 => StringCells(t.files)
    case 4 => Cols(t.inherits)
    case 5 => Cols(t.inhrev)
    case 6 => Cols(t.calls)
    case 7 => Cols(t.crev)
    case 8 => StringCells(t.typed)
    case 9 => Cols(t.childrev)
    case 10 => StringCells(t.sig)
    case 11 => ByteCells(t.blob)
    case 12 => DictCells(t.dict)
    case 13 => ByteCells(t.post)
  }

  /** Every number of the file fits its column, and the file's length a word. */
  ghost predicate Encodable(t: Image)
  {
    && (forall i: nat, k | i < 14 && 0 <= k < |Section(t, i)| :: Tables.RowOk(Widths[i], Section(t, i)[k]))
    && Layout.Total(Layout.IndexShapes(Counts(t)), Layout.HeaderLen) < U64
  }

  lemma WidthsAreStrides(i: nat)
    requires i < 14
    ensures Tables.Stride(Widths[i]) == Layout.Strides[i]
  {
    StrideOf(Widths[i]);
  }

  lemma StrideOf(w: Tables.Schema)
    ensures |w| == 1 ==> Tables.Stride(w) == w[0]
    ensures |w| == 2 ==> Tables.Stride(w) == w[0] + w[1]
    ensures |w| == 3 ==> Tables.Stride(w) == w[0] + w[1] + w[2]
    ensures |w| == 4 ==> Tables.Stride(w) == w[0] + w[1] + w[2] + w[3]
    ensures |w| == 5 ==> Tables.Stride(w) == w[0] + w[1] + w[2] + w[3] + w[4]
    ensures |w| == 7 ==> Tables.Stride(w) == w[0] + w[1] + w[2] + w[3] + w[4] + w[5] + w[6]
  {
    if |w| > 1 { StrideOf(w[1..]); }
    if |w| == 7 { StrideOf(w[2..]); assert w[1..][1..] == w[2..]; }
  }

  // ---------------------------------------------------------------- the bytes

  ghost function Counts(t: Image): (r: seq<nat>)
    ensures |r| == 14 && forall i :: 0 <= i < 14 ==> r[i] == |Section(t, i)|
  {
    seq(14, i requires 0 <= i < 14 => |Section(t, i)|)
  }

  /** Section `i` of the file reads as the rows of the image. */
  ghost predicate SectionHolds(file: seq<byte>, p: Layout.Place, t: Image, i: nat)
    requires i < 14 && Encodable(t)
  {
    && p.n == |Section(t, i)| && p.stride == Layout.Strides[i] && p.off + Layout.Size(p) <= |file|
    && Tables.Holds(Widths[i], file[p.off..p.off + Layout.Size(p)], Section(t, i))
  }

  ghost predicate FileHolds(file: seq<byte>, ps: seq<Layout.Place>, t: Image)
  {
    && Encodable(t) && Header.Known(file) && Header.Names(file, ps)
    && ps == Layout.Places(Layout.IndexShapes(Counts(t)), Layout.HeaderLen)
    && |file| == Layout.Total(Layout.IndexShapes(Counts(t)), Layout.HeaderLen)
    && forall i | 0 <= i < 14 :: SectionHolds(file, ps[i], t, i)
  }

  ghost predicate Encoded(s: Layout.Section, t: Image, i: nat)
    requires i < 14 && Encodable(t)
  {
    && s.0 == |Section(t, i)| && s.1 == Layout.Strides[i] && |s.2| == s.0 * s.1
    && Tables.Holds(Widths[i], s.2, Section(t, i))
  }

  method EncodeSection(t: Image, i: nat) returns (s: Layout.Section)
    requires Encodable(t) && i < 14
    ensures Encoded(s, t, i)
  {
    WidthsAreStrides(i);
    assert forall k :: 0 <= k < |Section(t, i)| ==> Tables.RowOk(Widths[i], Section(t, i)[k]);
    hide Section, Tables.RowOk, Tables.RowBytes, Encodable, Tables.Stride;
    var bytes := Tables.WriteTable(Widths[i], Section(t, i));
    s := (|Section(t, i)|, Layout.Strides[i], bytes);
  }

  /** Lay every section out as bytes, in file order. */
  method EncodeSections(t: Image) returns (sections: seq<Layout.Section>)
    requires Encodable(t)
    ensures |sections| == 14 && Layout.SectionsOk(sections) && forall i | 0 <= i < 14 :: Encoded(sections[i], t, i)
  {
    hide Encodable, Encoded;
    sections := [];
    for i := 0 to 14
      invariant |sections| == i && forall k | 0 <= k < i :: Encoded(sections[k], t, k)
    {
      var one := EncodeSection(t, i);
      sections := sections + [one];
    }
    forall i | 0 <= i < 14 ensures |sections[i].2| == sections[i].0 * sections[i].1 { EncodedSize(sections[i], t, i); }
  }

  lemma EncodedSize(s: Layout.Section, t: Image, i: nat)
    requires i < 14 && Encodable(t) && Encoded(s, t, i)
    ensures |s.2| == s.0 * s.1
  {
  }

  ghost function PlacesFor(t: Image): (ps: seq<Layout.Place>)
    ensures |ps| == 14
  {
    Layout.Places(Layout.IndexShapes(Counts(t)), Layout.HeaderLen)
  }

  /** The header of an image's file. */
  method EncodeHeader(t: Image) returns (header: seq<byte>)
    requires Encodable(t)
    ensures |header| == Layout.HeaderLen && Header.Known(header) && Header.Names(header, PlacesFor(t))
  {
    PlacesFit(t);
    hide Section, Encodable, Layout.Places, Header.Known, Header.Names, Header.Wordable;
    var counts := seq(14, i requires 0 <= i < 14 => |Section(t, i)|);
    assert counts == Counts(t);
    header := Header.Write(Layout.Places(Layout.IndexShapes(counts), Layout.HeaderLen));
  }

  /** The file of an image. */
  method Encode(t: Image) returns (file: seq<byte>, ghost ps: seq<Layout.Place>)
    requires Encodable(t)
    ensures FileHolds(file, ps, t)
  {
    hide Section, Encodable, Layout.Places, Layout.Total, Header.Known, Header.Names, FileHolds, Encoded, Layout.Sits;
    var sections := EncodeSections(t);
    var header := EncodeHeader(t);
    file, ps := Layout.WriteFile(header, sections);
    SameShapes(sections, t);
    Header.NamesPrefix(header, file, ps);
    AllHold(file, ps, sections, t);
  }

  lemma SameShapes(sections: seq<Layout.Section>, t: Image)
    requires Encodable(t) && |sections| == 14 && forall i | 0 <= i < 14 :: Encoded(sections[i], t, i)
    ensures Layout.Shapes(sections) == Layout.IndexShapes(Counts(t))
  {
    hide Section, Tables.Holds, Encodable;
  }

  lemma AllHold(file: seq<byte>, ps: seq<Layout.Place>, sections: seq<Layout.Section>, t: Image)
    requires Encodable(t) && |sections| == 14 && forall i | 0 <= i < 14 :: Encoded(sections[i], t, i)
    requires ps == PlacesFor(t) && forall i :: 0 <= i < 14 ==> Layout.Sits(file, ps[i], sections[i].2)
    requires Header.Known(file) && Header.Names(file, ps)
    requires |file| == Layout.Total(Layout.IndexShapes(Counts(t)), Layout.HeaderLen)
    ensures FileHolds(file, ps, t)
  {
    hide Section, Tables.Holds, Encodable, Layout.Places, Layout.Total, Layout.Sits, Header.Known, Header.Names;
    forall i | 0 <= i < 14 ensures SectionHolds(file, ps[i], t, i) {
      PlaceShape(Layout.IndexShapes(Counts(t)), Layout.HeaderLen, i);
      Sitting(file, ps[i], sections[i].2);
    }
  }

  /** Offsets and counts fit the header's words. */
  lemma PlacesFit(t: Image)
    requires Encodable(t)
    ensures Header.Wordable(Layout.Places(Layout.IndexShapes(Counts(t)), Layout.HeaderLen))
  {
    hide Section, Tables.RowOk, Layout.Places, Layout.Total;
    var shapes := Layout.IndexShapes(Counts(t));
    Layout.PlacesAreWellPlaced(shapes, Layout.HeaderLen);
    var ps := Layout.Places(shapes, Layout.HeaderLen);
    forall i | 0 <= i < 14 ensures ps[i].off < U64 && ps[i].n < U64 && ps[i].stride == Layout.Strides[i] {
      PlaceShape(shapes, Layout.HeaderLen, i);
      SizeCovers(ps[i]);
    }
  }

  lemma SizeCovers(p: Layout.Place)
    requires p.stride >= 1
    ensures p.n <= Layout.Size(p)
  {
    assert p.n * p.stride == p.n + p.n * (p.stride - 1);
  }

  lemma {:induction false} PlaceShape(shapes: seq<(nat, nat)>, from: nat, i: nat)
    requires i < |shapes|
    ensures Layout.Places(shapes, from)[i].n == shapes[i].0 && Layout.Places(shapes, from)[i].stride == shapes[i].1
    decreases |shapes|
  {
    if i > 0 { PlaceShape(shapes[1..], Layout.PadUp(from) + shapes[0].0 * shapes[0].1, i - 1); }
  }

  lemma Sitting(file: seq<byte>, p: Layout.Place, data: seq<byte>)
    requires Layout.Sits(file, p, data)
    ensures p.off + |data| <= |file| && file[p.off..p.off + |data|] == data
  {
  }

  /** A file so written opens, and its header leads to its sections. */
  method Open(file: seq<byte>, ghost ps: seq<Layout.Place>, ghost t: Image) returns (places: seq<Layout.Place>)
    requires FileHolds(file, ps, t)
    ensures places == ps
  {
    Inside(file, ps, t);
    hide FileHolds, Header.Known, Header.PlacesOf, Header.AllInside;
    var found := Header.Open(file);
    places := found.places;
  }

  lemma Inside(file: seq<byte>, ps: seq<Layout.Place>, t: Image)
    requires FileHolds(file, ps, t)
    ensures Header.Known(file) && Header.Names(file, ps)
    ensures Header.AllInside(ps, |file|)
  {
    hide SectionHolds, Layout.Places, Layout.Total, Section, Header.Known, Header.Names, Tables.RowOk;
    Layout.PlacesAreWellPlaced(Layout.IndexShapes(Counts(t)), Layout.HeaderLen);
  }

  // ---------------------------------------------------------------- queries on the bytes

  /** Plain rows in order: their columns are a sorted table. */
  lemma SortedCells(rows: seq<Row>, w: Tables.Schema)
    requires Order.Ascending(RowLess, rows) && (forall i :: 0 <= i < |rows| ==> rows[i].text == [])
    requires forall i :: 0 <= i < |rows| ==> Tables.RowOk(w, Cols(rows)[i])
    ensures Tables.TableOk(w, Cols(rows))
  {
    hide Tables.RowOk;
    forall i, j | 0 <= i < j < |rows| ensures LexLess(Cols(rows)[i], Cols(rows)[j]) {
      assert RowLess(rows[i], rows[j]);
      LexIrreflexive([]);
    }
  }

  lemma CellsOfRow(rows: seq<Row>, x: Tables.Cells)
    requires forall i :: 0 <= i < |rows| ==> rows[i].text == []
    ensures x in Cols(rows) <==> Row(x, []) in rows
  {
    if x in Cols(rows) {
      var i :| 0 <= i < |rows| && Cols(rows)[i] == x;
      assert rows[i] == Row(x, []);
    }
    if Row(x, []) in rows {
      var i :| 0 <= i < |rows| && rows[i] == Row(x, []);
      assert Cols(rows)[i] == x;
    }
  }

  ghost predicate PlainRows(rows: seq<Row>)
  {
    Order.Ascending(RowLess, rows) && forall i :: 0 <= i < |rows| ==> rows[i].text == []
  }

  lemma SectionTable(t: Image, i: nat, rows: seq<Row>)
    requires Encodable(t) && i < 14 && Section(t, i) == Cols(rows) && PlainRows(rows)
    ensures Tables.TableOk(Widths[i], Cols(rows))
  {
    hide Section, Tables.RowOk, RowLess;
    assert forall k :: 0 <= k < |rows| ==> Tables.RowOk(Widths[i], Section(t, i)[k]);
    SortedCells(rows, Widths[i]);
  }

  /** `xrefs` on an open file. */
  method FileXrefs(file: seq<byte>, ps: seq<Layout.Place>, sym: nat, roleLo: nat, roleHi: nat, ghost t: Image) returns (out: seq<Tables.Cells>)
    requires FileHolds(file, ps, t) && PlainRows(t.xrefs) && sym < U64 && roleLo < 256 && roleHi < 256
    ensures !(sym == U64 - 1 && roleHi == 255) ==> out == Tables.Matching(Cols(t.xrefs), Tables.XrefsOf(sym, roleLo, roleHi))
    ensures sym == U64 - 1 && roleHi == 255 ==> out == []
  {
    XrefSection(file, ps, t);
    hide FileHolds, PlainRows, Tables.TableOk, Tables.Holds, Layout.Size;
    var p := ps[0];
    out := Tables.Xrefs(file[p.off..p.off + Layout.Size(p)], p.n, sym, roleLo, roleHi, Cols(t.xrefs));
  }

  /** `inherits_of`, `inherited_by`, `calls_from`, `called_by` and `members` on an open file:
      section `i`, whose rows start with the key. */
  method FileEdges(file: seq<byte>, ps: seq<Layout.Place>, i: nat, k: nat, ghost t: Image, ghost rows: seq<Row>) returns (r: Option<seq<Tables.Cells>>)
    requires FileHolds(file, ps, t) && 4 <= i <= 9 && i != 8 && Section(t, i) == Cols(rows) && PlainRows(rows) && k < U64
    ensures r == Some(Tables.Matching(Cols(rows), Tables.KeyIs(k))) <==> k != U64 - 1 || rows == []
    ensures k == U64 - 1 ==> r == None || r == Some([])
  {
    hide FileHolds, PlainRows, Tables.TableOk, Tables.Holds, Section, Layout.Size;
    KeyedSection(file, ps, i, t, rows);
    var p := ps[i];
    r := Tables.Edges(Widths[i], file[p.off..p.off + Layout.Size(p)], p.n, k, Cols(rows));
  }

  lemma XrefSection(file: seq<byte>, ps: seq<Layout.Place>, t: Image)
    requires FileHolds(file, ps, t) && PlainRows(t.xrefs)
    ensures 0 < |ps| && ps[0].off + Layout.Size(ps[0]) <= |file| && ps[0].n == |Cols(t.xrefs)|
    ensures Tables.TableOk(Tables.XrefCols, Cols(t.xrefs))
    ensures Tables.Holds(Tables.XrefCols, file[ps[0].off..ps[0].off + Layout.Size(ps[0])], Cols(t.xrefs))
  {
    hide FileHolds, PlainRows, Tables.TableOk, Tables.Holds, Layout.Size;
    KeyedSection(file, ps, 0, t, t.xrefs);
    assert Widths[0] == Tables.XrefCols;
  }

  lemma KeyedSection(file: seq<byte>, ps: seq<Layout.Place>, i: nat, t: Image, rows: seq<Row>)
    requires FileHolds(file, ps, t) && i <= 9 && i != 3 && Section(t, i) == Cols(rows) && PlainRows(rows)
    ensures i < |ps| && ps[i].off + Layout.Size(ps[i]) <= |file| && ps[i].n == |Cols(rows)|
    ensures Widths[i] != [] && Widths[i][0] == 8 && Tables.TableOk(Widths[i], Cols(rows))
    ensures Tables.Holds(Widths[i], file[ps[i].off..ps[i].off + Layout.Size(ps[i])], Cols(rows))
  {
    hide PlainRows, Tables.TableOk, Tables.Holds, Section, Layout.Size, Encodable, Layout.Places, Layout.Total;
    SectionTable(t, i, rows);
    assert SectionHolds(file, ps[i], t, i);
  }

  // ---------------------------------------------------------------- builder to answer

  /** The numbers of a file that says `f` fit their columns. */
  ghost predicate FilesFit(f: Facts)
  {
    forall t: Image | Coalesce.Says(t, f) :: Encodable(t)
  }

  lemma ImageFits(t: Image, f: Facts)
    requires FilesFit(f) && Coalesce.Says(t, f)
    ensures Encodable(t)
  {
  }

  ghost predicate Buildable(r: Rows)
  {
    Shaped(r) && Stream.FactsFit(Suppress(FactsOf(r))) && FilesFit(Suppress(FactsOf(r)))
  }

  lemma BuildableParts(r: Rows)
    requires Buildable(r)
    ensures Shaped(r) && Stream.FactsFit(Suppress(FactsOf(r))) && FilesFit(Suppress(FactsOf(r)))
  {
  }

  /** `finish` a builder and write the file. */
  method BuildFile(r: Rows) returns (file: seq<byte>, ghost ps: seq<Layout.Place>, ghost t: Image, ghost c: Canon)
    requires Buildable(r)
    ensures FileHolds(file, ps, t) && ImageOf(t, c) && CanonOk(c) && CanonFacts(c) == Suppress(FactsOf(r))
  {
    hide FactsOf, Suppress, Shaped, Encodable, FileHolds, ImageOf, CanonFacts, Stream.FactsFit, CanonOk, Stream.Plain;
    var image := Coalesce.FinishFile(r);
    t, c := image, Coalesce.TablesOf(image, Suppress(FactsOf(r)));
    assert Coalesce.Holds(t, c, Suppress(FactsOf(r)));
    file, ps := Encode(image);
  }

  lemma PlainFrom(rows: seq<Row>, said: seq<Row>, n: nat)
    requires Order.Ascending(RowLess, rows) && RowSet(rows) == RowSet(said) && Columns(said, n)
    ensures PlainRows(rows) && Columns(rows, n)
  {
    hide RowLess;
    forall i | 0 <= i < |rows| ensures |rows[i].cols| == n && rows[i].text == [] {
      assert rows[i] in RowSet(rows);
      assert rows[i] in said;
    }
  }

  /** The rows of the finished tables are the builder's. */
  lemma FinishedRows(r: Rows, c: Canon)
    requires Shaped(r) && CanonOk(c) && CanonFacts(c) == Suppress(FactsOf(r))
    ensures PlainRows(c.xrefs) && PlainRows(c.calls) && Columns(c.calls, 3) && PlainRows(c.inherits) && Columns(c.inherits, 2) && PlainRows(c.childof)
    ensures RowSet(c.xrefs) == RowSet(r.xrefs) && RowSet(c.calls) == RowSet(r.calls)
    ensures RowSet(c.inherits) == RowSet(r.inherits) && RowSet(c.childof) == RowSet(r.childof)
  {
    hide RowLess;
    PlainFrom(c.xrefs, r.xrefs, 4);
    PlainFrom(c.calls, r.calls, 3);
    PlainFrom(c.inherits, r.inherits, 2);
    PlainFrom(c.childof, r.childof, 2);
  }

  /** Finish a builder, write the file, open it, ask for the xrefs of a sym: the answer holds
      exactly the builder's xref rows of that sym with a role in range, each once, ascending. */
  method XrefsOfBuild(r: Rows, sym: nat, roleLo: nat, roleHi: nat) returns (file: seq<byte>, answer: seq<Tables.Cells>)
    requires Buildable(r) && sym < U64 && roleLo < 256 && roleHi < 256
    ensures !(sym == U64 - 1 && roleHi == 255) ==>
      forall x: Tables.Cells :: x in answer <==> Row(x, []) in r.xrefs && |x| == 4 && x[0] == sym && roleLo <= x[1] <= roleHi
    ensures sym == U64 - 1 && roleHi == 255 ==> answer == []
    ensures forall i, j :: 0 <= i < j < |answer| ==> LexLess(answer[i], answer[j])
  {
    ghost var ps, t, c;
    file, ps, t, c := BuildFile(r);
    FinishedRows(r, c);
    assert t.xrefs == c.xrefs;
    hide FileHolds, ImageOf, CanonOk, CanonFacts, Buildable, RowLess, LexLess, FactsOf, Suppress, PlainRows;
    var places := Open(file, ps, t);
    answer := FileXrefs(file, places, sym, roleLo, roleHi, t);
    XrefAnswer(r, c, sym, roleLo, roleHi, answer);
  }

  lemma XrefAnswer(r: Rows, c: Canon, sym: nat, roleLo: nat, roleHi: nat, out: seq<Tables.Cells>)
    requires PlainRows(c.xrefs) && RowSet(c.xrefs) == RowSet(r.xrefs)
    requires !(sym == U64 - 1 && roleHi == 255) ==> out == Tables.Matching(Cols(c.xrefs), Tables.XrefsOf(sym, roleLo, roleHi))
    requires sym == U64 - 1 && roleHi == 255 ==> out == []
    ensures !(sym == U64 - 1 && roleHi == 255) ==>
      forall x: Tables.Cells :: x in out <==> Row(x, []) in r.xrefs && |x| == 4 && x[0] == sym && roleLo <= x[1] <= roleHi
    ensures forall i, j :: 0 <= i < j < |out| ==> LexLess(out[i], out[j])
  {
    hide LexLess;
    var p := Tables.XrefsOf(sym, roleLo, roleHi);
    CellsAscend(c.xrefs);
    if !(sym == U64 - 1 && roleHi == 255) {
      Tables.MatchingAscends(Cols(c.xrefs), p);
      forall x: Tables.Cells ensures x in out <==> Row(x, []) in r.xrefs && |x| == 4 && x[0] == sym && roleLo <= x[1] <= roleHi {
        Tables.MatchingMember(Cols(c.xrefs), p, x);
        CellsOfRow(c.xrefs, x);
        assert Row(x, []) in RowSet(c.xrefs) <==> Row(x, []) in RowSet(r.xrefs);
      }
    }
  }

  lemma CellsAscend(rows: seq<Row>)
    requires PlainRows(rows)
    ensures forall i, j :: 0 <= i < j < |rows| ==> LexLess(Cols(rows)[i], Cols(rows)[j])
  {
    forall i, j | 0 <= i < j < |rows| ensures LexLess(Cols(rows)[i], Cols(rows)[j]) {
      assert RowLess(rows[i], rows[j]);
      LexIrreflexive([]);
    }
  }

  /** What the edge query on section `i` is asked for, in the builder's rows: the reverse
      sections answer about the far end of an edge. */
  ghost predicate EdgeOf(r: Rows, i: nat, x: Tables.Cells)
  {
    || (i == 4 && Row(x, []) in r.inherits) || (i == 5 && |x| == 2 && Row([x[1], x[0]], []) in r.inherits)
    || (i == 6 && Row(x, []) in r.calls) || (i == 7 && |x| == 3 && Row([x[1], x[0], x[2]], []) in r.calls)
    || (i == 9 && Row(x, []) in r.childof)
  }

  lemma ReverseEdge(rows: seq<Row>, n: nat, x: Tables.Cells)
    requires Columns(rows, n)
    ensures n == 2 ==> (Reverse(Row(x, [])) in rows <==> |x| == 2 && Row([x[1], x[0]], []) in rows)
    ensures n == 3 ==> (Reverse(Row(x, [])) in rows <==> |x| == 3 && Row([x[1], x[0], x[2]], []) in rows)
  {
    if |x| == 2 { assert Reverse(Row(x, [])) == Row([x[1], x[0]], []); }
    if |x| == 3 { assert Reverse(Row(x, [])) == Row([x[1], x[0], x[2]], []); }
    assert |Reverse(Row(x, [])).cols| == |x|;
  }

  ghost function EdgeRows(t: Image, i: nat): seq<Row>
  {
    match i case 4 => t.inherits case 5 => t.inhrev case 6 => t.calls case 7 => t.crev case _ => t.childrev
  }

  lemma PlainReverse(rows: seq<Row>, rev: seq<Row>)
    requires PlainRows(rows) && IsReverse(rows, rev)
    ensures PlainRows(rev)
  {
    hide RowLess;
    forall i | 0 <= i < |rev| ensures rev[i].text == [] {
      assert Reverse(rev[i]) in rows;
      var k :| 0 <= k < |rows| && rows[k] == Reverse(rev[i]);
    }
  }

  lemma SameRows(a: seq<Row>, b: seq<Row>, x: Row)
    requires RowSet(a) == RowSet(b)
    ensures x in a <==> x in b
  {
    assert x in RowSet(a) <==> x in RowSet(b);
  }

  /** The edge sections of a finished builder's file hold the builder's edges. */
  lemma FinishedEdges(r: Rows, c: Canon, t: Image, i: nat)
    requires Shaped(r) && CanonOk(c) && CanonFacts(c) == Suppress(FactsOf(r)) && ImageOf(t, c)
    requires 4 <= i <= 9 && i != 8
    ensures PlainRows(EdgeRows(t, i)) && Section(t, i) == Cols(EdgeRows(t, i))
    ensures forall x: Tables.Cells :: Row(x, []) in EdgeRows(t, i) <==> EdgeOf(r, i, x)
  {
    hide Shaped, CanonOk, CanonFacts, Suppress, FactsOf, PlainRows, Columns, Reverse, RowLess, RowSet, NamesOk, KeyedRefs, IsReverse, EdgeOf;
    ShapedEdges(r);
    FinishedRows(r, c);
    PlainReverse(c.inherits, t.inhrev);
    PlainReverse(c.calls, t.crev);
    forall x: Tables.Cells ensures Row(x, []) in EdgeRows(t, i) <==> EdgeOf(r, i, x) {
      EdgeHeld(r, c, t, i, x);
    }
  }

  lemma ShapedEdges(r: Rows)
    requires Shaped(r)
    ensures Columns(r.inherits, 2) && Columns(r.calls, 3)
  {
  }

  lemma EdgeHeld(r: Rows, c: Canon, t: Image, i: nat, x: Tables.Cells)
    requires RowSet(c.calls) == RowSet(r.calls) && RowSet(c.inherits) == RowSet(r.inherits) && RowSet(c.childof) == RowSet(r.childof)
    requires t.inherits == c.inherits && t.calls == c.calls && t.childrev == c.childof
    requires IsReverse(c.inherits, t.inhrev) && IsReverse(c.calls, t.crev)
    requires 4 <= i <= 9 && i != 8 && Columns(r.inherits, 2) && Columns(r.calls, 3)
    ensures Row(x, []) in EdgeRows(t, i) <==> EdgeOf(r, i, x)
  {
    ReverseEdge(r.inherits, 2, x);
    ReverseEdge(r.calls, 3, x);
    hide Reverse, RowLess, RowSet, Columns;
    SameRows(c.inherits, r.inherits, Row(x, []));
    SameRows(c.inherits, r.inherits, Reverse(Row(x, [])));
    SameRows(c.calls, r.calls, Row(x, []));
    SameRows(c.calls, r.calls, Reverse(Row(x, [])));
    SameRows(c.childof, r.childof, Row(x, []));
  }

  /** `out` holds exactly the builder's edges with that near (or far) end, each once, ascending. */
  ghost predicate Answers(r: Rows, i: nat, k: nat, out: seq<Tables.Cells>)
  {
    && (forall x: Tables.Cells :: x in out <==> x != [] && x[0] == k && EdgeOf(r, i, x))
    && forall a, b :: 0 <= a < b < |out| ==> LexLess(out[a], out[b])
  }

  /** Finish a builder, write the file, open it, ask for the edges of a key in a forward or
      a reverse section: the answer is the builder's edges of that key, if and only if the
      key is not the last one or there are no edges at all. */
  method EdgesOfBuild(r: Rows, i: nat, k: nat) returns (file: seq<byte>, answer: Option<seq<Tables.Cells>>)
    requires Buildable(r) && 4 <= i <= 9 && i != 8 && k < U64
    ensures (answer.Some? && Answers(r, i, k, answer.value)) <==> k != U64 - 1 || forall x: Tables.Cells :: !EdgeOf(r, i, x)
  {
    ghost var ps, t, c;
    file, ps, t, c := BuildFile(r);
    FinishedEdges(r, c, t, i);
    hide ImageOf, CanonOk, CanonFacts, Buildable, LexLess, FactsOf, Suppress, EdgeOf, EdgeRows, Section, PlainRows, FileHolds, Answers;
    var places := Open(file, ps, t);
    answer := FileEdges(file, places, i, k, t, EdgeRows(t, i));
    EdgeAnswer(r, i, k, EdgeRows(t, i), answer);
  }

  lemma EdgeAnswer(r: Rows, i: nat, k: nat, rows: seq<Row>, answer: Option<seq<Tables.Cells>>)
    requires PlainRows(rows)
    requires answer == Some(Tables.Matching(Cols(rows), Tables.KeyIs(k))) <==> k != U64 - 1 || rows == []
    requires k == U64 - 1 ==> answer == None || answer == Some([])
    requires forall x: Tables.Cells :: Row(x, []) in rows <==> EdgeOf(r, i, x)
    ensures (answer.Some? && Answers(r, i, k, answer.value)) <==> k != U64 - 1 || forall x: Tables.Cells :: !EdgeOf(r, i, x)
  {
    hide LexLess, EdgeOf, Tables.Matching, PlainRows;
    var m := Tables.Matching(Cols(rows), Tables.KeyIs(k));
    MatchingAnswers(r, i, k, rows);
    if rows != [] { PlainFirst(rows); }
    if k == U64 - 1 && rows != [] && answer.Some? {
      assert m != [];
      assert m[0] in m;
    }
    if k == U64 - 1 && rows == [] {
      forall x: Tables.Cells ensures !EdgeOf(r, i, x) { assert Row(x, []) !in rows; }
    }
  }

  lemma PlainFirst(rows: seq<Row>)
    requires PlainRows(rows) && rows != []
    ensures Row(rows[0].cols, []) in rows
  {
    assert rows[0] == Row(rows[0].cols, []);
  }

  lemma MatchingAnswers(r: Rows, i: nat, k: nat, rows: seq<Row>)
    requires PlainRows(rows)
    requires forall x: Tables.Cells :: Row(x, []) in rows <==> EdgeOf(r, i, x)
    ensures Answers(r, i, k, Tables.Matching(Cols(rows), Tables.KeyIs(k)))
  {
    hide LexLess, EdgeOf;
    var out := Tables.Matching(Cols(rows), Tables.KeyIs(k));
    CellsAscend(rows);
    Tables.MatchingAscends(Cols(rows), Tables.KeyIs(k));
    forall x: Tables.Cells ensures x in out <==> x != [] && x[0] == k && EdgeOf(r, i, x) {
      Tables.MatchingMember(Cols(rows), Tables.KeyIs(k), x);
      CellsOfRow(rows, x);
    }
  }
}
