/** Point queries on the bytes of a file: a sym's kind, language and name, its type and
    signature, a file's path. What they answer is what the builder said. */
module FileLookup {
  import opened Bytes
  import opened Facts
  import opened Keyed
  import opened Builder
  import opened Store
  import opened Image
  import opened IndexFile
  import Coalesce
  import Layout
  import Stream
  import Tables

  // ---------------------------------------------------------------- sections

  /** Section `i` where its place says. */
  lemma SectionAt(file: seq<byte>, ps: seq<Layout.Place>, t: Image, i: nat)
    requires FileHolds(file, ps, t) && i < 14
    ensures |ps| == 14 && ps[i].off + Layout.Size(ps[i]) <= |file| && ps[i].n == |Section(t, i)|
    ensures forall k :: 0 <= k < |Section(t, i)| ==> Tables.RowOk(Widths[i], Section(t, i)[k])
    ensures Tables.Holds(Widths[i], file[ps[i].off..ps[i].off + Layout.Size(ps[i])], Section(t, i))
  {
    hide Section, Tables.RowOk, Tables.Holds, Layout.Places, Layout.Total, Layout.Size;
    assert SectionHolds(file, ps[i], t, i);
  }

  /** Rows whose first columns ascend are a sorted table. */
  lemma HeadsSort(w: Tables.Schema, rows: seq<Tables.Cells>)
    requires w != [] && forall k :: 0 <= k < |rows| ==> Tables.RowOk(w, rows[k]) && rows[k] != []
    requires forall i, j :: 0 <= i < j < |rows| ==> rows[i][0] < rows[j][0]
    ensures Tables.TableOk(w, rows)
  {
    hide Pow256;
  }

  lemma {:induction false} ByteSlots(table: seq<byte>, bytes: seq<byte>)
    requires forall i :: 0 <= i < |bytes| ==> Tables.RowOk([1], ByteCells(bytes)[i])
    requires Tables.Holds([1], table, ByteCells(bytes))
    ensures table == bytes
  {
    assert Tables.Stride([1]) == 1 by { StrideOf([1]); }
    forall i | 0 <= i < |bytes| ensures table[i] == bytes[i] {
      assert Tables.Slot([1], table, i, |bytes|) == Tables.RowBytes([1], [bytes[i] as nat]);
      OneByte(bytes[i]);
    }
  }

  lemma OneByte(b: byte)
    requires Tables.RowOk([1], [b as nat])
    ensures Tables.RowBytes([1], [b as nat]) == [b]
  {
    assert BigEndian(1, b) == BigEndian(0, 0) + [b];
    assert Tables.RowBytes([], []) == [];
    assert [1][1..] == [] && [b as nat][1..] == [];
  }

  /** The string blob and the postings read back as they are. */
  lemma ByteSection(file: seq<byte>, ps: seq<Layout.Place>, t: Image, i: nat, bytes: seq<byte>)
    requires FileHolds(file, ps, t) && i < 14 && Widths[i] == [1] && Section(t, i) == ByteCells(bytes)
    ensures |ps| == 14 && ps[i].off + |bytes| <= |file| && file[ps[i].off..ps[i].off + |bytes|] == bytes && ps[i].n == |bytes|
  {
    hide Section, Tables.RowOk, Tables.Holds, FileHolds;
    SectionAt(file, ps, t, i);
    var table := file[ps[i].off..ps[i].off + Layout.Size(ps[i])];
    ByteSlots(table, bytes);
    assert |table| == Layout.Size(ps[i]);
  }

  /** A string of the blob, read from the file. */
  lemma TextAt(file: seq<byte>, ps: seq<Layout.Place>, t: Image, r: Ref, s: Str)
    requires FileHolds(file, ps, t) && Reads(t.blob, r, s)
    ensures |ps| == 14 && ps[11].off + r.off + r.len <= |file|
    ensures file[ps[11].off + r.off..ps[11].off + r.off + r.len] == s
  {
    hide FileHolds;
    ByteSection(file, ps, t, 11, t.blob);
    var blob := file[ps[11].off..ps[11].off + |t.blob|];
    assert file[ps[11].off + r.off..ps[11].off + r.off + r.len] == blob[r.off..r.off + r.len];
  }

  // ---------------------------------------------------------------- syms

  ghost function MetaSaid(f: Facts, s: nat): Option<Meta>
  {
    if s in f.syms then Some(f.syms[s]) else None
  }

  lemma SymTable(file: seq<byte>, ps: seq<Layout.Place>, t: Image, c: Canon)
    requires FileHolds(file, ps, t) && ImageOf(t, c) && CanonOk(c)
    ensures |ps| == 14 && ps[1].off + Layout.Size(ps[1]) <= |file| && ps[1].n == |SymCells(t.syms)|
    ensures Tables.TableOk(Widths[1], SymCells(t.syms))
    ensures Tables.Holds(Widths[1], file[ps[1].off..ps[1].off + Layout.Size(ps[1])], SymCells(t.syms))
  {
    hide FileHolds, Tables.RowOk, Tables.Holds, Tables.TableOk, NamesOk, KeyedRefs, IsReverse, RefOf, Layout.Size;
    SectionAt(file, ps, t, 1);
    HeadsSort(Widths[1], SymCells(t.syms));
  }

  /** The row found says what the tables say of the sym. */
  lemma SymRowSays(t: Image, c: Canon, row: Tables.Cells, sym: nat)
    requires ImageOf(t, c) && CanonOk(c) && row in SymCells(t.syms) && row[0] == sym
    ensures |row| == 5 && sym in CanonFacts(c).syms
    ensures row[1] == CanonFacts(c).syms[sym].kind && row[2] == CanonFacts(c).syms[sym].lang
    ensures Reads(t.blob, Ref(row[3], row[4]), CanonFacts(c).syms[sym].name)
  {
    hide NamesOk, KeyedRefs, IsReverse, RefOf, ToMap, Reads, Blob, RowLess;
    var i :| 0 <= i < |t.syms| && SymCells(t.syms)[i] == row;
    EveryRefReads(c);
    assert c.syms[i] in c.syms;
    MapOfRows(c.syms, sym, c.syms[i].1);
  }

  lemma SymRowOf(t: Image, c: Canon, sym: nat)
    requires ImageOf(t, c) && CanonOk(c)
    ensures sym in CanonFacts(c).syms ==> exists i :: 0 <= i < |SymCells(t.syms)| && SymCells(t.syms)[i][0] == sym
  {
    hide NamesOk, KeyedRefs, IsReverse, RefOf, ToMap, Blob, RowLess;
    if sym in CanonFacts(c).syms {
      var m := CanonFacts(c).syms[sym];
      MapOfRows(c.syms, sym, m);
      var i :| 0 <= i < |c.syms| && c.syms[i] == (sym, m);
      assert SymCells(t.syms)[i][0] == sym;
    }
  }

  /** `sym_meta`: the sym's name, kind and language, or nothing if and only if the file has
      no such sym. */
  method SymMeta(file: seq<byte>, ps: seq<Layout.Place>, sym: nat, ghost t: Image, ghost c: Canon) returns (r: Option<Meta>)
    requires FileHolds(file, ps, t) && ImageOf(t, c) && CanonOk(c) && sym < U64
    ensures r == MetaSaid(CanonFacts(c), sym)
  {
    hide FileHolds, ImageOf, CanonOk, CanonFacts, Tables.TableOk, Tables.Holds, Reads, Layout.Size;
    SymTable(file, ps, t, c);
    PowValues();
    var row := Tables.Lookup(Widths[1], file[ps[1].off..ps[1].off + Layout.Size(ps[1])], ps[1].n, sym, SymCells(t.syms));
    if row.None? {
      SymRowOf(t, c, sym);
      return None;
    }
    var x := row.value;
    SymRowSays(t, c, x, sym);
    TextAt(file, ps, t, Ref(x[3], x[4]), CanonFacts(c).syms[sym].name);
    r := Some(Meta(x[1], x[2], file[ps[11].off + x[3]..ps[11].off + x[3] + x[4]]));
  }

  // ---------------------------------------------------------------- strings by key

  /** Section `i` is a keyed string table over these rows. */
  ghost predicate StringTable(t: Image, i: nat, table: seq<(nat, Ref)>, rows: seq<(nat, Str)>, base: nat)
  {
    && (i == 3 || i == 8 || i == 10) && Section(t, i) == StringCells(table)
    && KeyedRefs(table, rows, base) && KeysAscend(rows)
    && forall j :: 0 <= j < |rows| ==> Reads(t.blob, RefOf(base, Strs(rows), j), rows[j].1)
  }

  lemma StringSection(file: seq<byte>, ps: seq<Layout.Place>, t: Image, i: nat, table: seq<(nat, Ref)>, rows: seq<(nat, Str)>, base: nat)
    requires FileHolds(file, ps, t) && StringTable(t, i, table, rows, base)
    ensures |ps| == 14 && i < 14 && ps[i].off + Layout.Size(ps[i]) <= |file| && ps[i].n == |StringCells(table)|
    ensures Widths[i] != [] && Widths[i][0] == (if i == 3 then 4 else 8) && Tables.TableOk(Widths[i], StringCells(table))
    ensures Tables.Holds(Widths[i], file[ps[i].off..ps[i].off + Layout.Size(ps[i])], StringCells(table))
  {
    hide FileHolds, Tables.RowOk, Tables.Holds, Tables.TableOk, RefOf, Layout.Size, Reads, Section;
    SectionAt(file, ps, t, i);
    HeadsSort(Widths[i], StringCells(table));
  }

  lemma StringRowSays(t: Image, i: nat, table: seq<(nat, Ref)>, rows: seq<(nat, Str)>, base: nat, row: Tables.Cells, k: nat)
    requires StringTable(t, i, table, rows, base) && row in StringCells(table) && row[0] == k
    ensures |row| == 3 && k in ToMap(rows) && Reads(t.blob, Ref(row[1], row[2]), ToMap(rows)[k])
  {
    hide RefOf, ToMap, Reads, Section;
    var j :| 0 <= j < |table| && StringCells(table)[j] == row;
    assert rows[j] in rows;
    MapOfRows(rows, k, rows[j].1);
  }

  lemma StringRowOf(t: Image, i: nat, table: seq<(nat, Ref)>, rows: seq<(nat, Str)>, base: nat, k: nat)
    requires StringTable(t, i, table, rows, base)
    ensures k in ToMap(rows) ==> exists j :: 0 <= j < |StringCells(table)| && StringCells(table)[j][0] == k
  {
    hide RefOf, ToMap, Reads, Section;
    if k in ToMap(rows) {
      MapOfRows(rows, k, ToMap(rows)[k]);
      var j :| 0 <= j < |rows| && rows[j] == (k, ToMap(rows)[k]);
      assert StringCells(table)[j][0] == k;
    }
  }

  method KeyedString(file: seq<byte>, ps: seq<Layout.Place>, i: nat, k: nat,
                     ghost t: Image, ghost table: seq<(nat, Ref)>, ghost rows: seq<(nat, Str)>, ghost base: nat) returns (r: Option<Str>)
    requires FileHolds(file, ps, t) && StringTable(t, i, table, rows, base) && k < if i == 3 then U32 else U64
    ensures r == if k in ToMap(rows) then Some(ToMap(rows)[k]) else None
  {
    hide FileHolds, StringTable, Tables.TableOk, Tables.Holds, Reads, Layout.Size, ToMap;
    StringSection(file, ps, t, i, table, rows, base);
    PowValues();
    var row := Tables.Lookup(Widths[i], file[ps[i].off..ps[i].off + Layout.Size(ps[i])], ps[i].n, k, StringCells(table));
    if row.None? {
      StringRowOf(t, i, table, rows, base, k);
      return None;
    }
    var x := row.value;
    StringRowSays(t, i, table, rows, base, x, k);
    TextAt(file, ps, t, Ref(x[1], x[2]), ToMap(rows)[k]);
    r := Some(file[ps[11].off + x[1]..ps[11].off + x[1] + x[2]]);
  }

  ghost function StringSaid(m: map<nat, Str>, k: nat): Option<Str>
  {
    if k in m then Some(m[k]) else None
  }

  lemma StringTables(t: Image, c: Canon)
    requires ImageOf(t, c) && CanonOk(c)
    ensures StringTable(t, 3, t.files, c.files, PathBase(c))
    ensures StringTable(t, 8, t.typed, c.typed, TypeBase(c))
    ensures StringTable(t, 10, t.sig, c.sig, SigBase(c))
  {
    hide NamesOk, KeyedRefs, IsReverse, RefOf, Blob, RowLess, Reads, PathBase, TypeBase, SigBase;
    EveryRefReads(c);
  }

  /** `file_path`. */
  method FilePath(file: seq<byte>, ps: seq<Layout.Place>, id: nat, ghost t: Image, ghost c: Canon) returns (r: Option<Str>)
    requires FileHolds(file, ps, t) && ImageOf(t, c) && CanonOk(c) && id < U32
    ensures r == StringSaid(CanonFacts(c).files, id)
  {
    hide FileHolds, ImageOf, CanonOk, StringTable, ToMap;
    StringTables(t, c);
    r := KeyedString(file, ps, 3, id, t, t.files, c.files, PathBase(c));
  }

  /** `type_of`. */
  method TypeOf(file: seq<byte>, ps: seq<Layout.Place>, sym: nat, ghost t: Image, ghost c: Canon) returns (r: Option<Str>)
    requires FileHolds(file, ps, t) && ImageOf(t, c) && CanonOk(c) && sym < U64
    ensures r == StringSaid(CanonFacts(c).typed, sym)
  {
    hide FileHolds, ImageOf, CanonOk, StringTable, ToMap;
    StringTables(t, c);
    r := KeyedString(file, ps, 8, sym, t, t.typed, c.typed, TypeBase(c));
  }

  /** `sig_of`. */
  method SigOf(file: seq<byte>, ps: seq<Layout.Place>, sym: nat, ghost t: Image, ghost c: Canon) returns (r: Option<Str>)
    requires FileHolds(file, ps, t) && ImageOf(t, c) && CanonOk(c) && sym < U64
    ensures r == StringSaid(CanonFacts(c).sig, sym)
  {
    hide FileHolds, ImageOf, CanonOk, StringTable, ToMap;
    StringTables(t, c);
    r := KeyedString(file, ps, 10, sym, t, t.sig, c.sig, SigBase(c));
  }
}
