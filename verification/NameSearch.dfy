/** From a builder to a substring query: the names index of the finished file, read through
    the string blob, searched with its own trigram index. */
module NameSearch {
  import opened Bytes
  import opened Facts
  import opened Keyed
  import opened Builder
  import opened Store
  import opened Image
  import Coalesce
  import FileLookup
  import IndexFile
  import Layout
  import Order
  import ScanMeaning
  import Stream
  import SubstringQuery
  import Tables
  import TrigramSpec

  /** `text` is a name the facts give the sym: its display name or an alias. */
  ghost predicate GoesBy(f: Facts, s: nat, text: Str)
  {
    (s in f.syms && f.syms[s].name == text) || Row([s], text) in f.aliases
  }

  /** Some name of the sym matches the needle, and does not come after (`text`, `sym`). */
  ghost predicate FoundBy(f: Facts, s: nat, needle: seq<byte>, ignoreCase: bool, text: Str, sym: nat)
  {
    exists own: Str :: GoesBy(f, s, own) && TrigramSpec.Matches(own, needle, ignoreCase)
      && (LexLess(own, text) || (own == text && s <= sym))
  }

  /** A query's answer in terms of what the file says: no sym past the limit, all going by a
      matching name, in the order of their first matching names; none left out while there was
      room, and none for one that sorts after it. */
  ghost predicate FirstMatches(f: Facts, needle: seq<byte>, ignoreCase: bool, limit: nat, out: seq<nat>)
  {
    && |out| <= limit
    && (forall s | s in out :: exists own: Str :: GoesBy(f, s, own) && TrigramSpec.Matches(own, needle, ignoreCase))
    && (forall i, j, text: Str | 0 <= i < j < |out| && GoesBy(f, out[j], text) && TrigramSpec.Matches(text, needle, ignoreCase) ::
          FoundBy(f, out[i], needle, ignoreCase, text, out[j]) && out[i] != out[j])
    && (forall s, text: Str | GoesBy(f, s, text) && TrigramSpec.Matches(text, needle, ignoreCase) && s !in out ::
          |out| == limit && forall o | o in out :: FoundBy(f, o, needle, ignoreCase, text, s))
  }

  // ---------------------------------------------------------------- names and facts

  lemma EntryGoesBy(c: Canon, e: Named)
    requires Stream.SourceOk(c) && IsEntry(c, e)
    ensures GoesBy(CanonFacts(c), e.sym, e.text)
  {
    hide RowLess, RefOf, AliasBase;
    if i :| 0 <= i < |c.syms| && e == SymEntry(c, i) {
      MapOfRows(c.syms, e.sym, c.syms[i].1);
    } else {
      var i :| 0 <= i < |c.aliases| && e == AliasEntry(c, i);
      assert c.aliases[i] in RowSet(c.aliases) && c.aliases[i] in CanonFacts(c).aliases;
      assert c.aliases[i] == Row([e.sym], e.text);
    }
  }

  lemma GoesByEntry(c: Canon, s: nat, text: Str) returns (e: Named)
    requires Stream.SourceOk(c) && GoesBy(CanonFacts(c), s, text)
    ensures IsEntry(c, e) && e.sym == s && e.text == text
  {
    hide RowLess, RefOf, AliasBase;
    if Row([s], text) in CanonFacts(c).aliases {
      var i :| 0 <= i < |c.aliases| && c.aliases[i] == Row([s], text);
      e := AliasEntry(c, i);
    } else {
      MapOfRows(c.syms, s, CanonFacts(c).syms[s]);
      var i :| 0 <= i < |c.syms| && c.syms[i] == (s, CanonFacts(c).syms[s]);
      e := SymEntry(c, i);
    }
  }

  // ---------------------------------------------------------------- the scan

  lemma TableGoesBy(c: Canon, names: seq<Named>, k: nat)
    requires Stream.SourceOk(c) && NamesOf(names, c) && k < |names|
    ensures GoesBy(CanonFacts(c), names[k].sym, names[k].text)
  {
    hide IsEntry, NamedLess;
    assert names[k] in names;
    EntryGoesBy(c, names[k]);
  }

  lemma GoesByTable(c: Canon, names: seq<Named>, s: nat, text: Str) returns (k: nat)
    requires Stream.SourceOk(c) && NamesOf(names, c) && GoesBy(CanonFacts(c), s, text)
    ensures k < |names| && names[k].sym == s && names[k].text == text
  {
    hide IsEntry, NamedLess;
    var e := GoesByEntry(c, s, text);
    assert e in names;
    k :| 0 <= k < |names| && names[k] == e;
  }

  /** A sym whose matching rows come first goes by a matching name that sorts first. */
  lemma AheadFound(c: Canon, names: seq<Named>, needle: seq<byte>, ignoreCase: bool, o: nat, s: nat, text: Str)
    requires Stream.SourceOk(c) && NamesOf(names, c) && ScanMeaning.Ahead(NameRows(names), needle, ignoreCase, o, s)
    requires GoesBy(CanonFacts(c), s, text) && TrigramSpec.Matches(text, needle, ignoreCase)
    ensures FoundBy(CanonFacts(c), o, needle, ignoreCase, text, s)
  {
    var k := GoesByTable(c, names, s, text);
    hide TrigramSpec.Matches, NamedLess, IsEntry, CanonFacts, Stream.SourceOk, GoesBy, LexLess;
    var rows := NameRows(names);
    assert ScanMeaning.Hit(rows, needle, ignoreCase, k, s);
    var i: nat :| i < k && ScanMeaning.Hit(rows, needle, ignoreCase, i, o);
    assert NamedLess(names[i], names[k]);
    TableGoesBy(c, names, i);
    Earlier(names[i], names[k]);
  }

  lemma Earlier(a: Named, b: Named)
    requires NamedLess(a, b)
    ensures LexLess(a.text, b.text) || (a.text == b.text && a.sym <= b.sym)
  {
  }

  /** The serial scan of the names table, in terms of what the tables say. */
  lemma ScanFirstMatches(c: Canon, names: seq<Named>, needle: seq<byte>, ignoreCase: bool, limit: nat)
    requires Stream.SourceOk(c) && NamesOf(names, c)
    ensures FirstMatches(CanonFacts(c), needle, ignoreCase, limit, TrigramSpec.SerialScan(NameRows(names), needle, ignoreCase, limit))
  {
    hide TrigramSpec.Matches, NamesOf, CanonFacts, Stream.SourceOk, GoesBy, FoundBy, TrigramSpec.SerialScan, ScanMeaning.Ahead;
    var rows, f := NameRows(names), CanonFacts(c);
    var out := TrigramSpec.SerialScan(rows, needle, ignoreCase, limit);
    ScanMeaning.ScanFirst(rows, needle, ignoreCase, limit);
    ScanMeaning.Distinct(rows, needle, ignoreCase, limit, out);
    forall s | s in out ensures exists own: Str :: GoesBy(f, s, own) && TrigramSpec.Matches(own, needle, ignoreCase) {
      var k: nat :| ScanMeaning.Hit(rows, needle, ignoreCase, k, s);
      TableGoesBy(c, names, k);
      assert GoesBy(f, s, rows[k].name);
    }
    forall i, j, text: Str | 0 <= i < j < |out| && GoesBy(f, out[j], text) && TrigramSpec.Matches(text, needle, ignoreCase)
      ensures FoundBy(f, out[i], needle, ignoreCase, text, out[j]) && out[i] != out[j]
    {
      AheadFound(c, names, needle, ignoreCase, out[i], out[j], text);
    }
    forall s, text: Str | GoesBy(f, s, text) && TrigramSpec.Matches(text, needle, ignoreCase) && s !in out
      ensures |out| == limit && forall o | o in out :: FoundBy(f, o, needle, ignoreCase, text, s)
    {
      var k := GoesByTable(c, names, s, text);
      assert ScanMeaning.Hit(rows, needle, ignoreCase, k, s);
      forall o | o in out ensures FoundBy(f, o, needle, ignoreCase, text, s) {
        AheadFound(c, names, needle, ignoreCase, o, s, text);
      }
    }
  }

  // ---------------------------------------------------------------- builder to answer

  /** The names table as the reader sees it: each reference followed into the blob. */
  method ReadNames(t: Image, ghost c: Canon, ghost names: seq<Named>) returns (rows: seq<TrigramSpec.NameRow>)
    requires ImageOf(t, c) && NamesOk(t, c, names)
    ensures rows == NameRows(names)
  {
    hide NamedLess, IsEntry, TrigramSpec.IndexOk, IsReverse, KeyedRefs, RefOf, Blob;
    rows := [];
    for i := 0 to |t.names|
      invariant |rows| == i && forall k :: 0 <= k < i ==> rows[k] == NameRows(names)[k]
    {
      assert names[i] in names;
      EntryReads(c, names[i]);
      rows := rows + [TrigramSpec.NameRow(Text(t.blob, t.names[i].name), t.names[i].sym)];
    }
  }

  lemma NamesIn(t: Image, c: Canon) returns (names: seq<Named>)
    requires ImageOf(t, c)
    ensures NamesOk(t, c, names)
  {
    names :| NamesOk(t, c, names);
  }

  /** Search the tables as they were laid out. */
  method FindInImage(t: Image, needle: seq<byte>, limit: nat, ignoreCase: bool, threads: nat, ghost c: Canon, ghost names: seq<Named>)
    returns (out: seq<nat>)
    requires ImageOf(t, c) && Stream.SourceOk(c) && NamesOk(t, c, names) && |needle| >= 3 && threads >= 1
    ensures out == TrigramSpec.SerialScan(NameRows(names), needle, ignoreCase, limit)
  {
    hide ImageOf, Stream.SourceOk, NamesOf, TrigramSpec.IndexOk, TrigramSpec.SerialScan;
    var rows := ReadNames(t, c, names);
    out := SubstringQuery.Answer(rows, t.dict, t.post, needle, limit, ignoreCase, threads);
  }

  // ---------------------------------------------------------------- on the bytes

  /** The names section, each reference followed into the blob section. */
  method FileNames(file: seq<byte>, ps: seq<Layout.Place>, ghost t: Image, ghost c: Canon, ghost names: seq<Named>) returns (rows: seq<TrigramSpec.NameRow>)
    requires IndexFile.FileHolds(file, ps, t) && ImageOf(t, c) && NamesOk(t, c, names)
    ensures rows == NameRows(names)
  {
    hide IndexFile.FileHolds, NamedLess, IsEntry, TrigramSpec.IndexOk, IsReverse, KeyedRefs, RefOf, Blob, Tables.RowOk, Tables.Holds, Layout.Size;
    FileLookup.SectionAt(file, ps, t, 2);
    var cells := Tables.ReadTable(IndexFile.Widths[2], file[ps[2].off..ps[2].off + Layout.Size(ps[2])], ps[2].n, IndexFile.NameCells(t.names));
    rows := [];
    for i := 0 to |cells|
      invariant |rows| == i && forall k :: 0 <= k < i ==> rows[k] == NameRows(names)[k]
    {
      assert names[i] in names;
      EntryReads(c, names[i]);
      FileLookup.TextAt(file, ps, t, Ref(names[i].off, |names[i].text|), names[i].text);
      rows := rows + [TrigramSpec.NameRow(file[ps[11].off + cells[i][0]..ps[11].off + cells[i][0] + cells[i][1]], cells[i][2])];
    }
  }

  /** The trigram dictionary section. */
  method FileDict(file: seq<byte>, ps: seq<Layout.Place>, ghost t: Image) returns (dict: seq<TrigramSpec.DictRow>)
    requires IndexFile.FileHolds(file, ps, t)
    ensures dict == t.dict
  {
    hide IndexFile.FileHolds, Tables.RowOk, Tables.Holds, Layout.Size;
    FileLookup.SectionAt(file, ps, t, 12);
    var cells := Tables.ReadTable(IndexFile.Widths[12], file[ps[12].off..ps[12].off + Layout.Size(ps[12])], ps[12].n, IndexFile.DictCells(t.dict));
    dict := [];
    for i := 0 to |cells|
      invariant dict == t.dict[..i]
    {
      assert cells[i] == IndexFile.DictCells(t.dict)[i];
      dict := dict + [TrigramSpec.DictRow(TrigramSpec.Tri(cells[i][0] as byte, cells[i][1] as byte, cells[i][2] as byte), cells[i][4], cells[i][5], cells[i][6])];
    }
  }

  /** Search the bytes of a file. */
  method FindInFile(file: seq<byte>, ps: seq<Layout.Place>, needle: seq<byte>, limit: nat, ignoreCase: bool, threads: nat,
                    ghost t: Image, ghost c: Canon, ghost names: seq<Named>) returns (out: seq<nat>)
    requires IndexFile.FileHolds(file, ps, t) && ImageOf(t, c) && NamesOk(t, c, names) && |needle| >= 3 && threads >= 1
    ensures out == TrigramSpec.SerialScan(NameRows(names), needle, ignoreCase, limit)
  {
    hide IndexFile.FileHolds, ImageOf, NamesOf, TrigramSpec.IndexOk, TrigramSpec.SerialScan;
    var rows := FileNames(file, ps, t, c, names);
    var dict := FileDict(file, ps, t);
    FileLookup.ByteSection(file, ps, t, 13, t.post);
    var post := file[ps[13].off..ps[13].off + ps[13].n];
    out := SubstringQuery.Answer(rows, dict, post, needle, limit, ignoreCase, threads);
  }

  /** In the builder's own rows: the sym's name, or an alias of a sym that is no variable. */
  lemma GoesByBuilder(r: Rows, s: nat, text: Str)
    ensures GoesBy(Suppress(FactsOf(r)), s, text) <==>
      || (s in r.syms && r.syms[s].name == text)
      || (Row([s], text) in r.aliases && !(s in r.syms && r.syms[s].kind == VARIABLE))
  {
    hide Best;
    SuppressedAre(FactsOf(r), Row([s], text));
  }

  /** Finish a builder, write the file, open it and search its bytes: the answer is the first
      `limit` syms whose display name, or alias that is not suppressed, spells the needle, and
      it is the answer the tables gave before they were written. */
  method FindInBuild(r: Rows, needle: seq<byte>, limit: nat, ignoreCase: bool, threads: nat)
    returns (file: seq<byte>, out: seq<nat>, before: seq<nat>)
    requires IndexFile.Buildable(r) && |needle| >= 3 && threads >= 1
    ensures FirstMatches(Suppress(FactsOf(r)), needle, ignoreCase, limit, out) && out == before
  {
    IndexFile.BuildableParts(r);
    hide ImageOf, CanonFacts, FactsOf, Suppress, Shaped, Stream.SourceOk, NamesOk, FirstMatches, TrigramSpec.SerialScan,
      IndexFile.FileHolds, IndexFile.FilesFit, IndexFile.Encodable, IndexFile.Buildable;
    var t := Coalesce.FinishFile(r);
    ghost var c := Coalesce.TablesOf(t, Suppress(FactsOf(r)));
    ghost var names := NamesIn(t, c);
    before := FindInImage(t, needle, limit, ignoreCase, threads, c, names);
    IndexFile.ImageFits(t, Suppress(FactsOf(r)));
    ghost var places;
    file, places := IndexFile.Encode(t);
    var ps := IndexFile.Open(file, places, t);
    out := FindInFile(file, ps, needle, limit, ignoreCase, threads, t, c, names);
    NamesOfOk(t, c, names);
    ScanFirstMatches(c, names, needle, ignoreCase, limit);
  }

  lemma NamesOfOk(t: Image, c: Canon, names: seq<Named>)
    requires NamesOk(t, c, names)
    ensures NamesOf(names, c)
  {
  }
}
