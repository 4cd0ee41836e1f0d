/** The trigram sections are a function of the names table: two faithful indexes of the
    same names are equal byte for byte. */
module TrigramUnique {
  import opened Bytes
  import opened Varint
  import opened TrigramSpec
  import TrigramBuild
  import Order

  ghost function KeysOf(dict: seq<DictRow>): (r: seq<Tri>)
    ensures |r| == |dict| && forall i :: 0 <= i < |dict| ==> r[i] == dict[i].tri
  {
    seq(|dict|, i requires 0 <= i < |dict| => dict[i].tri)
  }

  lemma SameKeys(rows: seq<NameRow>, d1: seq<DictRow>, p1: seq<byte>, d2: seq<DictRow>, p2: seq<byte>)
    requires IndexOk(rows, d1, p1) && IndexOk(rows, d2, p2)
    ensures KeysOf(d1) == KeysOf(d2)
  {
    hide TriLess, AllPostings, RegionOk, RegionLength;
    forall t: Tri ensures t in KeysOf(d1) <==> t in KeysOf(d2) {
      KeyMeansPostings(rows, d1, p1, t);
      KeyMeansPostings(rows, d2, p2, t);
    }
    TrigramBuild.TriOrder();
    Order.AscendingUnique(TriLess, KeysOf(d1), KeysOf(d2));
  }

  lemma KeyMeansPostings(rows: seq<NameRow>, dict: seq<DictRow>, post: seq<byte>, t: Tri)
    requires IndexOk(rows, dict, post)
    ensures t in KeysOf(dict) <==> AllPostings(rows, t) != []
  {
    hide TriLess, AllPostings, RegionOk, RegionLength;
    if t in KeysOf(dict) {
      var i :| 0 <= i < |dict| && KeysOf(dict)[i] == t;
      assert RowOk(rows, dict[i], post);
    }
    if AllPostings(rows, t) != [] {
      assert Keyed(dict, t);
      var i :| 0 <= i < |dict| && dict[i].tri == t;
      assert KeysOf(dict)[i] == t;
    }
  }

  lemma SameShape(rows: seq<NameRow>, r1: DictRow, p1: seq<byte>, r2: DictRow, p2: seq<byte>)
    requires RowOk(rows, r1, p1) && RowOk(rows, r2, p2) && r1.tri == r2.tri
    ensures r1.count == r2.count && r1.postLen == r2.postLen
  {
  }

  lemma {:induction false} SameOffset(d1: seq<DictRow>, t1: nat, d2: seq<DictRow>, t2: nat, i: nat)
    requires Tiles(d1, t1) && Tiles(d2, t2) && |d1| == |d2| && i <= |d1|
    requires forall k :: 0 <= k < |d1| ==> d1[k].postLen == d2[k].postLen
    ensures EndOf(d1, i) == EndOf(d2, i)
  {
    hide Tiles, EndOf;
    if i > 0 {
      SameOffset(d1, t1, d2, t2, i - 1);
      EndStep(d1, t1, i);
      EndStep(d2, t2, i);
    } else {
      EndStart(d1);
      EndStart(d2);
    }
  }

  lemma EndStart(dict: seq<DictRow>)
    ensures EndOf(dict, 0) == 0
  {
  }

  lemma EndStep(dict: seq<DictRow>, total: nat, i: nat)
    requires Tiles(dict, total) && 0 < i <= |dict|
    ensures EndOf(dict, i) == EndOf(dict, i - 1) + dict[i - 1].postLen && dict[i - 1].postOff == EndOf(dict, i - 1)
  {
    assert dict[i - 1].postOff == EndOf(dict, i - 1);
    hide Tiles;
  }

  /** Every byte of the blob lies in some region. */
  lemma {:induction false} Covered(dict: seq<DictRow>, total: nat, x: nat, n: nat) returns (i: nat)
    requires Tiles(dict, total) && 0 < n <= |dict|
    requires x < EndOf(dict, n)
    ensures i < |dict| && dict[i].postOff <= x < dict[i].postOff + dict[i].postLen
  {
    hide Tiles, EndOf;
    EndStep(dict, total, n);
    EndStart(dict);
    if dict[n - 1].postOff <= x { i := n - 1; } else { i := Covered(dict, total, x, n - 1); }
  }

  lemma EndBounds(dict: seq<DictRow>, total: nat)
    requires Tiles(dict, total)
    ensures EndOf(dict, |dict|) == total && (total > 0 ==> dict != [])
  {
  }

  /** A region's bytes are determined by the postings it stores. */
  lemma RegionByte(p1: seq<byte>, p2: seq<byte>, off: nat, ids: seq<nat>, x: nat)
    requires RegionOk(p1, off, ids) && RegionOk(p2, off, ids)
    requires off <= x < off + RegionLength(ids)
    ensures p1[x] == p2[x]
  {
    hide Packed, BlockMax, Word, Encode;
    var y, table := x - off, SKIP_ENTRY * Blocks(|ids|);
    if y < table {
      var b, r := y / SKIP_ENTRY, y % SKIP_ENTRY;
      assert EntryOk(p1, off, ids, |ids|, b) && EntryOk(p2, off, ids, |ids|, b);
      var e := off + b * SKIP_ENTRY;
      if r < 4 {
        SameAt(p1, p2, e, Word(BlockMax(ids, |ids|, b)), r);
      } else {
        SameAt(p1, p2, e + 4, Word(BlockOffset(ids, b)), r - 4);
      }
    } else {
      SameAt(p1, p2, off + table, Packed(ids, |ids|), y - table);
    }
  }

  lemma SameAt(p1: seq<byte>, p2: seq<byte>, at: nat, s: seq<byte>, k: nat)
    requires BytesAt(p1, at, s) && BytesAt(p2, at, s) && k < |s|
    ensures p1[at + k] == p2[at + k]
  {
    assert p1[at..at + |s|][k] == p1[at + k] && p2[at..at + |s|][k] == p2[at + k];
  }

  /** One names table, one dictionary and one postings blob. */
  lemma IndexDetermined(rows: seq<NameRow>, d1: seq<DictRow>, p1: seq<byte>, d2: seq<DictRow>, p2: seq<byte>)
    requires IndexOk(rows, d1, p1) && IndexOk(rows, d2, p2)
    ensures d1 == d2 && p1 == p2
  {
    hide TriLess, AllPostings, RegionOk, RegionLength, RowOk, EndOf;
    SameKeys(rows, d1, p1, d2, p2);
    assert |d1| == |d2|;
    forall i | 0 <= i < |d1|
      ensures d1[i].tri == d2[i].tri && d1[i].count == d2[i].count && d1[i].postLen == d2[i].postLen
    {
      assert d1[i].tri == KeysOf(d1)[i] == KeysOf(d2)[i] == d2[i].tri;
      SameShape(rows, d1[i], p1, d2[i], p2);
    }
    forall i | 0 <= i <= |d1| ensures EndOf(d1, i) == EndOf(d2, i) { SameOffset(d1, |p1|, d2, |p2|, i); }
    assert d1 == d2;
    assert |p1| == |p2|;
    SameBlob(rows, d1, p1, p2);
  }

  lemma SameBlob(rows: seq<NameRow>, d1: seq<DictRow>, p1: seq<byte>, p2: seq<byte>)
    requires IndexOk(rows, d1, p1) && IndexOk(rows, d1, p2) && |p1| == |p2|
    ensures p1 == p2
  {
    hide TriLess, AllPostings, RegionOk, RegionLength, EndOf;
    forall x | 0 <= x < |p1| ensures p1[x] == p2[x] {
      EndBounds(d1, |p1|);
      var i := Covered(d1, |p1|, x, |d1|);
      assert RowOk(rows, d1[i], p1) && RowOk(rows, d1[i], p2);
      RegionByte(p1, p2, d1[i].postOff, AllPostings(rows, d1[i].tri), x);
    }
  }
}
