/** `syms_matching_substring_trigram`: the galloping intersection agrees with the
    serial scan on every names table, needle and limit. */
module TrigramQuery {
  import opened Bytes
  import opened TrigramSpec
  import opened TrigramSearch
  import TrigramBuild

  lemma {:induction false} ScanExtends(rows: seq<NameRow>, needle: seq<byte>, ignoreCase: bool, n: nat, m: nat)
    requires n <= m <= |rows|
    ensures Scan(rows, needle, ignoreCase, n) <= Scan(rows, needle, ignoreCase, m)
  {
    if n < m { ScanExtends(rows, needle, ignoreCase, n, m - 1); }
  }

  /** Rows that do not match contribute nothing. */
  lemma {:induction false} ScanSkips(rows: seq<NameRow>, needle: seq<byte>, ignoreCase: bool, n: nat, m: nat)
    requires n <= m <= |rows|
    requires forall r :: n <= r < m ==> !Matches(rows[r].name, needle, ignoreCase)
    ensures Scan(rows, needle, ignoreCase, n) == Scan(rows, needle, ignoreCase, m)
  {
    if n < m { ScanSkips(rows, needle, ignoreCase, n, m - 1); }
  }

  /** The `limit` cut can be taken as soon as it is reached. */
  lemma ScanCut(rows: seq<NameRow>, needle: seq<byte>, ignoreCase: bool, n: nat, limit: nat)
    requires n <= |rows| && |Scan(rows, needle, ignoreCase, n)| == limit
    ensures SerialScan(rows, needle, ignoreCase, limit) == Scan(rows, needle, ignoreCase, n)
  {
    ScanExtends(rows, needle, ignoreCase, n, |rows|);
  }

  /** A row missing from one needle trigram's list does not match. */
  lemma NotListedNoMatch(rows: seq<NameRow>, needle: seq<byte>, ignoreCase: bool, t: Tri, r: nat)
    requires r < |rows| && HasTri(LowerAll(needle), t) && r !in AllPostings(rows, t)
    ensures !Matches(rows[r].name, needle, ignoreCase)
  {
    if Matches(rows[r].name, needle, ignoreCase) {
      var i: nat :| i + 2 < |LowerAll(needle)| && TriAt(LowerAll(needle), i) == t;
      MatchHasTri(rows[r].name, needle, ignoreCase, i);
    }
  }

  /** No row strictly between two consecutive driver candidates matches. */
  lemma NoMatchBetween(rows: seq<NameRow>, needle: seq<byte>, ignoreCase: bool, t: Tri, i: nat, n: nat, m: nat)
    requires HasTri(LowerAll(needle), t) && n <= m <= |rows|
    requires var ids := AllPostings(rows, t);
             && i <= |ids|
             && (n == if i == 0 then 0 else ids[i - 1] + 1)
             && (m == if i == |ids| then |rows| else ids[i])
    ensures forall r :: n <= r < m ==> !Matches(rows[r].name, needle, ignoreCase)
  {
    var ids := AllPostings(rows, t);
    forall r | n <= r < m ensures !Matches(rows[r].name, needle, ignoreCase) {
      forall k | 0 <= k < |ids| ensures ids[k] != r {}
      NotListedNoMatch(rows, needle, ignoreCase, t, r);
    }
  }

  method Verify(name: seq<byte>, needle: seq<byte>, ignoreCase: bool) returns (hit: bool)
    ensures hit <==> Matches(name, needle, ignoreCase)
  {
    hide Matches;
    FoldedSearch(name, needle);
    if ignoreCase { hit := Find(LowerAll(name), LowerAll(needle)); }
    else { hit := Find(name, needle); }
  }

  /** One driver candidate: intersect, verify, collect. */
  method Visit(rows: seq<NameRow>, post: seq<byte>, others: seq<DictRow>, cand: nat, cursors: seq<nat>,
               needle: seq<byte>, ignoreCase: bool, out: seq<nat>, seen: set<nat>)
    returns (out': seq<nat>, seen': set<nat>, cursors': seq<nat>)
    requires cand < |rows| && |cursors| == |others|
    requires forall k :: 0 <= k < |others| ==> RowOk(rows, others[k], post) && HasTri(LowerAll(needle), others[k].tri)
    requires forall k :: 0 <= k < |others| ==> HintOk(AllPostings(rows, others[k].tri), cursors[k], cand)
    requires out == Scan(rows, needle, ignoreCase, cand)
    requires forall s :: s in seen <==> s in out
    ensures out' == Scan(rows, needle, ignoreCase, cand + 1)
    ensures |out'| <= |out| + 1
    ensures forall s :: s in seen' <==> s in out'
    ensures |cursors'| == |others|
    ensures forall k, later :: 0 <= k < |others| && cand <= later ==>
      HintOk(AllPostings(rows, others[k].tri), cursors'[k], later)
  {
    hide AllPostings, HintOk, RowOk, HasTri, Matches;
    var inAll;
    inAll, cursors' := InAll(rows, post, others, cand, cursors);
    out', seen' := out, seen;
    if !inAll {
      ghost var k :| 0 <= k < |others| && cand !in AllPostings(rows, others[k].tri);
      NotListedNoMatch(rows, needle, ignoreCase, others[k].tri, cand);
    } else {
      var hit := Verify(rows[cand].name, needle, ignoreCase);
      if hit && rows[cand].sym !in seen {
        out', seen' := out + [rows[cand].sym], seen + {rows[cand].sym};
      }
    }
  }

  method Search(rows: seq<NameRow>, dict: seq<DictRow>, post: seq<byte>, needle: seq<byte>, limit: nat, ignoreCase: bool)
    returns (out: seq<nat>)
    requires IndexOk(rows, dict, post) && |needle| >= 3 && limit >= 1
    ensures out == SerialScan(rows, needle, ignoreCase, limit)
  {
    hide HasTri, Matches, RowOk, HintOk, AllPostings, RegionOk, RegionPartial, Tiles;
    var tris := NeedleTris(needle);
    var resolved := Resolve(dict, tris);
    if resolved.None? {
      MissingTrigram(rows, dict, post, tris, needle, limit, ignoreCase);
      return [];
    }
    var posts := resolved.value;
    forall k | 0 <= k < |posts| ensures RowOk(rows, posts[k], post) && HasTri(LowerAll(needle), posts[k].tri) {
      assert tris[k] in tris;
    }
    var d := Driver(posts);
    var others := posts[..d] + posts[d + 1..];
    out := Drive(rows, post, posts[d], others, needle, limit, ignoreCase);
  }

  /** A needle trigram without a dictionary row means no name can match. */
  lemma MissingTrigram(rows: seq<NameRow>, dict: seq<DictRow>, post: seq<byte>, tris: seq<Tri>,
                       needle: seq<byte>, limit: nat, ignoreCase: bool)
    requires IndexOk(rows, dict, post)
    requires forall t :: t in tris <==> HasTri(LowerAll(needle), t)
    requires exists k :: 0 <= k < |tris| && !Keyed(dict, tris[k])
    ensures SerialScan(rows, needle, ignoreCase, limit) == []
  {
    var k :| 0 <= k < |tris| && !Keyed(dict, tris[k]);
    assert tris[k] in tris;
    forall r | 0 <= r < |rows| ensures !Matches(rows[r].name, needle, ignoreCase) {
      NotListedNoMatch(rows, needle, ignoreCase, tris[k], r);
    }
    ScanSkips(rows, needle, ignoreCase, 0, |rows|);
  }

  lemma RowFacts(rows: seq<NameRow>, p: DictRow, post: seq<byte>)
    requires RowOk(rows, p, post)
    ensures var ids := AllPostings(rows, p.tri);
      && Ascending(ids) && RegionOk(post, p.postOff, ids) && p.count == |ids|
      && (forall k :: 0 <= k < |ids| ==> ids[k] < |rows|)
      && (forall j, k :: 0 <= j < k < |ids| ==> ids[j] < ids[k])
  {
  }

  lemma FreshCursor(ids: seq<nat>, cand: nat)
    ensures HintOk(ids, 0, cand)
  {
  }

  method Drive(rows: seq<NameRow>, post: seq<byte>, driver: DictRow, others: seq<DictRow>, needle: seq<byte>,
               limit: nat, ignoreCase: bool) returns (out: seq<nat>)
    requires limit >= 1 && RowOk(rows, driver, post) && HasTri(LowerAll(needle), driver.tri)
    requires forall k :: 0 <= k < |others| ==> RowOk(rows, others[k], post) && HasTri(LowerAll(needle), others[k].tri)
    ensures out == SerialScan(rows, needle, ignoreCase, limit)
  {
    hide HasTri, Matches, RowOk, HintOk, AllPostings, RegionOk, RegionPartial;
    RowFacts(rows, driver, post);
    ghost var ids := AllPostings(rows, driver.tri);
    var driverIds := DecodePostings(post, driver, ids);
    var cursors := seq(|others|, _ => 0);
    var seen: set<nat> := {};
    out := [];
    ghost var upto := 0;
    forall k, later | 0 <= k < |others| && upto <= later
      ensures HintOk(AllPostings(rows, others[k].tri), cursors[k], later)
    {
      FreshCursor(AllPostings(rows, others[k].tri), later);
    }
    for i := 0 to |driverIds|
      invariant upto == (if i == 0 then 0 else ids[i - 1] + 1)
      invariant upto <= |rows|
      invariant out == Scan(rows, needle, ignoreCase, upto) && |out| < limit
      invariant forall s :: s in seen <==> s in out
      invariant |cursors| == |others|
      invariant forall k, later :: 0 <= k < |others| && upto <= later ==>
        HintOk(AllPostings(rows, others[k].tri), cursors[k], later)
    {
      var cand := driverIds[i];
      NoMatchBetween(rows, needle, ignoreCase, driver.tri, i, upto, cand);
      ScanSkips(rows, needle, ignoreCase, upto, cand);
      out, seen, cursors := Visit(rows, post, others, cand, cursors, needle, ignoreCase, out, seen);
      upto := cand + 1;
      if |out| >= limit {
        ScanCut(rows, needle, ignoreCase, upto, limit);
        return;
      }
    }
    NoMatchBetween(rows, needle, ignoreCase, driver.tri, |ids|, upto, |rows|);
    ScanSkips(rows, needle, ignoreCase, upto, |rows|);
  }
}
