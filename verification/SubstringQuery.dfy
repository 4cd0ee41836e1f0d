/** `syms_matching_substring_impl`: choosing between the trigram path and the scan. */
module SubstringQuery {
  import opened Bytes
  import opened TrigramSpec
  import TrigramBuild
  import TrigramQuery
  import LinearScan
  import LinearExact
  import ScanMeaning

  /** No trigram occurs: every name is shorter than three bytes. */
  lemma EmptyDictionary(rows: seq<NameRow>, post: seq<byte>, needle: seq<byte>, ignoreCase: bool, limit: nat)
    requires IndexOk(rows, [], post) && |needle| >= 3
    ensures SerialScan(rows, needle, ignoreCase, limit) == []
    ensures forall r :: 0 <= r < |rows| ==> !Matches(rows[r].name, needle, ignoreCase)
  {
    var t := TriAt(LowerAll(needle), 0);
    assert HasTri(LowerAll(needle), t);
    assert AllPostings(rows, t) == [] by { assert !Keyed([], t); }
    forall r | 0 <= r < |rows| ensures !Matches(rows[r].name, needle, ignoreCase) {
      TrigramQuery.NotListedNoMatch(rows, needle, ignoreCase, t, r);
    }
    TrigramQuery.ScanSkips(rows, needle, ignoreCase, 0, |rows|);
  }

  /** Answer a substring query over an index. A needle of three bytes or more gets the
      serial scan's answer whatever the index; a shorter one gets it exactly when no sym the
      thread caps drop is missed. */
  method Answer(rows: seq<NameRow>, dict: seq<DictRow>, post: seq<byte>, needle: seq<byte>, limit: nat,
                ignoreCase: bool, threads: nat) returns (out: seq<nat>)
    requires IndexOk(rows, dict, post) && threads >= 1
    ensures needle == [] || rows == [] || limit == 0 ==> out == []
    ensures |needle| >= 3 ==> out == SerialScan(rows, needle, ignoreCase, limit)
    ensures |needle| >= 3 ==> ScanMeaning.FirstSyms(rows, needle, ignoreCase, limit, out)
    ensures 1 <= |needle| < 3 ==>
      (out == SerialScan(rows, needle, ignoreCase, limit) <==>
       LinearExact.Patched(LinearExact.Marks(rows, needle, ignoreCase, limit, threads), limit))
  {
    hide IndexOk, Matches, LinearExact.Marks, ScanMeaning.FirstSyms;
    ScanMeaning.ScanFirst(rows, needle, ignoreCase, limit);
    if 1 <= |needle| < 3 { LinearExact.LinearIsSerialIff(rows, needle, ignoreCase, limit, threads); }
    hide LinearExact.Patched;
    if needle == [] || rows == [] || limit == 0 {
      LinearScan.NothingAsked(rows, needle, ignoreCase, limit, threads);
      return [];
    }
    if |needle| >= 3 && dict != [] {
      out := TrigramQuery.Search(rows, dict, post, needle, limit, ignoreCase);
    } else {
      out := LinearScan.Linear(rows, needle, ignoreCase, limit, threads);
      if |needle| >= 3 {
        EmptyDictionary(rows, post, needle, ignoreCase, limit);
        NothingKept(rows, needle, ignoreCase, LinearScan.ChunkSize(|rows|, threads), limit, threads);
      }
    }
  }

  lemma {:induction false} NothingKept(rows: seq<NameRow>, needle: seq<byte>, ignoreCase: bool, chunk: nat, limit: nat, t: nat)
    requires forall r :: 0 <= r < |rows| ==> !Matches(rows[r].name, needle, ignoreCase)
    ensures LinearScan.Kept(rows, needle, ignoreCase, chunk, limit, t) == []
  {
    hide Matches;
    if t != 0 {
      NothingKept(rows, needle, ignoreCase, chunk, limit, t - 1);
      LinearScan.LoAscends(|rows|, chunk, t - 1);
      NoHits(rows, needle, ignoreCase, LinearScan.Lo(|rows|, chunk, t - 1), LinearScan.Lo(|rows|, chunk, t));
    }
  }

  lemma {:induction false} NoHits(rows: seq<NameRow>, needle: seq<byte>, ignoreCase: bool, lo: nat, hi: nat)
    requires lo <= hi <= |rows|
    requires forall r :: 0 <= r < |rows| ==> !Matches(rows[r].name, needle, ignoreCase)
    ensures LinearScan.Hits(rows, needle, ignoreCase, lo, hi) == []
  {
    if lo < hi { NoHits(rows, needle, ignoreCase, lo, hi - 1); }
  }

  /** End to end: index a names table, then query it: the syms of the first rows that spell the
      needle, letter case aside if asked. */
  method BuildAndAnswer(rows: seq<NameRow>, needle: seq<byte>, limit: nat, ignoreCase: bool, threads: nat)
    returns (out: seq<nat>)
    requires IndexFits(rows) && |needle| >= 3 && threads >= 1
    ensures out == SerialScan(rows, needle, ignoreCase, limit)
    ensures ScanMeaning.FirstSyms(rows, needle, ignoreCase, limit, out)
  {
    hide ScanMeaning.FirstSyms, IndexOk, SerialScan, IndexFits;
    var dict, post := TrigramBuild.Build(rows);
    out := Answer(rows, dict, post, needle, limit, ignoreCase, threads);
  }
}
