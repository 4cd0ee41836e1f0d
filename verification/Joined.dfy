/** What any number of sources come to say together, told source by source: which gives a sym
    its kind, its language, a file its path, a sym its type. */
module Joined {
  import opened Bytes
  import opened Facts
  import Names

  function KindPart(m: Meta): nat { m.kind }
  function LangPart(m: Meta): nat { m.lang }

  /** Source `i` is the first to know this part of the sym. */
  ghost predicate FirstKnown(fs: seq<Facts>, s: nat, part: Meta -> nat, i: nat)
  {
    && i < |fs| && s in fs[i].syms && part(fs[i].syms[s]) != UNK
    && forall j | 0 <= j < i && s in fs[j].syms :: part(fs[j].syms[s]) == UNK
  }

  ghost predicate NoneKnows(fs: seq<Facts>, s: nat, part: Meta -> nat)
  {
    forall j | 0 <= j < |fs| && s in fs[j].syms :: part(fs[j].syms[s]) == UNK
  }

  /** `v` is what the first source that knows says; unknown if and only if none does. */
  ghost predicate Settled(fs: seq<Facts>, s: nat, part: Meta -> nat, v: nat)
  {
    && (v == UNK <==> NoneKnows(fs, s, part))
    && forall i: nat | FirstKnown(fs, s, part, i) :: v == part(fs[i].syms[s])
  }

  /** Somebody is first. */
  lemma {:induction false} SomeFirst(fs: seq<Facts>, s: nat, part: Meta -> nat) returns (i: nat)
    requires !NoneKnows(fs, s, part)
    ensures FirstKnown(fs, s, part, i)
  {
    var n := |fs| - 1;
    if NoneKnows(fs[..n], s, part) {
      i := n;
      forall j | 0 <= j < n && s in fs[j].syms ensures part(fs[j].syms[s]) == UNK { assert fs[..n][j] == fs[j]; }
    } else {
      i := SomeFirst(fs[..n], s, part);
    }
  }

  ghost predicate Said(fs: seq<Facts>, s: nat)
  {
    exists i :: 0 <= i < |fs| && s in fs[i].syms
  }

  /** One more source: it matters only while the part is unknown. */
  lemma SettledMore(fs: seq<Facts>, last: Facts, s: nat, part: Meta -> nat, v: nat, w: nat)
    requires Said(fs, s) ==> Settled(fs, s, part, v)
    requires s in last.syms ==> w == if Said(fs, s) && v != UNK then v else part(last.syms[s])
    requires s !in last.syms ==> w == v
    requires Said(fs + [last], s)
    ensures Settled(fs + [last], s, part, w)
  {
    var gs := fs + [last];
    assert forall i :: 0 <= i < |fs| ==> gs[i] == fs[i];
    assert gs[|fs|] == last;
    assert NoneKnows(gs, s, part) <==> NoneKnows(fs, s, part) && (s in last.syms ==> part(last.syms[s]) == UNK);
    forall i: nat | FirstKnown(gs, s, part, i) ensures w == part(gs[i].syms[s]) {
      if i < |fs| {
        assert FirstKnown(fs, s, part, i);
      } else {
        assert NoneKnows(fs, s, part);
      }
    }
  }

  lemma SaidMore(fs: seq<Facts>, last: Facts, s: nat)
    ensures Said(fs + [last], s) <==> Said(fs, s) || s in last.syms
  {
    var gs := fs + [last];
    assert gs[|fs|] == last;
    if Said(fs, s) {
      var i :| 0 <= i < |fs| && s in fs[i].syms;
      assert gs[i] == fs[i];
    }
  }

  /** For every sequence of sources - calls of a builder, drained builders, merged files - and
      every sym: its kind and its language are those of the first source that knows them. */
  lemma {:induction false} JoinAllMeta(fs: seq<Facts>, s: nat)
    ensures s in JoinAll(fs).syms <==> Said(fs, s)
    ensures s in JoinAll(fs).syms ==> Settled(fs, s, KindPart, JoinAll(fs).syms[s].kind)
    ensures s in JoinAll(fs).syms ==> Settled(fs, s, LangPart, JoinAll(fs).syms[s].lang)
  {
    if fs != [] {
      var n := |fs| - 1;
      var before := JoinAll(fs[..n]);
      assert fs == fs[..n] + [fs[n]];
      JoinAllMeta(fs[..n], s);
      JoinAllSnoc(fs[..n], fs[n]);
      hide JoinAll, Settled;
      SaidMore(fs[..n], fs[n], s);
      if Said(fs, s) {
        var m := JoinAll(fs).syms[s];
        var b := if s in before.syms then before.syms[s] else m;
        SettledMore(fs[..n], fs[n], s, KindPart, b.kind, m.kind);
        SettledMore(fs[..n], fs[n], s, LangPart, b.lang, m.lang);
      }
    }
  }

  /** The same through any tree of merges. */
  lemma TreeMeta(t: Tree, s: nat)
    ensures s in Coalesced(t).syms <==> Said(Leaves(t), s)
    ensures s in Coalesced(t).syms ==> Settled(Leaves(t), s, KindPart, Coalesced(t).syms[s].kind)
    ensures s in Coalesced(t).syms ==> Settled(Leaves(t), s, LangPart, Coalesced(t).syms[s].lang)
  {
    hide Coalesced, JoinAll, Settled;
    CoalescedSays(t, Row([], []));
    assert Coalesced(t).syms == Coalesced(t).(aliases := {}).syms == JoinAll(Leaves(t)).syms;
    JoinAllMeta(Leaves(t), s);
  }

  // ---------------------------------------------------------------- the other tables

  lemma {:induction false} RowsOfAll(fs: seq<Facts>, say: Facts -> set<Row>, x: Row)
    requires (forall a, b :: say(Join(a, b)) == say(a) + say(b)) && say(EMPTY) == {}
    ensures x in say(JoinAll(fs)) <==> exists i :: 0 <= i < |fs| && x in say(fs[i])
  {
    if fs == [] {
      NoFacts();
    } else {
      var n := |fs| - 1;
      RowsOfAll(fs[..n], say, x);
      JoinAllSnoc(fs[..n], fs[n]);
      assert fs == fs[..n] + [fs[n]];
      assert forall i :: 0 <= i < n ==> fs[..n][i] == fs[i];
    }
  }

  /** A row is there if and only if some source has it. */
  lemma JoinAllRows(fs: seq<Facts>, x: Row)
    ensures x in JoinAll(fs).xrefs <==> exists i :: 0 <= i < |fs| && x in fs[i].xrefs
    ensures x in JoinAll(fs).inherits <==> exists i :: 0 <= i < |fs| && x in fs[i].inherits
    ensures x in JoinAll(fs).calls <==> exists i :: 0 <= i < |fs| && x in fs[i].calls
    ensures x in JoinAll(fs).childof <==> exists i :: 0 <= i < |fs| && x in fs[i].childof
    ensures x in JoinAll(fs).aliases <==> exists i :: 0 <= i < |fs| && x in fs[i].aliases
  {
    hide JoinMap, JoinAll;
    RowsOfAll(fs, (f: Facts) => f.xrefs, x);
    RowsOfAll(fs, (f: Facts) => f.inherits, x);
    RowsOfAll(fs, (f: Facts) => f.calls, x);
    RowsOfAll(fs, (f: Facts) => f.childof, x);
    RowsOfAll(fs, (f: Facts) => f.aliases, x);
  }

  /** A file's path is that of the first source that names the file. */
  lemma {:induction false} JoinAllFiles(fs: seq<Facts>, id: nat, i: nat)
    requires i < |fs| && id in fs[i].files && forall j :: 0 <= j < i ==> id !in fs[j].files
    ensures id in JoinAll(fs).files && JoinAll(fs).files[id] == fs[i].files[id]
  {
    var n := |fs| - 1;
    if i < n { JoinAllFiles(fs[..n], id, i); } else { NoFile(fs[..n], id); }
  }

  lemma {:induction false} NoFile(fs: seq<Facts>, id: nat)
    ensures id in JoinAll(fs).files <==> exists i :: 0 <= i < |fs| && id in fs[i].files
  {
    if fs != [] {
      var n := |fs| - 1;
      NoFile(fs[..n], id);
      assert forall i :: 0 <= i < n ==> fs[..n][i] == fs[i];
    }
  }

  /** A string is better than another: it says something and the other does not, or it sorts
      before it. */
  ghost predicate Better(a: Str, b: Str)
  {
    a != [] && (b == [] || LexLess(a, b))
  }

  /** `v` is one of the sources' strings for the key, and none of theirs is better. */
  ghost predicate BestSaid(ms: seq<map<nat, Str>>, k: nat, v: Str)
  {
    && (exists i :: 0 <= i < |ms| && k in ms[i] && ms[i][k] == v)
    && forall i | 0 <= i < |ms| && k in ms[i] :: !Better(ms[i][k], v)
  }

  lemma BestMore(ms: seq<map<nat, Str>>, last: map<nat, Str>, k: nat, v: Str, w: Str)
    requires (exists i :: 0 <= i < |ms| && k in ms[i]) ==> BestSaid(ms, k, v)
    requires k in last ==> w == if exists i :: 0 <= i < |ms| && k in ms[i] then Smaller(v, last[k]) else last[k]
    requires k !in last ==> w == v && exists i :: 0 <= i < |ms| && k in ms[i]
    ensures BestSaid(ms + [last], k, w)
  {
    var ns := ms + [last];
    assert ns[|ms|] == last && forall i :: 0 <= i < |ms| ==> ns[i] == ms[i];
    if k in last {
      BetterOrder(v, last[k]);
      forall i | 0 <= i < |ns| && k in ns[i] ensures !Better(ns[i][k], w) {
        if i < |ms| { NotBetter(ns[i][k], v, last[k]); }
      }
    }
  }

  lemma BetterOrder(a: Str, b: Str)
    ensures !Better(b, b) && !Better(a, Smaller(a, b)) && !Better(b, Smaller(a, b))
    ensures Smaller(a, b) == a || Smaller(a, b) == b
  {
    LexIrreflexive(a);
    LexIrreflexive(b);
    if LexLess(a, b) && LexLess(b, a) { LexTransitive(a, b, a); }
  }

  lemma NotBetter(x: Str, a: Str, b: Str)
    requires !Better(x, a)
    ensures !Better(x, Smaller(a, b))
  {
    if LexLess(x, b) && LexLess(b, a) { LexTransitive(x, b, a); }
    LexTotal(x, a);
    if LexLess(a, x) && LexLess(x, b) { LexTransitive(a, x, b); }
  }

  function TypesOf(fs: seq<Facts>): (r: seq<map<nat, Str>>)
    ensures |r| == |fs| && forall i :: 0 <= i < |r| ==> r[i] == fs[i].typed
  {
    seq(|fs|, i requires 0 <= i < |fs| => fs[i].typed)
  }

  function SigsOf(fs: seq<Facts>): (r: seq<map<nat, Str>>)
    ensures |r| == |fs| && forall i :: 0 <= i < |r| ==> r[i] == fs[i].sig
  {
    seq(|fs|, i requires 0 <= i < |fs| => fs[i].sig)
  }

  ghost predicate Has(ms: seq<map<nat, Str>>, k: nat)
  {
    exists i :: 0 <= i < |ms| && k in ms[i]
  }

  lemma HasMore(ms: seq<map<nat, Str>>, last: map<nat, Str>, k: nat)
    ensures Has(ms + [last], k) <==> Has(ms, k) || k in last
  {
    var ns := ms + [last];
    assert ns[|ms|] == last && forall i :: 0 <= i < |ms| ==> ns[i] == ms[i];
  }

  lemma {:induction false} JoinAllTypes(fs: seq<Facts>, s: nat)
    ensures s in JoinAll(fs).typed <==> Has(TypesOf(fs), s)
    ensures s in JoinAll(fs).typed ==> BestSaid(TypesOf(fs), s, JoinAll(fs).typed[s])
  {
    if fs != [] {
      var n := |fs| - 1;
      var before, all := JoinAll(fs[..n]), JoinAll(fs);
      JoinAllTypes(fs[..n], s);
      JoinAllSnoc(fs[..n], fs[n]);
      assert fs == fs[..n] + [fs[n]];
      assert TypesOf(fs) == TypesOf(fs[..n]) + [fs[n].typed];
      hide JoinAll, BestSaid, Smaller, Refine;
      HasMore(TypesOf(fs[..n]), fs[n].typed, s);
      if s in all.typed {
        BestMore(TypesOf(fs[..n]), fs[n].typed, s, if s in before.typed then before.typed[s] else [], all.typed[s]);
      }
    }
  }

  lemma {:induction false} JoinAllSigs(fs: seq<Facts>, s: nat)
    ensures s in JoinAll(fs).sig <==> Has(SigsOf(fs), s)
    ensures s in JoinAll(fs).sig ==> BestSaid(SigsOf(fs), s, JoinAll(fs).sig[s])
  {
    if fs != [] {
      var n := |fs| - 1;
      var before, all := JoinAll(fs[..n]), JoinAll(fs);
      JoinAllSigs(fs[..n], s);
      JoinAllSnoc(fs[..n], fs[n]);
      assert fs == fs[..n] + [fs[n]];
      assert SigsOf(fs) == SigsOf(fs[..n]) + [fs[n].sig];
      hide JoinAll, BestSaid, Smaller, Refine;
      HasMore(SigsOf(fs[..n]), fs[n].sig, s);
      if s in all.sig {
        BestMore(SigsOf(fs[..n]), fs[n].sig, s, if s in before.sig then before.sig[s] else [], all.sig[s]);
      }
    }
  }

  /** Types and signatures: the best string any source gives. */
  lemma JoinAllText(fs: seq<Facts>, s: nat)
    ensures s in JoinAll(fs).typed <==> Has(TypesOf(fs), s)
    ensures s in JoinAll(fs).sig <==> Has(SigsOf(fs), s)
    ensures s in JoinAll(fs).typed ==> BestSaid(TypesOf(fs), s, JoinAll(fs).typed[s])
    ensures s in JoinAll(fs).sig ==> BestSaid(SigsOf(fs), s, JoinAll(fs).sig[s])
  {
    JoinAllTypes(fs, s);
    JoinAllSigs(fs, s);
  }
}
