/** The display-name preference: which of two names a sym keeps, and when the order in
    which compilation units and shards supply them cannot matter. */
module Names {
  import opened Bytes

  type Name = seq<byte>

  function IsAlphanumeric(b: byte): bool
  {
    48 <= b <= 57 || 65 <= b <= 90 || 97 <= b <= 122
  }

  /** No alphanumeric character: nothing that identifies an element. */
  predicate IsDegenerate(name: Name)
  {
    forall i :: 0 <= i < |name| ==> !IsAlphanumeric(name[i])
  }

  /** `kythe:` */
  const TICKET: Name := [107, 121, 116, 104, 101, 58]

  predicate IsTicket(name: Name)
  {
    TICKET <= name
  }

  /** Exactly the ASCII digits and letters identify an element. */
  lemma AlphanumericAre(b: byte)
    ensures var c := b as char; IsAlphanumeric(b) <==> '0' <= c <= '9' || 'A' <= c <= 'Z' || 'a' <= c <= 'z'
  {
  }

  /** Tickets are the names that start with `kythe:`. */
  lemma TicketsAre(name: Name)
    ensures IsTicket(name) <==> |name| >= 6 && forall i :: 0 <= i < 6 ==> name[i] == "kythe:"[i] as int
  {
    if |name| >= 6 && forall i :: 0 <= i < 6 ==> name[i] == "kythe:"[i] as int { assert name[..6] == TICKET; }
  }

  /** Should `cand` replace `cur`? */
  predicate PrefersName(cur: Name, cand: Name)
  {
    if cand == [] then false
    else if cur == [] then true
    else if !IsDegenerate(cur) && IsDegenerate(cand) then false
    else if IsDegenerate(cur) && !IsDegenerate(cand) then true
    else if IsDegenerate(cur) then false
    else if IsTicket(cur) && !IsTicket(cand) then true
    else if !IsTicket(cur) && IsTicket(cand) then false
    else |cand| < |cur| || (|cand| == |cur| && LexLess(cand, cur))
  }

  /** The step every merge applies: keep or replace. */
  function Pick(cur: Name, cand: Name): Name
  {
    if PrefersName(cur, cand) then cand else cur
  }

  // ---------------------------------------------------------------- the preorder behind it

  /** Class of a name; higher classes win. */
  function Class(name: Name): nat
  {
    if name == [] then 0 else if IsDegenerate(name) then 1 else if IsTicket(name) then 2 else 3
  }

  predicate Usable(name: Name)
  {
    Class(name) >= 2
  }

  /** `PrefersName` is the strict part of a total preorder: by class, and among usable
      names of one class by length and then by bytes; two degenerate names tie. */
  lemma PrefersIsRank(cur: Name, cand: Name)
    ensures PrefersName(cur, cand) <==>
      Class(cand) > Class(cur)
      || (Class(cand) == Class(cur) && Usable(cur) &&
          (|cand| < |cur| || (|cand| == |cur| && LexLess(cand, cur))))
  {
  }

  /** A name with a letter or digit beats one without, any name beats none, and a plain one
      beats a ticket; a shorter one beats a longer one of its class, and among equally long
      ones the one that sorts first wins. */
  lemma PreferenceIs(plain: Name, other: Name, ticket: Name, odd: Name)
    requires !IsDegenerate(plain) && !IsTicket(plain) && !IsDegenerate(other) && !IsTicket(other)
    requires !IsDegenerate(ticket) && IsTicket(ticket) && odd != [] && IsDegenerate(odd)
    ensures PrefersName(ticket, plain) && !PrefersName(plain, ticket)
    ensures PrefersName(odd, ticket) && !PrefersName(ticket, odd)
    ensures PrefersName([], odd) && !PrefersName(odd, [])
    ensures |plain| < |other| ==> PrefersName(other, plain) && !PrefersName(plain, other)
    ensures |plain| == |other| && LexLess(plain, other) ==> PrefersName(other, plain) && !PrefersName(plain, other)
  {
    if LexLess(plain, other) && LexLess(other, plain) { LexTransitive(plain, other, plain); LexIrreflexive(plain); }
  }

  lemma PrefersTransitive(a: Name, b: Name, c: Name)
    ensures PrefersName(a, b) && PrefersName(b, c) ==> PrefersName(a, c)
    ensures !PrefersName(a, b) && !PrefersName(b, c) ==> !PrefersName(a, c)
    ensures !(PrefersName(a, b) && PrefersName(b, a))
  {
    if Usable(a) && Usable(b) { LexTotal(a, b); }
    if Usable(b) && Usable(c) { LexTotal(b, c); }
    if LexLess(a, b) && LexLess(b, a) { LexTransitive(a, b, a); LexIrreflexive(a); }
    if LexLess(b, a) && LexLess(c, b) { LexTransitive(c, b, a); }
    if LexLess(a, b) && LexLess(b, c) { LexTransitive(a, b, c); }
    if LexLess(a, c) && LexLess(c, a) { LexTransitive(a, c, a); LexIrreflexive(a); }
    LexIrreflexive(a);
  }

  /** Keep-or-replace is associative: any grouping that respects the order agrees. */
  lemma PickAssociative(a: Name, b: Name, c: Name)
    ensures Pick(Pick(a, b), c) == Pick(a, Pick(b, c))
  {
    PrefersTransitive(a, b, c);
    PrefersTransitive(a, c, b);
    PrefersTransitive(b, a, c);
  }

  // ---------------------------------------------------------------- order independence

  /** The name left after the candidates arrived in this order. */
  function Chosen(names: seq<Name>): Name
  {
    if names == [] then [] else Pick(Chosen(names[..|names| - 1]), names[|names| - 1])
  }

  /** What survives: nothing was preferred to it, and it is the first such. */
  lemma {:induction false} ChosenIsBest(names: seq<Name>, i: nat)
    requires i < |names|
    ensures !PrefersName(Chosen(names), names[i])
    ensures Chosen(names) == [] || Chosen(names) in names
  {
    var n := |names| - 1;
    var before := Chosen(names[..n]);
    assert names == names[..n] + [names[n]];
    PrefersTransitive(before, names[n], before);
    LexIrreflexive(names[n]);
    if i < n {
      ChosenIsBest(names[..n], i);
      PrefersTransitive(names[n], before, names[i]);
      PrefersTransitive(before, names[n], names[i]);
    } else if n > 0 {
      ChosenIsBest(names[..n], 0);
    }
  }

  /** Two usable names neither of which is preferred are the same name. */
  lemma UsableTieIsEqual(a: Name, b: Name)
    requires Usable(a) && !PrefersName(a, b) && !PrefersName(b, a)
    ensures Usable(b) ==> a == b
    ensures Usable(b)
  {
    LexTotal(a, b);
  }

  /** Arrival order cannot matter: a usable name is among the candidates, or all the
      non-empty ones are one and the same. */
  ghost predicate OrderFree(names: seq<Name>)
  {
    || (exists i :: 0 <= i < |names| && Usable(names[i]))
    || (forall i, j :: 0 <= i < |names| && 0 <= j < |names| && names[i] != [] && names[j] != [] ==> names[i] == names[j])
  }

  lemma OrderFreeChoice(a: seq<Name>, b: seq<Name>)
    requires multiset(a) == multiset(b) && OrderFree(a)
    ensures Chosen(a) == Chosen(b)
  {
    var x, y := Chosen(a), Chosen(b);
    forall n ensures n in a <==> n in b { assert n in multiset(a) <==> n in multiset(b); }
    forall n | n in a ensures !PrefersName(x, n) && !PrefersName(y, n) {
      var i :| 0 <= i < |a| && a[i] == n;
      ChosenIsBest(a, i);
      assert n in b;
      var j :| 0 <= j < |b| && b[j] == n;
      ChosenIsBest(b, j);
    }
    if a != [] { ChosenIsBest(a, 0); }
    if b != [] { ChosenIsBest(b, 0); }
    if i :| 0 <= i < |a| && Usable(a[i]) {
      assert !PrefersName(x, a[i]) && !PrefersName(y, a[i]);
      assert x in a && y in a;
      UsableTieIsEqual(x, y);
    }
  }

  lemma {:induction false} ChosenDegenerate(names: seq<Name>, first: nat)
    requires first < |names| && names[first] != []
    requires forall i :: 0 <= i < |names| ==> !Usable(names[i])
    requires forall i :: 0 <= i < first ==> names[i] == []
    ensures Chosen(names) == names[first]
  {
    var n := |names| - 1;
    if first < n {
      ChosenDegenerate(names[..n], first);
    } else {
      ChosenEmpty(names[..n]);
    }
  }

  lemma {:induction false} ChosenEmpty(names: seq<Name>)
    requires forall i :: 0 <= i < |names| ==> names[i] == []
    ensures Chosen(names) == []
  {
    if names != [] { ChosenEmpty(names[..|names| - 1]); }
  }

  /** The exact condition. With two different degenerate names and nothing usable the
      first one stays, so two arrival orders disagree; in every other case all agree. */
  lemma OrderIndependenceIff(names: seq<Name>)
    ensures OrderFree(names) <==>
      forall other: seq<Name> | multiset(other) == multiset(names) :: Chosen(other) == Chosen(names)
  {
    if OrderFree(names) {
      forall other: seq<Name> | multiset(other) == multiset(names) ensures Chosen(other) == Chosen(names) {
        OrderFreeChoice(names, other);
      }
    } else {
      var i, j :| 0 <= i < |names| && 0 <= j < |names| && names[i] != [] && names[j] != [] && names[i] != names[j];
      var a := MoveFirst(names, i);
      var b := MoveFirst(names, j);
      ChosenDegenerate(a, 0);
      ChosenDegenerate(b, 0);
    }
  }

  lemma MoveFirst<T>(names: seq<T>, i: nat) returns (r: seq<T>)
    requires i < |names|
    ensures multiset(r) == multiset(names) && |r| == |names| && r[0] == names[i]
    ensures forall k :: 0 <= k < |r| ==> r[k] in names
  {
    r := [names[i]] + names[..i] + names[i + 1..];
    assert names == names[..i] + [names[i]] + names[i + 1..];
  }
}
