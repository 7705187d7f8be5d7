/**
  The cards of the Seven Families game: seven families of six members each,
  42 distinct cards in all, and the facts about distinct sequences that the
  rest of the model leans on.
 */
module Cards {

  datatype Family = Cat | Dog | Monkey | Frog | Unicorn | Octopus | Turtle

  datatype Member = Grandfather | Grandmother | Father | Mother | Son | Daughter

  /** A card is a (family, member) pair; two cards are equal when both parts are. */
  datatype Card = Card(family: Family, member: Member)

  /** The families, in the order the game enumerates them. */
  const Families: seq<Family> := [Cat, Dog, Monkey, Frog, Unicorn, Octopus, Turtle]

  /** The members of a family, in the order the game enumerates them. */
  const Members: seq<Member> := [Grandfather, Grandmother, Father, Mother, Son, Daughter]

  /** No element occurs twice. */
  predicate NoDup<T(==)>(s: seq<T>) {
    forall i, j :: 0 <= i < j < |s| ==> s[i] != s[j]
  }

  /** Appending an element not yet present keeps a sequence without repeats. */
  lemma NoDupAppend<T>(s: seq<T>, x: T)
    requires NoDup(s) && x !in s
    ensures NoDup(s + [x])
  {
    var t := s + [x];
    forall i, j | 0 <= i < j < |t| ensures t[i] != t[j] {
      if j == |s| { assert t[i] == s[i]; }
    }
  }

  function Elems<T>(s: seq<T>): set<T> {
    set x | x in s
  }

  function FamilyIndex(f: Family): (i: nat)
    ensures i < |Families| && Families[i] == f
  {
    match f
    case Cat => 0
    case Dog => 1
    case Monkey => 2
    case Frog => 3
    case Unicorn => 4
    case Octopus => 5
    case Turtle => 6
  }

  function MemberIndex(m: Member): (j: nat)
    ensures j < |Members| && Members[j] == m
  {
    match m
    case Grandfather => 0
    case Grandmother => 1
    case Father => 2
    case Mother => 3
    case Son => 4
    case Daughter => 5
  }

  /**
    The unshuffled deck: for each family in order, each member in order,
    that is, card number 6 * f + m is (Families[f], Members[m]).
   */
  function Universe(): seq<Card> {
    seq(42, i requires 0 <= i < 42 => Card(Families[i / 6], Members[i % 6]))
  }

  /** Where a given card sits in the unshuffled deck. */
  lemma UniverseAt(f: Family, m: Member)
    ensures 6 * FamilyIndex(f) + MemberIndex(m) < |Universe()|
    ensures Universe()[6 * FamilyIndex(f) + MemberIndex(m)] == Card(f, m)
  {
    var a, b := FamilyIndex(f), MemberIndex(m);
    var i := 6 * a + b;
    assert i / 6 == a && i % 6 == b;
  }

  /** The unshuffled deck holds no card twice. */
  lemma UniverseNoDup()
    ensures NoDup(Universe())
  {
    var u := Universe();
    assert NoDup(Families) && NoDup(Members);
    forall i, j | 0 <= i < j < |u|
      ensures u[i] != u[j]
    {
      assert i / 6 != j / 6 || i % 6 != j % 6;
    }
  }

  /** In a sequence without duplicates every element is counted once. */
  lemma {:induction false} CountInDistinct<T>(s: seq<T>, x: T)
    requires NoDup(s)
    ensures multiset(s)[x] == if x in s then 1 else 0
  {
    if s != [] {
      assert s == [s[0]] + s[1..];
      assert NoDup(s[1..]);
      CountInDistinct(s[1..], x);
      assert s[0] !in s[1..];
    }
  }

  /** A sequence in which no value is counted twice has no duplicates. */
  lemma DistinctFromCounts<T>(s: seq<T>)
    requires forall x :: multiset(s)[x] <= 1
    ensures NoDup(s)
  {
    forall i, j | 0 <= i < j < |s|
      ensures s[i] != s[j]
    {
      assert s == s[..j] + s[j..];
      assert s[i] in s[..j] && s[j] in s[j..];
      assert multiset(s) == multiset(s[..j]) + multiset(s[j..]);
      assert multiset(s)[s[j]] == multiset(s[..j])[s[j]] + multiset(s[j..])[s[j]];
    }
  }

  /** The unshuffled deck has 42 cards and holds each (family, member) pair exactly once. */
  lemma UniverseIsEveryCardOnce()
    ensures |Universe()| == 42
    ensures forall c: Card :: multiset(Universe())[c] == 1
  {
    UniverseNoDup();
    forall c: Card
      ensures multiset(Universe())[c] == 1
    {
      UniverseAt(c.family, c.member);
      CountInDistinct(Universe(), c);
    }
  }

  /** A sequence without repeats has as many distinct elements as entries. */
  lemma {:induction false} ElemsOfDistinct<T>(s: seq<T>)
    requires NoDup(s)
    ensures |Elems(s)| == |s|
  {
    if s != [] {
      assert NoDup(s[1..]);
      ElemsOfDistinct(s[1..]);
      assert Elems(s) == {s[0]} + Elems(s[1..]);
      assert s[0] !in Elems(s[1..]);
    }
  }

  /**
    A duplicate-free sequence drawn from a finite set u is no longer than u,
    and is exactly as long as u iff it holds every element of u.
   */
  lemma DistinctWithin<T>(s: seq<T>, u: set<T>)
    requires NoDup(s)
    requires forall x :: x in s ==> x in u
    ensures |s| <= |u|
    ensures |s| == |u| <==> u <= Elems(s)
  {
    var e := Elems(s);
    ElemsOfDistinct(s);
    assert e <= u;
    assert e * u == e && e + u == u;
    assert |u - e| + |e| == |u|;
    if |s| == |u| {
      assert |u - e| == 0;
      assert u - e == {};
    }
  }

  /** A list of distinct families has seven entries iff it names every family. */
  lemma AllFamiliesIff(done: seq<Family>)
    requires NoDup(done)
    ensures |done| <= 7
    ensures |done| == 7 <==> forall f: Family :: f in done
  {
    var u := Elems(Families);
    assert NoDup(Families);
    ElemsOfDistinct(Families);
    assert forall f: Family :: f in u by {
      forall f: Family ensures f in u { assert Families[FamilyIndex(f)] == f; }
    }
    DistinctWithin(done, u);
    assert |u| == 7;
    if forall f: Family :: f in done {
      assert u <= Elems(done);
    }
    if |done| == 7 {
      forall f: Family ensures f in done { assert f in Elems(done); }
    }
  }
}
