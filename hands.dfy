/**
  A player's hand and the two operations a player offers on it: asking whether
  a card is there, and handing the first matching card over.
 */
module Hands {
  import opened Cards

  datatype Option<T> = None | Some(value: T)

  /** Whether some card of the hand is (family, member); scans the hand front to back. */
  function HasCard(hand: seq<Card>, family: Family, member: Member): (b: bool)
    ensures b <==> Card(family, member) in hand
  {
    if hand == [] then false
    else (hand[0].family == family && hand[0].member == member) || HasCard(hand[1..], family, member)
  }

  /** The hand with the first occurrence of c taken out. */
  function RemoveFirst(hand: seq<Card>, c: Card): (rest: seq<Card>)
    ensures c in hand ==> |rest| == |hand| - 1 && multiset(rest) + multiset{c} == multiset(hand)
    ensures c !in hand ==> rest == hand
  {
    if hand == [] then []
    else
      assert hand == [hand[0]] + hand[1..];
      if hand[0] == c then hand[1..]
      else [hand[0]] + RemoveFirst(hand[1..], c)
  }

  /** Taking out the first occurrence splits the hand around it and keeps the order of the rest. */
  lemma {:induction false} RemoveFirstSplit(hand: seq<Card>, c: Card, k: nat)
    requires k < |hand| && hand[k] == c && c !in hand[..k]
    ensures RemoveFirst(hand, c) == hand[..k] + hand[k + 1..]
  {
    if k > 0 {
      assert hand[1..][..k - 1] == hand[1..k];
      assert hand[1..k] == hand[..k][1..];
      RemoveFirstSplit(hand[1..], c, k - 1);
      assert hand[..k] == [hand[0]] + hand[1..k];
      assert hand[1..][k..] == hand[k + 1..];
    }
  }

  /**
    Give away the first card (family, member) of the hand, if any: the card
    handed over and what is left of the hand.
   */
  method GiveCard(hand: seq<Card>, family: Family, member: Member) returns (card: Option<Card>, rest: seq<Card>)
    ensures card.Some? <==> HasCard(hand, family, member)
    ensures card.Some? ==> card.value == Card(family, member) && rest == RemoveFirst(hand, card.value)
    ensures card.Some? ==> exists k :: 0 <= k < |hand| && hand[k] == card.value && card.value !in hand[..k]
                                       && rest == hand[..k] + hand[k + 1..]
    ensures card.None? ==> rest == hand
  {
    var i := 0;
    while i < |hand|
      invariant 0 <= i <= |hand|
      invariant Card(family, member) !in hand[..i]
    {
      var c := hand[i];
      if c.family == family && c.member == member {
        RemoveFirstSplit(hand, c, i);
        return Some(c), hand[..i] + hand[i + 1..];
      }
      assert hand[..i + 1] == hand[..i] + [c];
      i := i + 1;
    }
    assert hand[..i] == hand;
    return None, hand;
  }

  /** The cards of the hand that belong to the given family, in hand order. */
  function FamilyCards(hand: seq<Card>, family: Family): (r: seq<Card>)
    ensures forall c :: c in r <==> c in hand && c.family == family
    ensures NoDup(hand) ==> NoDup(r)
  {
    if hand == [] then []
    else
      var tail := FamilyCards(hand[1..], family);
      assert NoDup(hand) ==> NoDup(hand[1..]) && hand[0] !in tail;
      if hand[0].family == family then [hand[0]] + tail else tail
  }

  /** Whether the hand holds all six members of the family. */
  ghost predicate HoldsFamily(hand: seq<Card>, family: Family) {
    forall m: Member :: Card(family, m) in hand
  }

  /**
    In a hand without duplicate cards, a family has at most six cards, and it has
    six exactly when all its members are there.
   */
  lemma SixIffWholeFamily(hand: seq<Card>, family: Family)
    requires NoDup(hand)
    ensures |FamilyCards(hand, family)| <= 6
    ensures |FamilyCards(hand, family)| == 6 <==> HoldsFamily(hand, family)
  {
    var row := seq(6, j requires 0 <= j < 6 => Card(family, Members[j]));
    var u := Elems(row);
    assert NoDup(row);
    ElemsOfDistinct(row);
    var fc := FamilyCards(hand, family);
    forall c | c in fc ensures c in u {
      assert row[MemberIndex(c.member)] == c;
    }
    DistinctWithin(fc, u);
    if |fc| == 6 {
      forall m: Member ensures Card(family, m) in hand {
        assert row[MemberIndex(m)] == Card(family, m);
        assert Card(family, m) in Elems(fc);
      }
    }
    if HoldsFamily(hand, family) {
      forall c | c in u ensures c in Elems(fc) {
        assert c.family == family;
        assert Card(family, c.member) in hand;
      }
    }
  }
}
