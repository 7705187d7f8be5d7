/**
  The game object of the Seven Families program with its user interface taken
  away: the fields it updates in place and the methods that change them. Every
  method is proved to perform the matching transition of module Rules.
 */
module Session {
  import opened Cards
  import opened Hands
  import opened Rules

  /**
    create_deck: every (family, member) card once, then shuffled. The shuffle
    is outside the model; all that is known of its result is that it is a
    permutation.
   */
  method CreateDeck() returns (deck: seq<Card>)
    ensures multiset(deck) == multiset(Universe())
    ensures |deck| == 42 && NoDup(deck)
    ensures forall c: Card :: c in deck
  {
    var ordered := Universe();
    assert multiset(ordered) == multiset(Universe());
    deck :| multiset(deck) == multiset(Universe());
    ConservedIsUniverse(deck, [], []);
    ConservedCards(deck, [], []);
    UniverseIsEveryCardOnce();
    forall c: Card ensures c in deck {
      assert multiset(deck)[c] == 1;
    }
  }

  class GameSession {
    var deck: seq<Card>
    var hand0: seq<Card>
    var hand1: seq<Card>
    var completed0: seq<Family>
    var completed1: seq<Family>
    var discard: seq<Card>
    var current: PlayerIndex

    function State(): GameState
      reads this
    {
      GameState(deck, hand0, hand1, completed0, completed1, discard, current)
    }

    ghost predicate Valid()
      reads this
    {
      State().Valid()
    }

    /** A new session: no cards in hand, Player 1 to move, a fresh deck, an empty discard pile, then the deal. */
    constructor ()
      ensures Valid()
      ensures exists d :: |d| == 42 && multiset(d) == multiset(Universe()) && State() == NewGame(d)
      ensures |deck| == 28 && |hand0| == 7 && |hand1| == 7
      ensures current == 0 && discard == [] && completed0 == [] && completed1 == []
    {
      hand0, hand1 := [], [];
      completed0, completed1 := [], [];
      current := 0;
      var d := CreateDeck();
      deck := d;
      discard := [];
      new;
      assert State() == GameState(d, [], [], [], [], [], 0);
      DealCards();
      NewGameDeals(d);
      assert State() == NewGame(d);
    }

    /** reset_game: the same start again, on the existing session. */
    method Reset()
      modifies this
      ensures Valid()
      ensures exists d :: |d| == 42 && multiset(d) == multiset(Universe()) && State() == NewGame(d)
      ensures |deck| == 28 && |hand0| == 7 && |hand1| == 7
      ensures current == 0 && discard == [] && completed0 == [] && completed1 == []
    {
      hand0, hand1 := [], [];
      completed0, completed1 := [], [];
      var d := CreateDeck();
      deck := d;
      discard := [];
      current := 0;
      assert State() == GameState(d, [], [], [], [], [], 0);
      DealCards();
      NewGameDeals(d);
      assert State() == NewGame(d);
    }

    /** deal_cards: seven rounds, each popping the deck to player 0 and then to player 1. */
    method DealCards()
      requires |deck| >= 14
      modifies this
      ensures old(Valid()) ==> Valid()
      ensures State() == Deal(old(State()))
    {
      for i := 0 to 7
        invariant State() == old(State()).(deck := old(deck)[..|old(deck)| - 2 * i],
                                           hand0 := old(hand0) + Dealt(old(deck), 0, i),
                                           hand1 := old(hand1) + Dealt(old(deck), 1, i))
      {
        hand0 := hand0 + [deck[|deck| - 1]];
        deck := deck[..|deck| - 1];
        hand1 := hand1 + [deck[|deck| - 1]];
        deck := deck[..|deck| - 1];
      }
      if old(Valid()) {
        DealKeepsCards(old(State()));
      }
    }

    method SetHand(p: PlayerIndex, h: seq<Card>)
      modifies this
      ensures State() == old(State()).WithHand(p, h)
    {
      if p == 0 { hand0 := h; } else { hand1 := h; }
    }

    method AppendToHand(p: PlayerIndex, c: Card)
      modifies this
      ensures State() == old(State()).WithHand(p, old(State()).Hand(p) + [c])
    {
      if p == 0 { hand0 := hand0 + [c]; } else { hand1 := hand1 + [c]; }
    }

    /** One step of check_completed_families: list the family for p if p holds six of its cards and it is not listed yet. */
    method ListIfComplete(p: PlayerIndex, family: Family)
      modifies this
      ensures deck == old(deck) && hand0 == old(hand0) && hand1 == old(hand1)
      ensures discard == old(discard) && current == old(current)
      ensures State().Completed(1 - p) == old(State()).Completed(1 - p)
      ensures State().Completed(p) == old(State()).Completed(p)
                + if |FamilyCards(State().Hand(p), family)| == 6 && family !in old(State()).Completed(p)
                  then [family] else []
    {
      var cards := FamilyCards(State().Hand(p), family);
      if |cards| == 6 && family !in State().Completed(p) {
        if p == 0 { completed0 := completed0 + [family]; } else { completed1 := completed1 + [family]; }
      }
    }

    /**
      check_completed_families: for each family in order, if player p's hand
      holds six cards of it and p's list does not name it yet, append it.
     */
    method CheckCompletedFamilies(p: PlayerIndex)
      modifies this
      ensures old(Valid()) ==> Valid()
      ensures State() == CompletionPass(old(State()), p)
    {
      ghost var hand, done := State().Hand(p), State().Completed(p);
      assert NoDup(Families);
      for i := 0 to |Families|
        invariant deck == old(deck) && hand0 == old(hand0) && hand1 == old(hand1)
        invariant discard == old(discard) && current == old(current)
        invariant State().Completed(1 - p) == old(State()).Completed(1 - p)
        invariant State().Completed(p) == done + NewlyCompleted(hand, done, Families[..i])
      {
        NewlyCompletedStep(hand, done, Families, i);
        ListIfComplete(p, Families[i]);
      }
      assert Families[..|Families|] == Families;
      if old(Valid()) {
        CompletionPassFacts(old(State()), p);
      }
    }

    /** check_end_game: the win screen for the player to move once their list has all seven families. */
    method CheckEndGame() returns (shown: seq<Result>)
      ensures shown == EndScreen(State())
      ensures Valid() ==> (shown == [Won(current)] <==> forall f: Family :: f in State().Completed(current))
    {
      if Valid() {
        EndScreenIff(State());
      }
      if |State().Completed(current)| == |Families| {
        shown := [Won(current)];
      } else {
        shown := [];
      }
    }

    /** draw_card: pop the deck into the hand of the player to move, then check families and the win. */
    method DrawCard() returns (shown: seq<Result>)
      modifies this
      ensures old(Valid()) ==> Valid()
      ensures Step(State(), shown) == Draw(old(State()))
    {
      if |deck| > 0 {
        var drawn := deck[|deck| - 1];
        deck := deck[..|deck| - 1];
        AppendToHand(current, drawn);
        CheckCompletedFamilies(current);
        shown := CheckEndGame();
      } else {
        shown := [NoMoreCards];
      }
      if old(Valid()) {
        DrawKeepsCards(old(State()));
      }
    }

    /** A hit: the opponent's hand becomes rest, the asker receives c and checks their families. */
    method TakeCard(c: Card, rest: seq<Card>)
      modifies this
      ensures State() == CompletionPass(old(State()).WithHand(1 - old(current), rest)
                                                   .WithHand(old(current), old(State()).Hand(old(current)) + [c]), old(current))
    {
      SetHand(1 - current, rest);
      AppendToHand(current, c);
      CheckCompletedFamilies(current);
    }

    /**
      The exchange at the heart of process_request: the opponent gives the card
      if they hold it and the asker checks their families, otherwise the asker draws.
     */
    method AskOpponent(family: Family, member: Member) returns (given: Option<Card>, fromDraw: seq<Result>)
      modifies this
      ensures Answer(given, State(), fromDraw) == Exchange(old(State()), family, member)
    {
      ghost var s := State();
      var asker := current;
      var opponent := 1 - current;
      var card, rest := GiveCard(State().Hand(opponent), family, member);
      if card.Some? {
        TakeCard(card.value, rest);
        given, fromDraw := card, [];
        assert Answer(given, State(), fromDraw) == Exchange(s, family, member);
      } else {
        fromDraw := DrawCard();
        given := None;
        assert Answer(given, State(), fromDraw) == Exchange(s, family, member);
      }
    }

    /**
      process_request: the player to move asks the opponent for (family, member);
      the two choices of the request dialog are the parameters.
     */
    method ProcessRequest(family: Family, member: Member) returns (given: Option<Card>, shown: seq<Result>)
      modifies this
      ensures old(Valid()) ==> Valid()
      ensures Answer(given, State(), shown) == Request(old(State()), family, member)
    {
      var fromDraw;
      given, fromDraw := AskOpponent(family, member);
      discard := discard + [Card(family, member)];
      var fromEnd := CheckEndGame();
      current := 1 - current;
      shown := fromDraw + fromEnd;
      assert Answer(given, State(), shown) == Request(old(State()), family, member);
      if old(Valid()) {
        RequestKeepsCards(old(State()), family, member);
      }
    }
  }
}
