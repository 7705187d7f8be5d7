/**
  The rules of a two-player Seven Families session as values: the state of a
  game, and what dealing, a completion check, the win check, a draw and a
  request for a card each do to it. The GameSession class (session.dfy) is
  proved to perform exactly these transitions; the lemmas here say what they
  mean for the players.
 */
module Rules {
  import opened Cards
  import opened Hands

  /** Which of the two players: 0 is "Player 1", 1 is "Player 2". */
  type PlayerIndex = i: int | 0 <= i < 2

  /** The two messages the game can put up as a result screen. */
  datatype Result =
    | Won(winner: PlayerIndex)   // "<name> a gagné!"
    | NoMoreCards                // "Plus de cartes !"

  /** Deck and hands together hold every card exactly once. */
  ghost predicate Conserved(deck: seq<Card>, hand0: seq<Card>, hand1: seq<Card>) {
    forall c: Card :: (multiset(deck) + multiset(hand0) + multiset(hand1))[c] == 1
  }

  /** Deck and hands hold every card once iff together they are the unshuffled deck, reordered. */
  lemma ConservedIsUniverse(deck: seq<Card>, hand0: seq<Card>, hand1: seq<Card>)
    ensures Conserved(deck, hand0, hand1) <==> multiset(deck) + multiset(hand0) + multiset(hand1) == multiset(Universe())
  {
    UniverseIsEveryCardOnce();
    var m := multiset(deck) + multiset(hand0) + multiset(hand1);
    if Conserved(deck, hand0, hand1) {
      assert forall c :: m[c] == multiset(Universe())[c];
    }
  }

  /** Deck and hands that hold the same cards as conserved ones, in any arrangement, are conserved. */
  lemma SameCards(s: GameState, t: GameState)
    requires s.Valid()
    requires t.completed0 == s.completed0 && t.completed1 == s.completed1
    requires multiset(t.deck) + multiset(t.hand0) + multiset(t.hand1)
             == multiset(s.deck) + multiset(s.hand0) + multiset(s.hand1)
    ensures t.Valid()
  {
  }

  /** When the cards are conserved there are 42 of them and no place holds a card twice. */
  lemma ConservedCards(deck: seq<Card>, hand0: seq<Card>, hand1: seq<Card>)
    requires Conserved(deck, hand0, hand1)
    ensures |deck| + |hand0| + |hand1| == 42
    ensures NoDup(deck) && NoDup(hand0) && NoDup(hand1)
  {
    ConservedIsUniverse(deck, hand0, hand1);
    UniverseIsEveryCardOnce();
    assert |multiset(Universe())| == 42;
    forall x ensures multiset(deck)[x] <= 1 && multiset(hand0)[x] <= 1 && multiset(hand1)[x] <= 1 {
      assert (multiset(deck) + multiset(hand0) + multiset(hand1))[x] == 1;
    }
    DistinctFromCounts(deck);
    DistinctFromCounts(hand0);
    DistinctFromCounts(hand1);
  }

  /**
    Everything the logic of a session keeps: the deck (its end is the top), the
    two hands, the two lists of completed families, the discard pile (a log of
    the requested cards) and whose turn it is.
   */
  datatype GameState = GameState(
    deck: seq<Card>,
    hand0: seq<Card>,
    hand1: seq<Card>,
    completed0: seq<Family>,
    completed1: seq<Family>,
    discard: seq<Card>,
    current: PlayerIndex)
  {
    function Hand(p: PlayerIndex): seq<Card> {
      if p == 0 then hand0 else hand1
    }

    function Completed(p: PlayerIndex): seq<Family> {
      if p == 0 then completed0 else completed1
    }

    function WithHand(p: PlayerIndex, h: seq<Card>): GameState {
      if p == 0 then this.(hand0 := h) else this.(hand1 := h)
    }

    function WithCompleted(p: PlayerIndex, done: seq<Family>): GameState {
      if p == 0 then this.(completed0 := done) else this.(completed1 := done)
    }

    /**
      The 42 cards are shared between deck and hands, and no completed list
      repeats a family. The discard pile is a log, not a place cards go.
     */
    ghost predicate Valid() {
      Conserved(deck, hand0, hand1) && NoDup(completed0) && NoDup(completed1)
    }
  }

  // ---------------------------------------------------------------- dealing

  /**
    The cards player p receives from `rounds` rounds of dealing from the end of
    deck d, player 0 first in each round: player 0 gets d's last, third-to-last,
    ... cards, player 1 the second-to-last, fourth-to-last, ...
   */
  function Dealt(d: seq<Card>, p: PlayerIndex, rounds: nat): (cards: seq<Card>)
    requires 2 * rounds <= |d|
    ensures |cards| == rounds
  {
    if rounds == 0 then [] else Dealt(d, p, rounds - 1) + [d[|d| + 1 - 2 * rounds - p]]
  }

  /** In round i player p receives the card 2 * i + p places below the top of the deck. */
  lemma {:induction false} DealtAt(d: seq<Card>, p: PlayerIndex, rounds: nat, i: nat)
    requires 2 * rounds <= |d| && i < rounds
    ensures Dealt(d, p, rounds)[i] == d[|d| - 1 - 2 * i - p]
  {
    if i < rounds - 1 {
      DealtAt(d, p, rounds - 1, i);
    }
  }

  /** One round of the deal moves the deck's two top cards into the two dealt piles. */
  lemma DealRound(d: seq<Card>, rounds: nat)
    requires 0 < rounds && 2 * rounds <= |d|
    ensures multiset(d[..|d| - 2 * rounds + 2]) + multiset(Dealt(d, 0, rounds - 1)) + multiset(Dealt(d, 1, rounds - 1))
            == multiset(d[..|d| - 2 * rounds]) + multiset(Dealt(d, 0, rounds)) + multiset(Dealt(d, 1, rounds))
  {
    var n := |d| - 2 * rounds;
    assert d[..n + 2] == d[..n] + [d[n]] + [d[n + 1]];
    assert multiset(d[..n + 2]) == multiset(d[..n]) + multiset{d[n]} + multiset{d[n + 1]};
    assert multiset(Dealt(d, 0, rounds)) == multiset(Dealt(d, 0, rounds - 1)) + multiset{d[n + 1]};
    assert multiset(Dealt(d, 1, rounds)) == multiset(Dealt(d, 1, rounds - 1)) + multiset{d[n]};
  }

  /** Dealing moves cards from the deck into the hands and neither loses nor invents any. */
  lemma {:induction false} DealConserves(d: seq<Card>, rounds: nat)
    requires 2 * rounds <= |d|
    ensures multiset(d[..|d| - 2 * rounds]) + multiset(Dealt(d, 0, rounds)) + multiset(Dealt(d, 1, rounds))
            == multiset(d)
  {
    if rounds == 0 {
      assert d[..|d|] == d;
    } else {
      var before := multiset(d[..|d| - 2 * rounds + 2]) + multiset(Dealt(d, 0, rounds - 1)) + multiset(Dealt(d, 1, rounds - 1));
      DealConserves(d, rounds - 1);
      assert before == multiset(d);
      DealRound(d, rounds);
    }
  }

  /** The state after the seven rounds of the deal. */
  function Deal(s: GameState): GameState
    requires |s.deck| >= 14
  {
    s.(deck := s.deck[..|s.deck| - 14],
       hand0 := s.hand0 + Dealt(s.deck, 0, 7),
       hand1 := s.hand1 + Dealt(s.deck, 1, 7))
  }

  /** The deal takes 14 cards off the deck, gives 7 to each player and keeps every card. */
  lemma DealKeepsCards(s: GameState)
    requires s.Valid() && |s.deck| >= 14
    ensures Deal(s).Valid()
    ensures |Deal(s).deck| == |s.deck| - 14
    ensures |Deal(s).hand0| == |s.hand0| + 7 && |Deal(s).hand1| == |s.hand1| + 7
  {
    DealConserves(s.deck, 7);
    var d0, d1 := Dealt(s.deck, 0, 7), Dealt(s.deck, 1, 7);
    assert multiset(s.hand0 + d0) == multiset(s.hand0) + multiset(d0);
    assert multiset(s.hand1 + d1) == multiset(s.hand1) + multiset(d1);
    assert multiset(s.deck) == multiset(s.deck[..|s.deck| - 14]) + multiset(d0) + multiset(d1);
    SameCards(s, Deal(s));
  }

  /** A new game over the shuffled deck d: empty hands, lists and discard pile, Player 1 first, then the deal. */
  function NewGame(d: seq<Card>): GameState
    requires |d| >= 14
  {
    Deal(GameState(d, [], [], [], [], [], 0))
  }

  /** A new game over any shuffle of the 42 cards leaves 28 in the deck and 7 in each hand. */
  lemma NewGameDeals(d: seq<Card>)
    requires multiset(d) == multiset(Universe())
    ensures |d| == 42
    ensures NewGame(d).Valid()
    ensures |NewGame(d).deck| == 28 && |NewGame(d).hand0| == 7 && |NewGame(d).hand1| == 7
    ensures NewGame(d).current == 0 && NewGame(d).discard == []
    ensures NewGame(d).completed0 == [] && NewGame(d).completed1 == []
  {
    UniverseIsEveryCardOnce();
    assert |multiset(d)| == 42;
    var s := GameState(d, [], [], [], [], [], 0);
    ConservedIsUniverse(d, [], []);
    assert s.Valid();
    DealKeepsCards(s);
  }

  // ------------------------------------------------------------- completion

  /**
    The families a completion pass over fams appends to the list done, in the
    order fams enumerates them: those of which the hand holds six cards and
    which done does not list yet.
   */
  function NewlyCompleted(hand: seq<Card>, done: seq<Family>, fams: seq<Family>): seq<Family> {
    if fams == [] then []
    else
      var f := fams[|fams| - 1];
      NewlyCompleted(hand, done, fams[..|fams| - 1])
        + if |FamilyCards(hand, f)| == 6 && f !in done then [f] else []
  }

  /** A family is newly completed iff it is scanned, has six cards in the hand and is not yet listed. */
  lemma {:induction false} NewlyCompletedIff(hand: seq<Card>, done: seq<Family>, fams: seq<Family>, f: Family)
    ensures f in NewlyCompleted(hand, done, fams) <==> f in fams && |FamilyCards(hand, f)| == 6 && f !in done
  {
    if fams != [] {
      var init := fams[..|fams| - 1];
      NewlyCompletedIff(hand, done, init, f);
      assert fams == init + [fams[|fams| - 1]];
    }
  }

  /** Completion never lists a family twice. */
  lemma {:induction false} NewlyCompletedDistinct(hand: seq<Card>, done: seq<Family>, fams: seq<Family>)
    requires NoDup(done) && NoDup(fams)
    ensures NoDup(done + NewlyCompleted(hand, done, fams))
  {
    if fams != [] {
      var init := fams[..|fams| - 1];
      var f := fams[|fams| - 1];
      assert NoDup(init);
      NewlyCompletedDistinct(hand, done, init);
      NewlyCompletedIff(hand, done, init, f);
      assert f !in init;
      var x := done + NewlyCompleted(hand, done, init);
      if |FamilyCards(hand, f)| == 6 && f !in done {
        NoDupAppend(x, f);
        assert done + NewlyCompleted(hand, done, fams) == x + [f];
      } else {
        assert done + NewlyCompleted(hand, done, fams) == x;
      }
    }
  }

  /**
    Scanning one more family of a duplicate-free order, as the loop of
    check_completed_families does: the list as it stands gains the family iff
    the hand has six of its cards and the list does not name it yet.
   */
  lemma NewlyCompletedStep(hand: seq<Card>, done: seq<Family>, fams: seq<Family>, i: nat)
    requires NoDup(fams) && i < |fams|
    ensures done + NewlyCompleted(hand, done, fams[..i + 1])
            == (done + NewlyCompleted(hand, done, fams[..i]))
               + if |FamilyCards(hand, fams[i])| == 6 && fams[i] !in done + NewlyCompleted(hand, done, fams[..i])
                 then [fams[i]] else []
  {
    var before := NewlyCompleted(hand, done, fams[..i]);
    assert fams[..i + 1][..i] == fams[..i];
    NewlyCompletedIff(hand, done, fams[..i], fams[i]);
    assert fams[i] !in fams[..i];
    assert fams[i] in done + before <==> fams[i] in done;
    if |FamilyCards(hand, fams[i])| == 6 && fams[i] !in done {
      assert done + (before + [fams[i]]) == (done + before) + [fams[i]];
    } else {
      assert done + (before + []) == (done + before) + [];
    }
  }

  /** A scan appends nothing when every scanned family with six cards in the hand is already listed. */
  lemma {:induction false} NothingNew(hand: seq<Card>, done: seq<Family>, fams: seq<Family>)
    requires forall f :: f in fams && |FamilyCards(hand, f)| == 6 ==> f in done
    ensures NewlyCompleted(hand, done, fams) == []
  {
    if fams != [] {
      var init := fams[..|fams| - 1];
      assert forall f :: f in init ==> f in fams;
      NothingNew(hand, done, init);
    }
  }

  /** The pass check_completed_families makes for player p, over the families in order. */
  function CompletionPass(s: GameState, p: PlayerIndex): GameState {
    s.WithCompleted(p, s.Completed(p) + NewlyCompleted(s.Hand(p), s.Completed(p), Families))
  }

  /**
    A completion pass only appends to player p's list, never repeats a family,
    lists a family iff it was listed or p's hand holds all six of its members,
    and leaves the hands, the deck and everything else alone.
   */
  lemma CompletionPassFacts(s: GameState, p: PlayerIndex)
    requires s.Valid()
    ensures CompletionPass(s, p).Valid()
    ensures s.Completed(p) <= CompletionPass(s, p).Completed(p)
    ensures forall f :: f in CompletionPass(s, p).Completed(p) <==> f in s.Completed(p) || HoldsFamily(s.Hand(p), f)
    ensures CompletionPass(s, p).Completed(1 - p) == s.Completed(1 - p)
    ensures CompletionPass(s, p).hand0 == s.hand0 && CompletionPass(s, p).hand1 == s.hand1
    ensures CompletionPass(s, p).deck == s.deck && CompletionPass(s, p).discard == s.discard
    ensures CompletionPass(s, p).current == s.current
  {
    var hand, done := s.Hand(p), s.Completed(p);
    assert NoDup(Families);
    NewlyCompletedDistinct(hand, done, Families);
    ConservedCards(s.deck, s.hand0, s.hand1);
    forall f ensures f in done + NewlyCompleted(hand, done, Families) <==> f in done || HoldsFamily(hand, f) {
      NewlyCompletedIff(hand, done, Families, f);
      SixIffWholeFamily(hand, f);
      assert Families[FamilyIndex(f)] == f;
    }
  }

  /** A second completion pass with no change to the hand does nothing. */
  lemma CompletionPassIdempotent(s: GameState, p: PlayerIndex)
    ensures CompletionPass(CompletionPass(s, p), p) == CompletionPass(s, p)
  {
    var hand, done := s.Hand(p), s.Completed(p);
    var done' := done + NewlyCompleted(hand, done, Families);
    forall f | f in Families && |FamilyCards(hand, f)| == 6 ensures f in done' {
      NewlyCompletedIff(hand, done, Families, f);
    }
    NothingNew(hand, done', Families);
    assert CompletionPass(s, p).Hand(p) == hand && CompletionPass(s, p).Completed(p) == done';
  }

  // ---------------------------------------------------------------- win check

  /** The result screen check_end_game puts up: a win for the player to move once 7 families are listed. */
  function EndScreen(s: GameState): seq<Result> {
    if |s.Completed(s.current)| == |Families| then [Won(s.current)] else []
  }

  /** The player to move is declared the winner iff they have completed every family. */
  lemma EndScreenIff(s: GameState)
    requires s.Valid()
    ensures EndScreen(s) == [Won(s.current)] <==> forall f: Family :: f in s.Completed(s.current)
    ensures EndScreen(s) != [Won(s.current)] ==> EndScreen(s) == []
  {
    AllFamiliesIff(s.Completed(s.current));
  }

  // ------------------------------------------------------------------ drawing

  /** A state after an operation together with the result screens it put up, in order. */
  datatype Step = Step(after: GameState, shown: seq<Result>)

  /**
    draw_card: the player to move takes the deck's last card, then their families
    are checked and then the win; the turn does not pass. An empty deck puts up
    "no more cards" and changes nothing.
   */
  function Draw(s: GameState): Step {
    if s.deck == [] then Step(s, [NoMoreCards])
    else
      var n := |s.deck|;
      var s1 := s.(deck := s.deck[..n - 1]).WithHand(s.current, s.Hand(s.current) + [s.deck[n - 1]]);
      var s2 := CompletionPass(s1, s.current);
      Step(s2, EndScreen(s2))
  }

  /** What a draw moves: the top card to the player to move, nothing else, and no turn change. */
  lemma DrawFacts(s: GameState)
    ensures Draw(s).after.current == s.current && Draw(s).after.discard == s.discard
    ensures Draw(s).after.Hand(1 - s.current) == s.Hand(1 - s.current)
    ensures Draw(s).after.Completed(1 - s.current) == s.Completed(1 - s.current)
    ensures s.deck == [] ==> Draw(s).after == s && Draw(s).shown == [NoMoreCards]
    ensures s.deck != [] ==>
      && Draw(s).after.deck == s.deck[..|s.deck| - 1]
      && Draw(s).after.Hand(s.current) == s.Hand(s.current) + [s.deck[|s.deck| - 1]]
      && Draw(s).shown == EndScreen(Draw(s).after)
  {
  }

  /** Moving the deck's last card to the hand of the player to move keeps every card. */
  lemma TopCardKeepsCards(s: GameState)
    requires s.Valid() && s.deck != []
    ensures s.(deck := s.deck[..|s.deck| - 1]).WithHand(s.current, s.Hand(s.current) + [s.deck[|s.deck| - 1]]).Valid()
  {
    var n := |s.deck|;
    var p := s.current;
    assert s.deck == s.deck[..n - 1] + [s.deck[n - 1]];
    assert multiset(s.deck) == multiset(s.deck[..n - 1]) + multiset{s.deck[n - 1]};
    assert multiset(s.Hand(p) + [s.deck[n - 1]]) == multiset(s.Hand(p)) + multiset{s.deck[n - 1]};
    SameCards(s, s.(deck := s.deck[..n - 1]).WithHand(p, s.Hand(p) + [s.deck[n - 1]]));
  }

  /** A draw keeps every one of the 42 cards in exactly one of deck and hands. */
  lemma DrawKeepsCards(s: GameState)
    requires s.Valid()
    ensures Draw(s).after.Valid()
  {
    if s.deck != [] {
      var n := |s.deck|;
      var s1 := s.(deck := s.deck[..n - 1]).WithHand(s.current, s.Hand(s.current) + [s.deck[n - 1]]);
      TopCardKeepsCards(s);
      CompletionPassFacts(s1, s.current);
    }
  }

  // ---------------------------------------------------------------- requests

  /** The outcome of a request: the card handed over, if any, the new state and the result screens put up. */
  datatype Answer = Answer(given: Option<Card>, after: GameState, shown: seq<Result>)

  /**
    The exchange half of a request: on a hit the card moves from the opponent's
    hand to the asker's and the asker's families are checked; on a miss the asker draws.
   */
  function Exchange(s: GameState, family: Family, member: Member): Answer {
    var asker, opponent := s.current, 1 - s.current;
    var c := Card(family, member);
    if c in s.Hand(opponent) then
      var moved := s.WithHand(opponent, RemoveFirst(s.Hand(opponent), c)).WithHand(asker, s.Hand(asker) + [c]);
      Answer(Some(c), CompletionPass(moved, asker), [])
    else
      var d := Draw(s);
      Answer(None, d.after, d.shown)
  }

  /**
    process_request: the player to move asks the opponent for (family, member).
    A hit moves the opponent's first such card to the asker, whose families are
    then checked; a miss makes the asker draw. Either way the request is logged
    on the discard pile, the asker's win is checked, and the turn passes.
   */
  function Request(s: GameState, family: Family, member: Member): Answer {
    var exchange := Exchange(s, family, member);
    var logged := exchange.after.(discard := exchange.after.discard + [Card(family, member)]);
    Answer(exchange.given, logged.(current := 1 - s.current), exchange.shown + EndScreen(logged))
  }

  /** Every request logs exactly the requested card and passes the turn exactly once, hit or miss. */
  lemma RequestLogsAndPasses(s: GameState, family: Family, member: Member)
    ensures Request(s, family, member).after.discard == s.discard + [Card(family, member)]
    ensures Request(s, family, member).after.current == 1 - s.current
    ensures Request(s, family, member).given.Some? <==> Card(family, member) in s.Hand(1 - s.current)
  {
    DrawFacts(s);
  }

  /**
    A hit: the opponent loses the first matching card, the rest of their hand in
    order, the asker gains it at the end, the deck is untouched.
   */
  lemma RequestHit(s: GameState, family: Family, member: Member)
    requires Card(family, member) in s.Hand(1 - s.current)
    ensures Request(s, family, member).given == Some(Card(family, member))
    ensures Request(s, family, member).after.Hand(1 - s.current) == RemoveFirst(s.Hand(1 - s.current), Card(family, member))
    ensures Request(s, family, member).after.Hand(s.current) == s.Hand(s.current) + [Card(family, member)]
    ensures Request(s, family, member).after.deck == s.deck
    ensures Request(s, family, member).after.Completed(1 - s.current) == s.Completed(1 - s.current)
  {
  }

  /** A miss: the opponent's hand is untouched and it is the asker who draws. */
  lemma RequestMiss(s: GameState, family: Family, member: Member)
    requires Card(family, member) !in s.Hand(1 - s.current)
    ensures Request(s, family, member).given == None
    ensures Request(s, family, member).after.Hand(1 - s.current) == s.Hand(1 - s.current)
    ensures Request(s, family, member).after.Completed(1 - s.current) == s.Completed(1 - s.current)
    ensures s.deck == [] ==> Request(s, family, member).after.deck == [] && Request(s, family, member).after.Hand(s.current) == s.Hand(s.current)
    ensures s.deck != [] ==>
      && Request(s, family, member).after.deck == s.deck[..|s.deck| - 1]
      && Request(s, family, member).after.Hand(s.current) == s.Hand(s.current) + [s.deck[|s.deck| - 1]]
  {
    DrawFacts(s);
  }

  /** Handing a card from the opponent to the player to move keeps every card. */
  lemma HandOverKeepsCards(s: GameState, c: Card)
    requires s.Valid() && c in s.Hand(1 - s.current)
    ensures s.WithHand(1 - s.current, RemoveFirst(s.Hand(1 - s.current), c))
             .WithHand(s.current, s.Hand(s.current) + [c]).Valid()
  {
    var rest := RemoveFirst(s.Hand(1 - s.current), c);
    assert multiset(rest) + multiset{c} == multiset(s.Hand(1 - s.current));
    assert multiset(s.Hand(s.current) + [c]) == multiset(s.Hand(s.current)) + multiset{c};
    SameCards(s, s.WithHand(1 - s.current, rest).WithHand(s.current, s.Hand(s.current) + [c]));
  }

  /** A request keeps every one of the 42 cards in exactly one of deck and hands. */
  lemma RequestKeepsCards(s: GameState, family: Family, member: Member)
    requires s.Valid()
    ensures Request(s, family, member).after.Valid()
  {
    var asker, opponent := s.current, 1 - s.current;
    var c := Card(family, member);
    if c in s.Hand(opponent) {
      var moved := s.WithHand(opponent, RemoveFirst(s.Hand(opponent), c)).WithHand(asker, s.Hand(asker) + [c]);
      HandOverKeepsCards(s, c);
      CompletionPassFacts(moved, asker);
    } else {
      DrawKeepsCards(s);
    }
  }

  /** The state after the players make the given requests in turn. */
  function Play(s: GameState, asks: seq<Card>): GameState
    decreases |asks|
  {
    if asks == [] then s
    else Play(Request(s, asks[0].family, asks[0].member).after, asks[1..])
  }

  /** Any sequence of requests keeps every card in exactly one of deck and hands. */
  lemma {:induction false} PlayKeepsCards(s: GameState, asks: seq<Card>)
    requires s.Valid()
    ensures Play(s, asks).Valid()
    decreases |asks|
  {
    if asks != [] {
      RequestKeepsCards(s, asks[0].family, asks[0].member);
      PlayKeepsCards(Request(s, asks[0].family, asks[0].member).after, asks[1..]);
    }
  }

  /** Any sequence of requests logs exactly the requested cards, in order. */
  lemma {:induction false} PlayLogs(s: GameState, asks: seq<Card>)
    ensures Play(s, asks).discard == s.discard + asks
    decreases |asks|
  {
    if asks != [] {
      var next := Request(s, asks[0].family, asks[0].member).after;
      RequestLogsAndPasses(s, asks[0].family, asks[0].member);
      PlayLogs(next, asks[1..]);
      assert Card(asks[0].family, asks[0].member) == asks[0];
      assert asks == [asks[0]] + asks[1..];
    }
  }

  /** One more request flips the parity of the number of requests made. */
  lemma ParityStep(n: nat)
    requires n > 0
    ensures (n - 1) % 2 == 0 <==> n % 2 != 0
  {
  }

  /** One request of a play, then the rest of the play from the state it leaves. */
  lemma PlayStep(s: GameState, asks: seq<Card>)
    requires asks != []
    ensures Play(s, asks) == Play(Request(s, asks[0].family, asks[0].member).after, asks[1..])
    ensures Request(s, asks[0].family, asks[0].member).after.current == 1 - s.current
    ensures |asks[1..]| == |asks| - 1
  {
    RequestLogsAndPasses(s, asks[0].family, asks[0].member);
  }

  /** Requests alternate the turn: after an even number of them the same player is to move again. */
  lemma {:induction false} PlayAlternates(s: GameState, asks: seq<Card>)
    ensures Play(s, asks).current == if |asks| % 2 == 0 then s.current else 1 - s.current
    decreases |asks|
  {
    if asks != [] {
      PlayStep(s, asks);
      PlayAlternates(Request(s, asks[0].family, asks[0].member).after, asks[1..]);
      ParityStep(|asks|);
    }
  }
}
