# Seven Families: the game session, verified

This project models the game logic of `seven_families_game.py`, a two-player
"Jeu des 7 Familles" (Seven Families) card game with a tkinter interface. The
model covers the 42 cards, the players' hands, the deck, the discard pile, the
lists of completed families and whose turn it is. It also covers the
operations that change them: building and dealing the deck, drawing, asking
the opponent for a card, the completion check, the win check and restarting.

The model is in four modules:

- `Cards` (cards.dfy): the seven families, the six members, the card as a
  (family, member) pair, and the unshuffled deck `Universe()` in the order of
  the comprehension in `create_deck`.
- `Hands` (hands.dfy): `Player.has_card` and `Player.give_card` on a hand,
  and the filter of a hand by family used in `check_completed_families`.
- `Rules` (rules.dfy): the whole game state as a value (`GameState`). Each
  operation of the game object is a function on it: `Deal`, `CompletionPass`,
  `EndScreen`, `Draw`, `Request` (a request is its `Exchange` followed by
  the logging and the turn change) and `Play`, which runs a sequence of
  requests. The lemmas here state what the operations mean for the players.
  The main invariant is `GameState.Valid`. It says the deck and the two hands
  hold every card exactly once, and no completed list repeats a family.
- `Session` (session.dfy): the game object itself, as the class `GameSession`.
  It has the fields the Python object updates in place: `deck`, the two hands,
  the two completed lists, `discard` and `current`. Each method is proved to
  leave the fields equal to the matching `Rules` transition of the old
  fields. The same method also returns the result screens that the
  transition puts up.

A result screen (`show_result`) is modelled as a value of `Rules.Result`:
`Won(p)` for "Player n a gagné!" and `NoMoreCards` for "Plus de cartes !".
An operation returns the screens it put up, in order. The two choices of the
request dialog (`family_choice`, `member_choice`) are the parameters of
`ProcessRequest`. Players are indices 0 ("Player 1") and 1 ("Player 2").

What the file does, kept as written:

- `check_completed_families` lists a completed family but leaves its six
  cards in the hand (seven_families_game.py:197-203).
- There is no `game_over` state. `check_end_game` only puts up the win
  screen (seven_families_game.py:208-212). Requests and draws keep working
  after a win, and the turn still passes after a winning request.
- `draw_card` never passes the turn (seven_families_game.py:155-163). An
  empty deck changes no state and puts up "Plus de cartes !"
  (seven_families_game.py:162-163). After a direct draw that screen stays,
  and only "Rejouer" is offered (seven_families_game.py:214-217). After a
  miss, the `start_turn` of `process_request` redraws the game
  (seven_families_game.py:195).
- On a miss with cards left in the deck, `check_end_game` runs twice: once
  inside `draw_card` and once more in `process_request`. Both screens appear
  in `shown`. On a miss with an empty deck, `draw_card` only puts up
  "Plus de cartes !" (seven_families_game.py:162-163), and the win check runs
  once, in `process_request`.
- The discard pile is a log of requested cards. Each entry is a fresh
  `Card(fam, mem)` (seven_families_game.py:192), so it is not counted among
  the 42 cards.

`Valid()` is the invariant of a `GameSession`. The constructor and `Reset`
establish it. `DealCards`, `CheckCompletedFamilies`, `DrawCard` and
`ProcessRequest` keep it: each ensures `old(Valid()) ==> Valid()`, and none
of them requires it.

## Model

| member | source | states |
|---|---|---|
| Cards.Universe | seven_families_game.py:74 | the deck before the shuffle: for each family in dictionary order, each member in dictionary order |
| Rules.Dealt | seven_families_game.py:78-81 | the cards player p receives in the given number of rounds, one per round, in the order received |
| Rules.Deal | seven_families_game.py:78-81 | the state after `deal_cards`: the deck without its last 14 cards, and each hand extended by its dealt cards |
| Rules.NewGame | seven_families_game.py:64-68 | the state after `__init__` over a shuffled deck: empty hands, lists and discard pile, Player 1 to move, then the deal |
| Rules.NewlyCompleted | seven_families_game.py:198-201 | the families a scan over the given order appends, in scan order |
| Rules.CompletionPass | seven_families_game.py:197-203 | the state after `check_completed_families(p)`: p's list extended by the families the scan over all seven appends |
| Rules.EndScreen | seven_families_game.py:208-212 | the result screens `check_end_game` puts up: the win for the player to move when their list has 7 entries, otherwise none |
| Rules.Draw | seven_families_game.py:155-163 | the state and the screens after `draw_card`: "no more cards" on an empty deck; otherwise the top card to the player to move, the completion pass and the win check |
| Rules.Exchange | seven_families_game.py:181-190 | the card handed over, the state and the screens after the hit-or-miss part of `process_request` |
| Rules.Request | seven_families_game.py:178-194 | the card handed over, the state and the screens after `process_request`: the exchange, then the logged card, the win check and the turn change |
| Rules.Play | seven_families_game.py:178-194 | the state after the given requests are made one after the other |
| Cards.UniverseIsEveryCardOnce | seven_families_game.py:73-74 | the unshuffled deck has 42 cards and holds every (family, member) pair exactly once |
| Cards.UniverseAt | seven_families_game.py:74 | card (f, m) sits at index 6 * f + m of the unshuffled deck: families in the outer loop, members in the inner one |
| Cards.AllFamiliesIff | seven_families_game.py:210 | a completed list without repeats has at most 7 entries, and has 7 exactly when it names every family |
| Hands.HasCard | seven_families_game.py:50-51 | true exactly when the hand contains the card (family, member) |
| Hands.RemoveFirst | seven_families_game.py:56 | when the card is in the hand, the result is one card shorter and lacks one copy of it, with every other card kept; otherwise the hand is unchanged |
| Hands.RemoveFirstSplit | seven_families_game.py:54-56 | removing the first occurrence at index k leaves the cards before and after k, in their order |
| Hands.GiveCard | seven_families_game.py:53-58 | returns a card iff has_card holds, and then it is the requested card; the rest is the hand without its first matching card, order kept; with no match it returns None and the hand unchanged |
| Hands.FamilyCards | seven_families_game.py:199 | exactly the hand's cards of the family, without repeats when the hand has none |
| Hands.SixIffWholeFamily | seven_families_game.py:199-200 | in a hand without duplicates a family has at most 6 cards, and has 6 iff all six members are in the hand |
| Rules.ConservedIsUniverse | seven_families_game.py:73-76 | deck and hands hold every card exactly once iff together they are a permutation of the unshuffled deck |
| Rules.ConservedCards | seven_families_game.py:73-81 | conserved deck and hands hold 42 cards in all and none holds a card twice |
| Rules.DealtAt | seven_families_game.py:78-81 | in round i, player p receives the card 2 * i + p places below the top (end) of the deck: player 0 first, then player 1 |
| Rules.DealConserves | seven_families_game.py:78-81 | the deck left after the rounds and the two dealt piles together are exactly the cards of the original deck |
| Rules.DealKeepsCards | seven_families_game.py:78-81 | dealing takes 14 cards off the deck, adds 7 to each hand and keeps the invariant |
| Rules.NewGameDeals | seven_families_game.py:64-68 | a new game over any shuffle of the 42 cards is valid, has 28 cards in the deck and 7 in each hand, Player 1 to move, and an empty discard pile and completed lists |
| Rules.NewlyCompletedIff | seven_families_game.py:198-201 | a scan appends family f iff f is scanned, the hand has six f cards and f is not yet listed |
| Rules.NewlyCompletedDistinct | seven_families_game.py:200-201 | a scan never makes the completed list repeat a family |
| Rules.NewlyCompletedStep | seven_families_game.py:198-201 | one more loop iteration appends the family iff the hand has six of its cards and the list as it stands does not name it |
| Rules.CompletionPassFacts | seven_families_game.py:197-203 | the pass keeps the invariant and only appends to the player's list; a family is listed afterwards iff it was before or the hand holds all six members; hands, deck, discard, turn and the other list are unchanged |
| Rules.CompletionPassIdempotent | seven_families_game.py:197-203 | a second pass with no change to the hand does nothing |
| Rules.EndScreenIff | seven_families_game.py:208-212 | the win screen for the player to move appears iff their list names all 7 families; otherwise no screen |
| Rules.DrawFacts | seven_families_game.py:155-163 | a draw never changes the turn, the discard pile, the other hand or the other list; with an empty deck nothing changes and "no more cards" is shown; otherwise the deck loses its last card, which is appended to the hand of the player to move, and the win check follows |
| Rules.TopCardKeepsCards | seven_families_game.py:157-158 | moving the deck's last card to the hand of the player to move keeps the invariant |
| Rules.DrawKeepsCards | seven_families_game.py:155-163 | a draw keeps the invariant |
| Rules.RequestLogsAndPasses | seven_families_game.py:181-194 | a request appends exactly the requested card to the discard pile and passes the turn, hit or miss; a card is handed over iff the opponent holds it |
| Rules.RequestHit | seven_families_game.py:182-187 | on a hit the opponent's hand loses its first matching card, the asker's hand gains it at the end, and the deck and the opponent's list are untouched |
| Rules.RequestMiss | seven_families_game.py:188-190 | on a miss the opponent's hand and list are untouched and the asker, not the opponent, draws: with an empty deck the asker's hand is unchanged, otherwise it gains the deck's last card |
| Rules.HandOverKeepsCards | seven_families_game.py:182-186 | moving a card from the opponent's hand to the asker's keeps the invariant |
| Rules.RequestKeepsCards | seven_families_game.py:178-194 | a request keeps the invariant |
| Rules.PlayKeepsCards | seven_families_game.py:178-194 | any sequence of requests keeps the invariant |
| Rules.PlayLogs | seven_families_game.py:192 | after any sequence of requests the discard pile has gained exactly the requested cards, in order |
| Rules.PlayAlternates | seven_families_game.py:194 | after an even number of requests the same player is to move, after an odd number the other |
| Session.CreateDeck | seven_families_game.py:73-76 | the new deck is a permutation of the 42 cards: 42 cards, no repeats, every card present |
| Session.GameSession.constructor | seven_families_game.py:61-68 | the new session is `NewGame` of some shuffle of the 42 cards: valid, 28 cards in the deck, 7 in each hand, Player 1 to move, empty discard pile and lists |
| Session.GameSession.Reset | seven_families_game.py:219-224 | the same fresh start as the constructor, on an existing session |
| Session.GameSession.DealCards | seven_families_game.py:78-81 | the seven rounds of pops leave the fields equal to `Deal` of the old state, and the invariant is kept |
| Session.GameSession.ListIfComplete | seven_families_game.py:199-201 | appends the family to the player's list iff the hand has six of its cards and it is not listed; nothing else changes |
| Session.GameSession.CheckCompletedFamilies | seven_families_game.py:197-203 | the loop over the families leaves the fields equal to `CompletionPass` of the old state, and the invariant is kept |
| Session.GameSession.CheckEndGame | seven_families_game.py:208-212 | returns the win screen exactly when the player to move has listed every family (in a valid session), and changes nothing |
| Session.GameSession.DrawCard | seven_families_game.py:155-163 | the new fields and the screens shown are those of `Draw` of the old state, and the invariant is kept |
| Session.GameSession.TakeCard | seven_families_game.py:184-187 | on a hit, the opponent keeps the rest of their hand and the asker receives the card and checks families |
| Session.GameSession.AskOpponent | seven_families_game.py:181-190 | the card handed over, the new fields and the screens of the draw are those of `Exchange` of the old state |
| Session.GameSession.ProcessRequest | seven_families_game.py:178-195 | the card handed over, the new fields and the screens shown are those of `Request` of the old state, and the invariant is kept |

## Left out

- The tkinter interface is left out because it is presentation. That covers
  menus, rules, settings, hand and deck display, the request dialog widgets,
  the completed-family banner, and the "Rejouer" button
  (seven_families_game.py:96-153, 165-176, 205-206, 214-217).
- `start_turn` redraws the screen after a draw from a non-empty deck and
  after a request, over any result screen just shown
  (seven_families_game.py:161, 195). It is left out because it is
  presentation. The model keeps those screens in `shown`.
- pygame audio, background music and the `play_sound` threads are left out
  because they are device I/O and concurrency (seven_families_game.py:26-36).
- The volume slider and `update_volume` are left out because they are
  interface and floating point (seven_families_game.py:83-94).
- The emoji strings and `Card.emoji` are left out because they are display
  only (seven_families_game.py:7-24, 42). The families and members keep the
  order of the two dictionaries.
- Player names are left out, including the rename of the second player to
  "AI" in `reset_game` (seven_families_game.py:220). Player p is named only
  by its index in `Won(p)`.
- `random.shuffle` is a foreign call. `CreateDeck` only knows that its
  result is some permutation of the unshuffled deck. No particular order is
  modelled.
- The `Player` objects are folded into the session's fields. `give_card`
  mutates `player.hand` in place; `Hands.GiveCard` returns the card and the
  remaining hand, and the session stores that hand. Python's `list.remove`
  compares by object identity. It removes the very card the loop found, which
  is the first card equal to it by family and member, as `RemoveFirst`
  states.
- Session.GameSession.DealCards: requires at least 14 cards in the deck. The
  Python pops would raise on a shorter deck, but `deal_cards` only ever runs
  right after `create_deck`.
- A game over state, removing completed families from the hand, and
  rejecting moves after a win are not in this file, so they are not
  modelled.
