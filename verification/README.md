# Mau Mau rules in Dafny

This project models the rule core of a Mau Mau card game, a Crazy Eights-style game, and proves properties of it. It covers:

- **Card and pile value types.** Cards and symbols (`cards/card.py`), the deck built from a pack catalog (`cards/deck.py`), and hands with their canonical sort (`cards/hand.py`).
- **Engine rules.** The rules of `maumau/engine.py`:
  - legality;
  - the seven chain;
  - the effects of seven, eight and jack;
  - replenishing and drawing;
  - one player's visit in the loop of `run`, as a transition on the game state.
- **The older engine.** `maumau/__init__.py`, which follows a different rule set.
- **The automated strategy.** `maumau/players/stupid_ai.py`, also repeated inside `maumau/engine.py`.
- **The player record.** `maumau/players/base.py`.
- **The rejection message.** The message selection of `CardNotAllowedError` (`maumau/errors.py`).

Modules, one concept each:

| module | file | what |
|---|---|---|
| `Outcomes` | outcomes.dfy | `Option` and `Result`; every raise becomes an `Err` |
| `Seqs` | seqs.dfy | generic sequence and multiset facts |
| `Cards` | cards.dfy | labels, symbols, cards, `str(card)` |
| `Piles` | piles.dfy | `draw`, `put_under`, `shuffle`, the pack catalog and the deck built from it |
| `Hands` | hands.dfy | `Hand()`, the stable sort, `draw_from` |
| `Players` | players.dfy | the player record and the answers a strategy gives |
| `Errors` | errors.dfy | which rejection message is chosen, and its text |
| `StupidAI` | stupid_ai.dfy | `choose_card`, `choose_face`, `choose_play_immediately` |
| `Table` | table.dfy | code both engines share: dealing, reclaiming the table, the scoreboard, `get_draw_count` |
| `Engine` | engine.dfy | the rules of `maumau/engine.py` and one visit of its `run` loop |
| `Legacy` | legacy.dfy | the rules of the older engine in `maumau/__init__.py`, on the same state record |

Representation choices:

- **Symbols and labels.**
  - A symbol is `Symbol(index, label)`. `cards/card.py` declares it as a tuple, but `cards/hand.py:15-16` and the engine read `.index` and `.symbol`. One datatype with structural equality serves both.
  - A label is `Text(string)` or `Number(int)`, because a JSON pack may hold either.
  - Python's `==` never equates a string and an integer, and the model keeps that distinction.
  - The newer engine tests `rank.symbol == "7"`, which is `Text("7")`. The older one tests `rank[1] == 7`, which is `Number(7)`.
  - `Legacy.TextRanksInert` and `Legacy.TextTopCountsNothing` show the consequence: with a pack of text labels, the older engine's seven and eight effects never fire.
- **Piles.** A pile is a `seq<Card>` whose last element is the top.
- **Shuffles.** `random.shuffle` is CPython's Fisher-Yates pass. The values `randbelow` returns are an input (`rolls`), so a shuffle is some permutation chosen by the caller, and no claim is made about its distribution.
- **Strategies.** A strategy is represented by its answers for one turn (`Players.Replies`):
  - each `choose_card` answer, together with the rolls of the shuffle the strategy applies to its own hand first;
  - the faces it names;
  - whether it plays a drawn card.

  A human's answers are arbitrary inputs. The automated strategy's answers are computed by `StupidAI.Reply`, and `Engine.AIDecidesAtOnce` shows that its first answer settles the turn.
- **The game state.** `Engine.State` holds:
  - the deck, with its catalogs;
  - the table;
  - the players in seating order;
  - the finishers;
  - `cardsToDraw`, `missTurn` and `nextFace`.

  Every move within a turn is shown to `Follow` from the state before it. That means:
  - the state stays `Valid`: the table is never empty, at least one card is due, and more than one card is due only while a seven is on top;
  - the multiset of deck, table and all hands is unchanged;
  - the seating, the other players' hands, the finishers and the catalogs are unchanged.

  `Engine.Run` and `Legacy.Run` carry this card-conservation invariant through any number of visits.

The model follows the code where it differs from what the program's own notes suggest:

- `load_deck_file` appends the face symbol, not the rank symbol, to `ranks` (`Piles.BuildDeck`).
- `choose_play_immediately` tests the drawn card's FACE label against "J" and "7" (`StupidAI.ChoosePlayImmediately`).
- The automated strategy's fallback jack is the last jack it scanned (`StupidAI.ChooseCard`).
- `verify_deck_obj` accepts empty lists (`Piles.LoadDeck`).
- `draw_cards` makes one card due again even after a drawn seven is played at once (`Engine.DrawCards`).

The one place the model departs from the code is the single-card draw of `draw_cards`, which the code as written cannot complete. The newer engine's turns use the corrected draw; the as-written draw is modelled beside it (see Findings).

## Model

| member | source | states |
|---|---|---|
| Cards.Digits | cards/card.py:13 | the decimal rendering of an integer label is non-empty and consists of digits only |
| Cards.DigitsRoundTrip | cards/card.py:13 | reading the rendered digits back yields the integer, so rendering a numeric label loses nothing |
| Cards.LabelText | cards/card.py:13 | a numeric label always renders to at least one character |
| Cards.CardText | cards/card.py:12-13 | `str(card)` is the face label immediately followed by the rank label: the length is the sum of both, with the face label as prefix and the rank label as suffix |
| Piles.Pop | cards/deck.py:55-57 | popping n times yields the top n cards, top first; the pile keeps its first size-n cards; no card is lost or gained |
| Piles.Draw | cards/deck.py:49-57 | a count below one raises the ValueError case; a count above the pile size raises the RuntimeError case with the size; otherwise it returns the top `count` cards top first, the rest is the bottom part of the pile, and cards are conserved |
| Piles.PutUnder | cards/deck.py:59-60 | the card becomes the bottom of the pile and everything above it is the old pile |
| Piles.PutUnderAllIsPrefix | cards/deck.py:59-60 | putting cards under one by one, last first, places the whole run below the pile in its order |
| Piles.ShuffleDown | cards/deck.py:46-47 | the Fisher-Yates steps below position k permute the pile and leave positions from k on untouched |
| Piles.Shuffle | cards/deck.py:46-47 | a shuffle keeps the length and the multiset of cards |
| Piles.ShuffleDownWithoutRolls | cards/deck.py:46-47 | with no rolls the shuffle leaves every card in place, so the identity is among the outcomes |
| Piles.Catalog | cards/deck.py:38-40 | the faces catalog is `(i, faces[i])` for every position, in input order |
| Piles.Row | cards/deck.py:41-44 | one pass of the inner loop produces one entry per rank, in rank order |
| Piles.Grid | cards/deck.py:38-44 | the nested loops produce \|faces\|·\|ranks\| entries, and the entry for (i, j) sits at i·\|ranks\| + j |
| Piles.BuildDeck | cards/deck.py:38-44 | the deck has \|faces\|·\|ranks\| cards, the card at i·\|ranks\|+j is (face i, rank j), the faces catalog is in input order, and `ranks` holds face i once per card |
| Piles.LoadDeck | cards/deck.py:28-44 | loading fails exactly when "faces" or "ranks" is missing (empty lists pass) and otherwise builds the deck from both lists |
| Hands.NewHand | cards/hand.py:8-10 | a new hand holds no cards |
| Hands.CompareAgreesWithKey | cards/hand.py:13-16 | when equal face indices mean equal faces, the source comparator orders exactly by (face index, rank index), in both directions, and is zero exactly on equal keys |
| Hands.Insert | cards/hand.py:18 | one insertion step adds exactly the one card and keeps a sorted hand sorted |
| Hands.Sort | cards/hand.py:12-18 | sorting yields a permutation of the hand, ordered by face index and then by rank index |
| Hands.SortStable | cards/hand.py:18 | cards with equal keys keep their relative order |
| Hands.SortIdempotent | cards/hand.py:12-18 | sorting an already sorted hand changes nothing |
| Hands.DrawFrom | cards/hand.py:20-21 | the hand grows by exactly the cards `deck.draw` returns, in that order; the deck shrinks to its bottom part; the combined size and cards are conserved; a failing draw reports the same error |
| Players.NewPlayer | maumau/players/base.py:14-17 | a new player has the given name and an empty hand |
| Errors.ReasonFor | maumau/errors.py:10-15 | "face expected" exactly when the face asked for differs from both the top card's and the played card's face; otherwise "matches neither" exactly when rank and face both differ from the top card's; otherwise the plain message |
| Errors.Message | maumau/errors.py:10-16 | every message begins with "You are not allowed to play " followed by the played card and goes on past it |
| StupidAI.ChooseCard | maumau/players/stupid_ai.py:21-32 | a pick is an index into the hand; a non-jack pick is the first qualifying card; a jack is picked only when nothing qualifies and fewer than two cards are due, and it is the last jack; "d" exactly when nothing qualifies and either two or more are due or the hand has no jack |
| StupidAI.ChainOrDraw | maumau/players/stupid_ai.py:27-30 | with a seven on top and two or more cards due, any card picked is a seven and never a jack |
| StupidAI.Reply | maumau/players/stupid_ai.py:20-32 | whatever order the shuffle leaves, the answer is "d" or a card of the hand: a picked non-jack is allowed and chains a pending seven, a picked jack only when fewer than two cards are due; it asks to draw exactly when no card of the hand qualifies and no jack may be played |
| StupidAI.FirstIndex | maumau/players/stupid_ai.py:41 | `list.index` fails exactly when the face is absent and otherwise returns its first position |
| StupidAI.Tally | maumau/players/stupid_ai.py:39-41 | counting fails exactly when some card's face is not available; otherwise the first position of each face holds the number of cards of that face and repeated positions hold zero |
| StupidAI.ArgMax | maumau/players/stupid_ai.py:42 | the result is a largest count, and no earlier position holds as large a count |
| StupidAI.ChooseFace | maumau/players/stupid_ai.py:34-42 | no face is chosen exactly when there are no faces or a card's face is unavailable; otherwise the chosen face is available, no available face is more frequent in the hand, and every face listed before it is strictly less frequent |
| StupidAI.ChoosePlayImmediately | maumau/players/stupid_ai.py:44-48 | the drawn card is kept exactly when its face label is "J" or "7"; `Engine.AIPlaysDrawnCard` states what this does to a draw |
| StupidAI.PlayImmediatelyIgnoresRank | maumau/players/stupid_ai.py:48 | the decision never depends on the drawn card's rank |
| Table.SeatOne | maumau/engine.py:34-36 | seating one player succeeds exactly when five cards are left; the player receives five cards from the deck, sorted |
| Table.Seat | maumau/engine.py:31-36 | after seating, the names follow in order, each new hand holds five sorted cards, and deck plus hands keep their cards; a repeated name or a short deck is the reason for any failure |
| Table.SeatSucceeds | maumau/engine.py:31-36 | with enough cards, seating fails exactly when a name repeats |
| Table.OpenTable | maumau/engine.py:38 | the table receives exactly the deck's top card, and this fails only on an empty deck |
| Table.Deal | maumau/engine.py:23-38 | a dealt game seats the names in order with five sorted cards each, puts one card on the table and keeps every card of the shuffled deck; failures are a repeated name or too few cards |
| Table.DealSucceeds | maumau/engine.py:29-38 | with a card for the table and five for each player, dealing succeeds exactly when the names are distinct |
| Table.Reclaim | maumau/engine.py:158-162 | the table keeps only its top; the deck becomes a permutation of the rest of the table followed by the old deck; no card is lost |
| Table.ReclaimIsPutUnder | maumau/engine.py:159-161 | reclaiming equals putting each shuffled table card under the deck |
| Table.Scoreboard | maumau/engine.py:144-148 | the scoreboard adds at most one name, at the end, and only one not yet listed |
| Table.ScoreboardPicks | maumau/engine.py:144-148 | the name added is that of the first unfinished player in seating order |
| Table.ScoreboardAllDone | maumau/engine.py:144-148 | nothing is added when every player has finished |
| Table.DrawCountFor | maumau/engine.py:165-172 | the count is twice the length of the run of sevens on top of the table: every card in the run is a seven and the card below it is not |
| Engine.Interpret | maumau/engine.py:125-140 | an answer is accepted as a draw exactly when it is "d" and as a play exactly when it is an index inside the hand; the index is kept |
| Engine.PickACard | maumau/engine.py:111-142 | asking ends at the first accepted answer; no answer before it was accepted; a play index lies inside the hand; the strategy's reordering keeps the hand's cards; no accepted answer means the answers ran out |
| Engine.PickFirst | maumau/engine.py:119-130 | an accepted first answer settles the choice at once, with the hand as the strategy reordered it |
| Engine.PickAFace | maumau/engine.py:202-219 | the face returned is available and is the first available one named; no face exactly when none named is available |
| Engine.EnforceChain | maumau/engine.py:276-285 | the play is refused exactly when more than one card is due and the card is not a seven; `Engine.ChainGuardKeepsValid` shows this is exactly what keeps a played state valid |
| Engine.ChainGuardKeepsValid | maumau/engine.py:276-285 | for a card that `play_card` accepts, the chain guard lets it through exactly when the state after the play is valid; under a pending chain a card let through adds two more cards due |
| Engine.AfterSeven | maumau/engine.py:301-304 | after a seven, two cards are due if fewer than two were due, else two more than before |
| Engine.PlayCard | maumau/engine.py:287-314 | a disallowed card is refused with the reason the error class picks; an allowed card leaves the hand (the rest keep their order), goes on top, and applies the 7, 8 and J effects; a jack's face is the strategy's first available reply; no card is lost; a play that keeps the chain keeps the state valid |
| Engine.RefusalExplained | maumau/engine.py:293-294 | a refusal never carries the plain message, and it says "face expected" exactly when the face asked for is not the top card's face |
| Engine.JackNamesFace | maumau/engine.py:310-323 | after a jack, the face asked for is one of the pack's faces, and a card is then allowed exactly when it shows that face or is a jack |
| Engine.PlayFollows | maumau/engine.py:287-314 | a play that keeps the seven chain is a valid step that conserves every card and touches only the player's hand |
| Engine.Replenish | maumau/engine.py:152-162 | nothing changes when a minimum is given and met; otherwise the table keeps only its top and the deck grows by the rest of the table underneath; either way players, top card and all cards are kept, and validity is preserved |
| Engine.ReplenishFollows | maumau/engine.py:152-162 | replenishing is a valid step that conserves every card |
| Engine.SortAndReset | maumau/engine.py:260-261 | the player's hand becomes a sorted permutation of itself, one card is due again, and nothing else changes |
| Engine.TakeCards | maumau/engine.py:250-251 | the hand grows by the top n deck cards, with the last one drawn at its end; the deck loses exactly those cards; nothing else changes and no card is lost |
| Engine.Settle | maumau/engine.py:252-261 | a single drawn card that is allowed and wanted goes on the table and leaves the hand; otherwise the table and the hand's cards stay; in every case the hand ends sorted with one card due; the only failure is a drawn jack with no available face reply |
| Engine.DrawCards | maumau/engine.py:246-261 | drawing always ends with one card due; the deck loses exactly the number of cards due, clamped to what it holds after replenishing; a player who drew anything ends with a sorted hand; drawing can only fail on a single card that the player wanted to play; `Engine.DrawCardsMoves` states where the cards go |
| Engine.DrawCardsMoves | maumau/engine.py:246-261 | the deck keeps the bottom part of the replenished deck; the drawer's hand and the table together gain exactly the top cards drawn; unless exactly one card is drawn, the table is untouched and the hand gains all of them |
| Engine.DrawCardsFollows | maumau/engine.py:246-261 | drawing is a valid step that conserves every card and touches only the drawer's hand |
| Engine.DrawnCardPlayed | maumau/engine.py:252-256 | an allowed non-jack card drawn singly and wanted is played: it lands on the table and the hand keeps the cards it had before |
| Engine.DrawSingle | maumau/engine.py:247-252 | with one card due and a non-empty deck, no replenishing happens and exactly the top card is drawn |
| Engine.DrawCardsAsWritten | maumau/engine.py:251-254 | the code as written raises exactly when a single card is drawn |
| Engine.AsWrittenAgreesElsewhere | maumau/engine.py:250-261 | apart from the single-card case, the code as written and the corrected draw agree |
| Engine.OrdinaryDrawCrashes | maumau/engine.py:251-254 | an ordinary draw of one card from a non-empty deck raises as written, while the corrected draw completes unless the card is a jack |
| Engine.ReorderFollows | maumau/engine.py:97 | the strategy shuffling its own hand is a valid step that keeps every card |
| Engine.PlayerTurn | maumau/engine.py:360-378 | a completed turn leaves a valid state; under a pending seven chain it ends either with one card due (the player drew) or with two more due (the player chained) |
| Engine.PlayerTurnFollows | maumau/engine.py:360-378 | a whole turn, including refused attempts, conserves every card, the seating, the other players' hands and the finishers |
| Engine.AIAnswerAccepted | maumau/engine.py:97-109 | every answer of the automated strategy (`StupidAI.Reply`) is accepted by `pick_a_card`, and a card it picks is allowed and keeps the seven chain |
| Engine.AIPlaysDrawnCard | maumau/engine.py:237-238 | with the automated strategy's answer, a single drawn card whose face label is "J" or "7" stays in the hand and the table is untouched; any other allowed non-jack goes onto the table at once |
| Engine.DrawnCardKept | maumau/engine.py:250-260 | a single drawn card the player does not want to play joins the hand and the table is untouched |
| Engine.AIDecidesAtOnce | maumau/engine.py:119-130 | with the automated strategy, answers after its first are never used |
| Engine.Finish | maumau/engine.py:386-391 | a player left with cards changes nothing; an emptied hand joins the finishers; once fewer than two players remain, the scoreboard completes the finishers and the game is over |
| Engine.Step | maumau/engine.py:348-391 | a finisher is passed over unchanged; a pending skip is used up after `replenish_deck(1)`, which may refill an empty deck from the table, with the players, finishers and cards due unchanged, and with nothing else changed when the deck held a card; a completed turn puts the player among the finishers exactly when their hand is empty |
| Engine.StepKeeps | maumau/engine.py:348-391 | a visit keeps the state valid, every card and the seating |
| Engine.StepDistinct | maumau/engine.py:386-391 | no name is listed twice among the finishers after a visit |
| Engine.Run | maumau/engine.py:332-391 | any number of visits keeps the state valid, every card and the seating, and never lists a finisher twice |
| Engine.StartGame | maumau/engine.py:23-39 | a started game is valid with one card due, no skip pending, no finishers, one card on the table and that card's face asked for |
| Engine.StartGameDeals | maumau/engine.py:29-38 | the players sit in the order given, each with five sorted cards, and the game holds exactly the deck's cards |
| Engine.NewGame | cards/deck.py:33-36 | a pack without both lists is refused before dealing; otherwise the game starts from the deck built from the pack |
| Engine.NewGameSucceeds | maumau/engine.py:29-38 | with a well-formed pack holding enough cards, a game starts exactly when no name repeats |
| Legacy.Interpret | maumau/__init__.py:100-113 | an answer is accepted as a draw exactly when it is "d", and as a play exactly when it is an index inside the hand whose card matches the top card's face or rank |
| Legacy.InterpretNarrower | maumau/__init__.py:105-110 | the older engine accepts only what the newer one would accept, and it rejects exactly the in-range indices of cards that are not allowed |
| Legacy.PickACard | maumau/__init__.py:88-119 | the accepted answer is the last reply used, on the hand as reordered, whose cards are kept |
| Legacy.PickFirstAccepted | maumau/__init__.py:88-119 | asking ends at the first accepted answer: every earlier reply was refused on the hand it saw |
| Legacy.PickNoneRefused | maumau/__init__.py:88-119 | the replies run out unaccepted exactly when every one of them was refused on the hand it saw |
| Legacy.DrawNeverPassedOver | maumau/__init__.py:111-113 | no "d" answer was passed over before the accepted one |
| Legacy.NoneAcceptedNoDraw | maumau/__init__.py:111-113 | if no answer is accepted, none of them was "d" |
| Legacy.PickedIsAllowed | maumau/__init__.py:102-110 | a picked card is in range and matches the top card's face or rank |
| Legacy.Replenish | maumau/__init__.py:129-134 | the table always keeps only its top and the deck grows by the rest of the table, with no minimum checked; players, counters, validity and all cards are kept |
| Legacy.ReplenishDeck | maumau/__init__.py:129-134 | the new deck is a permutation of the table below its top, placed under the old deck |
| Legacy.RefillIfEmpty | maumau/__init__.py:155-156 | a visit starts by replenishing an empty deck, moving all but the top table card into it; a non-empty deck leaves the state as it was; players, counters, validity and all cards are kept |
| Legacy.ReplenishFollows | maumau/__init__.py:129-134 | replenishing is a valid step that conserves every card |
| Legacy.Draw | maumau/__init__.py:176-189 | drawing always ends valid with one card due; which cards move is stated by `Legacy.DrawMoves` |
| Legacy.Refilled | maumau/__init__.py:177-178 | the deck a draw takes from is replenished only when it holds fewer cards than are due, and then holds as many cards as the old deck and the table below its top card together; the players are untouched |
| Legacy.DrawIsTake | maumau/__init__.py:177-183 | drawing is taking `Engine.DrawAmount` cards, which the refilled deck holds, from the refilled deck |
| Legacy.DrawMoves | maumau/__init__.py:176-189 | the drawer's hand gains exactly the top `Engine.DrawAmount` cards of the refilled deck, the deck keeps its bottom part, and the table is the refilled one (the old table when no replenishing ran) |
| Legacy.TakeAndSort | maumau/__init__.py:181-189 | drawing and sorting makes one card due and leaves the table alone |
| Legacy.TakeAndSortMoves | maumau/__init__.py:181-183 | taking `n` cards the deck holds puts exactly its top `n` cards into the hand, leaves the bottom part as the deck and the table untouched |
| Legacy.DrawFollows | maumau/__init__.py:176-189 | drawing is a valid step that conserves every card and touches only the drawer's hand |
| Legacy.DrawAmount | maumau/__init__.py:177-183 | the deck loses, and the hand gains, as many cards as are due, clamped to what the deck holds after replenishing; a player who drew anything ends with a sorted hand; `Legacy.DrawMoves` states that they are the deck's top cards |
| Legacy.Play | maumau/__init__.py:195-202 | the card leaves the hand and goes on top; a seven adds to the cards due and leaves the skip alone; otherwise an eight sets the skip and the cards due stay; no card is lost |
| Legacy.PlayFollows | maumau/__init__.py:191-202 | a play that keeps the seven chain is a valid step that conserves every card |
| Legacy.TextRanksInert | maumau/__init__.py:197-202 | a card with a text rank label changes neither the cards due nor the skip |
| Legacy.TextTopCountsNothing | maumau/__init__.py:136-143 | with a text rank on top of the table, the older `get_draw_count` is zero |
| Legacy.PlayerTurn | maumau/__init__.py:163-204 | a completed turn of the older engine, including refused attempts, leaves a valid state and conserves every card, the seating, the other players' hands and the finishers |
| Legacy.ChainBreakAsksAgain | maumau/__init__.py:191-194 | a card that breaks the seven chain changes nothing but the strategy's reordering, and the player is asked again |
| Legacy.Choose | maumau/__init__.py:64-86 | the older automated strategy picks the first qualifying card, and says "d" exactly when none qualifies |
| Legacy.AIAnswerAccepted | maumau/__init__.py:80-86 | every answer of the older automated strategy is accepted, and a card it picks keeps the seven chain |
| Legacy.Step | maumau/__init__.py:151-217 | a finisher is passed over unchanged; a pending skip is used up after an empty deck is refilled from the table, with the players, finishers and cards due unchanged, and with nothing else changed when the deck held a card; a completed turn puts the player among the finishers exactly when their hand is empty; every visit keeps the state valid, every card and the seating |
| Legacy.TakeTurn | maumau/__init__.py:163-217 | after a completed turn the player is listed among the finishers exactly when their hand is empty; validity, every card and the seating are kept |
| Legacy.StepDistinct | maumau/__init__.py:212-217 | no name is listed twice among the finishers after a visit |
| Legacy.Run | maumau/__init__.py:150-217 | any number of visits keeps the state valid, every card and the seating, and never lists a finisher twice |

## Left out
- `BasePlayer.__str__` (maumau/players/base.py:54-55): it returns the name unchanged, and neither engine calls it (players are keyed by name), so it has no member.
- Engine.PlayerTurn, Engine.Step, Engine.Run: they draw with the corrected `Engine.DrawCards`. As written, any single-card draw raises TypeError and ends `run` (`Engine.OrdinaryDrawCrashes`; see Findings), so these rows describe the program with that fix applied.
- Hands.Sort: sorts by the key (face index, rank index), not by the source comparator. The two orders differ only when two different faces share an index, which cannot happen for cards built from one pack (`Hands.CompareAgreesWithKey`).

- **Console and display.** Console prompts (`prompt_card`, `prompt_face`, `prompt_to_play_drawn_card`, `maumau/players/human.py`), every `print`, `time.sleep`, the DEBUG dump, and the `__str__` of Deck and Hand are left out: they only display state or read the keyboard. A human's answers are arbitrary `Replies`.
- **The GUI and entry points.** `gui/`, `gui_main.py` and `main.py` are not part of this model.
- **Reading the pack file.** `Deck.__init__` and the file reading and JSON parsing of `load_deck_file` are left out, along with the fixed pack path both constructors use. The model starts from an already-parsed `PackObject`, so the pack's contents are an input.
- **Randomness.** `random.shuffle`'s randomness is left out: the values `randbelow` returns are inputs, and no claim about the distribution is made.
- **The strategy interface.** The `BasePlayer` interface (`choose_card`, `choose_face`, `choose_play_immediately`) is represented by the answers a strategy gives in one turn, not by an abstract class. The engines observe a strategy only through those answers.
- Engine.Interpret: a typed answer that Python's `int()` would parse, such as "3", is read as unreadable rather than as an index. The automated strategy never types one, and typed input comes only from the console prompts.
- Legacy.Interpret: the same simplification of `int()` on typed answers.
- **Termination of `run`.** Whether the game loop ends depends on shuffles and answers and is not modelled. `Engine.Run` and `Legacy.Run` cover a finite sequence of visits. A finisher's seat still consumes one input when it is passed over.
- Legacy.PlayerTurn: its contract states validity and conservation only. The facts about draw answers are stated at the level of `Legacy.PickACard`, by `Legacy.DrawNeverPassedOver` and `Legacy.NoneAcceptedNoDraw`. A turn-level form ("a turn that runs out of answers was never answered with d") is not stated.
- Errors.Message: only the common head of the message, which names the played card, is stated. The tail renders the expected face by its label, because `maumau/errors.py` formats the symbol object and the source does not define that object's `str`.
- Legacy.Step: the older engine has no face asked for. It shares `Engine.State`, whose `nextFace` field the older rules carry along and never read.
- **The older constructor.** `maumau/__init__.py:18-33` is dealt by the shared `Table.Deal`. It differs from the newer constructor only in not setting a face to ask for.
- **The tuple-based `Card`.** `cards/card.py` stores plain tuples, while `cards/hand.py:15-16` reads `.index` and `.symbol`. Both are modelled as `Cards.Symbol`; the `IndexedSymbol` class those files import is not part of this model.

## Findings

| source | as written | input that shows it | evidently intended | confidence | as-written member | corrected member |
|---|---|---|---|---|---|---|
| maumau/engine.py:251-254 | `drawn_cards = player_hand.draw_from(...)` followed by `drawn_cards[0]`. `Hand.draw_from` (cards/hand.py:20-21) returns nothing, so any single-card draw raises TypeError before the drawn card can be played or the hand sorted. | Any ordinary draw: one card due and a non-empty deck, for example the first "d" answer of a game. | `drawn_cards[0]` should be the card just drawn, now last in the hand. If it is allowed and wanted, it is played (line 256 plays index -1); then the hand is sorted and one card is due again. | not executed | Engine.DrawCardsAsWritten, Engine.OrdinaryDrawCrashes | Engine.DrawCards, Engine.DrawnCardPlayed |
