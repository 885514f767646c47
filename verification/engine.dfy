/**
 * The rules of maumau/engine.py: legality, the seven chain, the effects of
 * seven, eight and jack, replenishing and drawing, and one player's turn of
 * `run` as a transition on the game state.
 *
 * A strategy's answers for the turn are an input (`Replies`); so are the
 * randbelow answers of every `random.shuffle` the engine makes.
 */
module Engine {
  import opened Outcomes
  import opened Cards
  import opened Piles
  import opened Hands
  import opened Players
  import opened Errors
  import opened Table
  import opened Seqs
  import StupidAI

  /**
   * The fields of `MauMau`. `players` keeps `player_hands` in insertion
   * order, which is the order `run` visits them in.
   */
  datatype State = State(
    deck: Deck,
    table: seq<Card>,
    players: seq<Player>,
    finishers: seq<string>,
    cardsToDraw: int,
    missTurn: bool,
    nextFace: Symbol)

  /** The top card of the table. */
  function Top(s: State): Card
    requires |s.table| > 0
  {
    s.table[|s.table| - 1]
  }

  /** `is_card_allowed`: the card shows the face asked for, repeats the top card's rank, or is a jack. */
  predicate Allowed(nextFace: Symbol, top: Card, c: Card)
  {
    c.face == nextFace || c.rank == top.rank || HasRank(c, "J")
  }

  /**
   * What every reachable state satisfies: the table is never empty, at least
   * one card is due, and more than one only while a seven lies on top.
   */
  predicate Valid(s: State)
  {
    && |s.table| > 0
    && s.cardsToDraw >= 1
    && (s.cardsToDraw > 1 ==> HasRank(Top(s), "7"))
  }

  /** Every card of the game: deck, table and all hands. */
  function AllCards(s: State): multiset<Card>
  {
    multiset(s.deck.cards) + multiset(s.table) + HandCards(s.players)
  }

  /** The same players in the same seats, whatever they hold. */
  predicate SameSeats(a: seq<Player>, b: seq<Player>)
  {
    |a| == |b| && forall i :: 0 <= i < |a| ==> a[i].name == b[i].name
  }

  /** Every player but the one in `seat` is exactly as before. */
  predicate OthersKept(a: seq<Player>, b: seq<Player>, seat: nat)
  {
    |a| == |b| && forall i :: 0 <= i < |a| && i != seat ==> a[i] == b[i]
  }

  /** Keeping the others twice keeps them. */
  lemma OthersKeptTrans(a: seq<Player>, b: seq<Player>, c: seq<Player>, seat: nat)
    requires OthersKept(a, b, seat) && OthersKept(b, c, seat)
    ensures OthersKept(a, c, seat)
  {
  }

  /**
   * What a move within the turn of the player in `seat` keeps: no card left
   * or joined the game, the others hold what they held, and the seating, the
   * finishers and the pack catalogs are as before.
   */
  predicate Kept(s: State, t: State, seat: nat)
  {
    && AllCards(t) == AllCards(s)
    && SameSeats(t.players, s.players)
    && OthersKept(t.players, s.players, seat)
    && t.finishers == s.finishers
    && t.deck.faces == s.deck.faces && t.deck.ranks == s.deck.ranks
  }

  /** Keeping twice is keeping. */
  lemma KeptTrans(a: State, b: State, c: State, seat: nat)
    ensures Kept(a, b, seat) && Kept(b, c, seat) ==> Kept(a, c, seat)
  {
  }

  /** `t` can follow `s` within the turn of the player in `seat`: it is valid and keeps what a move keeps. */
  predicate Follows(s: State, t: State, seat: nat)
  {
    Valid(t) && Kept(s, t, seat)
  }

  /** Two steps within one turn are one step. */
  lemma FollowsTrans(a: State, b: State, c: State, seat: nat)
    ensures Follows(a, b, seat) && Follows(b, c, seat) ==> Follows(a, c, seat)
  {
  }

  /** `s` with the player in `seat` holding `h` instead. */
  function WithHand(s: State, seat: nat, h: seq<Card>): (r: State)
    requires seat < |s.players|
    ensures SameSeats(r.players, s.players)
    ensures r.players[seat].hand == h
    ensures OthersKept(r.players, s.players, seat)
  {
    s.(players := s.players[seat := Player(s.players[seat].name, h)])
  }

  /**
   * Moving cards between the deck, the table and one hand, without taking
   * any card out of the game or adding one, keeps every card of the game.
   */
  lemma Moved(s: State, seat: nat, h: seq<Card>, cards: seq<Card>, table: seq<Card>)
    requires seat < |s.players|
    requires multiset(cards) + multiset(table) + multiset(h)
          == multiset(s.deck.cards) + multiset(s.table) + multiset(s.players[seat].hand)
    ensures AllCards(WithHand(s, seat, h).(deck := s.deck.(cards := cards), table := table)) == AllCards(s)
  {
    var t := WithHand(s, seat, h).(deck := s.deck.(cards := cards), table := table);
    HandCardsUpdate(s.players, seat, Player(s.players[seat].name, h));
    var old', new' := multiset(s.players[seat].hand), multiset(h);
    var d, d', tb, tb' := multiset(s.deck.cards), multiset(cards), multiset(s.table), multiset(table);
    var hs, ht := HandCards(s.players), HandCards(t.players);
    assert ht + old' == hs + new';
    assert d' + tb' + new' == d + tb + old';
    calc {
      AllCards(t) + old';
      d' + tb' + (ht + old');
      d' + tb' + new' + hs;
      d + tb + old' + hs;
      AllCards(s) + old';
    }
    Cancel(AllCards(t), AllCards(s), old');
  }

  /** Giving a player a permutation of their hand keeps every card of the game. */
  lemma Rearranged(s: State, seat: nat, h: seq<Card>)
    requires seat < |s.players| && multiset(h) == multiset(s.players[seat].hand)
    ensures AllCards(WithHand(s, seat, h)) == AllCards(s)
  {
    Moved(s, seat, h, s.deck.cards, s.table);
    assert WithHand(s, seat, h).(deck := s.deck.(cards := s.deck.cards), table := s.table) == WithHand(s, seat, h);
  }

  // ------------------------------------------------------------ pick_a_card

  /** What a turn does once an answer is accepted. */
  datatype Choice = DrawChoice | PlayChoice(index: nat)

  /**
   * How `pick_a_card` reads one answer for a hand of `n` cards: an index in
   * range plays that card, "d" draws, anything else asks again (None).
   */
  function Interpret(n: nat, a: Answer): (r: Option<Choice>)
    ensures r == Some(DrawChoice) <==> a == Typed("d")
    ensures (r.Some? && r.value.PlayChoice?) <==> (a.Pick? && 0 <= a.index < n)
    ensures r.Some? && r.value.PlayChoice? ==> r.value.index == a.index
  {
    match a
    case Pick(i) => if 0 <= i < n then Some(PlayChoice(i)) else None
    case Typed(t) => if t == "d" then Some(DrawChoice) else None
  }

  /** The accepted choice, the hand as the strategy left it, and how many replies it took. */
  datatype Picked = Picked(hand: seq<Card>, choice: Choice, used: nat)

  /** No reply before position `k` is accepted for a hand of `n` cards. */
  predicate NoneAcceptedBefore(n: nat, replies: seq<CardReply>, k: int)
  {
    forall j :: 0 <= j < k && j < |replies| ==> Interpret(n, replies[j].answer).None?
  }

  /**
   * `pick_a_card`: ask until an answer is accepted. Each reply first reorders
   * the hand as the strategy did (the automated one shuffles it); None means
   * the replies ran out before one was accepted.
   */
  function PickACard(hand: seq<Card>, replies: seq<CardReply>): (r: Option<Picked>)
    ensures r.None? <==> NoneAcceptedBefore(|hand|, replies, |replies|)
    ensures r.Some? ==> |r.value.hand| == |hand| && multiset(r.value.hand) == multiset(hand)
    ensures r.Some? && r.value.choice.PlayChoice? ==> r.value.choice.index < |hand|
    ensures r.Some? ==> 0 < r.value.used <= |replies|
    ensures r.Some? ==> Interpret(|hand|, replies[r.value.used - 1].answer) == Some(r.value.choice)
    ensures r.Some? ==> NoneAcceptedBefore(|hand|, replies, r.value.used - 1)
    decreases |replies|
  {
    if |replies| == 0 then None
    else
      var h := Shuffle(hand, replies[0].rolls);
      match Interpret(|hand|, replies[0].answer)
      case Some(c) => Some(Picked(h, c, 1))
      case None =>
        var r := PickACard(h, replies[1..]);
        if r.Some? then
          NoneShift(|hand|, replies, r.value.used - 1);
          assert replies[r.value.used] == replies[1..][r.value.used - 1];
          Some(r.value.(used := r.value.used + 1))
        else
          NoneShift(|hand|, replies, |replies| - 1);
          r
  }

  /** No reply is accepted before position `k + 1` exactly when the first is refused and none of the rest before `k`. */
  lemma NoneShift(n: nat, replies: seq<CardReply>, k: nat)
    requires 0 < |replies|
    ensures NoneAcceptedBefore(n, replies, k + 1) <==>
      Interpret(n, replies[0].answer).None? && NoneAcceptedBefore(n, replies[1..], k)
  {
    assert forall j :: 1 <= j < |replies| ==> replies[j] == replies[1..][j - 1];
  }

  // ------------------------------------------------------------ pick_a_face

  /** `pick_a_face`: the first face reply that is one of the available faces. */
  function PickAFace(available: seq<Symbol>, replies: seq<Symbol>): (r: Option<Symbol>)
    ensures r.Some? ==> r.value in available
    ensures r.None? <==> forall k :: 0 <= k < |replies| ==> replies[k] !in available
    ensures r.Some? ==>
      exists k :: 0 <= k < |replies| && replies[k] == r.value && forall j :: 0 <= j < k ==> replies[j] !in available
    decreases |replies|
  {
    if |replies| == 0 then None
    else if replies[0] in available then Some(replies[0])
    else
      var r := PickAFace(available, replies[1..]);
      assert forall k :: 1 <= k < |replies| ==> replies[k] == replies[1..][k - 1];
      if r.Some? then
        var k :| 0 <= k < |replies| - 1 && replies[1..][k] == r.value
          && forall j :: 0 <= j < k ==> replies[1..][j] !in available;
        assert replies[k + 1] == r.value;
        r
      else r
  }

  // ---------------------------------------------------------- enforce_chain

  /** `enforce_chain`: while a seven chain is pending only another seven may be played. */
  function EnforceChain(cardsToDraw: int, c: Card): (ok: bool)
    ensures !ok <==> cardsToDraw > 1 && !HasRank(c, "7")
  {
    !(cardsToDraw > 1 && !HasRank(c, "7"))
  }

  // -------------------------------------------------------------- play_card

  /**
   * How `play_card` ends: the new state, the reason `CardNotAllowedError`
   * gives, or a jack whose face replies ran out before one was available.
   */
  datatype Play = Played(state: State) | Refused(reason: Reason) | FaceMissing

  /** Cards due after a seven is played on `cardsToDraw`: a new chain starts at two, a running one grows by two. */
  function AfterSeven(cardsToDraw: int): (n: int)
    ensures cardsToDraw < 2 ==> n == 2
    ensures cardsToDraw >= 2 ==> n == cardsToDraw + 2
  {
    (if cardsToDraw < 2 then 0 else cardsToDraw) + 2
  }

  /**
   * `play_card` (with `choose_face` for a jack): refuse a card that is not
   * allowed; otherwise move it from the hand onto the table and apply its
   * effect. A seven adds to the cards due, an eight makes the next player
   * miss a turn, a jack takes its next face from the face replies, and any
   * other card makes its own face the next one.
   */
  function PlayCard(s: State, seat: nat, idx: nat, faces: seq<Symbol>): (r: Play)
    requires |s.table| > 0 && seat < |s.players| && idx < |s.players[seat].hand|
    ensures var c := s.players[seat].hand[idx];
      r.Refused? <==> !Allowed(s.nextFace, Top(s), c)
    ensures var c := s.players[seat].hand[idx];
      r.Refused? ==> r.reason == ReasonFor(c, Top(s), s.nextFace)
    ensures var c := s.players[seat].hand[idx];
      r.FaceMissing? <==> Allowed(s.nextFace, Top(s), c) && HasRank(c, "J") && PickAFace(s.deck.faces, faces).None?
    ensures var c, hand := s.players[seat].hand[idx], s.players[seat].hand;
      r.Played? ==>
        && r.state.table == s.table + [c]
        && SameSeats(r.state.players, s.players)
        && r.state.players[seat].hand == hand[..idx] + hand[idx + 1..]
        && OthersKept(r.state.players, s.players, seat)
        && r.state.deck == s.deck
        && r.state.finishers == s.finishers
    ensures var c := s.players[seat].hand[idx];
      r.Played? ==>
        && r.state.cardsToDraw == (if HasRank(c, "7") then AfterSeven(s.cardsToDraw) else s.cardsToDraw)
        && r.state.missTurn == (s.missTurn || HasRank(c, "8"))
        && (HasRank(c, "J") ==> Some(r.state.nextFace) == PickAFace(s.deck.faces, faces))
        && (!HasRank(c, "J") ==> r.state.nextFace == c.face)
    ensures r.Played? ==> AllCards(r.state) == AllCards(s)
    ensures r.Played? && Valid(s) && EnforceChain(s.cardsToDraw, s.players[seat].hand[idx]) ==> Valid(r.state)
  {
    var hand := s.players[seat].hand;
    var c := hand[idx];
    if !Allowed(s.nextFace, Top(s), c) then
      Refused(ReasonFor(c, Top(s), s.nextFace))
    else
      var rest := hand[..idx] + hand[idx + 1..];
      var moved := WithHand(s, seat, rest).(table := s.table + [c]);
      var toDraw := if HasRank(c, "7") then AfterSeven(s.cardsToDraw) else s.cardsToDraw;
      var miss := s.missTurn || HasRank(c, "8");
      var face := if HasRank(c, "J") then PickAFace(s.deck.faces, faces) else Some(c.face);
      if face.None? then FaceMissing
      else
        RemoveAt(hand, idx);
        Moved(s, seat, rest, s.deck.cards, s.table + [c]);
        assert moved == WithHand(s, seat, rest).(deck := s.deck.(cards := s.deck.cards), table := s.table + [c]);
        Played(moved.(cardsToDraw := toDraw, missTurn := miss, nextFace := face.value))
  }

  /**
   * The chain guard is exactly what keeps a played state valid: a card it
   * lets through leaves a valid state, and under a pending chain adds two
   * cards due; a card it stops would leave more than one card due on a card
   * that is not a seven.
   */
  lemma ChainGuardKeepsValid(s: State, seat: nat, idx: nat, faces: seq<Symbol>)
    requires Valid(s) && seat < |s.players| && idx < |s.players[seat].hand|
    requires PlayCard(s, seat, idx, faces).Played?
    ensures var c, t := s.players[seat].hand[idx], PlayCard(s, seat, idx, faces).state;
      && (EnforceChain(s.cardsToDraw, c) <==> Valid(t))
      && (EnforceChain(s.cardsToDraw, c) && s.cardsToDraw > 1 ==> t.cardsToDraw == s.cardsToDraw + 2)
  {
    var c, t := s.players[seat].hand[idx], PlayCard(s, seat, idx, faces).state;
    assert Top(t) == c;
  }

  // --------------------------------------------------------- replenish_deck

  /**
   * `replenish_deck(min)`: unless the deck holds at least `min` cards, all
   * table cards but the top are shuffled and put under the deck. `None`
   * replenishes regardless.
   */
  function Replenish(s: State, min: Option<int>, rolls: seq<nat>): (r: State)
    requires |s.table| > 0
    ensures min.Some? && |s.deck.cards| >= min.value ==> r == s
    ensures !(min.Some? && |s.deck.cards| >= min.value) ==>
      && r.table == [Top(s)]
      && r.deck.cards == Reclaim(s.deck.cards, s.table, rolls).deck
      && |r.deck.cards| == |s.deck.cards| + |s.table| - 1
    ensures r.players == s.players && r.finishers == s.finishers
    ensures r.cardsToDraw == s.cardsToDraw && r.missTurn == s.missTurn && r.nextFace == s.nextFace
    ensures r.deck.faces == s.deck.faces && r.deck.ranks == s.deck.ranks
    ensures |r.table| > 0 && Top(r) == Top(s)
    ensures AllCards(r) == AllCards(s)
    ensures Valid(s) ==> Valid(r)
  {
    if min.Some? && |s.deck.cards| >= min.value then s
    else
      var back := Reclaim(s.deck.cards, s.table, rolls);
      s.(deck := s.deck.(cards := back.deck), table := back.table)
  }

  // ------------------------------------------------------------- draw_cards

  /** The deck size `draw_cards` works with, after `replenish_deck(cards_to_draw)`. */
  function Stock(s: State): int
  {
    if |s.deck.cards| < s.cardsToDraw then |s.deck.cards| + |s.table| - 1 else |s.deck.cards|
  }

  /** How many cards `draw_cards` draws: the cards due, but no more than the deck then holds. */
  function DrawAmount(s: State): int
  {
    if Stock(s) < s.cardsToDraw then Stock(s) else s.cardsToDraw
  }

  /** The end of `draw_cards`: the drawer's hand is sorted and one card is due again. */
  function SortAndReset(s: State, seat: nat): (r: State)
    requires seat < |s.players|
    ensures SameSeats(r.players, s.players)
    ensures Sorted(r.players[seat].hand)
    ensures multiset(r.players[seat].hand) == multiset(s.players[seat].hand)
    ensures OthersKept(r.players, s.players, seat)
    ensures r.deck == s.deck && r.table == s.table && r.finishers == s.finishers
    ensures r.cardsToDraw == 1 && r.missTurn == s.missTurn && r.nextFace == s.nextFace
    ensures AllCards(r) == AllCards(s)
    ensures |s.table| > 0 ==> Valid(r)
  {
    var h := Sort(s.players[seat].hand);
    Rearranged(s, seat, h);
    WithHand(s, seat, h).(cardsToDraw := 1)
  }

  /**
   * `player_hand.draw_from(deck, n)` inside `draw_cards`: the top `n` cards
   * go to the drawer's hand, top first, and `n` is recorded as the cards due.
   */
  function TakeCards(s: State, seat: nat, n: nat): (r: State)
    requires seat < |s.players| && 1 <= n <= |s.deck.cards|
    ensures SameSeats(r.players, s.players)
    ensures seat < |r.players| && Took(s.players[seat].hand, s.deck.cards, n, r.players[seat].hand, r.deck.cards)
    ensures OthersKept(r.players, s.players, seat)
    ensures r.table == s.table && r.finishers == s.finishers
    ensures r.cardsToDraw == n && r.missTurn == s.missTurn && r.nextFace == s.nextFace
    ensures r.deck.faces == s.deck.faces && r.deck.ranks == s.deck.ranks
    ensures AllCards(r) == AllCards(s)
  {
    var hand, cards := s.players[seat].hand, s.deck.cards;
    var t := TakeTop(hand, cards, n);
    Moved(s, seat, t.hand, t.source, s.table);
    var moved := WithHand(s, seat, t.hand).(deck := s.deck.(cards := t.source), table := s.table);
    moved.(cardsToDraw := n)
  }

  /**
   * The rest of `draw_cards` once the cards are in the hand: a single drawn
   * card (the hand's last) that is allowed is played when the strategy says
   * so; then the hand is sorted and one card is due again.
   */
  function Settle(s: State, seat: nat, single: bool, playDrawn: bool, faces: seq<Symbol>): (r: Option<State>)
    requires Valid(s) && s.cardsToDraw == 1 && seat < |s.players| && |s.players[seat].hand| > 0
    ensures r.Some? ==> Follows(s, r.value, seat) && r.value.cardsToDraw == 1 && r.value.deck == s.deck
    ensures r.Some? ==> Sorted(r.value.players[seat].hand)
    ensures var hand := s.players[seat].hand;
      r.Some? && single && playDrawn && Allowed(s.nextFace, Top(s), hand[|hand| - 1]) ==>
        && r.value.table == s.table + [hand[|hand| - 1]]
        && multiset(r.value.players[seat].hand) + multiset{hand[|hand| - 1]} == multiset(hand)
    ensures var hand := s.players[seat].hand;
      r.Some? && !(single && playDrawn && Allowed(s.nextFace, Top(s), hand[|hand| - 1])) ==>
        && r.value.table == s.table
        && multiset(r.value.players[seat].hand) == multiset(hand)
    ensures var hand := s.players[seat].hand;
      r.None? <==>
        && single && playDrawn && Allowed(s.nextFace, Top(s), hand[|hand| - 1])
        && HasRank(hand[|hand| - 1], "J") && PickAFace(s.deck.faces, faces).None?
  {
    var hand := s.players[seat].hand;
    var last := |hand| - 1;
    if single && playDrawn && Allowed(s.nextFace, Top(s), hand[last]) then
      match PlayCard(s, seat, last, faces)
      case Played(t) =>
        assert hand[..last] + hand[last + 1..] == hand[..last];
        LastOut(hand);
        var u := SortAndReset(t, seat);
        assert Follows(s, t, seat) && Follows(t, u, seat);
        FollowsTrans(s, t, u, seat);
        Some(u)
      case _ => None
    else
      Some(SortAndReset(s, seat))
  }

  /**
   * `draw_cards`: replenish if fewer cards than due are left, draw what is due
   * (at most the whole deck), play a single drawn card if allowed and wanted,
   * sort, and make one card due again. None: the drawn card is a jack and no
   * face reply is available.
   */
  function DrawCards(s: State, seat: nat, rolls: seq<nat>, playDrawn: bool, faces: seq<Symbol>): (r: Option<State>)
    requires Valid(s) && seat < |s.players|
    ensures r.Some? ==> r.value.cardsToDraw == 1
    ensures r.None? ==> DrawAmount(s) == 1 && playDrawn
    ensures r.Some? ==> |r.value.deck.cards| == Stock(s) - DrawAmount(s)
    ensures r.Some? && DrawAmount(s) > 0 ==> seat < |r.value.players| && Sorted(r.value.players[seat].hand)
  {
    var s1 := Replenish(s, Some(s.cardsToDraw), rolls);
    var n := DrawAmount(s);
    assert |s1.deck.cards| == Stock(s);
    if n <= 0 then Some(s1.(cardsToDraw := 1))
    else
      var t := TakeCards(s1, seat, n).(cardsToDraw := 1);
      assert |t.deck.cards| == Stock(s) - n;
      Settle(t, seat, n == 1, playDrawn, faces)
  }

  /** Drawing keeps every card of the game and touches only the drawer's hand. */
  lemma DrawCardsFollows(s: State, seat: nat, rolls: seq<nat>, playDrawn: bool, faces: seq<Symbol>)
    requires Valid(s) && seat < |s.players|
    ensures var r := DrawCards(s, seat, rolls, playDrawn, faces);
      r.Some? ==> Follows(s, r.value, seat)
  {
    var s1 := Replenish(s, Some(s.cardsToDraw), rolls);
    var n := DrawAmount(s);
    ReplenishFollows(s, seat, Some(s.cardsToDraw), rolls);
    if n > 0 {
      TakeAndSettleFollows(s1, seat, n, playDrawn, faces);
      var r := Settle(TakeCards(s1, seat, n).(cardsToDraw := 1), seat, n == 1, playDrawn, faces);
      if r.Some? {
        FollowsTrans(s, s1, r.value, seat);
      }
    }
  }

  /** Replenishing moves cards between table and deck only. */
  lemma ReplenishFollows(s: State, seat: nat, min: Option<int>, rolls: seq<nat>)
    ensures Valid(s) && seat < |s.players| ==> Follows(s, Replenish(s, min, rolls), seat)
  {
  }

  /** Drawing from a deck that holds enough, then settling, moves cards from the deck to the drawer and the table only. */
  lemma TakeAndSettleFollows(s: State, seat: nat, n: nat, playDrawn: bool, faces: seq<Symbol>)
    ensures Valid(s) && seat < |s.players| && 1 <= n <= |s.deck.cards| ==>
      var r := Settle(TakeCards(s, seat, n).(cardsToDraw := 1), seat, n == 1, playDrawn, faces);
      r.Some? ==> Follows(s, r.value, seat)
  {
    if Valid(s) && seat < |s.players| && 1 <= n <= |s.deck.cards| {
      var s2 := TakeCards(s, seat, n).(cardsToDraw := 1);
      assert Follows(s, s2, seat);
      var r := Settle(s2, seat, n == 1, playDrawn, faces);
      if r.Some? {
        FollowsTrans(s, s2, r.value, seat);
      }
    }
  }

  /** With a single card to draw, a non-jack drawn card that is allowed and wanted is played at once. */
  lemma DrawnCardPlayed(s: State, seat: nat, rolls: seq<nat>, faces: seq<Symbol>)
    requires Valid(s) && seat < |s.players| && s.cardsToDraw == 1 && |s.deck.cards| > 0
    requires var c := s.deck.cards[|s.deck.cards| - 1];
      Allowed(s.nextFace, Top(s), c) && !HasRank(c, "J")
    ensures var c, r := s.deck.cards[|s.deck.cards| - 1], DrawCards(s, seat, rolls, true, faces);
      && r.Some?
      && r.value.table == s.table + [c]
      && r.value.cardsToDraw == 1
      && seat < |r.value.players|
      && multiset(r.value.players[seat].hand) == multiset(s.players[seat].hand)
  {
    DrawSingle(s, seat, rolls, true, faces);
    TakeOnePlayed(s, seat, faces);
  }

  /**
   * The automated strategy's answer to `choose_play_immediately` in a
   * single-card draw: a drawn card whose face label is "J" or "7" stays in
   * the hand and the table is untouched; any other allowed non-jack goes
   * onto the table at once.
   */
  lemma AIPlaysDrawnCard(s: State, seat: nat, rolls: seq<nat>, faces: seq<Symbol>)
    requires Valid(s) && seat < |s.players| && s.cardsToDraw == 1 && |s.deck.cards| > 0
    ensures var c := s.deck.cards[|s.deck.cards| - 1];
      var r := DrawCards(s, seat, rolls, StupidAI.ChoosePlayImmediately(c), faces);
      (c.face.symbol == Text("J") || c.face.symbol == Text("7")) ==>
        && r.Some? && r.value.table == s.table && seat < |r.value.players|
        && multiset(r.value.players[seat].hand) == multiset(s.players[seat].hand) + multiset{c}
    ensures var c := s.deck.cards[|s.deck.cards| - 1];
      var r := DrawCards(s, seat, rolls, StupidAI.ChoosePlayImmediately(c), faces);
      !(c.face.symbol == Text("J") || c.face.symbol == Text("7")) && Allowed(s.nextFace, Top(s), c) && !HasRank(c, "J") ==>
        && r.Some? && r.value.table == s.table + [c] && seat < |r.value.players|
        && multiset(r.value.players[seat].hand) == multiset(s.players[seat].hand)
  {
    var c := s.deck.cards[|s.deck.cards| - 1];
    if StupidAI.ChoosePlayImmediately(c) {
      if Allowed(s.nextFace, Top(s), c) && !HasRank(c, "J") {
        DrawnCardPlayed(s, seat, rolls, faces);
      }
    } else {
      DrawnCardKept(s, seat, rolls, faces);
    }
  }

  /** A single drawn card the player does not want to play stays in the hand; the table is untouched. */
  lemma DrawnCardKept(s: State, seat: nat, rolls: seq<nat>, faces: seq<Symbol>)
    requires Valid(s) && seat < |s.players| && s.cardsToDraw == 1 && |s.deck.cards| > 0
    ensures var c, r := s.deck.cards[|s.deck.cards| - 1], DrawCards(s, seat, rolls, false, faces);
      && r.Some? && r.value.table == s.table && seat < |r.value.players|
      && multiset(r.value.players[seat].hand) == multiset(s.players[seat].hand) + multiset{c}
  {
    var s2 := TakeCards(s, seat, 1).(cardsToDraw := 1);
    TakeOneReady(s, seat);
    DrawSingle(s, seat, rolls, false, faces);
    assert DrawCards(s, seat, rolls, false, faces) == Settle(s2, seat, true, false, faces);
  }

  /**
   * `r` is `s` after the top `n` cards of its deck went to the hand of the
   * player in `seat`, possibly one of them on to the table: the deck keeps
   * its bottom part; hand and table together gain exactly the cards taken;
   * unless exactly one card was taken, the table is untouched and the hand
   * gains all of them.
   */
  predicate DrawnInto(s: State, seat: nat, n: int, r: State)
  {
    && 0 <= n <= |s.deck.cards| && seat < |s.players| && seat < |r.players|
    && r.deck.cards == s.deck.cards[..|s.deck.cards| - n]
    && multiset(r.players[seat].hand) + multiset(r.table)
       == multiset(s.players[seat].hand) + multiset(s.table) + multiset(s.deck.cards[|s.deck.cards| - n..])
    && (n != 1 ==> r.table == s.table)
    && (n != 1 ==> multiset(r.players[seat].hand)
                   == multiset(s.players[seat].hand) + multiset(s.deck.cards[|s.deck.cards| - n..]))
  }

  /**
   * Where `draw_cards` puts the cards: they come from the top of the deck as
   * replenished, and go to the drawer's hand (and a single one possibly on to
   * the table).
   */
  lemma DrawCardsMoves(s: State, seat: nat, rolls: seq<nat>, playDrawn: bool, faces: seq<Symbol>)
    requires Valid(s) && seat < |s.players|
    ensures var r := DrawCards(s, seat, rolls, playDrawn, faces);
      r.Some? ==> DrawnInto(Replenish(s, Some(s.cardsToDraw), rolls), seat, DrawAmount(s), r.value)
  {
    var s1 := Replenish(s, Some(s.cardsToDraw), rolls);
    var n := DrawAmount(s);
    assert |s1.deck.cards| == Stock(s) && s1.players == s.players;
    if n <= 0 {
      assert DrawCards(s, seat, rolls, playDrawn, faces) == Some(s1.(cardsToDraw := 1));
      assert s1.deck.cards[|s1.deck.cards| - n..] == [];
      assert s1.deck.cards[..|s1.deck.cards| - n] == s1.deck.cards;
    } else {
      assert DrawCards(s, seat, rolls, playDrawn, faces)
        == Settle(TakeCards(s1, seat, n).(cardsToDraw := 1), seat, n == 1, playDrawn, faces);
      TakeSettleMoves(s1, seat, n, playDrawn, faces);
    }
  }

  /** Taking `n` cards the deck holds and settling is drawing them into the hand. */
  lemma TakeSettleMoves(s: State, seat: nat, n: nat, playDrawn: bool, faces: seq<Symbol>)
    requires Valid(s) && seat < |s.players| && 1 <= n <= |s.deck.cards|
    ensures var r := Settle(TakeCards(s, seat, n).(cardsToDraw := 1), seat, n == 1, playDrawn, faces);
      r.Some? ==> DrawnInto(s, seat, n, r.value)
  {
    var t := TakeCards(s, seat, n).(cardsToDraw := 1);
    assert Valid(t) && |t.players[seat].hand| > 0;
    SettleMoves(t, seat, n == 1, playDrawn, faces);
    var r := Settle(t, seat, n == 1, playDrawn, faces);
    if r.Some? {
      TakenThenSettled(s, t, seat, n, r.value);
    }
  }

  /** Cards taken from the deck into the hand, then settled, are drawn into the hand. */
  lemma TakenThenSettled(s: State, t: State, seat: nat, n: nat, r: State)
    requires seat < |s.players| && seat < |t.players| && seat < |r.players|
    requires Took(s.players[seat].hand, s.deck.cards, n, t.players[seat].hand, t.deck.cards) && t.table == s.table
    requires r.deck == t.deck
    requires multiset(r.players[seat].hand) + multiset(r.table) == multiset(t.players[seat].hand) + multiset(t.table)
    requires n != 1 ==> r.table == t.table && multiset(r.players[seat].hand) == multiset(t.players[seat].hand)
    ensures DrawnInto(s, seat, n, r)
  {
  }

  /** Settling keeps the deck and moves at most the drawn card from the hand to the table. */
  lemma SettleMoves(s: State, seat: nat, single: bool, playDrawn: bool, faces: seq<Symbol>)
    requires Valid(s) && s.cardsToDraw == 1 && seat < |s.players| && |s.players[seat].hand| > 0
    ensures var r := Settle(s, seat, single, playDrawn, faces);
      r.Some? ==>
        && r.value.deck == s.deck && seat < |r.value.players|
        && multiset(r.value.players[seat].hand) + multiset(r.value.table) == multiset(s.players[seat].hand) + multiset(s.table)
        && (!single ==> r.value.table == s.table && multiset(r.value.players[seat].hand) == multiset(s.players[seat].hand))
  {
    var hand := s.players[seat].hand;
    var r := Settle(s, seat, single, playDrawn, faces);
    if r.Some? && single && playDrawn && Allowed(s.nextFace, Top(s), hand[|hand| - 1]) {
      var x := hand[|hand| - 1];
      assert multiset(r.value.table) == multiset(s.table) + multiset{x};
    }
  }

  /** Taking the top card and settling with it played: the card lands on the table, the hand is as before. */
  lemma TakeOnePlayed(s: State, seat: nat, faces: seq<Symbol>)
    ensures
      && Valid(s) && seat < |s.players| && s.cardsToDraw == 1 && |s.deck.cards| > 0
      && Allowed(s.nextFace, Top(s), s.deck.cards[|s.deck.cards| - 1])
      && !HasRank(s.deck.cards[|s.deck.cards| - 1], "J")
      ==>
      var c, r := s.deck.cards[|s.deck.cards| - 1], Settle(TakeCards(s, seat, 1).(cardsToDraw := 1), seat, true, true, faces);
      && r.Some?
      && r.value.table == s.table + [c]
      && r.value.cardsToDraw == 1
      && seat < |r.value.players|
      && multiset(r.value.players[seat].hand) == multiset(s.players[seat].hand)
  {
    if
      && Valid(s) && seat < |s.players| && s.cardsToDraw == 1 && |s.deck.cards| > 0
      && Allowed(s.nextFace, Top(s), s.deck.cards[|s.deck.cards| - 1])
      && !HasRank(s.deck.cards[|s.deck.cards| - 1], "J")
    {
      var c := s.deck.cards[|s.deck.cards| - 1];
      var s2 := TakeCards(s, seat, 1).(cardsToDraw := 1);
      TakeOneReady(s, seat);
      SettleRestores(s2, seat, faces, multiset(s.players[seat].hand));
    }
  }

  /** After drawing one card, the drawn card is the hand's last and the table is unchanged. */
  lemma TakeOneReady(s: State, seat: nat)
    requires Valid(s) && seat < |s.players| && |s.deck.cards| > 0
    ensures
      var c, s2 := s.deck.cards[|s.deck.cards| - 1], TakeCards(s, seat, 1).(cardsToDraw := 1);
      && Valid(s2) && seat < |s2.players| && |s2.players[seat].hand| > 0
      && s2.players[seat].hand[|s2.players[seat].hand| - 1] == c
      && multiset(s2.players[seat].hand) == multiset(s.players[seat].hand) + multiset{c}
      && s2.table == s.table && s2.nextFace == s.nextFace
  {
    var s2 := TakeCards(s, seat, 1).(cardsToDraw := 1);
    TookOne(s.players[seat].hand, s.deck.cards, s2.players[seat].hand, s2.deck.cards);
  }

  /** Settling a playable drawn card gives the hand back what it held before the draw. */
  lemma SettleRestores(s: State, seat: nat, faces: seq<Symbol>, before: multiset<Card>)
    requires Valid(s) && s.cardsToDraw == 1 && seat < |s.players| && |s.players[seat].hand| > 0
    requires Allowed(s.nextFace, Top(s), s.players[seat].hand[|s.players[seat].hand| - 1])
    requires !HasRank(s.players[seat].hand[|s.players[seat].hand| - 1], "J")
    requires multiset(s.players[seat].hand) == before + multiset{s.players[seat].hand[|s.players[seat].hand| - 1]}
    ensures
      var r := Settle(s, seat, true, true, faces);
      && r.Some? && seat < |r.value.players|
      && r.value.table == s.table + [s.players[seat].hand[|s.players[seat].hand| - 1]]
      && r.value.cardsToDraw == 1
      && multiset(r.value.players[seat].hand) == before
  {
    var hand := s.players[seat].hand;
    SettlePlays(s, seat, faces);
    var r := Settle(s, seat, true, true, faces);
    Restored(before, multiset(hand), multiset(r.value.players[seat].hand), hand[|hand| - 1]);
  }

  /** A card drawn and then played leaves the hand as it was. */
  lemma Restored(before: multiset<Card>, drawn: multiset<Card>, after: multiset<Card>, c: Card)
    requires drawn == before + multiset{c} && after + multiset{c} == drawn
    ensures after == before
  {
    Cancel(after, before, multiset{c});
  }

  /** A single drawn card that is allowed, wanted and not a jack goes onto the table. */
  lemma SettlePlays(s: State, seat: nat, faces: seq<Symbol>)
    ensures
      && Valid(s) && s.cardsToDraw == 1 && seat < |s.players| && |s.players[seat].hand| > 0
      && Allowed(s.nextFace, Top(s), s.players[seat].hand[|s.players[seat].hand| - 1])
      && !HasRank(s.players[seat].hand[|s.players[seat].hand| - 1], "J")
      ==>
      var hand, r := s.players[seat].hand, Settle(s, seat, true, true, faces);
      && r.Some?
      && r.value.table == s.table + [hand[|hand| - 1]]
      && r.value.cardsToDraw == 1
      && seat < |r.value.players|
      && multiset(r.value.players[seat].hand) + multiset{hand[|hand| - 1]} == multiset(hand)
  {
  }

  /** One card due and a non-empty deck: no replenishing, exactly one card drawn. */
  lemma DrawSingle(s: State, seat: nat, rolls: seq<nat>, playDrawn: bool, faces: seq<Symbol>)
    ensures Valid(s) && seat < |s.players| && s.cardsToDraw == 1 && |s.deck.cards| > 0 ==>
      DrawCards(s, seat, rolls, playDrawn, faces)
        == Settle(TakeCards(s, seat, 1).(cardsToDraw := 1), seat, true, playDrawn, faces)
  {
    if Valid(s) && seat < |s.players| && s.cardsToDraw == 1 && |s.deck.cards| > 0 {
      assert Replenish(s, Some(s.cardsToDraw), rolls) == s;
    }
  }

  // ------------------------------------------- draw_cards, as it is written

  /** What stops `draw_cards` as written: subscripting the `None` that `draw_from` returns. */
  datatype Crash = TypeError

  /**
   * `draw_cards` exactly as written: `drawn_cards` holds the `None` that
   * `Hand.draw_from` returns, so the single-card branch, which reads
   * `drawn_cards[0]`, raises before anything is played or sorted. The cards
   * are already in the hand by then.
   */
  function DrawCardsAsWritten(s: State, seat: nat, rolls: seq<nat>, playDrawn: bool, faces: seq<Symbol>): (r: Result<Option<State>, Crash>)
    requires Valid(s) && seat < |s.players|
    ensures r.Err? <==> DrawAmount(s) == 1
  {
    var s1 := Replenish(s, Some(s.cardsToDraw), rolls);
    var n := DrawAmount(s);
    if n <= 0 then Ok(Some(s1.(cardsToDraw := 1)))
    else
      var drawn: Option<seq<Card>> := None;
      if n == 1 then (if drawn.None? then Err(TypeError) else Ok(None))
      else Ok(Some(SortAndReset(TakeCards(s1, seat, n), seat)))
  }

  /** Apart from the crash, the code as written and the corrected draw agree. */
  lemma AsWrittenAgreesElsewhere(s: State, seat: nat, rolls: seq<nat>, playDrawn: bool, faces: seq<Symbol>)
    requires Valid(s) && seat < |s.players| && DrawAmount(s) != 1
    ensures DrawCardsAsWritten(s, seat, rolls, playDrawn, faces) == Ok(DrawCards(s, seat, rolls, playDrawn, faces))
  {
    var s1 := Replenish(s, Some(s.cardsToDraw), rolls);
    var n := DrawAmount(s);
    if n > 0 {
      var s2 := TakeCards(s1, seat, n);
      assert SortAndReset(s2, seat) == SortAndReset(s2.(cardsToDraw := 1), seat);
    }
  }

  /**
   * The ordinary draw, one card from a non-empty deck, always crashes as
   * written; the corrected draw completes and may play the card.
   */
  lemma OrdinaryDrawCrashes(s: State, seat: nat, rolls: seq<nat>, playDrawn: bool, faces: seq<Symbol>)
    requires Valid(s) && seat < |s.players| && s.cardsToDraw == 1 && |s.deck.cards| > 0
    ensures DrawCardsAsWritten(s, seat, rolls, playDrawn, faces) == Err(TypeError)
    ensures DrawCards(s, seat, rolls, playDrawn, faces).Some?
      || HasRank(s.deck.cards[|s.deck.cards| - 1], "J")
  {
    assert DrawAmount(s) == 1;
    var s2 := TakeCards(s, seat, 1).(cardsToDraw := 1);
    TakeOneReady(s, seat);
    DrawSingle(s, seat, rolls, playDrawn, faces);
    var hand := s2.players[seat].hand;
    assert hand[|hand| - 1] == s.deck.cards[|s.deck.cards| - 1];
    assert DrawCards(s, seat, rolls, playDrawn, faces) == Settle(s2, seat, true, playDrawn, faces);
  }

  // ------------------------------------------------------------ a player's turn

  /** Reordering one's own hand is a step of the turn. */
  lemma ReorderFollows(s: State, seat: nat, h: seq<Card>)
    requires Valid(s) && seat < |s.players| && multiset(h) == multiset(s.players[seat].hand)
    ensures Follows(s, WithHand(s, seat, h), seat)
  {
    Rearranged(s, seat, h);
  }

  /** Playing a card that keeps the seven chain is a step of the turn. */
  lemma PlayFollows(s: State, seat: nat, idx: nat, faces: seq<Symbol>)
    requires Valid(s) && seat < |s.players| && idx < |s.players[seat].hand|
    requires EnforceChain(s.cardsToDraw, s.players[seat].hand[idx])
    ensures var r := PlayCard(s, seat, idx, faces);
      r.Played? ==> Follows(s, r.state, seat)
  {
  }

  /**
   * `do_player_turn`: ask for a card until one is accepted. "d" draws; a
   * card that breaks the seven chain or is not allowed is refused and the
   * player asked again, with the hand as the strategy left it. None: the
   * replies ran out, or a jack (played or drawn) found no face reply.
   */
  function PlayerTurn(s: State, seat: nat, drawRolls: seq<nat>, replies: Replies): (r: Option<State>)
    requires Valid(s) && seat < |s.players|
    ensures r.Some? ==> Valid(r.value)
    ensures r.Some? && s.cardsToDraw > 1 ==>
      r.value.cardsToDraw == 1 || r.value.cardsToDraw == s.cardsToDraw + 2
    decreases |replies.cards|
  {
    match PickACard(s.players[seat].hand, replies.cards)
    case None => None
    case Some(p) =>
      var s1 := WithHand(s, seat, p.hand);
      var more := replies.(cards := replies.cards[p.used..]);
      match p.choice
      case DrawChoice => DrawCards(s1, seat, drawRolls, replies.playDrawn, replies.faces)
      case PlayChoice(i) =>
        if !EnforceChain(s1.cardsToDraw, p.hand[i]) then PlayerTurn(s1, seat, drawRolls, more)
        else
          match PlayCard(s1, seat, i, replies.faces)
          case Played(t) => Some(t)
          case Refused(_) => PlayerTurn(s1, seat, drawRolls, more)
          case FaceMissing => None
  }

  /** A whole turn keeps every card, the seating and the others' hands. */
  lemma {:induction false} PlayerTurnFollows(s: State, seat: nat, drawRolls: seq<nat>, replies: Replies)
    requires Valid(s) && seat < |s.players|
    ensures var r := PlayerTurn(s, seat, drawRolls, replies);
      r.Some? ==> Follows(s, r.value, seat)
    decreases |replies.cards|
  {
    match PickACard(s.players[seat].hand, replies.cards)
    case None =>
    case Some(p) =>
      var s1 := WithHand(s, seat, p.hand);
      var more := replies.(cards := replies.cards[p.used..]);
      ReorderFollows(s, seat, p.hand);
      match p.choice
      case DrawChoice =>
        DrawCardsFollows(s1, seat, drawRolls, replies.playDrawn, replies.faces);
        var r := DrawCards(s1, seat, drawRolls, replies.playDrawn, replies.faces);
        if r.Some? {
          FollowsTrans(s, s1, r.value, seat);
        }
      case PlayChoice(i) =>
        if !EnforceChain(s1.cardsToDraw, p.hand[i]) {
          PlayerTurnFollows(s1, seat, drawRolls, more);
          var r := PlayerTurn(s1, seat, drawRolls, more);
          if r.Some? {
            FollowsTrans(s, s1, r.value, seat);
          }
        } else {
          PlayFollows(s1, seat, i, replies.faces);
          match PlayCard(s1, seat, i, replies.faces)
          case Played(t) =>
            FollowsTrans(s, s1, t, seat);
          case Refused(_) =>
            PlayerTurnFollows(s1, seat, drawRolls, more);
            var r := PlayerTurn(s1, seat, drawRolls, more);
            if r.Some? {
              FollowsTrans(s, s1, r.value, seat);
            }
          case FaceMissing =>
        }
  }

  // ------------------------------------------------------- what a card allows

  /** A refused card is explained by the face asked for or by the top card; the plain message never appears. */
  lemma RefusalExplained(s: State, seat: nat, idx: nat, faces: seq<Symbol>)
    requires |s.table| > 0 && seat < |s.players| && idx < |s.players[seat].hand|
    ensures var r := PlayCard(s, seat, idx, faces);
      r.Refused? ==> r.reason != NotAllowed && (r.reason == FaceExpected <==> s.nextFace != Top(s).face)
  {
  }

  /** After a jack, only the face its player named or another jack may follow. */
  lemma JackNamesFace(s: State, seat: nat, idx: nat, faces: seq<Symbol>, c: Card)
    requires |s.table| > 0 && seat < |s.players| && idx < |s.players[seat].hand|
    requires HasRank(s.players[seat].hand[idx], "J")
    ensures var r := PlayCard(s, seat, idx, faces);
      r.Played? ==>
        && r.state.nextFace in s.deck.faces
        && (Allowed(r.state.nextFace, Top(r.state), c) <==> c.face == r.state.nextFace || HasRank(c, "J"))
  {
    var r := PlayCard(s, seat, idx, faces);
    if r.Played? {
      assert Top(r.state) == s.players[seat].hand[idx];
    }
  }

  /**
   * The automated player (`stupid_ai`, asked with the engine's own `is_card_allowed`)
   * always gives an answer `pick_a_card` accepts, and a card it names is allowed
   * and keeps the seven chain.
   */
  lemma AIAnswerAccepted(s: State, seat: nat, rolls: seq<nat>)
    requires Valid(s) && seat < |s.players|
    ensures var top, hand := Top(s), Shuffle(s.players[seat].hand, rolls);
      var a := StupidAI.Reply(s.players[seat].hand, rolls, (c: Card) => Allowed(s.nextFace, top, c), top, s.cardsToDraw).answer;
      && Interpret(|hand|, a).Some?
      && (a.Pick? ==> Allowed(s.nextFace, top, hand[a.index]) && EnforceChain(s.cardsToDraw, hand[a.index]))
  {
  }

  // -------------------------------------------------------------------- run

  /**
   * Everything one visit of `run`'s loop takes besides the state: the
   * shuffle rolls of `replenish_deck(1)` and of `draw_cards`, and the
   * strategy's replies.
   */
  datatype TurnInput = TurnInput(replenishRolls: seq<nat>, drawRolls: seq<nat>, replies: Replies)

  /**
   * How a visit ends: the game goes on, the game is over (finishers completed
   * by `print_scoreboard`), or the player's replies ran out before the turn
   * was complete.
   */
  datatype Outcome = Next(state: State) | Over(state: State) | Stalled(state: State)

  /**
   * The end of a visit: a player with no cards left joins the finishers, and
   * once fewer than two players are left the scoreboard is completed.
   */
  function Finish(t: State, seat: nat): (r: Outcome)
    requires seat < |t.players|
    ensures !r.Stalled? && r.state.players == t.players
    ensures |t.players[seat].hand| > 0 ==> r == Next(t)
    ensures |t.players[seat].hand| == 0 && |t.players| - (|t.finishers| + 1) >= 2 ==>
      r == Next(t.(finishers := t.finishers + [t.players[seat].name]))
    ensures |t.players[seat].hand| == 0 && |t.players| - (|t.finishers| + 1) < 2 ==>
      r == Over(t.(finishers := Scoreboard(t.players, t.finishers + [t.players[seat].name])))
  {
    if |t.players[seat].hand| > 0 then Next(t)
    else
      var f := t.finishers + [t.players[seat].name];
      if |t.players| - |f| < 2 then Over(t.(finishers := Scoreboard(t.players, f)))
      else Next(t.(finishers := f))
  }

  /**
   * One visit of the loop in `run` to the player in `seat`: a finisher is
   * passed over; otherwise the deck is replenished if empty, a pending skip
   * is used up, or the player takes a turn and may finish.
   */
  function Step(s: State, seat: nat, input: TurnInput): (r: Outcome)
    requires Valid(s) && seat < |s.players|
    ensures |r.state.players| == |s.players|
    ensures s.players[seat].name in s.finishers ==> r == Next(s)
    ensures s.players[seat].name !in s.finishers && s.missTurn ==>
      && r.Next? && !r.state.missTurn
      && r.state.players == s.players && r.state.finishers == s.finishers
      && r.state.cardsToDraw == s.cardsToDraw
    ensures s.players[seat].name !in s.finishers && s.missTurn && |s.deck.cards| >= 1 ==>
      r == Next(s.(missTurn := false))
    ensures s.players[seat].name !in s.finishers && !s.missTurn && !r.Stalled? ==>
      (|r.state.players[seat].hand| == 0 <==> s.players[seat].name in r.state.finishers)
  {
    var name := s.players[seat].name;
    if name in s.finishers then Next(s)
    else
      var s1 := Replenish(s, Some(1), input.replenishRolls);
      if s1.missTurn then Next(s1.(missTurn := false))
      else
        match PlayerTurn(s1, seat, input.drawRolls, input.replies)
        case None => Stalled(s1)
        case Some(t) =>
          PlayerTurnFollows(s1, seat, input.drawRolls, input.replies);
          FinishMarks(t, seat);
          Finish(t, seat)
  }

  /** A visit keeps the game valid, keeps every card and the seating. */
  lemma StepKeeps(s: State, seat: nat, input: TurnInput)
    requires Valid(s) && seat < |s.players|
    ensures var r := Step(s, seat, input);
      && Valid(r.state)
      && AllCards(r.state) == AllCards(s)
      && SameSeats(r.state.players, s.players)
  {
    var name := s.players[seat].name;
    if name !in s.finishers {
      var s1 := Replenish(s, Some(1), input.replenishRolls);
      if !s1.missTurn {
        PlayerTurnFollows(s1, seat, input.drawRolls, input.replies);
        var t := PlayerTurn(s1, seat, input.drawRolls, input.replies);
        if t.Some? {
          FinishFrame(t.value, seat);
        }
      }
    }
  }

  /** A visit lists nobody twice among the finishers. */
  lemma StepDistinct(s: State, seat: nat, input: TurnInput)
    requires Valid(s) && seat < |s.players|
    ensures Distinct(s.finishers) ==> Distinct(Step(s, seat, input).state.finishers)
  {
    var name := s.players[seat].name;
    if name !in s.finishers {
      var s1 := Replenish(s, Some(1), input.replenishRolls);
      if !s1.missTurn {
        PlayerTurnFollows(s1, seat, input.drawRolls, input.replies);
        var t := PlayerTurn(s1, seat, input.drawRolls, input.replies);
        if t.Some? {
          assert t.value.players[seat].name == name;
          FinishDistinct(t.value, seat);
        }
      }
    }
  }

  /** Finishing changes the finishers only. */
  lemma FinishFrame(t: State, seat: nat)
    requires seat < |t.players|
    ensures var r := Finish(t, seat);
      && r.state == t.(finishers := r.state.finishers)
      && AllCards(r.state) == AllCards(t)
      && (Valid(t) ==> Valid(r.state))
  {
  }

  /** A player who was not listed is listed after finishing exactly when their hand is empty. */
  lemma FinishMarks(t: State, seat: nat)
    requires seat < |t.players| && t.players[seat].name !in t.finishers
    ensures var r := Finish(t, seat);
      |r.state.players[seat].hand| == 0 <==> t.players[seat].name in r.state.finishers
  {
    var f := t.finishers + [t.players[seat].name];
    if |t.players[seat].hand| == 0 && |t.players| - |f| < 2 {
      var b := Scoreboard(t.players, f);
      assert b[|f| - 1] == f[|f| - 1];
    }
  }

  /** Finishing never lists a player twice. */
  lemma FinishDistinct(t: State, seat: nat)
    requires seat < |t.players|
    ensures Distinct(t.finishers) && t.players[seat].name !in t.finishers ==> Distinct(Finish(t, seat).state.finishers)
  {
    var name := t.players[seat].name;
    if |t.players[seat].hand| == 0 && Distinct(t.finishers) && name !in t.finishers {
      var f := t.finishers + [name];
      AppendDistinct(t.finishers, name);
      var b := Scoreboard(t.players, f);
      if b != f {
        AppendDistinct(f, b[|f|]);
        assert b == f + [b[|f|]];
      }
    }
  }

  /**
   * The loop of `run`: one visit per input, seat after seat in seating
   * order. It stops when the game is over or a player's replies run out, and
   * when the inputs do (the game would go on from the state returned).
   */
  function Run(s: State, seat: nat, inputs: seq<TurnInput>): (r: Outcome)
    requires Valid(s) && seat < |s.players|
    ensures Valid(r.state) && AllCards(r.state) == AllCards(s) && SameSeats(r.state.players, s.players)
    ensures Distinct(s.finishers) ==> Distinct(r.state.finishers)
    decreases |inputs|
  {
    if |inputs| == 0 then Next(s)
    else
      StepKeeps(s, seat, inputs[0]);
      StepDistinct(s, seat, inputs[0]);
      match Step(s, seat, inputs[0])
      case Next(t) => Run(t, (seat + 1) % |s.players|, inputs[1..])
      case other => other
  }

  /** When one reply of the automated player is enough: the rest of its replies are never asked for. */
  lemma AIDecidesAtOnce(s: State, seat: nat, rolls: seq<nat>, drawRolls: seq<nat>, more: seq<CardReply>, faces: seq<Symbol>, playDrawn: bool)
    requires Valid(s) && seat < |s.players|
    ensures var top := Top(s);
      var reply := StupidAI.Reply(s.players[seat].hand, rolls, (c: Card) => Allowed(s.nextFace, top, c), top, s.cardsToDraw);
      PlayerTurn(s, seat, drawRolls, Replies([reply] + more, faces, playDrawn))
        == PlayerTurn(s, seat, drawRolls, Replies([reply], faces, playDrawn))
  {
    var top, hand := Top(s), s.players[seat].hand;
    var reply := StupidAI.Reply(hand, rolls, (c: Card) => Allowed(s.nextFace, top, c), top, s.cardsToDraw);
    var h := Shuffle(hand, rolls);
    AIAnswerAccepted(s, seat, rolls);
    assert ([reply] + more)[0] == reply;
    PickFirst(hand, [reply] + more);
    PickFirst(hand, [reply]);
    var choice := Interpret(|hand|, reply.answer).value;
    if choice.PlayChoice? {
      var s1 := WithHand(s, seat, h);
      assert Top(s1) == top && s1.players[seat].hand == h;
      assert !PlayCard(s1, seat, choice.index, faces).Refused?;
    }
  }

  /** An accepted first reply settles `pick_a_card` at once. */
  lemma PickFirst(hand: seq<Card>, replies: seq<CardReply>)
    ensures |replies| > 0 && Interpret(|hand|, replies[0].answer).Some? ==>
      PickACard(hand, replies) == Some(Picked(Shuffle(hand, replies[0].rolls), Interpret(|hand|, replies[0].answer).value, 1))
  {
  }

  // ---------------------------------------------------------------- new game

  /**
   * `MauMau(player_names)` on a loaded deck, followed by the start of `run`:
   * shuffle, deal five sorted cards to each player in order, turn the next
   * card up and take its face as the face asked for; one card is due and
   * nobody is to be skipped.
   */
  function StartGame(deck: Deck, names: seq<string>, rolls: seq<nat>): (r: Result<State, SetupError>)
    ensures r.Err? ==> r.error.DuplicateName? || r.error.DealFailed?
    ensures r.Ok? ==>
      && Valid(r.value) && r.value.cardsToDraw == 1 && !r.value.missTurn
      && r.value.finishers == [] && |r.value.table| == 1 && r.value.nextFace == Top(r.value).face
  {
    match Deal(deck, names, rolls)
    case Err(e) => Err(e)
    case Ok(d) => Ok(Opened(d))
  }

  /** The state `run` starts from once the cards are dealt. */
  function Opened(d: Dealt): (s: State)
    requires |d.table| == 1
    ensures Valid(s) && s.cardsToDraw == 1 && !s.missTurn
    ensures s.finishers == [] && |s.table| == 1 && s.nextFace == Top(s).face
    ensures s.deck == d.deck && s.table == d.table && s.players == d.players
  {
    State(d.deck, d.table, d.players, [], 1, false, d.table[0].face)
  }

  /** A started game seats the players in the order given, each with five sorted cards, and holds exactly the deck's cards. */
  lemma StartGameDeals(deck: Deck, names: seq<string>, rolls: seq<nat>)
    ensures var r := StartGame(deck, names, rolls);
      r.Ok? ==>
        && Names(r.value.players) == names
        && (forall i :: 0 <= i < |names| ==> DealtHand(r.value.players[i], 5))
        && AllCards(r.value) == multiset(deck.cards)
  {
  }

  /** The whole constructor: a pack without both lists is refused before anything is dealt. */
  function NewGame(pack: PackObject, names: seq<string>, rolls: seq<nat>): (r: Result<State, SetupError>)
    ensures (r.Err? && r.error == BadPack) <==> !VerifyDeckObj(pack)
    ensures VerifyDeckObj(pack) ==> r == StartGame(BuildDeck(pack.fields["faces"], pack.fields["ranks"]), names, rolls)
  {
    match LoadDeck(pack)
    case Err(_) => Err(BadPack)
    case Ok(deck) => StartGame(deck, names, rolls)
  }

  /** With a well-formed pack holding a card for the table and five for each player, a game starts exactly when no name repeats. */
  lemma NewGameSucceeds(pack: PackObject, names: seq<string>, rolls: seq<nat>)
    requires VerifyDeckObj(pack)
    requires |pack.fields["faces"]| * |pack.fields["ranks"]| >= 5 * |names| + 1
    ensures NewGame(pack, names, rolls).Ok? <==> Distinct(names)
  {
    DealSucceeds(BuildDeck(pack.fields["faces"], pack.fields["ranks"]), names, rolls);
  }
}
