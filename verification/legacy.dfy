/**
 * The older engine, maumau/__init__.py, the one main.py starts.
 *
 * It keeps the same fields as maumau/engine.py except the face asked for, so
 * its state is `Engine.State` with `nextFace` carried along and never read.
 * It differs from the newer engine in its rules: a card is allowed when it
 * matches the top card's face or rank (no jack is special), the seven chain
 * and the skip look for the rank LABEL being the number 7 or 8
 * (`rank[1] == 7`), a drawn card is never played at once, and `pick_a_card`
 * itself refuses a card that is not allowed.
 */
module Legacy {
  import opened Outcomes
  import opened Cards
  import opened Piles
  import opened Hands
  import opened Players
  import opened Table
  import opened Seqs
  import Engine

  type State = Engine.State

  /** `rank[1] == 7`: the rank label is the number seven. */
  predicate IsSeven(c: Card)
  {
    c.rank.symbol == Number(7)
  }

  /** `rank[1] == 8`: the rank label is the number eight. */
  predicate IsEight(c: Card)
  {
    c.rank.symbol == Number(8)
  }

  /** `is_card_allowed`: the card matches the top card's face or its rank. */
  predicate Allowed(top: Card, c: Card)
  {
    c.face == top.face || c.rank == top.rank
  }

  /**
   * What every reachable state of the older engine satisfies: the table is
   * never empty, at least one card is due, and more than one only while a
   * numeric seven lies on top.
   */
  predicate Valid(s: State)
  {
    && |s.table| > 0
    && s.cardsToDraw >= 1
    && (s.cardsToDraw > 1 ==> IsSeven(Engine.Top(s)))
  }

  /** `t` can follow `s` within the turn of the player in `seat`. */
  predicate Follows(s: State, t: State, seat: nat)
  {
    Valid(t) && Engine.Kept(s, t, seat)
  }

  /** Two steps within one turn are one step. */
  lemma FollowsTrans(a: State, b: State, c: State, seat: nat)
    ensures Follows(a, b, seat) && Follows(b, c, seat) ==> Follows(a, c, seat)
  {
    Engine.KeptTrans(a, b, c, seat);
  }

  // ------------------------------------------------------------ pick_a_card

  /**
   * How the older `pick_a_card` reads one answer: an index in range whose
   * card is allowed plays it, "d" draws, anything else asks again (None).
   */
  function Interpret(hand: seq<Card>, top: Card, a: Answer): (r: Option<Engine.Choice>)
    ensures r == Some(Engine.DrawChoice) <==> a == Typed("d")
    ensures (r.Some? && r.value.PlayChoice?) <==> (a.Pick? && 0 <= a.index < |hand| && Allowed(top, hand[a.index]))
    ensures r.Some? && r.value.PlayChoice? ==> r.value.index == a.index
  {
    match a
    case Pick(i) => if 0 <= i < |hand| && Allowed(top, hand[i]) then Some(Engine.PlayChoice(i)) else None
    case Typed(t) => if t == "d" then Some(Engine.DrawChoice) else None
  }

  /**
   * The older `pick_a_card` accepts what the newer one accepts, except an
   * index whose card is not allowed, which only the newer one lets through
   * (to `play_card`, which refuses it there).
   */
  lemma InterpretNarrower(hand: seq<Card>, top: Card, a: Answer)
    ensures Interpret(hand, top, a).Some? ==> Interpret(hand, top, a) == Engine.Interpret(|hand|, a)
    ensures Engine.Interpret(|hand|, a).Some? && Interpret(hand, top, a).None? <==>
      a.Pick? && 0 <= a.index < |hand| && !Allowed(top, hand[a.index])
  {
  }

  /**
   * The first `k` replies are each refused, every one on the hand as the
   * replies before it have reordered it.
   */
  predicate Refused(hand: seq<Card>, top: Card, replies: seq<CardReply>, k: nat)
    decreases k
  {
    k == 0 ||
      (&& |replies| > 0
       && Interpret(Shuffle(hand, replies[0].rolls), top, replies[0].answer).None?
       && Refused(Shuffle(hand, replies[0].rolls), top, replies[1..], k - 1))
  }

  /**
   * The older `pick_a_card`: ask until an answer is accepted, each reply
   * first reordering the hand as the strategy did. None: the replies ran
   * out first.
   */
  function PickACard(hand: seq<Card>, top: Card, replies: seq<CardReply>): (r: Option<Engine.Picked>)
    ensures r.Some? ==> |r.value.hand| == |hand| && multiset(r.value.hand) == multiset(hand)
    ensures r.Some? ==> 0 < r.value.used <= |replies|
    ensures r.Some? ==> Interpret(r.value.hand, top, replies[r.value.used - 1].answer) == Some(r.value.choice)
    decreases |replies|
  {
    if |replies| == 0 then None
    else
      var h := Shuffle(hand, replies[0].rolls);
      match Interpret(h, top, replies[0].answer)
      case Some(c) => Some(Engine.Picked(h, c, 1))
      case None =>
        var r := PickACard(h, top, replies[1..]);
        if r.Some? then
          assert replies[r.value.used] == replies[1..][r.value.used - 1];
          Some(r.value.(used := r.value.used + 1))
        else r
  }

  /** Asking ends at the first accepted answer: every reply before it was refused on the hand it saw. */
  lemma {:induction false} PickFirstAccepted(hand: seq<Card>, top: Card, replies: seq<CardReply>)
    ensures var r := PickACard(hand, top, replies);
      r.Some? ==> Refused(hand, top, replies, r.value.used - 1)
    decreases |replies|
  {
    if |replies| > 0 {
      var h := Shuffle(hand, replies[0].rolls);
      if Interpret(h, top, replies[0].answer).None? {
        var rest := replies[1..];
        PickFirstAccepted(h, top, rest);
        var r := PickACard(h, top, rest);
        if r.Some? {
          assert PickACard(hand, top, replies) == Some(r.value.(used := r.value.used + 1));
          RefusedCons(hand, top, replies, r.value.used - 1);
        }
      }
    }
  }

  /** The replies run out unaccepted exactly when every one of them is refused on the hand it saw. */
  lemma {:induction false} PickNoneRefused(hand: seq<Card>, top: Card, replies: seq<CardReply>)
    ensures PickACard(hand, top, replies).None? <==> Refused(hand, top, replies, |replies|)
    decreases |replies|
  {
    if |replies| > 0 {
      var h := Shuffle(hand, replies[0].rolls);
      var rest := replies[1..];
      assert |rest| == |replies| - 1;
      RefusedCons(hand, top, replies, |rest|);
      if Interpret(h, top, replies[0].answer).None? {
        PickNoneRefused(h, top, rest);
        assert PickACard(hand, top, replies).None? == PickACard(h, top, rest).None?;
      } else {
        assert PickACard(hand, top, replies).Some?;
      }
    } else {
      assert Refused(hand, top, replies, 0);
    }
  }

  /** Refusing `k + 1` replies is refusing the first and then `k` more on the reordered hand. */
  lemma RefusedCons(hand: seq<Card>, top: Card, replies: seq<CardReply>, k: nat)
    requires |replies| > 0
    ensures var h := Shuffle(hand, replies[0].rolls);
      Refused(hand, top, replies, k + 1) <==> Interpret(h, top, replies[0].answer).None? && Refused(h, top, replies[1..], k)
  {
  }

  /** None of the replies asks to draw. */
  predicate NoDrawAsked(replies: seq<CardReply>)
  {
    forall k :: 0 <= k < |replies| ==> replies[k].answer != Typed("d")
  }

  /** "d" is accepted whatever the hand: no draw request is passed over before the accepted answer. */
  lemma {:induction false} DrawNeverPassedOver(hand: seq<Card>, top: Card, replies: seq<CardReply>)
    ensures var r := PickACard(hand, top, replies);
      r.Some? ==> NoDrawAsked(replies[..r.value.used - 1])
    decreases |replies|
  {
    if |replies| > 0 {
      var h := Shuffle(hand, replies[0].rolls);
      if Interpret(h, top, replies[0].answer).None? {
        DrawNeverPassedOver(h, top, replies[1..]);
        var r := PickACard(h, top, replies[1..]);
        if r.Some? {
          NoDrawPrefix(replies, r.value.used);
        }
      }
    }
  }

  /** A first reply that does not ask to draw, followed by such replies, makes such a prefix. */
  lemma NoDrawPrefix(replies: seq<CardReply>, n: nat)
    requires 1 <= n <= |replies|
    requires replies[0].answer != Typed("d") && NoDrawAsked(replies[1..][..n - 1])
    ensures NoDrawAsked(replies[..n])
  {
    assert forall k :: 1 <= k < n ==> replies[..n][k] == replies[1..][..n - 1][k - 1];
  }

  /** Replies run out unaccepted only when none of them asks to draw. */
  lemma {:induction false} NoneAcceptedNoDraw(hand: seq<Card>, top: Card, replies: seq<CardReply>)
    ensures PickACard(hand, top, replies).None? ==> NoDrawAsked(replies)
    decreases |replies|
  {
    if |replies| > 0 && PickACard(hand, top, replies).None? {
      var h := Shuffle(hand, replies[0].rolls);
      assert Interpret(h, top, replies[0].answer).None?;
      assert PickACard(h, top, replies[1..]).None?;
      NoneAcceptedNoDraw(h, top, replies[1..]);
      NoDrawCons(replies);
    }
  }

  /** A reply that does not ask to draw, followed by replies that do not either. */
  lemma NoDrawCons(replies: seq<CardReply>)
    requires |replies| > 0 && replies[0].answer != Typed("d") && NoDrawAsked(replies[1..])
    ensures NoDrawAsked(replies)
  {
    assert forall k :: 1 <= k < |replies| ==> replies[k] == replies[1..][k - 1];
  }

  /** A card `pick_a_card` hands on is in the hand and allowed on the top card. */
  lemma PickedIsAllowed(hand: seq<Card>, top: Card, replies: seq<CardReply>)
    ensures var r := PickACard(hand, top, replies);
      r.Some? && r.value.choice.PlayChoice? ==>
        r.value.choice.index < |r.value.hand| && Allowed(top, r.value.hand[r.value.choice.index])
  {
  }

  // --------------------------------------------------------- replenish_deck

  /** `replenish_deck`: every table card but the top goes, shuffled, under the deck; no minimum is checked. */
  function Replenish(s: State, rolls: seq<nat>): (r: State)
    requires |s.table| > 0
    ensures r.table == [Engine.Top(s)] && |r.deck.cards| == |s.deck.cards| + |s.table| - 1
    ensures r.players == s.players && r.finishers == s.finishers
    ensures r.cardsToDraw == s.cardsToDraw && r.missTurn == s.missTurn
    ensures Engine.AllCards(r) == Engine.AllCards(s)
    ensures Valid(s) ==> Valid(r)
  {
    Engine.Replenish(s, None, rolls)
  }

  /** The replenished deck is a shuffle of the table below its top card, followed by the old deck. */
  lemma ReplenishDeck(s: State, rolls: seq<nat>)
    requires |s.table| > 0
    ensures var r := Replenish(s, rolls);
      && r.deck.cards == Reclaim(s.deck.cards, s.table, rolls).deck
      && r.deck.cards[|s.table| - 1..] == s.deck.cards
      && multiset(r.deck.cards[..|s.table| - 1]) == multiset(s.table[..|s.table| - 1])
  {
  }

  /** The start of a visit in `run`: an empty deck is replenished, anything else is left alone. */
  function RefillIfEmpty(s: State, rolls: seq<nat>): (r: State)
    requires Valid(s)
    ensures |s.deck.cards| >= 1 ==> r == s
    ensures |s.deck.cards| < 1 ==> r.table == [Engine.Top(s)] && |r.deck.cards| == |s.table| - 1
    ensures r.players == s.players && r.finishers == s.finishers
    ensures r.cardsToDraw == s.cardsToDraw && r.missTurn == s.missTurn
    ensures Engine.AllCards(r) == Engine.AllCards(s)
    ensures Valid(r)
  {
    if |s.deck.cards| < 1 then Replenish(s, rolls) else s
  }

  // ------------------------------------------------------------------- draw

  /**
   * The "d" branch of `do_player_turn`: replenish when the deck holds fewer
   * cards than are due, and if it still does, draw what is there.
   */
  function Draw(s: State, seat: nat, rolls: seq<nat>): (r: State)
    requires Valid(s) && seat < |s.players|
    ensures r.cardsToDraw == 1 && Valid(r)
  {
    var s1 := if |s.deck.cards| < s.cardsToDraw then Replenish(s, rolls) else s;
    TakeAndSort(s1, seat, if |s1.deck.cards| < s.cardsToDraw then |s1.deck.cards| else s.cardsToDraw)
  }

  /** The rest of the branch: a positive count of cards joins the hand, which is sorted, and one card is due again. */
  function TakeAndSort(s: State, seat: nat, n: int): (r: State)
    requires seat < |s.players| && n <= |s.deck.cards|
    ensures r.cardsToDraw == 1 && r.table == s.table
  {
    if n > 0 then Engine.SortAndReset(Engine.TakeCards(s, seat, n), seat)
    else s.(cardsToDraw := 1)
  }

  /** Replenishing is a step of the turn. */
  lemma ReplenishFollows(s: State, seat: nat, rolls: seq<nat>)
    ensures Valid(s) ==> Follows(s, Replenish(s, rolls), seat)
  {
  }

  /** Taking cards and sorting the hand is a step of the turn. */
  lemma TakeSortFollows(s: State, seat: nat, n: int)
    ensures Valid(s) && seat < |s.players| && n <= |s.deck.cards| ==>
      Follows(s, TakeAndSort(s, seat, n), seat)
  {
    if Valid(s) && seat < |s.players| && 0 < n <= |s.deck.cards| {
      var t := Engine.TakeCards(s, seat, n);
      Engine.KeptTrans(s, t, Engine.SortAndReset(t, seat), seat);
    }
  }

  /** Drawing is a step of the turn. */
  lemma DrawFollows(s: State, seat: nat, rolls: seq<nat>)
    requires Valid(s) && seat < |s.players|
    ensures Follows(s, Draw(s, seat, rolls), seat)
  {
    if |s.deck.cards| < s.cardsToDraw {
      var s1 := Replenish(s, rolls);
      var n := if |s1.deck.cards| < s.cardsToDraw then |s1.deck.cards| else s.cardsToDraw;
      ReplenishFollows(s, seat, rolls);
      TakeSortFollows(s1, seat, n);
      assert Draw(s, seat, rolls) == TakeAndSort(s1, seat, n);
      FollowsTrans(s, s1, TakeAndSort(s1, seat, n), seat);
    } else {
      TakeSortFollows(s, seat, s.cardsToDraw);
      assert Draw(s, seat, rolls) == TakeAndSort(s, seat, s.cardsToDraw);
    }
  }

  /**
   * Drawing takes the cards due, or all the deck holds after replenishing
   * when that is fewer: the deck shrinks and the hand grows by that amount,
   * and a hand that drew anything is sorted.
   */
  lemma DrawAmount(s: State, seat: nat, rolls: seq<nat>)
    requires Valid(s) && seat < |s.players|
    ensures var r := Draw(s, seat, rolls);
      && |r.deck.cards| == Engine.Stock(s) - Engine.DrawAmount(s)
      && seat < |r.players|
      && |r.players[seat].hand| == |s.players[seat].hand| + Engine.DrawAmount(s)
      && (Engine.DrawAmount(s) > 0 ==> Sorted(r.players[seat].hand))
  {
    if |s.deck.cards| < s.cardsToDraw {
      var s1 := Replenish(s, rolls);
      var n := if |s1.deck.cards| < s.cardsToDraw then |s1.deck.cards| else s.cardsToDraw;
      assert |s1.deck.cards| == Engine.Stock(s) && s1.players == s.players;
      assert n == Engine.DrawAmount(s);
      TakeAndSortCounts(s1, seat, n);
      assert Draw(s, seat, rolls) == TakeAndSort(s1, seat, n);
    } else {
      TakeAndSortCounts(s, seat, s.cardsToDraw);
      assert Draw(s, seat, rolls) == TakeAndSort(s, seat, s.cardsToDraw);
    }
  }

  /** Taking `n` cards moves exactly `n` cards from the deck into the hand, and sorts a hand that took any. */
  lemma TakeAndSortCounts(s: State, seat: nat, n: int)
    ensures seat < |s.players| && 0 <= n <= |s.deck.cards| ==>
      var r := TakeAndSort(s, seat, n);
      && |r.deck.cards| == |s.deck.cards| - n
      && seat < |r.players|
      && |r.players[seat].hand| == |s.players[seat].hand| + n
      && (n > 0 ==> Sorted(r.players[seat].hand))
  {
  }

  /**
   * Where the drawn cards come from: the hand gains exactly the top `n`
   * cards of the deck, the deck keeps its bottom part, and the table is
   * left alone.
   */
  lemma TakeAndSortMoves(s: State, seat: nat, n: nat)
    requires seat < |s.players| && n <= |s.deck.cards|
    ensures var r := TakeAndSort(s, seat, n);
      && Engine.DrawnInto(s, seat, n, r)
      && r.table == s.table
      && multiset(r.players[seat].hand)
         == multiset(s.players[seat].hand) + multiset(s.deck.cards[|s.deck.cards| - n..])
  {
    if n > 0 {
      var t := Engine.TakeCards(s, seat, n);
      assert TakeAndSort(s, seat, n) == Engine.SortAndReset(t, seat);
    } else {
      assert s.deck.cards[|s.deck.cards| - n..] == [];
      assert s.deck.cards[..|s.deck.cards| - n] == s.deck.cards;
    }
  }

  /** The deck a draw takes from: replenished first when it holds fewer cards than are due. */
  function Refilled(s: State, rolls: seq<nat>): (r: State)
    requires Valid(s)
    ensures |r.deck.cards| == Engine.Stock(s) && r.players == s.players
    ensures |s.deck.cards| >= s.cardsToDraw ==> r == s
  {
    if |s.deck.cards| < s.cardsToDraw then Replenish(s, rolls) else s
  }

  /** Drawing is taking the amount due from the refilled deck. */
  lemma DrawIsTake(s: State, seat: nat, rolls: seq<nat>)
    requires Valid(s) && seat < |s.players|
    ensures Engine.DrawAmount(s) <= |Refilled(s, rolls).deck.cards|
    ensures Draw(s, seat, rolls) == TakeAndSort(Refilled(s, rolls), seat, Engine.DrawAmount(s))
  {
    if |s.deck.cards| < s.cardsToDraw {
      var s1 := Replenish(s, rolls);
      var n := if |s1.deck.cards| < s.cardsToDraw then |s1.deck.cards| else s.cardsToDraw;
      assert |s1.deck.cards| == Engine.Stock(s);
      assert n == Engine.DrawAmount(s);
      assert Refilled(s, rolls) == s1;
      assert Draw(s, seat, rolls) == TakeAndSort(s1, seat, n);
    } else {
      assert s.cardsToDraw == Engine.DrawAmount(s);
      assert Refilled(s, rolls) == s;
      assert Draw(s, seat, rolls) == TakeAndSort(s, seat, s.cardsToDraw);
    }
  }

  /**
   * Drawing moves the top `DrawAmount(s)` cards of the deck, after the
   * deck is replenished when it holds fewer than are due, into the
   * drawer's hand; the rest of the deck stays below, and the table is the
   * one the replenishment left (the old table when no replenishment ran).
   */
  lemma DrawMoves(s: State, seat: nat, rolls: seq<nat>)
    requires Valid(s) && seat < |s.players|
    ensures var s1, r := Refilled(s, rolls), Draw(s, seat, rolls);
      && Engine.DrawnInto(s1, seat, Engine.DrawAmount(s), r)
      && r.table == s1.table
      && multiset(r.players[seat].hand)
         == multiset(s1.players[seat].hand) + multiset(s1.deck.cards[|s1.deck.cards| - Engine.DrawAmount(s)..])
  {
    DrawIsTake(s, seat, rolls);
    TakeAndSortMoves(Refilled(s, rolls), seat, Engine.DrawAmount(s));
  }

  // ------------------------------------------------------------------- play

  /**
   * The play branch of `do_player_turn`: the card leaves the hand for the
   * table; a numeric seven adds to the cards due, otherwise a numeric eight
   * makes the next player miss a turn.
   */
  function Play(s: State, seat: nat, idx: nat): (r: State)
    requires |s.table| > 0 && seat < |s.players| && idx < |s.players[seat].hand|
    ensures var c, hand := s.players[seat].hand[idx], s.players[seat].hand;
      && r.table == s.table + [c]
      && Engine.SameSeats(r.players, s.players)
      && r.players[seat].hand == hand[..idx] + hand[idx + 1..]
      && Engine.OthersKept(r.players, s.players, seat)
      && r.deck == s.deck
      && r.finishers == s.finishers
    ensures var c := s.players[seat].hand[idx];
      IsSeven(c) ==> r.cardsToDraw == Engine.AfterSeven(s.cardsToDraw) && r.missTurn == s.missTurn
    ensures var c := s.players[seat].hand[idx];
      !IsSeven(c) ==> r.cardsToDraw == s.cardsToDraw && r.missTurn == (s.missTurn || IsEight(c))
    ensures Engine.AllCards(r) == Engine.AllCards(s)
  {
    var hand := s.players[seat].hand;
    var c := hand[idx];
    var rest := hand[..idx] + hand[idx + 1..];
    RemoveAt(hand, idx);
    Engine.Moved(s, seat, rest, s.deck.cards, s.table + [c]);
    var moved := Engine.WithHand(s, seat, rest).(deck := s.deck.(cards := s.deck.cards), table := s.table + [c]);
    if IsSeven(c) then moved.(cardsToDraw := Engine.AfterSeven(s.cardsToDraw))
    else if IsEight(c) then moved.(missTurn := true)
    else moved
  }

  /** The chain check of `do_player_turn`: while more than one card is due, only a numeric seven may be played. */
  predicate ChainKept(cardsToDraw: int, c: Card)
  {
    !(cardsToDraw > 1 && !IsSeven(c))
  }

  /** Playing a card that keeps the chain is a step of the turn. */
  lemma PlayFollows(s: State, seat: nat, idx: nat)
    requires Valid(s) && seat < |s.players| && idx < |s.players[seat].hand|
    ensures ChainKept(s.cardsToDraw, s.players[seat].hand[idx]) ==> Follows(s, Play(s, seat, idx), seat)
  {
  }

  /**
   * With text rank labels, as a pack file gives them, a played card never
   * changes the cards due or the skip: the older engine compares the label
   * with the numbers 7 and 8.
   */
  lemma TextRanksInert(s: State, seat: nat, idx: nat)
    requires |s.table| > 0 && seat < |s.players| && idx < |s.players[seat].hand|
    requires s.players[seat].hand[idx].rank.symbol.Text?
    ensures var r := Play(s, seat, idx);
      r.cardsToDraw == s.cardsToDraw && r.missTurn == s.missTurn
  {
  }

  /** With text rank labels on top, `get_draw_count` counts nothing. */
  lemma TextTopCountsNothing(table: seq<Card>)
    requires |table| > 0 && table[|table| - 1].rank.symbol.Text?
    ensures DrawCountFor(table, Number(7)) == 0
  {
  }

  // -------------------------------------------------------- do_player_turn

  /**
   * `do_player_turn`: ask for a card until one is accepted; "d" draws, a card
   * that breaks the seven chain is refused and the player asked again, with
   * the hand as the strategy left it, and any other card is played. None:
   * the replies ran out.
   */
  function PlayerTurn(s: State, seat: nat, drawRolls: seq<nat>, replies: seq<CardReply>): (r: Option<State>)
    requires Valid(s) && seat < |s.players|
    ensures r.Some? ==> Follows(s, r.value, seat)
    decreases |replies|
  {
    match PickACard(s.players[seat].hand, Engine.Top(s), replies)
    case None => None
    case Some(p) =>
      var s1 := Engine.WithHand(s, seat, p.hand);
      Reordered(s, seat, p.hand);
      if p.choice.DrawChoice? then
        AcceptedStep(s, s1, seat, drawRolls, p.choice);
        Some(Draw(s1, seat, drawRolls))
      else if !ChainKept(s1.cardsToDraw, p.hand[p.choice.index]) then
        var r := PlayerTurn(s1, seat, drawRolls, replies[p.used..]);
        if r.Some? then FollowsTrans(s, s1, r.value, seat); r else r
      else
        AcceptedStep(s, s1, seat, drawRolls, p.choice);
        Some(Play(s1, seat, p.choice.index))
  }

  /** Reordering the player's hand is a step of the turn. */
  lemma Reordered(s: State, seat: nat, h: seq<Card>)
    requires Valid(s) && seat < |s.players| && multiset(h) == multiset(s.players[seat].hand)
    ensures Follows(s, Engine.WithHand(s, seat, h), seat)
  {
    Engine.Rearranged(s, seat, h);
  }

  /** After some steps of the turn, an accepted draw or chain-keeping card is one more. */
  lemma AcceptedStep(s: State, s1: State, seat: nat, drawRolls: seq<nat>, c: Engine.Choice)
    requires Follows(s, s1, seat) && seat < |s1.players|
    requires c.PlayChoice? ==> c.index < |s1.players[seat].hand| && ChainKept(s1.cardsToDraw, s1.players[seat].hand[c.index])
    ensures c.DrawChoice? ==> Follows(s, Draw(s1, seat, drawRolls), seat)
    ensures c.PlayChoice? ==> Follows(s, Play(s1, seat, c.index), seat)
  {
    AcceptedFollows(s1, seat, drawRolls, c);
    if c.DrawChoice? {
      FollowsTrans(s, s1, Draw(s1, seat, drawRolls), seat);
    } else {
      FollowsTrans(s, s1, Play(s1, seat, c.index), seat);
    }
  }

  /**
   * A card that breaks the seven chain changes nothing: the player is asked
   * again from the state as it was, but for the hand's order, which the
   * strategy chose.
   */
  lemma ChainBreakAsksAgain(s: State, seat: nat, drawRolls: seq<nat>, replies: seq<CardReply>, p: Engine.Picked)
    requires Valid(s) && seat < |s.players|
    requires PickACard(s.players[seat].hand, Engine.Top(s), replies) == Some(p)
    ensures p.choice.PlayChoice? && !ChainKept(s.cardsToDraw, p.hand[p.choice.index]) ==>
      && multiset(p.hand) == multiset(s.players[seat].hand)
      && PlayerTurn(s, seat, drawRolls, replies)
         == PlayerTurn(Engine.WithHand(s, seat, p.hand), seat, drawRolls, replies[p.used..])
  {
  }

  /** An accepted answer, a draw or a card that keeps the chain, is a step of the turn. */
  lemma AcceptedFollows(s: State, seat: nat, drawRolls: seq<nat>, c: Engine.Choice)
    requires Valid(s) && seat < |s.players|
    requires c.PlayChoice? ==> c.index < |s.players[seat].hand| && ChainKept(s.cardsToDraw, s.players[seat].hand[c.index])
    ensures c.DrawChoice? ==> Follows(s, Draw(s, seat, drawRolls), seat)
    ensures c.PlayChoice? ==> Follows(s, Play(s, seat, c.index), seat)
  {
    if c.DrawChoice? {
      DrawFollows(s, seat, drawRolls);
    } else {
      PlayFollows(s, seat, c.index);
    }
  }

  // -------------------------------------------------------------- stupid_ai

  /** A card the older `stupid_ai` returns as soon as it reaches it: allowed, and chaining a pending numeric seven. */
  predicate Qualifies(c: Card, top: Card, toDraw: int)
  {
    Allowed(top, c) && ((IsSeven(top) && IsSeven(c)) || !IsSeven(top) || toDraw < 2)
  }

  /** The scan of the older `stupid_ai` from position `idx`. */
  function Scan(hand: seq<Card>, top: Card, toDraw: int, idx: nat): (a: Answer)
    requires idx <= |hand|
    ensures a.Pick? || a == Typed("d")
    ensures a.Pick? ==>
      && idx <= a.index < |hand|
      && Qualifies(hand[a.index], top, toDraw)
      && forall j :: idx <= j < a.index ==> !Qualifies(hand[j], top, toDraw)
    ensures a == Typed("d") <==> forall j :: idx <= j < |hand| ==> !Qualifies(hand[j], top, toDraw)
    decreases |hand| - idx
  {
    if idx == |hand| then Typed("d")
    else if Qualifies(hand[idx], top, toDraw) then Pick(idx)
    else Scan(hand, top, toDraw, idx + 1)
  }

  /** The older `stupid_ai` (hand already shuffled): the first qualifying card, otherwise "d". */
  function Choose(hand: seq<Card>, top: Card, toDraw: int): (a: Answer)
    ensures a.Pick? ==>
      && 0 <= a.index < |hand|
      && Qualifies(hand[a.index], top, toDraw)
      && forall j :: 0 <= j < a.index ==> !Qualifies(hand[j], top, toDraw)
    ensures a.Typed? ==> a == Typed("d")
    ensures a == Typed("d") <==> forall j :: 0 <= j < |hand| ==> !Qualifies(hand[j], top, toDraw)
  {
    Scan(hand, top, toDraw, 0)
  }

  /**
   * In a valid state the older `stupid_ai` always answers something
   * `pick_a_card` accepts, and a card it names keeps the seven chain.
   */
  lemma AIAnswerAccepted(s: State, seat: nat, rolls: seq<nat>)
    requires Valid(s) && seat < |s.players|
    ensures var top, hand := Engine.Top(s), Shuffle(s.players[seat].hand, rolls);
      var a := Choose(hand, top, s.cardsToDraw);
      && Interpret(hand, top, a).Some?
      && (a.Pick? ==> ChainKept(s.cardsToDraw, hand[a.index]))
  {
  }

  // -------------------------------------------------------------------- run

  /** Everything one visit of the older `run` loop takes besides the state. */
  datatype TurnInput = TurnInput(replenishRolls: seq<nat>, drawRolls: seq<nat>, replies: seq<CardReply>)

  /**
   * One visit of the older `run` loop to the player in `seat`: a finisher is
   * passed over; otherwise an empty deck is replenished, a pending skip is
   * used up, or the player takes a turn and may finish.
   */
  function Step(s: State, seat: nat, input: TurnInput): (r: Engine.Outcome)
    requires Valid(s) && seat < |s.players|
    ensures Valid(r.state) && Engine.AllCards(r.state) == Engine.AllCards(s)
    ensures Engine.SameSeats(r.state.players, s.players)
    ensures s.players[seat].name in s.finishers ==> r == Engine.Next(s)
    ensures s.players[seat].name !in s.finishers && s.missTurn ==>
      && r.Next? && !r.state.missTurn
      && r.state.players == s.players && r.state.finishers == s.finishers
      && r.state.cardsToDraw == s.cardsToDraw
    ensures s.players[seat].name !in s.finishers && s.missTurn && |s.deck.cards| >= 1 ==>
      r == Engine.Next(s.(missTurn := false))
    ensures s.players[seat].name !in s.finishers && !s.missTurn && !r.Stalled? ==>
      (|r.state.players[seat].hand| == 0 <==> s.players[seat].name in r.state.finishers)
  {
    var name := s.players[seat].name;
    if name in s.finishers then Engine.Next(s)
    else
      var s1 := RefillIfEmpty(s, input.replenishRolls);
      if s1.missTurn then Engine.Next(s1.(missTurn := false))
      else TakeTurn(s1, seat, input.drawRolls, input.replies)
  }

  /**
   * `do_player_turn` followed by the finish check: a player whose hand is
   * empty afterwards joins the finishers. Stalled: the replies ran out.
   */
  function TakeTurn(s: State, seat: nat, drawRolls: seq<nat>, replies: seq<CardReply>): (r: Engine.Outcome)
    requires Valid(s) && seat < |s.players| && s.players[seat].name !in s.finishers
    ensures Valid(r.state) && Engine.AllCards(r.state) == Engine.AllCards(s)
    ensures Engine.SameSeats(r.state.players, s.players)
    ensures !r.Stalled? ==> (|r.state.players[seat].hand| == 0 <==> s.players[seat].name in r.state.finishers)
  {
    var t := PlayerTurn(s, seat, drawRolls, replies);
    if t.None? then Engine.Stalled(s)
    else
      FinishAfterTurn(s, t.value, seat);
      Engine.Finish(t.value, seat)
  }

  /** The finish check after a turn that followed the rules. */
  lemma FinishAfterTurn(s: State, t: State, seat: nat)
    requires seat < |s.players| && s.players[seat].name !in s.finishers && Follows(s, t, seat)
    ensures var r := Engine.Finish(t, seat);
      && Valid(r.state) && Engine.AllCards(r.state) == Engine.AllCards(s)
      && Engine.SameSeats(r.state.players, s.players)
      && (|r.state.players[seat].hand| == 0 <==> s.players[seat].name in r.state.finishers)
  {
    assert t.players[seat].name == s.players[seat].name;
    Engine.FinishMarks(t, seat);
    Engine.FinishFrame(t, seat);
  }

  /** A visit lists nobody twice among the finishers. */
  lemma StepDistinct(s: State, seat: nat, input: TurnInput)
    requires Valid(s) && seat < |s.players|
    ensures Distinct(s.finishers) ==> Distinct(Step(s, seat, input).state.finishers)
  {
    var name := s.players[seat].name;
    if name !in s.finishers {
      var s1 := RefillIfEmpty(s, input.replenishRolls);
      if !s1.missTurn {
        var t := PlayerTurn(s1, seat, input.drawRolls, input.replies);
        if t.Some? {
          assert t.value.players[seat].name == name;
          Engine.FinishDistinct(t.value, seat);
        }
      }
    }
  }

  /**
   * The loop of the older `run`: one visit per input, seat after seat. It
   * stops when the game is over or a player's replies run out, and when the
   * inputs do.
   */
  function Run(s: State, seat: nat, inputs: seq<TurnInput>): (r: Engine.Outcome)
    requires Valid(s) && seat < |s.players|
    ensures Valid(r.state) && Engine.AllCards(r.state) == Engine.AllCards(s) && Engine.SameSeats(r.state.players, s.players)
    ensures Distinct(s.finishers) ==> Distinct(r.state.finishers)
    decreases |inputs|
  {
    if |inputs| == 0 then Engine.Next(s)
    else
      StepDistinct(s, seat, inputs[0]);
      match Step(s, seat, inputs[0])
      case Next(t) => Run(t, (seat + 1) % |s.players|, inputs[1..])
      case other => other
  }
}
