/**
 * Players and the strategy interface (maumau/players/base.py).
 *
 * A player is a name and a hand. The three decision points of a strategy
 * (`choose_card`, `choose_face`, `choose_play_immediately`) have no default
 * behaviour; a strategy is whatever it answers, so the engine takes the
 * answers of one turn as input (`Replies`). The automated strategy's answers
 * are computed in module StupidAI.
 */
module Players {
  import opened Cards

  datatype Player = Player(name: string, hand: seq<Card>)

  /** `BasePlayer(name)`: the given name and an empty hand. */
  function NewPlayer(name: string): (p: Player)
    ensures p.name == name
    ensures |p.hand| == 0
  {
    Player(name, [])
  }

  /** An answer to `choose_card`: a hand index, or text the engine then parses. */
  datatype Answer = Pick(index: int) | Typed(text: string)

  /**
   * One `choose_card` call. A strategy may reorder its own hand before it
   * answers (the automated one shuffles it); `rolls` drive that shuffle and
   * are empty for a strategy that leaves the hand alone.
   */
  datatype CardReply = CardReply(rolls: seq<nat>, answer: Answer)

  /** Everything a strategy answers during one turn, in the order the engine asks. */
  datatype Replies = Replies(cards: seq<CardReply>, faces: seq<Symbol>, playDrawn: bool)

  /** The names in seating order. */
  function Names(ps: seq<Player>): (r: seq<string>)
    ensures |r| == |ps|
    ensures forall i :: 0 <= i < |ps| ==> r[i] == ps[i].name
    decreases |ps|
  {
    if |ps| == 0 then [] else Names(ps[..|ps| - 1]) + [ps[|ps| - 1].name]
  }

  /** All cards held by the players. */
  function HandCards(ps: seq<Player>): multiset<Card>
    decreases |ps|
  {
    if |ps| == 0 then multiset{} else HandCards(ps[..|ps| - 1]) + multiset(ps[|ps| - 1].hand)
  }

  /** Replacing one player's hand swaps exactly that hand's cards in the total. */
  lemma {:induction false} HandCardsUpdate(ps: seq<Player>, i: nat, p: Player)
    requires i < |ps|
    ensures HandCards(ps[i := p]) + multiset(ps[i].hand) == HandCards(ps) + multiset(p.hand)
    decreases |ps|
  {
    var n := |ps| - 1;
    if i < n {
      HandCardsUpdate(ps[..n], i, p);
      assert ps[i := p][..n] == ps[..n][i := p];
      assert ps[..n][i] == ps[i];
      assert ps[i := p][n] == ps[n];
      assert HandCards(ps[i := p]) == HandCards(ps[..n][i := p]) + multiset(ps[n].hand);
      assert HandCards(ps) == HandCards(ps[..n]) + multiset(ps[n].hand);
      var a', a, hi, hn, hp := HandCards(ps[..n][i := p]), HandCards(ps[..n]), multiset(ps[i].hand), multiset(ps[n].hand), multiset(p.hand);
      assert a' + hi == a + hp;
      assert (a' + hn) + hi == (a' + hi) + hn;
    } else {
      assert ps[i := p][..n] == ps[..n];
    }
  }

  /** Seating one more player appends their name and adds their hand to the total. */
  lemma SeatAppend(ps: seq<Player>, p: Player)
    ensures (ps + [p])[..|ps|] == ps
    ensures Names(ps + [p]) == Names(ps) + [p.name]
    ensures HandCards(ps + [p]) == HandCards(ps) + multiset(p.hand)
  {
    assert (ps + [p])[..|ps|] == ps;
  }
}
