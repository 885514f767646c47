/**
 * Pieces both engines share (maumau/engine.py and the older maumau/__init__.py
 * contain the same code for them): dealing, reclaiming the table into the
 * deck, the final standings and the unused `get_draw_count`.
 */
module Table {
  import opened Outcomes
  import opened Cards
  import opened Piles
  import opened Hands
  import opened Players
  import opened Seqs

  // ------------------------------------------------------------------ dealing

  /** Why a match cannot be set up. */
  datatype SetupError =
    | BadPack                        // the pack object lacks "faces" or "ranks"
    | DuplicateName(name: string)    // ValueError: two players share a name
    | DealFailed(error: DrawError)   // the deck ran out while dealing

  /** No name occurs twice. */
  predicate Distinct(names: seq<string>)
  {
    forall i, j :: 0 <= i < j < |names| ==> names[i] != names[j]
  }

  /** Appending a name not yet listed keeps a list free of repeats. */
  lemma AppendDistinct(names: seq<string>, x: string)
    requires Distinct(names) && x !in names
    ensures Distinct(names + [x])
  {
  }

  /** The deck and the players seated so far. */
  datatype Seating = Seating(deck: seq<Card>, players: seq<Player>)

  /** A fresh, sorted hand of `size` cards. */
  predicate DealtHand(p: Player, size: nat)
  {
    |p.hand| == size && Sorted(p.hand)
  }

  /**
   * `after` is what seating `names` after `seated`, dealing from `deck`, leaves:
   * the new players follow the seated ones with five sorted cards each, taken
   * from the top of the deck.
   */
  predicate SeatedFrom(deck: seq<Card>, names: seq<string>, seated: seq<Player>, after: Seating)
  {
    && Names(after.players) == Names(seated) + names
    && |after.players| == |seated| + |names|
    && after.players[..|seated|] == seated
    && (forall i :: |seated| <= i < |after.players| ==> DealtHand(after.players[i], 5))
    && |after.deck| == |deck| - 5 * |names|
    && multiset(after.deck) + HandCards(after.players) == multiset(deck) + HandCards(seated)
  }

  /** Seating two groups one after the other seats both. */
  lemma SeatedTrans(deck: seq<Card>, names: seq<string>, seated: seq<Player>, mid: Seating, more: seq<string>, after: Seating)
    requires SeatedFrom(deck, names, seated, mid)
    requires SeatedFrom(mid.deck, more, mid.players, after)
    ensures SeatedFrom(deck, names + more, seated, after)
  {
    assert after.players[..|seated|] == after.players[..|mid.players|][..|seated|];
    forall i | |seated| <= i < |after.players|
      ensures DealtHand(after.players[i], 5)
    {
      if i < |mid.players| {
        assert after.players[i] == after.players[..|mid.players|][i];
      }
    }
  }

  /** One round of the constructor's loop: draw five cards into a new hand, sort it and seat its owner. */
  function SeatOne(deck: seq<Card>, seated: seq<Player>, name: string): (r: Result<Seating, SetupError>)
    ensures r.Ok? <==> |deck| >= 5
    ensures r.Err? ==> r.error.DealFailed?
    ensures r.Ok? ==> SeatedFrom(deck, [name], seated, r.value)
  {
    match DrawFrom(NewHand(), deck, 5)
    case Err(e) => Err(DealFailed(e))
    case Ok(t) =>
      SeatedOne(deck, seated, name, t);
      Ok(Seating(t.source, seated + [Player(name, Sort(t.hand))]))
  }

  /** Five cards drawn into a new hand, sorted, and their owner seated after the others, are one round of seating. */
  lemma SeatedOne(deck: seq<Card>, seated: seq<Player>, name: string, t: Transfer)
    requires DrawFrom(NewHand(), deck, 5) == Ok(t)
    ensures SeatedFrom(deck, [name], seated, Seating(t.source, seated + [Player(name, Sort(t.hand))]))
  {
    var p := Player(name, Sort(t.hand));
    DrewFive(deck, t);
    SeatedPlayer(deck, seated, p, t.source);
  }

  /** Drawing five cards into a new hand moves five cards, and sorting them keeps them. */
  lemma DrewFive(deck: seq<Card>, t: Transfer)
    requires DrawFrom(NewHand(), deck, 5) == Ok(t)
    ensures |t.source| == |deck| - 5 && |Sort(t.hand)| == 5 && Sorted(Sort(t.hand))
    ensures multiset(t.source) + multiset(Sort(t.hand)) == multiset(deck)
  {
    assert |NewHand()| == 0 && multiset(NewHand()) == multiset{};
  }

  /** A player with five sorted cards from the deck, seated after the others, is one round of seating. */
  lemma SeatedPlayer(deck: seq<Card>, seated: seq<Player>, p: Player, rest: seq<Card>)
    requires DealtHand(p, 5) && |rest| == |deck| - 5
    requires multiset(rest) + multiset(p.hand) == multiset(deck)
    ensures SeatedFrom(deck, [p.name], seated, Seating(rest, seated + [p]))
  {
    SeatAppend(seated, p);
  }

  /**
   * The constructor's loop over the names: refuse a name already seated,
   * otherwise seat its owner with five sorted cards.
   */
  function Seat(deck: seq<Card>, names: seq<string>, seated: seq<Player>): (r: Result<Seating, SetupError>)
    ensures r.Ok? ==> SeatedFrom(deck, names, seated, r.value)
    ensures r.Err? && r.error.DealFailed? ==> |deck| < 5 * |names|
    ensures r.Err? && r.error.DuplicateName? ==> !Distinct(Names(seated) + names)
    ensures r.Err? ==> r.error.DuplicateName? || r.error.DealFailed?
    decreases |names|
  {
    if |names| == 0 then
      assert Names(seated) + names == Names(seated);
      assert seated[..|seated|] == seated;
      Ok(Seating(deck, seated))
    else if names[0] in Names(seated) then
      RepeatedName(Names(seated), names);
      Err(DuplicateName(names[0]))
    else
      match SeatOne(deck, seated, names[0])
      case Err(e) => Err(e)
      case Ok(next) =>
        SplitFirst(Names(seated), names);
        var r := Seat(next.deck, names[1..], next.players);
        if r.Ok? then
          SeatedTrans(deck, [names[0]], seated, next, names[1..], r.value);
          r
        else r
  }

  /** A name that is already seated makes the whole list of names repeat one. */
  lemma RepeatedName(seatedNames: seq<string>, names: seq<string>)
    requires |names| > 0 && names[0] in seatedNames
    ensures !Distinct(seatedNames + names)
  {
    var j :| 0 <= j < |seatedNames| && seatedNames[j] == names[0];
    assert (seatedNames + names)[j] == (seatedNames + names)[|seatedNames|];
  }

  /** With cards enough, seating fails exactly when a name repeats. */
  lemma {:induction false} SeatSucceeds(deck: seq<Card>, names: seq<string>, seated: seq<Player>)
    requires |deck| >= 5 * |names| && Distinct(Names(seated))
    ensures Seat(deck, names, seated).Ok? <==> Distinct(Names(seated) + names)
    decreases |names|
  {
    if |names| == 0 {
      assert Names(seated) + names == Names(seated);
    } else if names[0] !in Names(seated) {
      var next := SeatOne(deck, seated, names[0]).value;
      assert Names(next.players) == Names(seated) + [names[0]];
      AppendDistinct(Names(seated), names[0]);
      SplitFirst(Names(seated), names);
      SeatSucceeds(next.deck, names[1..], next.players);
    }
  }

  /** What the constructor leaves: the shuffled, dealt deck, a one-card table and the players. */
  datatype Dealt = Dealt(deck: Deck, table: seq<Card>, players: seq<Player>)

  /**
   * `d` is a dealt table for `names` from `cards`: every player holds five
   * sorted cards, one card lies on the table, and no card was lost or added.
   */
  predicate DealtFrom(cards: seq<Card>, names: seq<string>, d: Dealt)
  {
    && |d.table| == 1
    && Names(d.players) == names
    && (forall i :: 0 <= i < |d.players| ==> DealtHand(d.players[i], 5))
    && |d.deck.cards| == |cards| - 5 * |names| - 1
    && multiset(d.deck.cards) + multiset(d.table) + HandCards(d.players) == multiset(cards)
  }

  /** The last step of the constructor: turn the deck's top card onto the table. */
  function OpenTable(deck: Deck, seating: Seating): (r: Result<Dealt, SetupError>)
    ensures r.Ok? <==> |seating.deck| >= 1
    ensures r.Err? ==> r.error.DealFailed?
    ensures r.Ok? ==> r.value.players == seating.players
    ensures r.Ok? ==> r.value.deck == deck.(cards := seating.deck[..|seating.deck| - 1])
    ensures r.Ok? ==> r.value.table == [seating.deck[|seating.deck| - 1]]
  {
    match DrawFrom(NewHand(), seating.deck, 1)
    case Err(e) => Err(DealFailed(e))
    case Ok(t) => Ok(Dealt(deck.(cards := t.source), t.hand, seating.players))
  }

  /**
   * The constructor (maumau/engine.py:23-39): shuffle the deck, deal five
   * sorted cards per name, then turn one card onto the table.
   */
  function Deal(deck: Deck, names: seq<string>, rolls: seq<nat>): (r: Result<Dealt, SetupError>)
    ensures r.Ok? ==> DealtFrom(deck.cards, names, r.value)
    ensures r.Ok? ==> r.value.deck.faces == deck.faces && r.value.deck.ranks == deck.ranks
    ensures r.Err? ==> r.error.DuplicateName? || r.error.DealFailed?
    ensures r.Err? && r.error.DealFailed? ==> |deck.cards| < 5 * |names| + 1
    ensures r.Err? && r.error.DuplicateName? ==> !Distinct(names)
  {
    var shuffled := Shuffle(deck.cards, rolls);
    match Seat(shuffled, names, [])
    case Err(e) => Err(e)
    case Ok(seating) =>
      TableOpened(deck, shuffled, names, seating);
      OpenTable(deck, seating)
  }

  /** Turning the top card of a seated deck onto the table completes the deal. */
  lemma TableOpened(deck: Deck, shuffled: seq<Card>, names: seq<string>, seating: Seating)
    requires multiset(shuffled) == multiset(deck.cards) && |shuffled| == |deck.cards|
    requires SeatedFrom(shuffled, names, [], seating)
    ensures OpenTable(deck, seating).Ok? ==> DealtFrom(deck.cards, names, OpenTable(deck, seating).value)
  {
    if |seating.deck| >= 1 {
      var d := OpenTable(deck, seating).value;
      LastOut(seating.deck);
      assert multiset(d.deck.cards) + multiset(d.table) == multiset(seating.deck);
      assert HandCards([]) == multiset{} && Names([]) == [];
      EmptyFront(names);
      assert d.players == seating.players;
    }
  }

  /** With cards enough for every hand and the table, dealing fails exactly when a name repeats. */
  lemma DealSucceeds(deck: Deck, names: seq<string>, rolls: seq<nat>)
    requires |deck.cards| >= 5 * |names| + 1
    ensures Deal(deck, names, rolls).Ok? <==> Distinct(names)
  {
    var shuffled := Shuffle(deck.cards, rolls);
    assert |multiset(shuffled)| == |multiset(deck.cards)|;
    EmptyFront(names);
    assert Distinct(Names([]));
    SeatSucceeds(shuffled, names, []);
  }

  // ----------------------------------------------------------- replenishing

  /** The deck and the table after reclaiming. */
  datatype Restock = Restock(deck: seq<Card>, table: seq<Card>)

  /**
   * The body of `replenish_deck`: every table card but the top is shuffled and
   * placed under the deck; the table keeps only its top.
   */
  function Reclaim(deck: seq<Card>, table: seq<Card>, rolls: seq<nat>): (r: Restock)
    requires |table| >= 1
    ensures r.table == [table[|table| - 1]]
    ensures |r.deck| == |deck| + |table| - 1
    ensures r.deck[|table| - 1..] == deck
    ensures multiset(r.deck[..|table| - 1]) == multiset(table[..|table| - 1])
    ensures multiset(r.deck) + multiset(r.table) == multiset(deck) + multiset(table)
  {
    var under := table[..|table| - 1];
    var reclaimed := Shuffle(under, rolls);
    assert table == under + [table[|table| - 1]];
    assert (reclaimed + deck)[..|under|] == reclaimed;
    Restock(reclaimed + deck, [table[|table| - 1]])
  }

  /** Reclaiming is `put_under` of each reclaimed card, last first. */
  lemma ReclaimIsPutUnder(deck: seq<Card>, table: seq<Card>, rolls: seq<nat>)
    requires |table| >= 1
    ensures Reclaim(deck, table, rolls).deck == PutUnderAll(Shuffle(table[..|table| - 1], rolls), deck)
  {
    PutUnderAllIsPrefix(Shuffle(table[..|table| - 1], rolls), deck);
  }

  // --------------------------------------------------------------- standings

  /** The seats of players not yet in `finishers`. */
  predicate Unfinished(ps: seq<Player>, finishers: seq<string>, i: int)
  {
    0 <= i < |ps| && ps[i].name !in finishers
  }

  /** `print_scoreboard`: append the first unfinished player, in seating order, to the finishers. */
  function Scoreboard(ps: seq<Player>, finishers: seq<string>): (r: seq<string>)
    ensures r == finishers || (|r| == |finishers| + 1 && r[..|finishers|] == finishers && r[|finishers|] !in finishers)
    decreases |ps|
  {
    if |ps| == 0 then finishers
    else if ps[0].name !in finishers then finishers + [ps[0].name]
    else Scoreboard(ps[1..], finishers)
  }

  /** The name appended is that of the first unfinished player in seating order. */
  lemma {:induction false} ScoreboardPicks(ps: seq<Player>, finishers: seq<string>, k: nat)
    requires Unfinished(ps, finishers, k)
    requires forall i :: 0 <= i < k ==> !Unfinished(ps, finishers, i)
    ensures Scoreboard(ps, finishers) == finishers + [ps[k].name]
    decreases k
  {
    if k > 0 {
      assert !Unfinished(ps, finishers, 0);
      forall i | 0 <= i < k - 1
        ensures !Unfinished(ps[1..], finishers, i)
      {
        assert !Unfinished(ps, finishers, i + 1);
      }
      ScoreboardPicks(ps[1..], finishers, k - 1);
    }
  }

  /** When every player has finished, nothing is appended. */
  lemma {:induction false} ScoreboardAllDone(ps: seq<Player>, finishers: seq<string>)
    requires forall i :: 0 <= i < |ps| ==> !Unfinished(ps, finishers, i)
    ensures Scoreboard(ps, finishers) == finishers
    decreases |ps|
  {
    if |ps| > 0 {
      assert !Unfinished(ps, finishers, 0);
      forall i | 0 <= i < |ps| - 1
        ensures !Unfinished(ps[1..], finishers, i)
      {
        assert !Unfinished(ps, finishers, i + 1);
      }
      ScoreboardAllDone(ps[1..], finishers);
    }
  }

  // --------------------------------------------------------- get_draw_count

  /**
   * `get_draw_count`: two for each card, from the top down, whose rank label
   * is `seven`; the count stops at the first other card.
   */
  function DrawCountFor(table: seq<Card>, seven: Label): (r: nat)
    ensures r % 2 == 0 && r / 2 <= |table|
    ensures forall i :: |table| - r / 2 <= i < |table| ==> table[i].rank.symbol == seven
    ensures r / 2 < |table| ==> table[|table| - 1 - r / 2].rank.symbol != seven
    decreases |table|
  {
    if |table| == 0 || table[|table| - 1].rank.symbol != seven then 0
    else 2 + DrawCountFor(table[..|table| - 1], seven)
  }
}
