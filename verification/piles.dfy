/**
 * Piles of cards and the deck built from a pack catalog (cards/deck.py).
 *
 * A pile is a sequence whose LAST element is the top: `draw` pops from the end
 * and `put_under` inserts at index 0. `random.shuffle` is CPython's
 * Fisher-Yates pass; the numbers `randbelow` returns are an input (`rolls`).
 */
module Piles {
  import opened Outcomes
  import opened Cards

  /** Why `Deck.draw` refuses. */
  datatype DrawError =
    | TooFew(count: int)                 // ValueError: fewer than one card asked for
    | NotEnough(count: int, left: nat)   // RuntimeError: more cards asked for than are left

  /** The cards taken off a pile (top first) and what remains of the pile. */
  datatype Drawn = Drawn(cards: seq<Card>, rest: seq<Card>)

  /** The `pop()` loop of `Deck.draw`, run `n` times. */
  function Pop(p: seq<Card>, n: nat): (d: Drawn)
    requires n <= |p|
    ensures |d.cards| == n
    ensures d.rest == p[..|p| - n]
    ensures forall i :: 0 <= i < n ==> d.cards[i] == p[|p| - 1 - i]
    ensures multiset(d.cards) + multiset(d.rest) == multiset(p)
    decreases n
  {
    if n == 0 then Drawn([], p)
    else
      var top := p[|p| - 1];
      var below := p[..|p| - 1];
      assert p == below + [top];
      var d := Pop(below, n - 1);
      Drawn([top] + d.cards, d.rest)
  }

  /** `Deck.draw(count)`: the checks come before any card is taken. */
  function Draw(p: seq<Card>, count: int): (r: Result<Drawn, DrawError>)
    ensures count < 1 ==> r == Err(TooFew(count))
    ensures 1 <= count && count > |p| ==> r == Err(NotEnough(count, |p|))
    ensures r.Ok? <==> 1 <= count <= |p|
    ensures r.Ok? ==> |r.value.cards| == count
    ensures r.Ok? ==> forall i :: 0 <= i < count ==> r.value.cards[i] == p[|p| - 1 - i]
    ensures r.Ok? ==> r.value.rest == p[..|p| - count]
    ensures r.Ok? ==> multiset(r.value.cards) + multiset(r.value.rest) == multiset(p)
  {
    if count < 1 then Err(TooFew(count))
    else if count > |p| then Err(NotEnough(count, |p|))
    else Ok(Pop(p, count))
  }

  /** `Deck.put_under(card)`: the card becomes the bottom of the pile. */
  function PutUnder(p: seq<Card>, c: Card): (r: seq<Card>)
    ensures |r| == |p| + 1 && r[0] == c && r[1..] == p
    ensures multiset(r) == multiset(p) + multiset{c}
  {
    [c] + p
  }

  /** Puts `cs` under `p` one card at a time, last card first. */
  function PutUnderAll(cs: seq<Card>, p: seq<Card>): seq<Card>
    decreases |cs|
  {
    if |cs| == 0 then p
    else PutUnderAll(cs[..|cs| - 1], PutUnder(p, cs[|cs| - 1]))
  }

  /** Putting cards under one at a time, last first, is placing the whole run below the pile. */
  lemma {:induction false} PutUnderAllIsPrefix(cs: seq<Card>, p: seq<Card>)
    ensures PutUnderAll(cs, p) == cs + p
    decreases |cs|
  {
    if |cs| > 0 {
      var init := cs[..|cs| - 1];
      PutUnderAllIsPrefix(init, PutUnder(p, cs[|cs| - 1]));
      assert init + ([cs[|cs| - 1]] + p) == cs + p;
    }
  }

  /** Exchanges two positions of a pile. */
  function Swap(p: seq<Card>, i: nat, j: nat): (r: seq<Card>)
    requires i < |p| && j < |p|
    ensures |r| == |p| && multiset(r) == multiset(p)
    ensures r[i] == p[j] && r[j] == p[i]
    ensures forall k :: 0 <= k < |p| && k != i && k != j ==> r[k] == p[k]
  {
    p[i := p[j]][j := p[i]]
  }

  /** The position `randbelow(i + 1)` picks to exchange with position `i`; a missing roll keeps `i` in place. */
  function Roll(rolls: seq<nat>, i: nat): (j: nat)
    ensures j <= i
  {
    if i < |rolls| then rolls[i] % (i + 1) else i
  }

  /** The Fisher-Yates steps for positions `k - 1` down to `1`. */
  function ShuffleDown(p: seq<Card>, rolls: seq<nat>, k: nat): (r: seq<Card>)
    requires k <= |p|
    ensures |r| == |p| && multiset(r) == multiset(p)
    ensures forall i :: k <= i < |p| ==> r[i] == p[i]
    decreases k
  {
    if k <= 1 then p
    else ShuffleDown(Swap(p, k - 1, Roll(rolls, k - 1)), rolls, k - 1)
  }

  /** `random.shuffle`: some permutation of the pile, chosen by `rolls`. */
  function Shuffle(p: seq<Card>, rolls: seq<nat>): (r: seq<Card>)
    ensures |r| == |p| && multiset(r) == multiset(p)
  {
    ShuffleDown(p, rolls, |p|)
  }

  /** Without rolls every position keeps its card: a shuffle that does nothing. */
  lemma {:induction false} ShuffleDownWithoutRolls(p: seq<Card>, k: nat)
    requires k <= |p|
    ensures ShuffleDown(p, [], k) == p
    decreases k
  {
    if k > 1 {
      assert Swap(p, k - 1, Roll([], k - 1)) == p;
      ShuffleDownWithoutRolls(p, k - 1);
    }
  }

  // ---------------------------------------------------------------- the deck

  /**
   * A deck: its cards plus the catalogs read from the pack. `ranks` holds what
   * `load_deck_file` appends to it, which is the FACE symbol once per card.
   */
  datatype Deck = Deck(cards: seq<Card>, faces: seq<Symbol>, ranks: seq<Symbol>)

  /** An already-parsed pack file: a JSON object whose values are lists of labels. */
  datatype PackObject = PackObject(fields: map<string, seq<Label>>)

  /** Why loading a pack fails. */
  datatype LoadError = BadDeckFile

  /** `Deck.verify_deck_obj`: both keys present; empty lists pass. */
  predicate VerifyDeckObj(obj: PackObject)
  {
    "faces" in obj.fields && "ranks" in obj.fields
  }

  /** `enumerate(labels)` turned into symbols: position and label. */
  function Catalog(labels: seq<Label>): (r: seq<Symbol>)
    ensures |r| == |labels|
    ensures forall i :: 0 <= i < |labels| ==> r[i] == Symbol(i, labels[i])
    decreases |labels|
  {
    if |labels| == 0 then []
    else Catalog(labels[..|labels| - 1]) + [Symbol(|labels| - 1, labels[|labels| - 1])]
  }

  /** One pass of the inner loop: `make(x, y)` for every `y`, in order. */
  function Row<X, Y, Z>(x: X, ys: seq<Y>, make: (X, Y) -> Z): (r: seq<Z>)
    ensures |r| == |ys|
    ensures forall j :: 0 <= j < |ys| ==> r[j] == make(x, ys[j])
    decreases |ys|
  {
    if |ys| == 0 then []
    else Row(x, ys[..|ys| - 1], make) + [make(x, ys[|ys| - 1])]
  }

  /** Where step `j` of the inner loop within step `i` of the outer loop lands, with rows of `m`. */
  function Pos(i: nat, j: nat, m: nat): nat
  {
    i * m + j
  }

  /** The nested loops of `load_deck_file`: outer over `xs`, inner over `ys`. */
  function Grid<X, Y, Z>(xs: seq<X>, ys: seq<Y>, make: (X, Y) -> Z): (r: seq<Z>)
    ensures |r| == |xs| * |ys|
    ensures forall i, j :: 0 <= i < |xs| && 0 <= j < |ys| ==>
      Pos(i, j, |ys|) < |r| && r[Pos(i, j, |ys|)] == make(xs[i], ys[j])
    decreases |xs|
  {
    if |xs| == 0 then []
    else
      var n := |xs| - 1;
      var before := Grid(xs[..n], ys, make);
      var row := Row(xs[n], ys, make);
      GridStep(xs, ys, make, before, row);
      before + row
  }

  /** Appending the row of the last outer element keeps the grid's index formula. */
  lemma GridStep<X, Y, Z>(xs: seq<X>, ys: seq<Y>, make: (X, Y) -> Z, before: seq<Z>, row: seq<Z>)
    requires |xs| > 0
    requires |before| == (|xs| - 1) * |ys|
    requires forall i, j :: 0 <= i < |xs| - 1 && 0 <= j < |ys| ==>
      Pos(i, j, |ys|) < |before| && before[Pos(i, j, |ys|)] == make(xs[..|xs| - 1][i], ys[j])
    requires |row| == |ys|
    requires forall j :: 0 <= j < |ys| ==> row[j] == make(xs[|xs| - 1], ys[j])
    ensures |before + row| == |xs| * |ys|
    ensures forall i, j :: 0 <= i < |xs| && 0 <= j < |ys| ==>
      Pos(i, j, |ys|) < |before + row| && (before + row)[Pos(i, j, |ys|)] == make(xs[i], ys[j])
  {
    var n := |xs| - 1;
    var m := |ys|;
    assert |before + row| == n * m + m == |xs| * m;
    forall i, j | 0 <= i < |xs| && 0 <= j < m
      ensures Pos(i, j, m) < |before + row| && (before + row)[Pos(i, j, m)] == make(xs[i], ys[j])
    {
      if i < n {
        assert xs[..n][i] == xs[i];
      } else {
        assert Pos(i, j, m) == |before| + j;
      }
    }
  }

  /** The card a (face, rank) pair of the nested loop builds. */
  function MakeCard(face: Symbol, rank: Symbol): Card
  {
    Card(face, rank)
  }

  /** What the nested loop appends to `ranks`: the face symbol. */
  function FaceAgain(face: Symbol, rank: Symbol): Symbol
  {
    face
  }

  /** The deck the loops of `load_deck_file` build from the two label lists. */
  function BuildDeck(fs: seq<Label>, rs: seq<Label>): (d: Deck)
    ensures |d.cards| == |fs| * |rs|
    ensures forall i, j :: 0 <= i < |fs| && 0 <= j < |rs| ==>
      Pos(i, j, |rs|) < |d.cards| && d.cards[Pos(i, j, |rs|)] == Card(Symbol(i, fs[i]), Symbol(j, rs[j]))
    ensures d.faces == Catalog(fs)
    ensures |d.ranks| == |fs| * |rs|
    ensures forall i, j :: 0 <= i < |fs| && 0 <= j < |rs| ==>
      Pos(i, j, |rs|) < |d.ranks| && d.ranks[Pos(i, j, |rs|)] == Symbol(i, fs[i])
  {
    var faces := Catalog(fs);
    var ranks := Catalog(rs);
    Deck(Grid(faces, ranks, MakeCard), faces, Grid(faces, ranks, FaceAgain))
  }

  /** `load_deck_file` from an already-parsed pack: refused unless both lists are present. */
  function LoadDeck(obj: PackObject): (r: Result<Deck, LoadError>)
    ensures r.Err? <==> !VerifyDeckObj(obj)
    ensures r.Ok? ==> r.value == BuildDeck(obj.fields["faces"], obj.fields["ranks"])
  {
    if !VerifyDeckObj(obj) then Err(BadDeckFile)
    else Ok(BuildDeck(obj.fields["faces"], obj.fields["ranks"]))
  }
}
