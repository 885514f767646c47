/**
 * Hands (cards/hand.py): a pile owned by a player, or the table, with a
 * canonical sort and a "draw into this hand" operation.
 *
 * `Hand.sort` is Python's stable sort under a comparator that orders by face
 * index and then by rank index. It is modelled by a stable insertion sort on
 * the key (face index, rank index); `CompareAgreesWithKey` shows the source
 * comparator and the key agree whenever equal face indices mean equal faces,
 * which holds for every card built from one pack.
 */
module Hands {
  import opened Outcomes
  import opened Cards
  import opened Piles
  import opened Seqs

  /** `Hand()`: a hand starts with no cards. */
  function NewHand(): (h: seq<Card>)
    ensures |h| == 0
  {
    []
  }

  /** The comparator inside `Hand.sort`: negative, zero or positive. */
  function Compare(l: Card, r: Card): int
  {
    if l.face == r.face then l.rank.index - r.rank.index
    else l.face.index - r.face.index
  }

  /** The sort key order: face index first, then rank index. */
  predicate KeyLeq(a: Card, b: Card)
  {
    a.face.index < b.face.index || (a.face.index == b.face.index && a.rank.index <= b.rank.index)
  }

  /** Both sort keys equal. */
  predicate SameKey(a: Card, b: Card)
  {
    a.face.index == b.face.index && a.rank.index == b.rank.index
  }

  /** When face indices identify faces, the comparator orders exactly as the key does. */
  lemma CompareAgreesWithKey(l: Card, r: Card)
    requires l.face.index == r.face.index ==> l.face == r.face
    ensures Compare(l, r) <= 0 <==> KeyLeq(l, r)
    ensures Compare(l, r) == 0 <==> SameKey(l, r)
  {
  }

  /** Adjacent cards are in key order. */
  predicate Sorted(s: seq<Card>)
  {
    forall i :: 0 < i < |s| ==> KeyLeq(s[i - 1], s[i])
  }

  /** Inserts `x` after every card whose key is not above its own. */
  function Insert(s: seq<Card>, x: Card): (r: seq<Card>)
    ensures multiset(r) == multiset(s) + multiset{x}
    ensures |r| == |s| + 1
    ensures r[|r| - 1] == x || (|s| > 0 && r[|r| - 1] == s[|s| - 1])
    ensures Sorted(s) ==> Sorted(r)
    decreases |s|
  {
    if |s| == 0 || KeyLeq(s[|s| - 1], x) then s + [x]
    else
      var init := s[..|s| - 1];
      var last := s[|s| - 1];
      assert s == init + [last];
      assert Sorted(s) ==> Sorted(init);
      Insert(init, x) + [last]
  }

  /** `Hand.sort`: a stable sort by (face index, rank index). */
  function Sort(s: seq<Card>): (r: seq<Card>)
    ensures multiset(r) == multiset(s)
    ensures |r| == |s|
    ensures Sorted(r)
    decreases |s|
  {
    if |s| == 0 then []
    else
      var init := s[..|s| - 1];
      assert s == init + [s[|s| - 1]];
      Insert(Sort(init), s[|s| - 1])
  }

  /** The cards of `s` whose key is `k`, in order. */
  function WithKey(s: seq<Card>, k: Card): (r: seq<Card>)
    ensures forall i :: 0 <= i < |r| ==> SameKey(r[i], k)
    decreases |s|
  {
    if |s| == 0 then []
    else WithKey(s[..|s| - 1], k) + (if SameKey(s[|s| - 1], k) then [s[|s| - 1]] else [])
  }

  /** Selecting by key distributes over concatenation. */
  lemma {:induction false} WithKeyAppend(a: seq<Card>, b: seq<Card>, k: Card)
    ensures WithKey(a + b, k) == WithKey(a, k) + WithKey(b, k)
    decreases |b|
  {
    if |b| > 0 {
      var bi := b[..|b| - 1];
      assert (a + b)[..|a + b| - 1] == a + bi;
      assert b == bi + [b[|b| - 1]];
      WithKeyAppend(a, bi, k);
    } else {
      assert a + b == a;
    }
  }

  /** Inserting keeps the order among the cards of every key. */
  lemma {:induction false} InsertStable(s: seq<Card>, x: Card, k: Card)
    ensures WithKey(Insert(s, x), k) == WithKey(s, k) + WithKey([x], k)
    decreases |s|
  {
    if |s| == 0 || KeyLeq(s[|s| - 1], x) {
      WithKeyAppend(s, [x], k);
    } else {
      var init := s[..|s| - 1];
      var last := s[|s| - 1];
      assert s == init + [last];
      InsertStable(init, x, k);
      WithKeyAppend(Insert(init, x), [last], k);
      WithKeyAppend(init, [last], k);
      assert WithKey([x], k) == [] || WithKey([last], k) == [] by {
        assert WithKey([x], k) == WithKey([], k) + (if SameKey(x, k) then [x] else []);
        assert WithKey([last], k) == WithKey([], k) + (if SameKey(last, k) then [last] else []);
      }
    }
  }

  /** Stability: cards with equal keys keep their relative order. */
  lemma {:induction false} SortStable(s: seq<Card>, k: Card)
    ensures WithKey(Sort(s), k) == WithKey(s, k)
    decreases |s|
  {
    if |s| > 0 {
      var init := s[..|s| - 1];
      var last := s[|s| - 1];
      assert s == init + [last];
      SortStable(init, k);
      InsertStable(Sort(init), last, k);
      WithKeyAppend(init, [last], k);
    }
  }

  /** Sorting a sorted hand changes nothing; so sorting twice is sorting once. */
  lemma {:induction false} SortIdempotent(s: seq<Card>)
    requires Sorted(s)
    ensures Sort(s) == s
    decreases |s|
  {
    if |s| > 0 {
      var init := s[..|s| - 1];
      var last := s[|s| - 1];
      assert Sorted(init) by {
        forall i | 0 < i < |init| ensures KeyLeq(init[i - 1], init[i]) {
          assert init[i - 1] == s[i - 1] && init[i] == s[i];
        }
      }
      SortIdempotent(init);
      SplitLast(s);
      assert |init| == 0 || KeyLeq(init[|init| - 1], last) by {
        if |init| > 0 {
          assert init[|init| - 1] == s[|s| - 2];
        }
      }
      assert Insert(init, last) == init + [last];
    }
  }

  /** The result of `draw_from`: the grown hand and the shrunk source. */
  datatype Transfer = Transfer(hand: seq<Card>, source: seq<Card>)

  /** `Hand.draw_from(deck, count)`: appends exactly the cards `deck.draw` returns. */
  function DrawFrom(hand: seq<Card>, source: seq<Card>, count: int): (r: Result<Transfer, DrawError>)
    ensures r.Err? <==> Draw(source, count).Err?
    ensures r.Err? ==> r.error == Draw(source, count).error
    ensures r.Ok? ==> r.value.hand == hand + Draw(source, count).value.cards
    ensures r.Ok? ==> r.value.source == source[..|source| - count]
    ensures r.Ok? ==> |r.value.hand| + |r.value.source| == |hand| + |source|
    ensures r.Ok? ==> multiset(r.value.hand) + multiset(r.value.source) == multiset(hand) + multiset(source)
  {
    match Draw(source, count)
    case Err(e) => Err(e)
    case Ok(d) => Ok(Transfer(hand + d.cards, d.rest))
  }

  /**
   * `draw_from` of `n` cards the pile holds: the hand gains exactly the top
   * `n` cards and ends with the deepest of them; the pile keeps its bottom part.
   */
  function TakeTop(hand: seq<Card>, cards: seq<Card>, n: nat): (t: Transfer)
    requires 1 <= n <= |cards|
    ensures DrawFrom(hand, cards, n) == Ok(t)
    ensures Took(hand, cards, n, t.hand, t.source)
    ensures multiset(t.source) + multiset(t.hand) == multiset(cards) + multiset(hand)
  {
    var d := Draw(cards, n).value;
    TopCards(cards, n, d);
    Transfer(hand + d.cards, d.rest)
  }

  /** `h` and `rest` are `hand` and `cards` after the top `n` cards moved over. */
  predicate Took(hand: seq<Card>, cards: seq<Card>, n: nat, h: seq<Card>, rest: seq<Card>)
  {
    && 1 <= n <= |cards|
    && |h| == |hand| + n
    && h[|hand| + n - 1] == cards[|cards| - n]
    && multiset(h) == multiset(hand) + multiset(cards[|cards| - n..])
    && rest == cards[..|cards| - n]
  }

  /** Taking a single card adds exactly the pile's top card, at the end of the hand. */
  lemma TookOne(hand: seq<Card>, cards: seq<Card>, h: seq<Card>, rest: seq<Card>)
    requires Took(hand, cards, 1, h, rest)
    ensures h[|h| - 1] == cards[|cards| - 1]
    ensures multiset(h) == multiset(hand) + multiset{cards[|cards| - 1]}
  {
    LastAlone(cards);
  }

  /** The cards `draw` returns are the pile's top part, the deepest of them last. */
  lemma TopCards(cards: seq<Card>, n: nat, d: Drawn)
    requires 1 <= n <= |cards| && Draw(cards, n) == Ok(d)
    ensures multiset(d.cards) == multiset(cards[|cards| - n..])
    ensures d.cards[n - 1] == cards[|cards| - n]
  {
    SplitAt(cards, |cards| - n);
    Cancel(multiset(d.cards), multiset(cards[|cards| - n..]), multiset(d.rest));
  }
}
