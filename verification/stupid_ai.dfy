/**
 * The automated strategy (maumau/players/stupid_ai.py; the same code is
 * repeated as `stupid_ai`, `stupid_ai_face` and
 * `stupid_ai_choose_to_play_drawn_card` in maumau/engine.py).
 *
 * `choose_card` first shuffles its own hand and then scans it; the scan is
 * modelled over the already-shuffled hand, and `Reply` pairs it with the
 * shuffle.
 */
module StupidAI {
  import opened Outcomes
  import opened Cards
  import opened Piles
  import opened Players

  // ------------------------------------------------------------ choose_card

  /** A card the scan returns as soon as it reaches it: not a J, allowed, and chaining a pending 7 if there is one. */
  predicate Qualifies(c: Card, allowed: Card -> bool, top: Card, toDraw: int)
  {
    && !HasRank(c, "J")
    && allowed(c)
    && ((HasRank(top, "7") && HasRank(c, "7")) || !HasRank(top, "7") || toDraw < 2)
  }

  /** The scan of `choose_card` from position `idx`, remembering the last J seen in `jake`. */
  function Scan(hand: seq<Card>, allowed: Card -> bool, top: Card, toDraw: int, idx: nat, jake: Option<nat>): (a: Answer)
    requires idx <= |hand|
    requires forall j :: 0 <= j < idx ==> !Qualifies(hand[j], allowed, top, toDraw)
    requires jake.None? ==> forall j :: 0 <= j < idx ==> !HasRank(hand[j], "J")
    requires jake.Some? ==>
      && jake.value < idx
      && HasRank(hand[jake.value], "J")
      && forall j :: jake.value < j < idx ==> !HasRank(hand[j], "J")
    ensures a.Pick? || a == Typed("d")
    ensures a.Pick? ==> 0 <= a.index < |hand|
    ensures a.Pick? && !HasRank(hand[a.index], "J") ==>
      && Qualifies(hand[a.index], allowed, top, toDraw)
      && forall j :: 0 <= j < a.index ==> !Qualifies(hand[j], allowed, top, toDraw)
    ensures a.Pick? && HasRank(hand[a.index], "J") ==>
      && toDraw < 2
      && (forall j :: 0 <= j < |hand| ==> !Qualifies(hand[j], allowed, top, toDraw))
      && (forall j :: a.index < j < |hand| ==> !HasRank(hand[j], "J"))
    ensures a == Typed("d") <==>
      && (forall j :: 0 <= j < |hand| ==> !Qualifies(hand[j], allowed, top, toDraw))
      && (toDraw >= 2 || forall j :: 0 <= j < |hand| ==> !HasRank(hand[j], "J"))
    decreases |hand| - idx
  {
    if idx == |hand| then
      if jake.Some? && toDraw < 2 then Pick(jake.value) else Typed("d")
    else if HasRank(hand[idx], "J") then
      Scan(hand, allowed, top, toDraw, idx + 1, Some(idx))
    else if Qualifies(hand[idx], allowed, top, toDraw) then
      Pick(idx)
    else
      Scan(hand, allowed, top, toDraw, idx + 1, jake)
  }

  /**
   * `choose_card` on the already-shuffled hand: the first qualifying non-J
   * card; otherwise the last J, unless a draw is pending; otherwise "d".
   */
  function ChooseCard(hand: seq<Card>, allowed: Card -> bool, top: Card, toDraw: int): (a: Answer)
    ensures a.Pick? || a == Typed("d")
    ensures a.Pick? ==> 0 <= a.index < |hand|
    ensures a.Pick? && !HasRank(hand[a.index], "J") ==>
      && Qualifies(hand[a.index], allowed, top, toDraw)
      && forall j :: 0 <= j < a.index ==> !Qualifies(hand[j], allowed, top, toDraw)
    ensures a.Pick? && HasRank(hand[a.index], "J") ==>
      && toDraw < 2
      && (forall j :: 0 <= j < |hand| ==> !Qualifies(hand[j], allowed, top, toDraw))
      && (forall j :: a.index < j < |hand| ==> !HasRank(hand[j], "J"))
    ensures a == Typed("d") <==>
      && (forall j :: 0 <= j < |hand| ==> !Qualifies(hand[j], allowed, top, toDraw))
      && (toDraw >= 2 || forall j :: 0 <= j < |hand| ==> !HasRank(hand[j], "J"))
  {
    Scan(hand, allowed, top, toDraw, 0, None)
  }

  /** While a 7 lies on top and a draw of two or more is pending, only a 7 is ever picked. */
  lemma ChainOrDraw(hand: seq<Card>, allowed: Card -> bool, top: Card, toDraw: int)
    requires HasRank(top, "7") && toDraw >= 2
    ensures var a := ChooseCard(hand, allowed, top, toDraw);
      a.Pick? ==> HasRank(hand[a.index], "7") && !HasRank(hand[a.index], "J")
  {
  }

  /**
   * The whole `choose_card` call: shuffle the own hand with `rolls`, then
   * scan it. Whatever the shuffle, the strategy picks a card of its hand
   * that it may play, and it asks to draw exactly when no card of the hand
   * qualifies and no jack may be played.
   */
  function Reply(hand: seq<Card>, rolls: seq<nat>, allowed: Card -> bool, top: Card, toDraw: int): (r: CardReply)
    ensures r.rolls == rolls
    ensures r.answer.Pick? || r.answer == Typed("d")
    ensures r.answer.Pick? ==> 0 <= r.answer.index < |hand| && Shuffle(hand, rolls)[r.answer.index] in hand
    ensures r.answer.Pick? ==>
      var c := Shuffle(hand, rolls)[r.answer.index];
      if HasRank(c, "J") then toDraw < 2 else Qualifies(c, allowed, top, toDraw)
    ensures r.answer == Typed("d") <==>
      && (forall c :: c in hand ==> !Qualifies(c, allowed, top, toDraw))
      && (toDraw >= 2 || forall c :: c in hand ==> !HasRank(c, "J"))
  {
    var h := Shuffle(hand, rolls);
    SameCards(h, hand, (c: Card) => !Qualifies(c, allowed, top, toDraw));
    SameCards(h, hand, (c: Card) => !HasRank(c, "J"));
    assert forall i :: 0 <= i < |h| ==> h[i] in multiset(hand);
    CardReply(rolls, ChooseCard(h, allowed, top, toDraw))
  }

  /** A property holds at every position of `h` exactly when it holds for every card of a permutation of it. */
  lemma SameCards(h: seq<Card>, hand: seq<Card>, p: Card -> bool)
    requires multiset(h) == multiset(hand)
    ensures (forall i :: 0 <= i < |h| ==> p(h[i])) <==> (forall c :: c in hand ==> p(c))
  {
    if forall i :: 0 <= i < |h| ==> p(h[i]) {
      forall c | c in hand
        ensures p(c)
      {
        assert c in multiset(h);
        var i :| 0 <= i < |h| && h[i] == c;
      }
    }
    if forall c :: c in hand ==> p(c) {
      forall i | 0 <= i < |h|
        ensures p(h[i])
      {
        assert h[i] in multiset(hand);
      }
    }
  }

  // ------------------------------------------------------------ choose_face

  /** `list.index`: the first position holding `f`, if any. */
  function FirstIndex(avail: seq<Symbol>, f: Symbol): (r: Option<nat>)
    ensures r.None? <==> f !in avail
    ensures r.Some? ==> r.value < |avail| && avail[r.value] == f
    ensures r.Some? ==> forall j :: 0 <= j < r.value ==> avail[j] != f
    decreases |avail|
  {
    if |avail| == 0 then None
    else if avail[0] == f then Some(0)
    else match FirstIndex(avail[1..], f)
      case None => None
      case Some(i) => Some(i + 1)
  }

  /** How many cards of the hand show face `f`. */
  function FaceCount(hand: seq<Card>, f: Symbol): nat
    decreases |hand|
  {
    if |hand| == 0 then 0
    else FaceCount(hand[..|hand| - 1], f) + (if hand[|hand| - 1].face == f then 1 else 0)
  }

  /** A list of `n` zeros: `[0] * n`. */
  function Zeros(n: nat): (r: seq<nat>)
    ensures |r| == n && forall i :: 0 <= i < n ==> r[i] == 0
  {
    seq(n, _ => 0)
  }

  /**
   * The counting loop of `choose_face`: each card adds one at the first
   * position of its face; a face missing from `avail` raises ValueError.
   */
  function Tally(hand: seq<Card>, avail: seq<Symbol>): (r: Option<seq<nat>>)
    ensures r.None? <==> exists i :: 0 <= i < |hand| && hand[i].face !in avail
    ensures r.Some? ==> |r.value| == |avail|
    ensures r.Some? ==> forall i {:trigger r.value[i]} :: 0 <= i < |avail| ==>
      r.value[i] == (if FirstIndex(avail, avail[i]) == Some(i) then FaceCount(hand, avail[i]) else 0)
    decreases |hand|
  {
    if |hand| == 0 then Some(Zeros(|avail|))
    else
      var init := hand[..|hand| - 1];
      var c := hand[|hand| - 1];
      var before := Tally(init, avail);
      var at := FirstIndex(avail, c.face);
      if before.None? then
        assert exists i :: 0 <= i < |hand| && hand[i].face !in avail by {
          var i :| 0 <= i < |init| && init[i].face !in avail;
          assert hand[i] == init[i];
        }
        None
      else if at.None? then
        assert hand[|hand| - 1].face !in avail;
        None
      else
        assert forall i :: 0 <= i < |hand| ==> hand[i].face in avail by {
          forall i | 0 <= i < |hand|
            ensures hand[i].face in avail
          {
            if i < |init| {
              assert hand[i] == init[i];
            }
          }
        }
        var next := before.value[at.value := before.value[at.value] + 1];
        TallyStep(hand, avail, before.value, at.value, next);
        Some(next)
  }

  /** Counting one more card, at the first position of its face, keeps the tally exact. */
  lemma TallyStep(hand: seq<Card>, avail: seq<Symbol>, counts: seq<nat>, k: nat, next: seq<nat>)
    requires |hand| > 0 && |counts| == |avail|
    requires forall i {:trigger counts[i]} :: 0 <= i < |avail| ==>
      counts[i] == (if FirstIndex(avail, avail[i]) == Some(i) then FaceCount(hand[..|hand| - 1], avail[i]) else 0)
    requires FirstIndex(avail, hand[|hand| - 1].face) == Some(k)
    requires next == counts[k := counts[k] + 1]
    ensures forall i {:trigger next[i]} :: 0 <= i < |avail| ==>
      next[i] == (if FirstIndex(avail, avail[i]) == Some(i) then FaceCount(hand, avail[i]) else 0)
  {
    forall i | 0 <= i < |avail|
      ensures next[i] == (if FirstIndex(avail, avail[i]) == Some(i) then FaceCount(hand, avail[i]) else 0)
    {
      TallyAt(hand, avail, counts[i], k, i, next[i]);
    }
  }

  /** The tally at one position after counting the last card of `hand`. */
  lemma TallyAt(hand: seq<Card>, avail: seq<Symbol>, count: nat, k: nat, i: nat, after: nat)
    requires |hand| > 0 && i < |avail|
    requires count == (if FirstIndex(avail, avail[i]) == Some(i) then FaceCount(hand[..|hand| - 1], avail[i]) else 0)
    requires FirstIndex(avail, hand[|hand| - 1].face) == Some(k)
    requires after == if i == k then count + 1 else count
    ensures after == (if FirstIndex(avail, avail[i]) == Some(i) then FaceCount(hand, avail[i]) else 0)
  {
    var c := hand[|hand| - 1];
    assert FaceCount(hand, avail[i]) == FaceCount(hand[..|hand| - 1], avail[i]) + (if c.face == avail[i] then 1 else 0);
    if avail[i] == c.face {
      assert FirstIndex(avail, avail[i]) == Some(k);
    }
  }

  /** `max(range(n), key=...)`: the first position of a largest count among the first `n`. */
  function ArgMax(counts: seq<nat>, n: nat): (k: nat)
    requires 0 < n <= |counts|
    ensures k < n
    ensures forall j :: 0 <= j < n ==> counts[j] <= counts[k]
    ensures forall j :: 0 <= j < k ==> counts[j] < counts[k]
    decreases n
  {
    if n == 1 then 0
    else
      var k := ArgMax(counts, n - 1);
      if counts[n - 1] > counts[k] then n - 1 else k
  }

  /**
   * `choose_face`: the available face most frequent in the hand, ties to the
   * earliest position. None when `available_faces.index` or `max` raises.
   */
  function ChooseFace(hand: seq<Card>, avail: seq<Symbol>): (r: Option<Symbol>)
    ensures r.None? <==> |avail| == 0 || exists i :: 0 <= i < |hand| && hand[i].face !in avail
    ensures r.Some? ==> r.value in avail
    ensures r.Some? ==> forall j :: 0 <= j < |avail| ==> FaceCount(hand, avail[j]) <= FaceCount(hand, r.value)
    ensures r.Some? ==> forall j :: 0 <= j < FirstIndex(avail, r.value).value ==>
      FaceCount(hand, avail[j]) < FaceCount(hand, r.value)
  {
    match Tally(hand, avail)
    case None => None
    case Some(counts) =>
      if |avail| == 0 then None
      else
        var k := ArgMax(counts, |avail|);
        MostFrequent(hand, avail, counts, k);
        Some(avail[k])
  }

  /** The first largest tally sits at the first position of its face and outcounts every face before it. */
  lemma MostFrequent(hand: seq<Card>, avail: seq<Symbol>, counts: seq<nat>, k: nat)
    requires |counts| == |avail| && k < |avail|
    requires forall i {:trigger counts[i]} :: 0 <= i < |avail| ==>
      counts[i] == (if FirstIndex(avail, avail[i]) == Some(i) then FaceCount(hand, avail[i]) else 0)
    requires forall j :: 0 <= j < |avail| ==> counts[j] <= counts[k]
    requires forall j :: 0 <= j < k ==> counts[j] < counts[k]
    ensures FirstIndex(avail, avail[k]) == Some(k)
    ensures forall j :: 0 <= j < |avail| ==> FaceCount(hand, avail[j]) <= FaceCount(hand, avail[k])
    ensures forall j :: 0 <= j < k ==> FaceCount(hand, avail[j]) < FaceCount(hand, avail[k])
  {
    var first := FirstIndex(avail, avail[k]).value;
    assert FirstIndex(avail, avail[first]) == Some(first);
    assert counts[first] == FaceCount(hand, avail[k]);
    if first != k {
      // a repeated face counts zero at k, so its first position, further left, would have won
      assert false;
    }
    forall j | 0 <= j < |avail|
      ensures FaceCount(hand, avail[j]) <= FaceCount(hand, avail[k])
    {
      var fj := FirstIndex(avail, avail[j]).value;
      assert FirstIndex(avail, avail[fj]) == Some(fj);
      assert counts[fj] == FaceCount(hand, avail[j]);
      assert counts[k] == FaceCount(hand, avail[k]);
    }
    forall j | 0 <= j < k
      ensures FaceCount(hand, avail[j]) < FaceCount(hand, avail[k])
    {
      var fj := FirstIndex(avail, avail[j]).value;
      assert FirstIndex(avail, avail[fj]) == Some(fj);
      assert counts[fj] == FaceCount(hand, avail[j]);
      assert counts[k] == FaceCount(hand, avail[k]);
    }
  }

  // ------------------------------------------------- choose_play_immediately

  /** `choose_play_immediately`: keep the drawn card when its FACE label is "J" or "7". */
  function ChoosePlayImmediately(drawn: Card): (play: bool)
    ensures !play <==> drawn.face.symbol == Text("J") || drawn.face.symbol == Text("7")
  {
    drawn.face.symbol !in [Text("J"), Text("7")]
  }

  /** The rank never enters the decision: a J or a 7 of an ordinary face is played at once. */
  lemma PlayImmediatelyIgnoresRank(face: Symbol, r1: Symbol, r2: Symbol)
    ensures ChoosePlayImmediately(Card(face, r1)) == ChoosePlayImmediately(Card(face, r2))
  {
  }
}
