/** Generic facts about sequences, stated once so that no caller re-proves them for its element type. */
module Seqs {
  /** A nonempty sequence is its front followed by its last element. */
  lemma SplitLast<T>(s: seq<T>)
    requires |s| > 0
    ensures s == s[..|s| - 1] + [s[|s| - 1]]
  {
  }

  /** Taking the last element out of a nonempty sequence. */
  lemma LastOut<T>(s: seq<T>)
    requires |s| > 0
    ensures multiset(s) == multiset(s[..|s| - 1]) + multiset{s[|s| - 1]}
  {
    SplitLast(s);
  }

  /** Moving the first element of `s` to the end of `front`. */
  lemma SplitFirst<T>(front: seq<T>, s: seq<T>)
    requires |s| > 0
    ensures s == [s[0]] + s[1..]
    ensures front + s == (front + [s[0]]) + s[1..]
  {
    assert s == [s[0]] + s[1..];
  }

  /** Nothing in front. */
  lemma EmptyFront<T>(s: seq<T>)
    ensures [] + s == s
  {
  }

  /** Removing position `i` takes exactly that element out. */
  lemma RemoveAt<T>(s: seq<T>, i: int)
    requires 0 <= i < |s|
    ensures multiset(s) == multiset(s[..i] + s[i + 1..]) + multiset{s[i]}
  {
    assert s == s[..i] + [s[i]] + s[i + 1..];
  }

  /** Multiset union cancels. */
  lemma Cancel<T>(a: multiset<T>, b: multiset<T>, c: multiset<T>)
    requires a + c == b + c
    ensures a == b
  {
    forall x
      ensures a[x] == b[x]
    {
      assert (a + c)[x] == a[x] + c[x] && (b + c)[x] == b[x] + c[x];
    }
    assert a == b;
  }

  /** A sequence is its part before `i` followed by its part from `i`. */
  lemma SplitAt<T>(s: seq<T>, i: int)
    requires 0 <= i <= |s|
    ensures multiset(s) == multiset(s[..i]) + multiset(s[i..])
  {
    assert s == s[..i] + s[i..];
  }

  /** The last element on its own. */
  lemma LastAlone<T>(s: seq<T>)
    requires |s| > 0
    ensures multiset(s[|s| - 1..]) == multiset{s[|s| - 1]}
  {
    assert s[|s| - 1..] == [s[|s| - 1]];
  }
}
