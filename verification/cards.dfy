/**
 * Symbols and cards (cards/card.py).
 *
 * A card is a (face, rank) pair of indexed symbols. The pack file is JSON, so a
 * label is whatever scalar the file holds: a string or an integer. Keeping the
 * two apart lets the model follow Python's `==` exactly: a string label never
 * equals an integer, which matters because the newer engine tests
 * `rank.symbol == "7"` while the older one tests `rank[1] == 7`.
 */
module Cards {

  /** A label read from the pack file. */
  datatype Label = Text(text: string) | Number(n: int)

  /** A face or a rank: its position in the pack's catalog and its label. */
  datatype Symbol = Symbol(index: int, symbol: Label)

  /** A card; equality is structural, through both symbols. */
  datatype Card = Card(face: Symbol, rank: Symbol)

  /** The decimal digits Python's `str` prints for a non-negative integer. */
  function Digits(n: nat): (r: string)
    ensures |r| >= 1
    ensures forall i :: 0 <= i < |r| ==> '0' <= r[i] <= '9'
    decreases n
  {
    var last := [(('0' as int) + n % 10) as char];
    if n < 10 then last else Digits(n / 10) + last
  }

  /** Reads a string of decimal digits back as a number. */
  function DigitsValue(s: string): nat
    decreases |s|
  {
    if |s| == 0 then 0
    else
      var d := (s[|s| - 1] as int) - ('0' as int);
      DigitsValue(s[..|s| - 1]) * 10 + (if 0 <= d then d else 0)
  }

  /** Printing a number and reading it back gives the number. */
  lemma {:induction false} DigitsRoundTrip(n: nat)
    ensures DigitsValue(Digits(n)) == n
    decreases n
  {
    var d := n % 10;
    var last := [(('0' as int) + d) as char];
    assert (last[0] as int) - ('0' as int) == d;
    if n < 10 {
      assert Digits(n) == last;
      assert last[..0] == [];
    } else {
      var s := Digits(n / 10) + last;
      assert Digits(n) == s;
      assert s[..|s| - 1] == Digits(n / 10);
      assert s[|s| - 1] == last[0];
      DigitsRoundTrip(n / 10);
      assert DigitsValue(s) == (n / 10) * 10 + d;
    }
  }

  /** Python's `str` of a label: the string itself, or the integer in decimal. */
  function LabelText(l: Label): (r: string)
    ensures l.Number? ==> |r| >= 1
  {
    match l
    case Text(s) => s
    case Number(n) => if n < 0 then "-" + Digits(-n) else Digits(n)
  }

  /** `str(card)`: the face label immediately followed by the rank label. */
  function CardText(c: Card): (r: string)
    ensures |r| == |LabelText(c.face.symbol)| + |LabelText(c.rank.symbol)|
    ensures r[..|LabelText(c.face.symbol)|] == LabelText(c.face.symbol)
    ensures r[|LabelText(c.face.symbol)|..] == LabelText(c.rank.symbol)
  {
    LabelText(c.face.symbol) + LabelText(c.rank.symbol)
  }

  /** `card.rank.symbol == s` for a string `s`, as the newer engine writes it. */
  predicate HasRank(c: Card, s: string)
  {
    c.rank.symbol == Text(s)
  }
}
