/**
  The scoreboard text of one player's point score.

  The engine's point query produces one of the four ordinary tennis calls,
  the advantage marker, or a raw count (a tie-break score, or an ordinary
  point count with no tennis name).  The value is kept as a small closed
  datatype and turned into text only by `Render`, where Swift's decimal
  string interpolation of an integer is modelled by `NatToString`.
 */
module Display {

  datatype PointDisplay = Love | Fifteen | Thirty | Forty | Ad | Count(n: nat)

  /** The scoreboard calls for 0, 1, 2 and 3 ordinary points. */
  const Calls: seq<string> := ["0", "15", "30", "40"]

  /** The tennis name of an ordinary point count: 0, 1, 2, 3 are called
      "0", "15", "30", "40"; any larger count has no name and is shown raw. */
  function PointName(k: nat): (d: PointDisplay)
    ensures k < 4 <==> !d.Count?
    ensures k < 4 ==> Render(d) == Calls[k]
    ensures d.Count? ==> d.n == k
    ensures d != Ad
    ensures PointValue(d) == k
  {
    if k == 0 then Love
    else if k == 1 then Fifteen
    else if k == 2 then Thirty
    else if k == 3 then Forty
    else Count(k)
  }

  /** The ordinary point count a display stands for (advantage counts as 3,
      the 40 it is added on top of). */
  function PointValue(d: PointDisplay): nat
  {
    match d
    case Love => 0
    case Fifteen => 1
    case Thirty => 2
    case Forty => 3
    case Ad => 3
    case Count(n) => n
  }

  predicate IsDigit(c: char) {
    '0' <= c <= '9'
  }

  function DigitChar(d: nat): (c: char)
    requires d < 10
    ensures IsDigit(c)
    ensures DigitValue(c) == d
  {
    "0123456789"[d]
  }

  function DigitValue(c: char): nat
    requires IsDigit(c)
  {
    (c as int) - ('0' as int)
  }

  /** Decimal text of a non-negative integer, most significant digit first,
      without leading zeros. */
  function NatToString(n: nat): (s: string)
    ensures |s| >= 1
    ensures forall k :: 0 <= k < |s| ==> IsDigit(s[k])
    ensures n >= 10 ==> s[0] != '0'
    ensures n < 10 ==> |s| == 1
  {
    if n < 10 then [DigitChar(n)]
    else NatToString(n / 10) + [DigitChar(n % 10)]
  }

  /** Reads decimal text back into the number it denotes. */
  function ParseNat(s: string): nat
    requires forall k :: 0 <= k < |s| ==> IsDigit(s[k])
  {
    if |s| == 0 then 0
    else 10 * ParseNat(s[..|s| - 1]) + DigitValue(s[|s| - 1])
  }

  /** Decimal rendering loses nothing: reading the text back gives the number. */
  lemma {:induction false} ParseNatToString(n: nat)
    ensures ParseNat(NatToString(n)) == n
  {
    var s := NatToString(n);
    if n >= 10 {
      var prefix := NatToString(n / 10);
      assert s[..|s| - 1] == prefix;
      ParseNatToString(n / 10);
    }
  }

  /** The scoreboard string shown for a point display. */
  function Render(d: PointDisplay): (s: string)
    ensures |s| >= 1
    ensures d.Count? ==> (forall k :: 0 <= k < |s| ==> IsDigit(s[k])) && ParseNat(s) == d.n
    // a raw count carries no leading zero
    ensures d.Count? ==> |s| == 1 || s[0] != '0'
    ensures d == Ad <==> s == "Ad"
    ensures !d.Count? && d != Ad ==> s == Calls[PointValue(d)]
  {
    match d
    case Love => "0"
    case Fifteen => "15"
    case Thirty => "30"
    case Forty => "40"
    case Ad => "Ad"
    case Count(n) =>
      ParseNatToString(n);
      NatToString(n)
  }
}
