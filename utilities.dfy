/**
 * The two general helpers of the exam application: `formatTime`, which
 * renders a number of seconds as a clock, and `shuffleArray`, the
 * Fisher–Yates shuffle used to draw exam questions.
 */
module Utilities {
  import opened JsText

  /** `Math.floor(a / b)` for a positive divisor. */
  function FloorDiv(a: int, b: int): (q: int)
    requires b > 0
    ensures q * b <= a < q * b + b
  {
    a / b
  }

  /** JavaScript `a % b`: the remainder has the sign of the dividend. */
  function JsRem(a: int, b: int): (r: int)
    requires b > 0
    ensures -b < r < b
    ensures a >= 0 ==> r == a % b
    ensures a < 0 ==> -r == (-a) % b
  {
    if a >= 0 then a % b else -((-a) % b)
  }

  /** One field of the clock: the number padded to two places with zeros. */
  function Field(n: int): string {
    PadStart(IntToString(n), 2, '0')
  }

  /** `formatTime(seconds)`: minutes and seconds, each padded to two places with zeros. */
  function FormatTime(seconds: int): string {
    Field(FloorDiv(seconds, 60)) + ":" + Field(JsRem(seconds, 60))
  }

  /** A two-digit field of a clock. */
  lemma TwoDigits(n: nat)
    requires n < 100
    ensures |Field(n)| == 2
    ensures forall c :: c in Field(n) ==> IsDigit(c)
    ensures ParseNat(Field(n)) == n
  {
    ParseNatToString(n);
    ParseNatPadStart(NatToString(n), 2);
  }

  /** Two two-character fields joined by a colon. */
  lemma ClockShape(mm: string, ss: string)
    requires |mm| == 2 && |ss| == 2
    ensures var r := mm + ":" + ss;
      |r| == 5 && r[2] == ':' && r[..2] == mm && r[3..] == ss
  {
  }

  /** Below 100 minutes the clock is five characters `MM:SS`, both fields
      digits, and reading them back gives the minutes and the seconds. */
  lemma FormatTimeClock(seconds: int)
    requires 0 <= seconds < 6000
    ensures var r := FormatTime(seconds);
      && |r| == 5 && r[2] == ':'
      && (forall c :: c in r[..2] ==> IsDigit(c))
      && (forall c :: c in r[3..] ==> IsDigit(c))
      && ParseNat(r[..2]) == seconds / 60
      && ParseNat(r[3..]) == seconds % 60
  {
    var minutes := seconds / 60;
    var rest := seconds % 60;
    assert minutes < 100;
    assert FloorDiv(seconds, 60) == minutes && JsRem(seconds, 60) == rest;
    TwoDigits(minutes);
    TwoDigits(rest);
    ClockShape(Field(minutes), Field(rest));
  }

  /** The clock read back as a number of seconds is the number it was made from. */
  lemma FormatTimeRoundTrip(seconds: int)
    requires 0 <= seconds < 6000
    ensures var r := FormatTime(seconds);
      |r| == 5 && ParseNat(r[..2]) * 60 + ParseNat(r[3..]) == seconds
      && ParseNat(r[3..]) < 60
  {
    FormatTimeClock(seconds);
  }

  /** A negative count, which the exam timer never reaches, shows signed fields. */
  lemma FormatTimeNegative()
    ensures FormatTime(-5) == "-1:-5"
    ensures FormatTime(-65) == "-2:-5"
  {
    assert FloorDiv(-5, 60) == -1 && JsRem(-5, 60) == -5;
    assert FloorDiv(-65, 60) == -2 && JsRem(-65, 60) == -5;
    assert IntToString(-1) == "-1" && IntToString(-2) == "-2" && IntToString(-5) == "-5";
  }

  /** The swap partner Fisher–Yates picks at step `i`: `Math.floor(draw * (i + 1))`. */
  function SwapIndex(draw: real, i: nat): (j: nat)
    requires 0.0 <= draw < 1.0
    ensures j <= i
  {
    var x := draw * (i + 1) as real;
    ScaleBelow(draw, (i + 1) as real);
    x.Floor
  }

  lemma ScaleBelow(d: real, n: real)
    requires 0.0 <= d < 1.0 && n > 0.0
    ensures 0.0 <= d * n < n
  {
  }

  /** `shuffleArray`: a copy of the input, shuffled in place by swapping each
      position from the last down to 1 with one at or below it. `draws[i]` is
      the random draw of step `i`. */
  method Shuffle<T>(input: seq<T>, draws: seq<real>) returns (shuffled: seq<T>)
    requires |draws| >= |input|
    requires forall k :: 0 <= k < |draws| ==> 0.0 <= draws[k] < 1.0
    ensures |shuffled| == |input|
    ensures multiset(shuffled) == multiset(input)
  {
    if |input| == 0 {
      return [];
    }
    var a := new T[|input|](k requires 0 <= k < |input| => input[k]);
    assert a[..] == input;
    var i := a.Length - 1;
    while i > 0
      invariant 0 <= i < a.Length
      invariant multiset(a[..]) == multiset(input)
    {
      var j := SwapIndex(draws[i], i);
      a[i], a[j] := a[j], a[i];
      i := i - 1;
    }
    shuffled := a[..];
  }
}
