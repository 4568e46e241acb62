/** Base-10 `strconv.FormatInt` and `strconv.ParseInt(s, 10, 64)`, which the
    store uses to turn record ids into index document keys and index hits back
    into ids. */
module Strconv {
  import opened Wrappers
  import opened Text

  const MinInt64: int := -0x8000_0000_0000_0000
  const MaxInt64: int := 0x7fff_ffff_ffff_ffff

  const Zero: byte := 48
  const Minus: byte := 45
  const Plus: byte := 43

  predicate IsDigit(b: byte) {
    Zero <= b <= Zero + 9
  }

  predicate AllDigits(s: Bytes) {
    forall k :: 0 <= k < |s| ==> IsDigit(s[k])
  }

  /** The decimal digits of `n`, most significant first, without leading zeros. */
  function DigitsOf(n: nat): (r: Bytes)
    ensures r != [] && AllDigits(r)
    ensures |r| > 1 ==> r[0] != Zero
    decreases n
  {
    if n < 10 then [Zero + n as byte]
    else
      var r := DigitsOf(n / 10) + [Zero + (n % 10) as byte];
      assert r[0] == DigitsOf(n / 10)[0];
      r
  }

  /** The number that a string of decimal digits denotes. */
  function DigitsValue(s: Bytes): nat
    requires AllDigits(s)
    decreases |s|
  {
    if s == [] then 0
    else DigitsValue(s[..|s| - 1]) * 10 + (s[|s| - 1] - Zero) as nat
  }

  /** `strconv.FormatInt(n, 10)`. */
  function FormatInt(n: int): (r: Bytes)
    ensures r != []
  {
    if n < 0 then [Minus] + DigitsOf(-n) else DigitsOf(n)
  }

  /** `strconv.ParseInt(s, 10, 64)`: an optional sign, at least one decimal
      digit and nothing else, within the 64-bit range; `None` stands for Go's
      syntax and range errors. */
  function ParseInt(s: Bytes): (r: Option<int>)
    ensures r.Some? ==> MinInt64 <= r.value <= MaxInt64
  {
    if s == [] then None
    else
      var neg := s[0] == Minus;
      var body := if s[0] == Plus || s[0] == Minus then s[1..] else s;
      if body == [] || !AllDigits(body) then None
      else
        var mag: int := DigitsValue(body);
        var v := if neg then -mag else mag;
        if v < MinInt64 || MaxInt64 < v then None else Some(v)
  }

  lemma {:induction false} DigitsRoundTrip(n: nat)
    ensures DigitsValue(DigitsOf(n)) == n
    decreases n
  {
    if n >= 10 {
      var d := DigitsOf(n);
      assert d[..|d| - 1] == DigitsOf(n / 10);
      DigitsRoundTrip(n / 10);
    }
  }

  /** Every id in the 64-bit range parses back from its index key. */
  lemma FormatParseRoundTrip(n: int)
    requires MinInt64 <= n <= MaxInt64
    ensures ParseInt(FormatInt(n)) == Some(n)
  {
    if n < 0 {
      ParseNegative(-n);
    } else {
      ParseDigits(n);
    }
  }

  lemma ParseDigits(n: nat)
    requires n <= MaxInt64
    ensures ParseInt(DigitsOf(n)) == Some(n)
  {
    var s := DigitsOf(n);
    assert IsDigit(s[0]);
    DigitsRoundTrip(n);
  }

  lemma ParseNegative(m: nat)
    requires 0 < m <= -MinInt64
    ensures ParseInt([Minus] + DigitsOf(m)) == Some(-(m as int))
  {
    var s := [Minus] + DigitsOf(m);
    assert s[1..] == DigitsOf(m);
    DigitsRoundTrip(m);
  }

  /** Distinct ids have distinct index keys. */
  lemma FormatIntInjective(m: int, n: int)
    requires MinInt64 <= m <= MaxInt64 && MinInt64 <= n <= MaxInt64
    requires FormatInt(m) == FormatInt(n)
    ensures m == n
  {
    FormatParseRoundTrip(m);
    FormatParseRoundTrip(n);
  }
}
