/** Numbers on the wire: six decimals, trailing zeros trimmed; and the number grammar. */
module JsonNumbers {
  import opened Bytes

  const MINUS: byte := 45 // '-'
  const PLUS: byte := 43  // '+'
  const DOT: byte := 46   // '.'

  const MILLION: nat := 1_000_000

  // ---- rounding to six decimals ----

  function Magnitude(x: real): real {
    if x < 0.0 then -x else x
  }

  /** The nearest integer, ties to even. */
  function RoundHalfEven(y: real): int {
    var f := y.Floor;
    var d := y - f as real;
    if d < 0.5 then f else if d > 0.5 then f + 1 else if f % 2 == 0 then f else f + 1
  }

  /** How many millionths the printed text of x denotes, sign aside. */
  function Micros(x: real): nat {
    var y := Magnitude(x) * MILLION as real;
    assert y >= 0.0;
    RoundHalfEven(y)
  }

  /** The number the printed text of x denotes. */
  function SixDecimals(x: real): real {
    var m := Micros(x) as real / MILLION as real;
    if x < 0.0 then -m else m
  }

  /** The printed number is a nearest multiple of a millionth; of two nearest ones the even multiple. */
  lemma Nearest(x: real)
    ensures var m, y := Micros(x), Magnitude(x) * MILLION as real;
            && -0.5 <= m as real - y <= 0.5
            && (m as real - y == 0.5 || m as real - y == -0.5 ==> m % 2 == 0)
            && SixDecimals(x) == (if x < 0.0 then -(m as real / MILLION as real) else m as real / MILLION as real)
  {
  }

  predicate IsSixDecimal(x: real) {
    (x * MILLION as real).Floor as real == x * MILLION as real
  }

  /** Printing loses nothing exactly on the multiples of a millionth. */
  lemma SixDecimalsExact(x: real)
    ensures SixDecimals(x) == x <==> IsSixDecimal(x)
  {
    if SixDecimals(x) == x {
      ExactIsSixDecimal(x);
    }
    if IsSixDecimal(x) {
      SixDecimalIsExact(x);
    }
  }

  lemma MillionthsBack(m: nat)
    ensures (m as real / MILLION as real) * MILLION as real == m as real
  {
  }

  lemma ExactIsSixDecimal(x: real)
    requires SixDecimals(x) == x
    ensures IsSixDecimal(x)
  {
    var m: int := Micros(x);
    MillionthsBack(m);
    WholeFloor(x * MILLION as real, if x < 0.0 then -m else m);
  }

  lemma SixDecimalIsExact(x: real)
    requires IsSixDecimal(x)
    ensures SixDecimals(x) == x
  {
    var n := (x * MILLION as real).Floor;
    var k := if x < 0.0 then -n else n;
    var y := Magnitude(x) * MILLION as real;
    assert y == k as real;
    WholeFloor(y, k);
    assert Micros(x) == k;
    RatioBack(Magnitude(x), k);
  }

  lemma RatioBack(z: real, k: int)
    requires z * MILLION as real == k as real
    ensures k as real / MILLION as real == z
  {
  }

  lemma WholeFloor(y: real, n: int)
    requires y == n as real
    ensures y.Floor == n
  {
  }

  // ---- text ----

  function Pow10(k: nat): (p: nat)
    ensures p >= 1
  {
    if k == 0 then 1 else 10 * Pow10(k - 1)
  }

  /** Exactly w digits. */
  function FixedDigits(n: nat, w: nat): (s: bytes)
    ensures |s| == w && IsDigits(s)
  {
    if w == 0 then [] else FixedDigits(n / 10, w - 1) + [ZERO + n % 10]
  }

  function Sign(x: real): bytes {
    if x < 0.0 then [MINUS] else []
  }

  /** std::to_string of a double: printf's %f. */
  function ToString(x: real): bytes {
    Sign(x) + Decimal(Micros(x) / MILLION) + [DOT] + FixedDigits(Micros(x) % MILLION, 6)
  }

  function StripZeros(f: bytes): (r: bytes)
    ensures |r| <= |f| && (IsDigits(f) ==> IsDigits(r))
  {
    if f == [] || f[|f| - 1] != ZERO then f else StripZeros(f[..|f| - 1])
  }

  function Fraction(x: real): (f: bytes)
    ensures IsDigits(f)
  {
    StripZeros(FixedDigits(Micros(x) % MILLION, 6))
  }

  /** At most six decimals, and no zero at their end. */
  lemma FractionTrimmed(x: real)
    ensures |Fraction(x)| <= 6 && (Fraction(x) != [] ==> Fraction(x)[|Fraction(x)| - 1] != ZERO)
  {
    StrippedEnd(FixedDigits(Micros(x) % MILLION, 6));
  }

  lemma {:induction false} StrippedEnd(f: bytes)
    ensures StripZeros(f) <= f && (StripZeros(f) != [] ==> StripZeros(f)[|StripZeros(f)| - 1] != ZERO)
  {
    if f != [] && f[|f| - 1] == ZERO {
      StrippedEnd(f[..|f| - 1]);
    }
  }

  /** What dump writes for a number. */
  function NumberText(x: real): bytes {
    Sign(x) + Decimal(Micros(x) / MILLION) + if Fraction(x) == [] then [] else [DOT] + Fraction(x)
  }

  /** The number branch of dump: print, then trim trailing zeros and a bare point. */
  method PrintNumber(x: real) returns (s: bytes)
    ensures s == NumberText(x)
  {
    s := ToString(x);
    ghost var head := Sign(x) + Decimal(Micros(x) / MILLION);
    ghost var f := FixedDigits(Micros(x) % MILLION, 6);
    while |s| > 1 && DOT in s && s[|s| - 1] == ZERO
      invariant s == head + [DOT] + f
      invariant StripZeros(f) == Fraction(x)
      invariant IsDigits(f)
    {
      assert |f| > 0;
      f := f[..|f| - 1];
      s := s[..|s| - 1];
    }
    assert DOT in s by { assert s[|head|] == DOT; }
    assert f != [] ==> s[|s| - 1] == f[|f| - 1] && s == head + ([DOT] + f);
    if |s| > 0 && s[|s| - 1] == DOT {
      s := s[..|s| - 1];
    }
  }

  // ---- digit strings ----

  lemma {:induction false} FixedDigitsValue(n: nat, w: nat)
    requires n < Pow10(w)
    ensures DecimalValue(FixedDigits(n, w)) == n
  {
    if w > 0 {
      FixedDigitsValue(n / 10, w - 1);
      assert FixedDigits(n, w)[..w - 1] == FixedDigits(n / 10, w - 1);
    }
  }

  /** The decimal fraction ip.fp, exactly. */
  function Scaled(ip: bytes, fp: bytes): real
    requires IsDigits(ip) && IsDigits(fp)
  {
    DecimalValue(ip) as real + DecimalValue(fp) as real / Pow10(|fp|) as real
  }

  lemma {:induction false} StripZerosScaled(ip: bytes, f: bytes)
    requires IsDigits(ip) && IsDigits(f)
    ensures Scaled(ip, StripZeros(f)) == Scaled(ip, f)
  {
    if f != [] && f[|f| - 1] == ZERO {
      var g := f[..|f| - 1];
      StripZerosScaled(ip, g);
      ScaleRatio(DecimalValue(g), Pow10(|g|));
    }
  }

  lemma ScaleRatio(a: nat, p: nat)
    requires p > 0
    ensures (10 * a) as real / (10 * p) as real == a as real / p as real
  {
    var r := a as real / p as real;
    assert r * (10 * p) as real == (10 * a) as real;
  }

  lemma MillionIsPow()
    ensures Pow10(6) == MILLION
  {
    assert Pow10(2) == 100;
    assert Pow10(4) == 10_000;
  }

  /** The printed digits denote SixDecimals. */
  lemma TextDenotes(x: real)
    ensures Scaled(Decimal(Micros(x) / MILLION), Fraction(x)) == Magnitude(SixDecimals(x))
  {
    var m := Micros(x);
    var f := FixedDigits(m % MILLION, 6);
    MillionIsPow();
    DecimalRoundTrip(m / MILLION);
    FixedDigitsValue(m % MILLION, 6);
    StripZerosScaled(Decimal(m / MILLION), f);
    SplitRatio(m, MILLION);
    assert m as real / MILLION as real >= 0.0;
  }

  lemma SplitRatio(m: nat, d: nat)
    requires d > 0
    ensures (m / d) as real + (m % d) as real / d as real == m as real / d as real
  {
    var q, r := m / d, m % d;
    assert m == q * d + r;
    assert m as real == (q * d) as real + r as real;
    ProductReal(q, d);
  }

  lemma ProductReal(q: int, d: int)
    ensures (q * d) as real == q as real * d as real
  {
  }
}
