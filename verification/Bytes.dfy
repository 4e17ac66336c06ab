/** Bytes, 64-bit handles, optional values and decimal text. */
module Bytes {

  type byte = x: int | 0 <= x < 256
  type bytes = seq<byte>

  const TWO32: nat := 0x1_0000_0000
  const TWO64: nat := 0x1_0000_0000_0000_0000

  type u64 = x: int | 0 <= x < TWO64

  datatype Option<+T> = None | Some(value: T)

  lemma QuotientUnique(n: int, m: nat, q: int, r: int)
    requires m > 0 && n == q * m + r && 0 <= r < m
    ensures n % m == r && n / m == q
  {
    var d := n / m - q;
    assert d * m == r - n % m;
    MultipleBound(d, m);
  }

  lemma MultipleBound(d: int, m: nat)
    ensures d >= 1 ==> d * m >= m
    ensures d <= -1 ==> d * m + m <= 0
  {
  }

  const ZERO: byte := 48 // '0'

  /** The text of a natural number in base ten, without leading zeros. */
  function Decimal(n: nat): (s: bytes)
    ensures |s| > 0
    ensures IsDigits(s)
    ensures s[0] == ZERO ==> n == 0
  {
    if n < 10 then [ZERO + n] else Decimal(n / 10) + [ZERO + n % 10]
  }

  predicate IsDigit(c: byte) {
    ZERO <= c <= ZERO + 9
  }

  predicate IsDigits(s: bytes) {
    forall i :: 0 <= i < |s| ==> IsDigit(s[i])
  }

  /** The number a digit string denotes, leading zeros allowed. */
  function DecimalValue(s: bytes): nat
    requires IsDigits(s)
  {
    if s == [] then 0 else 10 * DecimalValue(s[..|s| - 1]) + (s[|s| - 1] - ZERO)
  }

  /** Reading undoes printing, so printing is injective. */
  lemma {:induction false} DecimalRoundTrip(n: nat)
    ensures DecimalValue(Decimal(n)) == n
  {
    if n >= 10 {
      DecimalRoundTrip(n / 10);
      assert Decimal(n)[..|Decimal(n)| - 1] == Decimal(n / 10);
    }
  }
}

/** Snapshot identifiers: make_snap_id applied to the wrapping 64-bit counter. */
module Ids {
  import opened Bytes

  type Id = bytes

  /** make_snap_id: the text "s-" followed by the decimal counter. */
  function MakeSnapId(n: nat): (id: Id)
    ensures id != []
  {
    [115, 45] + Decimal(n)
  }

  /** The counter starts at 1 and wraps at 2^64: the value it holds before issue number k. */
  function CounterAt(k: nat): nat {
    (k + 1) % TWO64
  }

  function IdAt(k: nat): (id: Id)
    ensures id != []
  {
    MakeSnapId(CounterAt(k))
  }

  lemma MakeSnapIdInjective(a: nat, b: nat)
    requires MakeSnapId(a) == MakeSnapId(b)
    ensures a == b
  {
    assert MakeSnapId(a)[2..] == Decimal(a);
    assert MakeSnapId(b)[2..] == Decimal(b);
    DecimalRoundTrip(a);
    DecimalRoundTrip(b);
  }

  lemma ModSuccessor(i: nat, j: nat, m: nat)
    requires m > 0
    ensures (i + 1) % m == (j + 1) % m <==> i % m == j % m
  {
    ModOfSuccessor(i, m);
    ModOfSuccessor(j, m);
  }

  lemma ModOfSuccessor(i: nat, m: nat)
    requires m > 0
    ensures (i + 1) % m == if i % m == m - 1 then 0 else i % m + 1
  {
    var q, r := i / m, i % m;
    assert i + 1 == q * m + (r + 1);
    if r == m - 1 {
      assert i + 1 == (q + 1) * m;
      QuotientUnique(i + 1, m, q + 1, 0);
    } else {
      QuotientUnique(i + 1, m, q, r + 1);
    }
  }

  /** Two issues get the same identifier exactly when they are a multiple of 2^64 apart. */
  lemma IdReuse(i: nat, j: nat)
    ensures IdAt(i) == IdAt(j) <==> i % TWO64 == j % TWO64
  {
    ModSuccessor(i, j, TWO64);
    if IdAt(i) == IdAt(j) {
      MakeSnapIdInjective(CounterAt(i), CounterAt(j));
    }
  }

  /** So the first 2^64 identifiers are pairwise different. */
  lemma IdsDistinct(i: nat, j: nat)
    requires i < TWO64 && j < TWO64 && i != j
    ensures IdAt(i) != IdAt(j)
  {
    IdReuse(i, j);
  }
}
