/** Groups of three bytes and four sextets, whatever a byte and a sextet are. */
module Grouping {
  /** How three bytes make four sextets and four sextets three bytes. */
  datatype Code<!B, !S> = Code(s1: B -> S, s2: (B, B) -> S, s3: (B, B) -> S, s4: B -> S,
                               o1: (S, S) -> B, o2: (S, S) -> B, o3: (S, S) -> B, zero: B)

  ghost predicate Inverse<B(!new), S>(k: Code<B, S>) {
    && (forall a, b :: k.o1(k.s1(a), k.s2(a, b)) == a)
    && (forall a, b, c :: k.o2(k.s2(a, b), k.s3(b, c)) == b)
    && (forall b, c :: k.o3(k.s3(b, c), k.s4(c)) == c)
  }

  /** Section 4 of RFC 4648: whole groups, then the rest filled up with zero bits. */
  function Pack<B, S>(k: Code<B, S>, b: seq<B>): seq<S> {
    if |b| == 0 then []
    else if |b| == 1 then [k.s1(b[0]), k.s2(b[0], k.zero)]
    else if |b| == 2 then [k.s1(b[0]), k.s2(b[0], b[1]), k.s3(b[1], k.zero)]
    else [k.s1(b[0]), k.s2(b[0], b[1]), k.s3(b[1], b[2]), k.s4(b[2])] + Pack(k, b[3..])
  }

  /** Whole bytes only: bits that do not fill one are dropped. */
  function Unpack<B, S>(k: Code<B, S>, v: seq<S>): seq<B> {
    if |v| < 2 then []
    else if |v| == 2 then [k.o1(v[0], v[1])]
    else if |v| == 3 then [k.o1(v[0], v[1]), k.o2(v[1], v[2])]
    else [k.o1(v[0], v[1]), k.o2(v[1], v[2]), k.o3(v[2], v[3])] + Unpack(k, v[4..])
  }

  lemma {:induction false} UnpackPack<B(!new), S>(k: Code<B, S>, b: seq<B>)
    requires Inverse(k)
    ensures Unpack(k, Pack(k, b)) == b
    decreases |b|
  {
    if |b| < 3 {
    } else {
      UnpackPack(k, b[3..]);
      assert Pack(k, b)[4..] == Pack(k, b[3..]);
      assert b == [b[0], b[1], b[2]] + b[3..];
    }
  }

  /** Four sextets per whole group; two or three for a rest of one or two bytes. */
  lemma {:induction false} PackLength<B, S>(k: Code<B, S>, b: seq<B>)
    ensures |Pack(k, b)| == |b| / 3 * 4 + (if |b| % 3 == 0 then 0 else |b| % 3 + 1)
    decreases |b|
  {
    if |b| >= 3 {
      PackLength(k, b[3..]);
    }
  }

  // ---- one byte at a time ----

  function LastOf<T>(s: seq<T>, zero: T): T {
    if s == [] then zero else s[|s| - 1]
  }

  lemma LastDrop<T>(s: seq<T>, n: nat, zero: T)
    requires n < |s|
    ensures LastOf(s[n..], zero) == LastOf(s, zero)
  {
  }

  /** The sextets complete after b. */
  function Emitted<B, S>(k: Code<B, S>, b: seq<B>): seq<S> {
    if |b| == 0 then []
    else if |b| == 1 then [k.s1(b[0])]
    else if |b| == 2 then [k.s1(b[0]), k.s2(b[0], b[1])]
    else [k.s1(b[0]), k.s2(b[0], b[1]), k.s3(b[1], b[2]), k.s4(b[2])] + Emitted(k, b[3..])
  }

  /** The sextets that c completes behind p, as byte number r of its group. */
  function Completed<B, S>(k: Code<B, S>, r: nat, p: B, c: B): seq<S> {
    if r == 0 then [k.s1(c)] else if r == 1 then [k.s2(p, c)] else [k.s3(p, c), k.s4(c)]
  }

  lemma Associative<T>(a: seq<T>, b: seq<T>, c: seq<T>)
    ensures a + (b + c) == (a + b) + c
  {
  }

  lemma EmittedThree<B, S>(k: Code<B, S>, a: seq<B>, w: seq<B>)
    requires |a| == 3
    ensures Emitted(k, a + w) == Emitted(k, a) + Emitted(k, w)
  {
    assert (a + w)[3..] == w && a[3..] == [];
  }

  lemma CompletedDrop<B, S>(k: Code<B, S>, b: seq<B>, c: B)
    requires |b| >= 3
    ensures Completed(k, |b[3..]| % 3, LastOf(b[3..], k.zero), c) == Completed(k, |b| % 3, LastOf(b, k.zero), c)
  {
    if |b| == 3 {
    } else {
      LastDrop(b, 3, k.zero);
    }
  }

  lemma {:induction false} EmittedPush<B, S>(k: Code<B, S>, b: seq<B>, c: B)
    ensures Emitted(k, b + [c]) == Emitted(k, b) + Completed(k, |b| % 3, LastOf(b, k.zero), c)
    decreases |b|
  {
    if |b| < 3 {
    } else {
      var a, w := b[..3], b[3..];
      EmittedPush(k, w, c);
      EmittedThree(k, a, w);
      EmittedThree(k, a, w + [c]);
      assert a + w == b && a + (w + [c]) == b + [c];
      CompletedDrop(k, b, c);
      Associative(Emitted(k, a), Emitted(k, w), Completed(k, |b| % 3, LastOf(b, k.zero), c));
    }
  }

  /** The sextet of the bits left over behind r bytes of a group, the last one p. */
  function LeftOver<B, S>(k: Code<B, S>, r: nat, p: B): seq<S> {
    if r == 0 then [] else if r == 1 then [k.s2(p, k.zero)] else [k.s3(p, k.zero)]
  }

  lemma {:induction false} PackIsEmitted<B, S>(k: Code<B, S>, b: seq<B>)
    ensures Pack(k, b) == Emitted(k, b) + LeftOver(k, |b| % 3, LastOf(b, k.zero))
    decreases |b|
  {
    if |b| < 3 {
    } else {
      PackIsEmitted(k, b[3..]);
      if |b| == 3 {
      } else {
        LastDrop(b, 3, k.zero);
      }
    }
  }

  /** The byte that x completes behind p, as sextet number r of its group. */
  function Finished<B, S>(k: Code<B, S>, r: nat, p: S, x: S): seq<B> {
    if r == 0 then [] else if r == 1 then [k.o1(p, x)] else if r == 2 then [k.o2(p, x)] else [k.o3(p, x)]
  }

  lemma UnpackShort<B, S>(k: Code<B, S>, v: seq<S>, x: S, zero: S)
    requires |v| < 4
    ensures Unpack(k, v + [x]) == Unpack(k, v) + Finished(k, |v|, LastOf(v, zero), x)
  {
    if |v| == 3 {
      assert Unpack(k, (v + [x])[4..]) == [];
    }
  }

  lemma UnpackFour<B, S>(k: Code<B, S>, v: seq<S>, w: seq<S>)
    requires |v| == 4
    ensures Unpack(k, v + w) == Unpack(k, v) + Unpack(k, w)
  {
    assert (v + w)[4..] == w && v[4..] == [];
  }

  lemma FinishedDrop<B, S>(k: Code<B, S>, v: seq<S>, x: S, zero: S)
    requires |v| >= 4
    ensures Finished(k, |v[4..]| % 4, LastOf(v[4..], zero), x) == Finished(k, |v| % 4, LastOf(v, zero), x)
  {
    if |v| == 4 {
    } else {
      LastDrop(v, 4, zero);
    }
  }

  lemma {:induction false} UnpackPush<B, S>(k: Code<B, S>, v: seq<S>, x: S, zero: S)
    ensures Unpack(k, v + [x]) == Unpack(k, v) + Finished(k, |v| % 4, LastOf(v, zero), x)
    decreases |v|
  {
    if |v| < 4 {
      UnpackShort(k, v, x, zero);
    } else {
      var a, w := v[..4], v[4..];
      UnpackPush(k, w, x, zero);
      UnpackFour(k, a, w);
      UnpackFour(k, a, w + [x]);
      assert a + w == v && a + (w + [x]) == v + [x];
      FinishedDrop(k, v, x, zero);
      Associative(Unpack(k, a), Unpack(k, w), Finished(k, |v| % 4, LastOf(v, zero), x));
    }
  }
}

/** base64.hpp: bit accumulators in a 32-bit int, against the grouping of RFC 4648. */
module Base64 {
  import opened Bytes
  import opened Grouping

  const PAD: byte := 61 // '='

  type sextet = x: int | 0 <= x < 64

  /** The alphabet: A-Z, a-z, 0-9, '+', '/'. */
  function Symbol(v: sextet): byte {
    if v < 26 then 65 + v else if v < 52 then 71 + v else if v < 62 then v - 4 else if v == 62 then 43 else 47
  }

  function SymbolValue(c: byte): Option<sextet> {
    if 65 <= c <= 90 then Some(c - 65)
    else if 97 <= c <= 122 then Some(c - 71)
    else if 48 <= c <= 57 then Some(c + 4)
    else if c == 43 then Some(62)
    else if c == 47 then Some(63)
    else None
  }

  const UPPER: string := "ABCDEFGHIJKLMNOPQRSTUVWXYZ"
  const LOWER: string := "abcdefghijklmnopqrstuvwxyz"
  const DIGITS: string := "0123456789"

  /** Upper-case letters, lower-case letters, digits, '+' and '/', in this order. */
  lemma SymbolIs(v: sextet)
    ensures v < 26 ==> Symbol(v) as char == UPPER[v]
    ensures 26 <= v < 52 ==> Symbol(v) as char == LOWER[v - 26]
    ensures 52 <= v < 62 ==> Symbol(v) as char == DIGITS[v - 52]
    ensures v == 62 ==> Symbol(v) as char == '+'
    ensures v == 63 ==> Symbol(v) as char == '/'
  {
    if v < 26 {
      Consecutive(UPPER, 26, v);
    } else if v < 52 {
      Consecutive(LOWER, 26, v - 26);
    } else if v < 62 {
      Consecutive(DIGITS, 10, v - 52);
    }
  }

  /** Consecutive characters, counted from the first. */
  lemma {:induction false} Consecutive(s: string, n: nat, i: nat)
    requires i < n == |s| && forall k :: 0 < k < n ==> s[k] as int == s[k - 1] as int + 1
    ensures s[i] as int == s[0] as int + i
  {
    if i > 0 {
      Consecutive(s, n, i - 1);
    }
  }

  lemma SymbolBack(v: sextet)
    ensures SymbolValue(Symbol(v)) == Some(v)
  {
  }

  /** Exactly the symbols have values. */
  lemma SymbolValueIff(c: byte, v: sextet)
    ensures SymbolValue(c) == Some(v) <==> Symbol(v) == c
  {
  }

  function Symbols(v: seq<sextet>): (s: bytes)
    ensures |s| == |v|
  {
    seq(|v|, i requires 0 <= i < |v| => Symbol(v[i]))
  }

  lemma SymbolsConcat(v: seq<sextet>, w: seq<sextet>)
    ensures Symbols(v + w) == Symbols(v) + Symbols(w)
  {
  }

  // ---- section 4 of RFC 4648 ----

  function Sextet1(a: byte): sextet { a / 4 }
  function Sextet2(a: byte, b: byte): sextet { a % 4 * 16 + b / 16 }
  function Sextet3(b: byte, c: byte): sextet { b % 16 * 4 + c / 64 }
  function Sextet4(c: byte): sextet { c % 64 }
  function Octet1(a: sextet, b: sextet): byte { a * 4 + b / 16 }
  function Octet2(b: sextet, c: sextet): byte { b % 16 * 16 + c / 4 }
  function Octet3(c: sextet, d: sextet): byte { c % 4 * 64 + d }

  /** 24 bits as three bytes or four sextets, the highest bits first. */
  function Bits(): Code<byte, sextet> {
    Code(Sextet1, Sextet2, Sextet3, Sextet4, Octet1, Octet2, Octet3, 0)
  }

  lemma Back1(a: byte, b: byte)
    ensures Octet1(Sextet1(a), Sextet2(a, b)) == a
  {
    QuotientUnique(a % 4 * 16 + b / 16, 16, a % 4, b / 16);
  }

  lemma Back2(a: byte, b: byte, c: byte)
    ensures Octet2(Sextet2(a, b), Sextet3(b, c)) == b
  {
    QuotientUnique(a % 4 * 16 + b / 16, 16, a % 4, b / 16);
    QuotientUnique(b % 16 * 4 + c / 64, 4, b % 16, c / 64);
  }

  lemma Back3(b: byte, c: byte)
    ensures Octet3(Sextet3(b, c), Sextet4(c)) == c
  {
    QuotientUnique(b % 16 * 4 + c / 64, 4, b % 16, c / 64);
  }

  /** Three bytes and their four sextets are the same 24-bit number, the highest bits first. */
  lemma GroupIsOneNumber(a: byte, b: byte, c: byte)
    ensures a * 65536 + b * 256 + c ==
            Sextet1(a) * 262144 + Sextet2(a, b) * 4096 + Sextet3(b, c) * 64 + Sextet4(c)
  {
  }

  lemma BitsInverse()
    ensures Inverse(Bits())
  {
    var k := Bits();
    forall a: byte, b: byte ensures k.o1(k.s1(a), k.s2(a, b)) == a {
      Back1(a, b);
    }
    forall a: byte, b: byte, c: byte ensures k.o2(k.s2(a, b), k.s3(b, c)) == b {
      Back2(a, b, c);
    }
    forall b: byte, c: byte ensures k.o3(k.s3(b, c), k.s4(c)) == c {
      Back3(b, c);
    }
  }

  function Padding(n: nat): bytes {
    if n % 3 == 0 then [] else if n % 3 == 1 then [PAD, PAD] else [PAD]
  }

  /** The encoding: every sextet as a symbol, padded to whole groups. */
  function Encoding(b: bytes): bytes {
    Symbols(Pack(Bits(), b)) + Padding(|b|)
  }

  /** Four symbols per started group of three bytes. */
  lemma EncodingLength(b: bytes)
    ensures |Encoding(b)| == 4 * ((|b| + 2) / 3)
  {
    PackLength(Bits(), b);
  }

  /** The values of the symbols in front of the first byte outside the alphabet. */
  function Sextets(s: bytes): seq<sextet> {
    if s == [] || SymbolValue(s[0]).None? then [] else [SymbolValue(s[0]).value] + Sextets(s[1..])
  }

  function Decoding(s: bytes): bytes {
    Unpack(Bits(), Sextets(s))
  }

  // ---- the round trip ----

  lemma {:induction false} SextetsOf(v: seq<sextet>, t: bytes)
    requires Sextets(t) == []
    ensures Sextets(Symbols(v) + t) == v
  {
    var s := Symbols(v) + t;
    if v == [] {
      assert s == t;
    } else {
      SymbolBack(v[0]);
      SextetsOf(v[1..], t);
      assert s[1..] == Symbols(v[1..]) + t;
      assert [v[0]] + v[1..] == v;
    }
  }

  /** Decoding stops at the first byte that is no symbol. */
  lemma {:induction false} DecodingStops(s: bytes, c: byte, t: bytes)
    requires SymbolValue(c).None?
    ensures Decoding(s + ([c] + t)) == Decoding(s)
  {
    SextetsStop(s, c, t);
  }

  lemma {:induction false} SextetsStop(s: bytes, c: byte, t: bytes)
    requires SymbolValue(c).None?
    ensures Sextets(s + ([c] + t)) == Sextets(s)
  {
    var u := s + ([c] + t);
    if s != [] {
      SextetsStop(s[1..], c, t);
      assert u[0] == s[0] && u[1..] == s[1..] + ([c] + t);
    } else {
      assert u[0] == c;
    }
  }

  /** Decoding an encoding gives the bytes back. */
  lemma RoundTrip(b: bytes)
    ensures Decoding(Encoding(b)) == b
  {
    SextetsOf(Pack(Bits(), b), Padding(|b|));
    BitsInverse();
    UnpackPack(Bits(), b);
  }

  // ---- C++20 arithmetic on a 32-bit int ----

  /** Reduction to the range of int. */
  function Wrap32(x: int): int {
    (x + 0x8000_0000) % 0x1_0000_0000 - 0x8000_0000
  }

  function Pow2(n: nat): (p: nat)
    ensures p >= 1
  {
    if n == 0 then 1 else 2 * Pow2(n - 1)
  }

  lemma Pow2Values()
    ensures Pow2(0) == 1 && Pow2(2) == 4 && Pow2(4) == 16 && Pow2(6) == 64 && Pow2(8) == 256
  {
    assert Pow2(4) == 16;
    assert Pow2(6) == 4 * Pow2(4);
  }

  /** v << n, on a 32-bit int or on one without bounds. */
  function ShiftLeft(v: int, n: nat, wraps: bool): int {
    if wraps then Wrap32(v * Pow2(n)) else v * Pow2(n)
  }

  /** v >> n, arithmetic. */
  function ShiftRight(v: int, n: nat): int {
    v / Pow2(n)
  }

  /** A shifted accumulator is a multiple of 2^n whose low bits are those of the old one; a 32-bit
      one leaves room to add a value below 2^n. */
  lemma Shifted(v: int, n: nat, wraps: bool) returns (q: int)
    requires n == 6 || n == 8
    ensures ShiftLeft(v, n, wraps) == q * Pow2(n)
    ensures q % 4 == v % 4 && q % 16 == v % 16 && q % 64 == v % 64
    ensures wraps ==> -0x8000_0000 <= ShiftLeft(v, n, wraps) <= 0x8000_0000 - Pow2(n)
  {
    if wraps {
      q := Wrapped(v, n);
    } else {
      q := v;
    }
  }

  lemma Wrapped(v: int, n: nat) returns (q: int)
    requires n == 6 || n == 8
    ensures ShiftLeft(v, n, true) == q * Pow2(n)
    ensures q % 4 == v % 4 && q % 16 == v % 16 && q % 64 == v % 64
    ensures -0x8000_0000 <= ShiftLeft(v, n, true) <= 0x8000_0000 - Pow2(n)
  {
    Pow2Values();
    var x := v * Pow2(n);
    var k := (x + 0x8000_0000) / 0x1_0000_0000;
    var m := if n == 6 then 0x400_0000 else 0x100_0000;
    q := v - m * k;
    assert m * Pow2(n) == 0x1_0000_0000;
    assert Wrap32(x) == x - 0x1_0000_0000 * k;
    assert q * Pow2(n) == x - 0x1_0000_0000 * k;
    LowBits(v, q, m / 64 * k);
    assert q <= (if n == 6 then 0x1FF_FFFF else 0x7F_FFFF);
  }

  lemma LowBits(v: int, q: int, j: int)
    requires q == v - 64 * j
    ensures q % 4 == v % 4 && q % 16 == v % 16 && q % 64 == v % 64
  {
    QuotientUnique(q, 4, v / 4 - 16 * j, v % 4);
    QuotientUnique(q, 16, v / 16 - 4 * j, v % 16);
    QuotientUnique(q, 64, v / 64 - j, v % 64);
  }

  // ---- encode ----

  /** The sextets the inner loop writes. */
  function Drained(val: int, valb: int): seq<sextet>
    decreases valb + 6
  {
    if valb < 0 then [] else [ShiftRight(val, valb) % 64] + Drained(val, valb - 6)
  }

  lemma DrainedValues(v: int)
    ensures Drained(v, 2) == [v / 4 % 64]
    ensures Drained(v, 4) == [v / 16 % 64]
    ensures Drained(v, 6) == [v / 64 % 64, v % 64]
  {
    Pow2Values();
    assert Drained(v, 0) == [v % 64];
  }

  lemma Byte2(q: int, c: byte)
    ensures (256 * q + c) / 4 % 64 == c / 4
  {
    QuotientUnique(256 * q + c, 4, 64 * q + c / 4, c % 4);
    QuotientUnique(64 * q + c / 4, 64, q, c / 4);
  }

  lemma Byte4(q: int, c: byte)
    ensures (256 * q + c) / 16 % 64 == q % 4 * 16 + c / 16
  {
    QuotientUnique(256 * q + c, 16, 16 * q + c / 16, c % 16);
    QuotientUnique(16 * q + c / 16, 64, q / 4, q % 4 * 16 + c / 16);
  }

  lemma Byte6(q: int, c: byte)
    ensures (256 * q + c) / 64 % 64 == q % 16 * 4 + c / 64
    ensures (256 * q + c) % 64 == c % 64
  {
    QuotientUnique(256 * q + c, 64, 4 * q + c / 64, c % 64);
    QuotientUnique(4 * q + c / 64, 64, q / 16, q % 16 * 4 + c / 64);
  }

  lemma ByteLow(q: int, c: byte)
    ensures (256 * q + c) % 4 == c % 4 && (256 * q + c) % 16 == c % 16
  {
    QuotientUnique(256 * q + c, 4, 64 * q + c / 4, c % 4);
    QuotientUnique(256 * q + c, 16, 16 * q + c / 16, c % 16);
  }

  /** What the accumulator and its bit counter hold behind r bytes of a group, the last one p. */
  predicate HoldsBytes(val: int, valb: int, r: nat, p: byte) {
    && valb == 2 * r - 6
    && (r == 1 ==> val % 4 == p % 4)
    && (r == 2 ==> val % 16 == p % 16)
  }

  /** Shifting one byte in and draining emits what that byte completes. */
  lemma DrainedIs(val: int, r: nat, p: byte, c: byte, wraps: bool)
    requires r < 3 && HoldsBytes(val, 2 * r - 6, r, p)
    ensures Drained(ShiftLeft(val, 8, wraps) + c, 2 * r + 2) == Completed(Bits(), r, p, c)
  {
    Pow2Values();
    var q := Shifted(val, 8, wraps);
    var v := 256 * q + c;
    assert ShiftLeft(val, 8, wraps) + c == v;
    DrainedValues(v);
    if r == 0 {
      Byte2(q, c);
    } else if r == 1 {
      Byte4(q, c);
    } else {
      Byte6(q, c);
    }
  }

  function Next(r: nat, n: nat): nat {
    if r + 1 == n then 0 else r + 1
  }

  lemma HoldsNext(val: int, r: nat, c: byte, wraps: bool)
    requires r < 3
    ensures HoldsBytes(ShiftLeft(val, 8, wraps) + c, 2 * Next(r, 3) - 6, Next(r, 3), c)
  {
    Pow2Values();
    var q := Shifted(val, 8, wraps);
    assert ShiftLeft(val, 8, wraps) + c == 256 * q + c;
    ByteLow(q, c);
  }

  /** The inner loop. */
  method Drain(out: bytes, val: int, valb: int) returns (out': bytes, valb': int)
    requires valb in {2, 4, 6}
    ensures out' == out + Symbols(Drained(val, valb))
    ensures valb' == if valb == 6 then -6 else valb - 6
  {
    out', valb' := out, valb;
    ghost var done: seq<sextet> := [];
    while valb' >= 0
      invariant valb' == valb || valb' == valb - 6 || (valb == 6 && valb' == -6)
      invariant done + Drained(val, valb') == Drained(val, valb)
      invariant out' == out + Symbols(done)
    {
      var x := ShiftRight(val, valb') % 64;
      assert done + ([x] + Drained(val, valb' - 6)) == (done + [x]) + Drained(val, valb' - 6);
      SymbolsConcat(done, [x]);
      done := done + [x];
      out' := out' + [Symbol(x)];
      valb' := valb' - 6;
    }
    assert done + [] == done;
  }

  /** One round of the outer loop. */
  method PushByte(out: bytes, val: int, valb: int, c: byte, wraps: bool, ghost r: nat, ghost p: byte)
    returns (out': bytes, val': int, valb': int)
    requires r < 3 && HoldsBytes(val, valb, r, p)
    ensures out' == out + Symbols(Completed(Bits(), r, p, c))
    ensures HoldsBytes(val', valb', Next(r, 3), c)
  {
    DrainedIs(val, r, p, c, wraps);
    HoldsNext(val, r, c, wraps);
    val' := ShiftLeft(val, 8, wraps) + c;
    out', valb' := Drain(out, val', valb + 8);
  }

  lemma LeftOverIs(val: int, r: nat, p: byte, wraps: bool)
    requires 1 <= r < 3 && HoldsBytes(val, 2 * r - 6, r, p)
    ensures [ShiftRight(ShiftLeft(val, 8, wraps), 2 * r + 2) % 64] == LeftOver(Bits(), r, p)
  {
    Pow2Values();
    var q := Shifted(val, 8, wraps);
    if r == 1 {
      Byte4(q, 0);
    } else {
      Byte6(q, 0);
    }
  }

  /** The bits left over, filled up with zeros. */
  method Flush(out: bytes, val: int, valb: int, wraps: bool, ghost r: nat, ghost p: byte) returns (out': bytes)
    requires r < 3 && HoldsBytes(val, valb, r, p)
    ensures out' == out + Symbols(LeftOver(Bits(), r, p))
  {
    out' := out;
    if valb > -6 {
      LeftOverIs(val, r, p, wraps);
      out' := out' + [Symbol(ShiftRight(ShiftLeft(val, 8, wraps), valb + 8) % 64)];
    }
  }

  /** The padding loop completes the last group. */
  method PadUp(symbols: bytes, ghost pad: bytes, ghost groups: nat) returns (out: bytes)
    requires |symbols| + |pad| == 4 * groups && |pad| < 4
    requires forall i :: 0 <= i < |pad| ==> pad[i] == PAD
    ensures out == symbols + pad
  {
    out := symbols;
    ghost var n := 0;
    while |out| % 4 != 0
      invariant n <= |pad| && out == symbols + pad[..n]
      decreases |pad| - n
    {
      assert pad[..n + 1] == pad[..n] + [PAD];
      out := out + [PAD];
      n := n + 1;
    }
    assert pad[..n] == pad;
  }

  lemma NextPhase(n: nat)
    ensures (n + 1) % 3 == Next(n % 3, 3) && (n + 1) % 4 == Next(n % 4, 4)
  {
  }

  /** The loop over the bytes. */
  method PushBytes(b: bytes, wraps: bool) returns (out: bytes, val: int, valb: int)
    ensures out == Symbols(Emitted(Bits(), b)) && HoldsBytes(val, valb, |b| % 3, LastOf(b, 0))
  {
    out, val, valb := [], 0, -6;
    for i := 0 to |b|
      invariant out == Symbols(Emitted(Bits(), b[..i]))
      invariant HoldsBytes(val, valb, i % 3, LastOf(b[..i], 0))
    {
      ghost var seen, p := b[..i], LastOf(b[..i], 0);
      EmittedPush(Bits(), seen, b[i]);
      SymbolsConcat(Emitted(Bits(), seen), Completed(Bits(), i % 3, p, b[i]));
      out, val, valb := PushByte(out, val, valb, b[i], wraps, i % 3, p);
      NextPhase(i);
      assert b[..i + 1] == seen + [b[i]];
    }
    assert b[..|b|] == b;
  }

  /** The encoder of the source, whose int wraps at 32 bits, and one with an unbounded int: both
      write the encoding, leftover bits and padding included. */
  method Encode(b: bytes, wraps: bool) returns (out: bytes)
    ensures out == Encoding(b)
  {
    var val, valb;
    out, val, valb := PushBytes(b, wraps);
    PackIsEmitted(Bits(), b);
    SymbolsConcat(Emitted(Bits(), b), LeftOver(Bits(), |b| % 3, LastOf(b, 0)));
    out := Flush(out, val, valb, wraps, |b| % 3, LastOf(b, 0));
    EncodingLength(b);
    out := PadUp(out, Padding(|b|), (|b| + 2) / 3);
  }

  // ---- decode ----

  lemma SixBits4(q: int, x: sextet)
    ensures (64 * q + x) / 16 % 256 == q % 64 * 4 + x / 16
  {
    QuotientUnique(64 * q + x, 16, 4 * q + x / 16, x % 16);
    QuotientUnique(4 * q + x / 16, 256, q / 64, q % 64 * 4 + x / 16);
  }

  lemma SixBits2(q: int, x: sextet)
    ensures (64 * q + x) / 4 % 256 == q % 16 * 16 + x / 4
  {
    QuotientUnique(64 * q + x, 4, 16 * q + x / 4, x % 4);
    QuotientUnique(16 * q + x / 4, 256, q / 16, q % 16 * 16 + x / 4);
  }

  lemma SixBits0(q: int, x: sextet)
    ensures (64 * q + x) % 256 == q % 4 * 64 + x
  {
    QuotientUnique(64 * q + x, 256, q / 4, q % 4 * 64 + x);
  }

  lemma SixBitsLow(q: int, x: sextet)
    ensures (64 * q + x) % 4 == x % 4 && (64 * q + x) % 16 == x % 16 && (64 * q + x) % 64 == x
  {
    QuotientUnique(64 * q + x, 4, 16 * q + x / 4, x % 4);
    QuotientUnique(64 * q + x, 16, 4 * q + x / 16, x % 16);
    QuotientUnique(64 * q + x, 64, q, x);
  }

  /** valb behind r sextets of a group. */
  function OctetCounter(r: nat): int {
    if r == 0 then -8 else 0 - 2 * r
  }

  predicate HoldsSextets(val: int, valb: int, r: nat, p: sextet) {
    && valb == OctetCounter(r)
    && (r == 1 ==> val % 64 == p)
    && (r == 2 ==> val % 16 == p % 16)
    && (r == 3 ==> val % 4 == p % 4)
  }

  /** The byte the loop writes at counter n. */
  function Taken(w: int, n: int): bytes {
    if n < 0 then [] else [ShiftRight(w, n) % 256]
  }

  /** Shifting one sextet in completes the next byte. */
  lemma TakenIs(val: int, r: nat, p: sextet, x: sextet, wraps: bool)
    requires r < 4 && HoldsSextets(val, OctetCounter(r), r, p)
    ensures Taken(ShiftLeft(val, 6, wraps) + x, OctetCounter(r) + 6) == Finished(Bits(), r, p, x)
  {
    Pow2Values();
    var q := Shifted(val, 6, wraps);
    assert ShiftLeft(val, 6, wraps) + x == 64 * q + x;
    if r == 0 {
    } else if r == 1 {
      SixBits4(q, x);
    } else if r == 2 {
      SixBits2(q, x);
    } else {
      SixBits0(q, x);
    }
  }

  lemma HoldsNextSextet(val: int, r: nat, x: sextet, wraps: bool)
    requires r < 4
    ensures HoldsSextets(ShiftLeft(val, 6, wraps) + x, OctetCounter(Next(r, 4)), Next(r, 4), x)
  {
    Pow2Values();
    var q := Shifted(val, 6, wraps);
    assert ShiftLeft(val, 6, wraps) + x == 64 * q + x;
    SixBitsLow(q, x);
  }

  /** One round of the loop. */
  method PushSextet(out: bytes, val: int, valb: int, x: sextet, wraps: bool, ghost r: nat, ghost p: sextet)
    returns (out': bytes, val': int, valb': int)
    requires r < 4 && HoldsSextets(val, valb, r, p)
    ensures out' == out + Finished(Bits(), r, p, x)
    ensures HoldsSextets(val', valb', Next(r, 4), x)
  {
    TakenIs(val, r, p, x, wraps);
    HoldsNextSextet(val, r, x, wraps);
    val' := ShiftLeft(val, 6, wraps) + x;
    valb' := valb + 6;
    out' := out;
    if valb' >= 0 {
      out' := out' + [ShiftRight(val', valb') % 256];
      valb' := valb' - 8;
    }
  }

  lemma SextetsStep(s: bytes, i: nat, seen: seq<sextet>)
    requires i < |s| && SymbolValue(s[i]).Some?
    ensures seen + Sextets(s[i..]) == (seen + [SymbolValue(s[i]).value]) + Sextets(s[i + 1..])
  {
    assert s[i..][1..] == s[i + 1..];
  }

  /** The decoder, likewise. */
  method Decode(s: bytes, wraps: bool) returns (out: bytes)
    ensures out == Decoding(s)
  {
    out := [];
    var val, valb := 0, -8;
    ghost var seen: seq<sextet> := [];
    var i := 0;
    while i < |s| && SymbolValue(s[i]).Some?
      invariant i <= |s|
      invariant seen + Sextets(s[i..]) == Sextets(s)
      invariant out == Unpack(Bits(), seen)
      invariant HoldsSextets(val, valb, |seen| % 4, LastOf(seen, 0))
    {
      var x := SymbolValue(s[i]).value;
      ghost var r, p := |seen| % 4, LastOf(seen, 0);
      SextetsStep(s, i, seen);
      UnpackPush(Bits(), seen, x, 0);
      NextPhase(|seen|);
      out, val, valb := PushSextet(out, val, valb, x, wraps, r, p);
      seen := seen + [x];
      i := i + 1;
    }
    assert seen + [] == seen;
  }
}
