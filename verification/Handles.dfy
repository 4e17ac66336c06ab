/** Window handles as text: Hwnd::to_string and parse_hwnd. */
module Handles {
  import opened Bytes

  const PREFIX: bytes := [48, 120] // "0x"

  function UpperDigit(d: nat): byte
    requires d < 16
  {
    if d < 10 then 48 + d else 55 + d
  }

  /** Either case. */
  function DigitValue(c: byte): Option<nat> {
    if 48 <= c <= 57 then Some(c - 48)
    else if 65 <= c <= 70 then Some(c - 55)
    else if 97 <= c <= 102 then Some(c - 87)
    else None
  }

  predicate IsHex(s: bytes) {
    s == [] || (DigitValue(s[|s| - 1]).Some? && IsHex(s[..|s| - 1]))
  }

  function HexNumber(s: bytes): nat
    requires IsHex(s)
  {
    if s == [] then 0 else 16 * HexNumber(s[..|s| - 1]) + DigitValue(s[|s| - 1]).value
  }

  /** Upper-case hexadecimal without leading zeros. */
  function HexText(n: nat): (s: bytes)
    ensures s != []
  {
    if n < 16 then [UpperDigit(n)] else HexText(n / 16) + [UpperDigit(n % 16)]
  }

  function ToText(h: u64): bytes {
    PREFIX + HexText(h)
  }

  /** The prefix, then hexadecimal digits only: the text on which ParseHandle is parse_hwnd. */
  predicate IsHandleText(s: bytes) {
    PREFIX <= s && IsHex(s[2..])
  }

  /** Extraction fails without a digit and on a number of more than 64 bits. */
  function ParseHandle(s: bytes): Option<u64>
    requires PREFIX <= s ==> IsHex(s[2..])
  {
    if !(PREFIX <= s) || s == PREFIX then None
    else
      var n := HexNumber(s[2..]);
      if n < TWO64 then Some(n) else None
  }

  /** parse_hwnd: what stream extraction makes of anything behind the prefix other than
      hexadecimal digits is left open. */
  function ParseHwnd(s: bytes, quirks: bytes -> Option<u64>): Option<u64> {
    if PREFIX <= s && !IsHandleText(s) then quirks(s) else ParseHandle(s)
  }

  lemma {:induction false} HexBack(n: nat)
    ensures IsHex(HexText(n)) && HexNumber(HexText(n)) == n
  {
    var s := HexText(n);
    if n >= 16 {
      HexBack(n / 16);
      assert s[..|s| - 1] == HexText(n / 16);
    } else {
      assert s[..0] == [];
    }
  }

  /** Only 0-9 and A-F, and no leading zero but in "0x0". */
  lemma {:induction false} HexTextShape(n: nat)
    ensures forall i :: 0 <= i < |HexText(n)| ==> 48 <= HexText(n)[i] <= 57 || 65 <= HexText(n)[i] <= 70
    ensures HexText(n)[0] == 48 ==> HexText(n) == [48] && n == 0
  {
    if n >= 16 {
      HexTextShape(n / 16);
    }
  }

  /** parse_hwnd undoes to_string on every 64-bit handle. */
  lemma HandleRoundTrip(h: u64)
    ensures IsHandleText(ToText(h)) && ParseHandle(ToText(h)) == Some(h)
  {
    HexBack(h);
    assert ToText(h)[2..] == HexText(h);
  }

  // ---- which texts denote a handle ----

  function Upper(c: byte): byte {
    if 97 <= c <= 102 then c - 32 else c
  }

  function Uppered(s: bytes): (u: bytes)
    ensures |u| == |s|
  {
    seq(|s|, i requires 0 <= i < |s| => Upper(s[i]))
  }

  /** Without leading zeros, but for the last digit. */
  function Stripped(s: bytes): bytes {
    if |s| > 1 && s[0] == 48 then Stripped(s[1..]) else s
  }

  lemma {:induction false} StrippedPush(s: bytes, c: byte)
    requires s != []
    ensures Stripped(s + [c]) == if Stripped(s) == [48] then [c] else Stripped(s) + [c]
  {
    assert (s + [c])[1..] == s[1..] + [c];
    if s[0] == 48 {
      if |s| == 1 {
        assert s == [48] && s[1..] + [c] == [c];
      } else {
        StrippedPush(s[1..], c);
      }
    }
  }

  /** The canonical text of the number a digit string denotes is that string in upper case without
      leading zeros. */
  lemma {:induction false} Canonical(d: bytes)
    requires IsHex(d) && d != []
    ensures HexText(HexNumber(d)) == Stripped(Uppered(d))
    decreases |d|
  {
    var e, c := d[..|d| - 1], d[|d| - 1];
    var v := DigitValue(c).value;
    assert d == e + [c] && Uppered(d) == Uppered(e) + [Upper(c)];
    assert UpperDigit(v) == Upper(c);
    if e == [] {
      assert Uppered(d) == [Upper(c)];
    } else {
      Canonical(e);
      StrippedPush(Uppered(e), Upper(c));
      PushDigit(HexNumber(e), v);
      HexTextShape(HexNumber(e));
      assert HexText(0) == [48];
    }
  }

  lemma PushDigit(n: nat, v: nat)
    requires v < 16
    ensures HexText(16 * n + v) == if n == 0 then [UpperDigit(v)] else HexText(n) + [UpperDigit(v)]
  {
    QuotientUnique(16 * n + v, 16, n, v);
  }

  /** parse_hwnd accepts h written in hexadecimal with any leading zeros and in either case, and
      nothing else: a digit string is read as h if and only if it is h's own text up to those. In
      particular no digit string of a number beyond 64 bits is read as any handle. */
  lemma ParseHandleIff(d: bytes, h: u64)
    requires IsHex(d)
    ensures (PREFIX + d)[2..] == d
    ensures ParseHandle(PREFIX + d) == Some(h) <==> d != [] && PREFIX + Stripped(Uppered(d)) == ToText(h)
  {
    assert (PREFIX + d)[2..] == d;
    HexBack(h);
    if d != [] {
      Canonical(d);
      HexBack(HexNumber(d));
      assert (PREFIX + Stripped(Uppered(d)))[2..] == Stripped(Uppered(d)) && ToText(h)[2..] == HexText(h);
    }
  }
}
