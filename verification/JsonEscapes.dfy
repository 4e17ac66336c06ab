/** What the \u escapes stand for. */
module JsonEscapes {
  import opened Bytes
  import opened JsonGrammar
  import opened JsonSyntax

  predicate Continues(c: byte) {
    0x80 <= c < 0xC0
  }

  /** The code a byte sequence of section 3 of RFC 3629 stands for, up to three bytes; an
      overlong form stands for nothing. */
  function Decoded(b: bytes): Option<nat> {
    if |b| == 1 && b[0] < 0x80 then Some(b[0])
    else if |b| == 2 && 0xC2 <= b[0] < 0xE0 && Continues(b[1]) then Some(Low(b[0], 0xC0) * 64 + Low(b[1], 0x80))
    else if |b| == 3 && 0xE0 <= b[0] < 0xF0 && Continues(b[1]) && Continues(b[2])
    then
      var n := Low(b[0], 0xE0) * 4096 + Low(b[1], 0x80) * 64 + Low(b[2], 0x80);
      if n < 0x800 then None else Some(n)
    else None
  }

  function Low(c: byte, mark: nat): nat
    requires mark <= c
  {
    c - mark
  }

  lemma Digits64(code: nat)
    requires code < 0x10000
    ensures code / 4096 * 4096 + code / 64 % 64 * 64 + code % 64 == code
  {
    var a := code / 64;
    QuotientUnique(code, 4096, a / 64, a % 64 * 64 + code % 64);
  }

  lemma Utf8Decodes(code: nat)
    requires code < 0x10000
    ensures Decoded(Utf8(code)) == Some(code)
  {
    Digits64(code);
  }

  /** A \u escape with any four hexadecimal digits, in either case, parses to the UTF-8 of the code
      they denote. */
  lemma UnicodeParses(a: byte, b: byte, c: byte, d: byte, t: bytes)
    requires GoodPiece(Code(a, b, c, d))
    ensures var r := EscapeSequence([117, a, b, c, d] + t);
            r.Ok? && r.rest == t && Decoded(r.value) == Some(CodeOf(a, b, c, d))
  {
    assert ([117, a, b, c, d] + t)[1..] == [a, b, c, d] + t;
    CodeReads(a, b, c, d, t);
    Utf8Decodes(CodeOf(a, b, c, d));
  }
}
