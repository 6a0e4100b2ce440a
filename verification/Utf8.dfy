/** UTF-8 (RFC 3629) as Go's unicode/utf8 reads and writes it. */
module Utf8 {
  import opened GoText

  type Scalar = r: int | (0 <= r < 0xD800) || (0xE000 <= r < 0x110000)

  const REPLACEMENT: Scalar := 0xFFFD

  function EncodeRune(r: Scalar): (s: Text)
    ensures 1 <= |s| <= 4
  {
    if r < 0x80 then [r]
    else if r < 0x800 then [0xC0 + r / 64, 0x80 + r % 64]
    else if r < 0x10000 then [0xE0 + r / 64 / 64, 0x80 + r / 64 % 64, 0x80 + r % 64]
    else [0xF0 + r / 64 / 64 / 64, 0x80 + r / 64 / 64 % 64, 0x80 + r / 64 % 64, 0x80 + r % 64]
  }

  /** The table of section 3: lead byte by length, then six bits to a byte. */
  lemma EncodeLayout(r: Scalar)
    ensures var e := EncodeRune(r);
            if r < 0x80 then e == [r]
            else if r < 0x800 then
              |e| == 2 && 0xC0 <= e[0] < 0xE0 && 0x80 <= e[1] < 0xC0 && r == Bits(e[0], 0xC0) * 64 + Bits(e[1], 0x80)
            else if r < 0x10000 then
              |e| == 3 && 0xE0 <= e[0] < 0xF0 && 0x80 <= e[1] < 0xC0 && 0x80 <= e[2] < 0xC0
              && r == Bits(e[0], 0xE0) * 4096 + Bits(e[1], 0x80) * 64 + Bits(e[2], 0x80)
            else
              |e| == 4 && 0xF0 <= e[0] < 0xF8 && 0x80 <= e[1] < 0xC0 && 0x80 <= e[2] < 0xC0 && 0x80 <= e[3] < 0xC0
              && r == Bits(e[0], 0xF0) * 262144 + Bits(e[1], 0x80) * 4096 + Bits(e[2], 0x80) * 64 + Bits(e[3], 0x80)
  {
  }

  predicate Continuation(b: byte) { 0x80 <= b < 0xC0 }

  /** The second bytes that Go's table of accept ranges allows after lead byte `lead`. */
  predicate SecondByte(lead: byte, b: byte) {
    if lead == 0xE0 then 0xA0 <= b < 0xC0
    else if lead == 0xED then 0x80 <= b < 0xA0
    else if lead == 0xF0 then 0x90 <= b < 0xC0
    else if lead == 0xF4 then 0x80 <= b < 0x90
    else Continuation(b)
  }

  datatype Rune = Rune(r: Scalar, size: nat) {
    /** utf8.RuneError with size one marks a byte that is not UTF-8. */
    predicate Bad() { r == REPLACEMENT && size == 1 }
  }

  function Bits(b: byte, base: int): int { b - base }

  function DecodeRune(s: Text): (d: Rune)
    requires s != []
    ensures 1 <= d.size <= |s|
  {
    var b := s[0];
    if b < 0x80 then Rune(b, 1)
    else if 0xC2 <= b < 0xE0 && |s| >= 2 && SecondByte(b, s[1]) then
      Rune(Bits(b, 0xC0) * 64 + Bits(s[1], 0x80), 2)
    else if 0xE0 <= b < 0xF0 && |s| >= 3 && SecondByte(b, s[1]) && Continuation(s[2]) then
      Rune((Bits(b, 0xE0) * 64 + Bits(s[1], 0x80)) * 64 + Bits(s[2], 0x80), 3)
    else if 0xF0 <= b < 0xF5 && |s| >= 4 && SecondByte(b, s[1]) && Continuation(s[2]) && Continuation(s[3]) then
      Rune(((Bits(b, 0xF0) * 64 + Bits(s[1], 0x80)) * 64 + Bits(s[2], 0x80)) * 64 + Bits(s[3], 0x80), 4)
    else Rune(REPLACEMENT, 1)
  }

  lemma DecodeEncode(r: Scalar, t: Text)
    ensures DecodeRune(EncodeRune(r) + t) == Rune(r, |EncodeRune(r)|)
  {
  }

  /** Whatever decodes without error is the encoding of what it decodes to: no overlong forms,
      no surrogates, nothing above U+10FFFF. */
  lemma EncodeDecode(s: Text)
    requires s != [] && !DecodeRune(s).Bad()
    ensures s[..DecodeRune(s).size] == EncodeRune(DecodeRune(s).r)
  {
    var b, d := s[0], DecodeRune(s);
    if b < 0x80 {
    } else if b < 0xE0 {
      assert d.r / 64 == b - 0xC0;
    } else if b < 0xF0 {
      assert d.r / 64 == Bits(b, 0xE0) * 64 + Bits(s[1], 0x80);
    } else {
      assert d.r / 64 == (Bits(b, 0xF0) * 64 + Bits(s[1], 0x80)) * 64 + Bits(s[2], 0x80);
      assert d.r / 64 / 64 == Bits(b, 0xF0) * 64 + Bits(s[1], 0x80);
    }
  }

  function EncodeAll(rs: seq<Scalar>): Text {
    if rs == [] then [] else EncodeRune(rs[0]) + EncodeAll(rs[1..])
  }

  ghost predicate ValidUtf8(s: Text) { exists rs: seq<Scalar> :: s == EncodeAll(rs) }

  /** What a loop of DecodeRune and EncodeRune makes of a string: each bad byte becomes U+FFFD. */
  function Sanitize(s: Text): Text {
    if s == [] then []
    else var d := DecodeRune(s); EncodeRune(d.r) + Sanitize(s[d.size..])
  }

  /** The runes of a string as a loop of DecodeRune sees them, bad bytes among them. */
  function Runes(s: Text): seq<Rune> {
    if s == [] then [] else var d := DecodeRune(s); [d] + Runes(s[d.size..])
  }

  lemma {:induction false} SanitizeEncoded(rs: seq<Scalar>)
    ensures Sanitize(EncodeAll(rs)) == EncodeAll(rs)
  {
    if rs != [] {
      var e := EncodeRune(rs[0]);
      var s := EncodeAll(rs);
      DecodeEncode(rs[0], EncodeAll(rs[1..]));
      assert s[|e|..] == EncodeAll(rs[1..]);
      SanitizeEncoded(rs[1..]);
    }
  }

  lemma {:induction false} SanitizeIsValid(s: Text) returns (rs: seq<Scalar>)
    ensures Sanitize(s) == EncodeAll(rs)
  {
    if s == [] { return []; }
    var d := DecodeRune(s);
    var tail := SanitizeIsValid(s[d.size..]);
    rs := [d.r] + tail;
  }

  /** Sanitizing changes nothing exactly on the strings that are UTF-8. */
  lemma SanitizeExact(s: Text)
    ensures ValidUtf8(Sanitize(s))
    ensures Sanitize(s) == s <==> ValidUtf8(s)
  {
    var rs := SanitizeIsValid(s);
    if ValidUtf8(s) {
      var us: seq<Scalar> :| s == EncodeAll(us);
      SanitizeEncoded(us);
    }
  }
}
