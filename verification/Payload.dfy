/** What stands in a written payload, byte by byte. */
module Payload {
  import opened GoText
  import opened Utf8
  import opened Json
  import opened Trim
  import Base64Url
  import Token

  /** The three parts of a token and the dots between them. */
  lemma TokenText(mac: Token.Mac, c: Token.Claims, secret: Text)
    requires TrimSpace(secret) != []
    ensures var payload := Base64Url.Encode(Token.Marshal(c));
            Token.GenerateToken(mac, c, secret)
            == Token.Generated(Ascii("v1.") + payload + Ascii(".") + Base64Url.Encode(mac(secret, payload)))
  {
    assert Ascii("v1.") == Token.VERSION + [DOT] && Ascii(".") == [DOT];
  }

  // ---- no HTML, no control bytes, no JavaScript line separators ----

  /** Not `<`, `>` or `&`, and no control byte. */
  predicate PlainByte(b: byte) { b >= 32 && b != 60 && b != 62 && b != 38 }

  /** U+2028 or U+2029 in UTF-8 stands at `i`. */
  predicate SeparatorAt(t: Text, i: nat) {
    i + 2 < |t| && t[i] == 0xE2 && t[i + 1] == 0x80 && (t[i + 2] == 0xA8 || t[i + 2] == 0xA9)
  }

  ghost predicate Harmless(t: Text) {
    (forall i | 0 <= i < |t| :: PlainByte(t[i])) && forall i: nat :: !SeparatorAt(t, i)
  }

  /** A separator never spans two texts when the second starts with no continuation byte. */
  lemma HarmlessConcat(a: Text, b: Text)
    requires Harmless(a) && Harmless(b) && (b == [] || !(0x80 <= b[0] < 0xC0))
    ensures Harmless(a + b)
  {
    var t := a + b;
    forall i: nat ensures !SeparatorAt(t, i) {
      assert i >= |a| && SeparatorAt(t, i) ==> SeparatorAt(b, i - |a|);
      assert i + 2 < |a| && SeparatorAt(t, i) ==> SeparatorAt(a, i);
      assert b != [] ==> t[|a|] == b[0];
    }
  }

  ghost predicate Low(t: Text) { forall i | 0 <= i < |t| :: PlainByte(t[i]) && t[i] < 0x80 }

  lemma LowHarmless(t: Text)
    requires Low(t)
    ensures Harmless(t)
  {
  }

  lemma AsciiLow(b: byte)
    requires b < 0x80
    ensures Low(EscapeAscii(b))
  {
    assert b >= 32 || |EscapeAscii(b)| > 1;
  }

  lemma UnicodeLow(u: int)
    requires 0 <= u < 0x10000
    ensures Low(UnicodeEscape(u))
  {
  }

  lemma EscapedHarmless(s: Text)
    requires s != []
    ensures Harmless(Escaped(DecodeRune(s))) && !(0x80 <= Escaped(DecodeRune(s))[0] < 0xC0)
  {
    var d := DecodeRune(s);
    if d.r < 0x80 {
      AsciiLow(d.r);
      LowHarmless(EscapeAscii(d.r));
    } else if d.Bad() || d.r == 0x2028 || d.r == 0x2029 {
      UnicodeLow(if d.Bad() then 0xFFFD else d.r);
      LowHarmless(EscapeRune(d));
    } else {
      WideHarmless(d.r);
    }
  }

  lemma WideHarmless(r: Scalar)
    requires r >= 0x80 && r != 0x2028 && r != 0x2029
    ensures Harmless(EncodeRune(r)) && EncodeRune(r)[0] >= 0xC0
  {
    DecodeEncode(r, []);
    assert EncodeRune(r) + [] == EncodeRune(r);
  }

  lemma {:induction false} BodyHarmless(s: Text)
    ensures Harmless(EncodeBody(s)) && (EncodeBody(s) == [] || !(0x80 <= EncodeBody(s)[0] < 0xC0))
  {
    if s != [] {
      var d := DecodeRune(s);
      BodyStep(s);
      EscapedHarmless(s);
      BodyHarmless(s[d.size..]);
      HarmlessConcat(Escaped(d), EncodeBody(s[d.size..]));
    }
  }

  lemma StringHarmless(s: Text)
    ensures Harmless(EncodeString(s)) && EncodeString(s)[0] == QUOTE
  {
    BodyHarmless(s);
    HarmlessConcat([QUOTE], EncodeBody(s));
    HarmlessConcat([QUOTE] + EncodeBody(s), [QUOTE]);
  }

  // ---- the payload as one text ----

  lemma Opens(open: byte, key: Text, head: Text, value: Text, rest: Text)
    requires head == [open] + [QUOTE] + key + [QUOTE, 58]
    ensures [open] + (Token.Field(key, value) + rest) == head + (value + rest)
  {
  }

  lemma Nested(c: Token.Claims)
    ensures Token.Marshal(c)
         == [123] + (Token.Field(Token.SUB, EncodeString(c.subject))
            + ([44] + (Token.Field(Token.EMAIL, EncodeString(c.email))
            + ([44] + (Token.Field(Token.NAME, EncodeString(c.name))
            + ([44] + (Token.Field(Token.EXP, Decimal(c.expires)) + [125])))))))
  {
    var fs, last := Token.Strings(c), Token.ExpiryText(c);
    assert fs[1..][1..] == fs[2..] && fs[2..][1..] == fs[3..] && fs[3..] == [];
    assert Token.StringFields(fs[3..], last) == last;
    var r2 := [44] + (Token.Field(Token.NAME, EncodeString(c.name)) + ([44] + last));
    assert Token.StringFields(fs[2..], last) == Token.Field(Token.NAME, EncodeString(c.name)) + ([44] + last);
    assert Token.StringFields(fs[1..], last) == Token.Field(Token.EMAIL, EncodeString(c.email)) + r2;
  }

  /** The object with its four members in their order. */
  lemma MarshalText(c: Token.Claims)
    ensures Token.Marshal(c)
         == Ascii("{\"sub\":") + (EncodeString(c.subject)
            + (Ascii(",\"email\":") + (EncodeString(c.email)
            + (Ascii(",\"name\":") + (EncodeString(c.name)
            + (Ascii(",\"exp\":") + (Decimal(c.expires) + Ascii("}"))))))))
  {
    var r3 := [44] + (Token.Field(Token.EXP, Decimal(c.expires)) + [125]);
    var r2 := [44] + (Token.Field(Token.NAME, EncodeString(c.name)) + r3);
    var r1 := [44] + (Token.Field(Token.EMAIL, EncodeString(c.email)) + r2);
    Nested(c);
    Heads();
    Opens(123, Token.SUB, Ascii("{\"sub\":"), EncodeString(c.subject), r1);
    Opens(44, Token.EMAIL, Ascii(",\"email\":"), EncodeString(c.email), r2);
    Opens(44, Token.NAME, Ascii(",\"name\":"), EncodeString(c.name), r3);
    Opens(44, Token.EXP, Ascii(",\"exp\":"), Decimal(c.expires), [125]);
  }

  lemma Heads()
    ensures Ascii("{\"sub\":") == [123] + [QUOTE] + Token.SUB + [QUOTE, 58]
    ensures Ascii(",\"email\":") == [44] + [QUOTE] + Token.EMAIL + [QUOTE, 58]
    ensures Ascii(",\"name\":") == [44] + [QUOTE] + Token.NAME + [QUOTE, 58]
    ensures Ascii(",\"exp\":") == [44] + [QUOTE] + Token.EXP + [QUOTE, 58]
    ensures Ascii("}") == [125]
  {
  }

  lemma StringThen(head: Text, s: Text, tail: Text)
    requires head != [] && Low(head) && Harmless(tail) && (tail == [] || tail[0] < 0x80)
    ensures var t := head + (EncodeString(s) + tail); Harmless(t) && t[0] < 0x80
  {
    StringHarmless(s);
    LowHarmless(head);
    HarmlessConcat(EncodeString(s), tail);
    HarmlessConcat(head, EncodeString(s) + tail);
  }

  lemma NumberLow(n: int)
    ensures Low(Decimal(n))
  {
  }

  lemma HeadsLow()
    ensures Low(Ascii("{\"sub\":")) && Low(Ascii(",\"email\":")) && Low(Ascii(",\"name\":"))
  {
  }

  lemma LastHarmless(n: int)
    ensures Harmless(Ascii(",\"exp\":") + (Decimal(n) + Ascii("}")))
  {
    NumberLow(n);
    LowHarmless(Ascii(",\"exp\":") + (Decimal(n) + Ascii("}")));
  }

  /** Nowhere in a payload, whatever the claims: no `<`, `>` or `&`, no control byte, and neither of the
      line separators of JavaScript. */
  lemma PayloadHarmless(c: Token.Claims)
    ensures Harmless(Token.Marshal(c))
  {
    var t4 := Ascii(",\"exp\":") + (Decimal(c.expires) + Ascii("}"));
    var t3 := Ascii(",\"name\":") + (EncodeString(c.name) + t4);
    var t2 := Ascii(",\"email\":") + (EncodeString(c.email) + t3);
    MarshalText(c);
    HeadsLow();
    LastHarmless(c.expires);
    StringThen(Ascii(",\"name\":"), c.name, t4);
    StringThen(Ascii(",\"email\":"), c.email, t3);
    StringThen(Ascii("{\"sub\":"), c.subject, t2);
  }

  // ---- every rune of a string ----

  const HEX: Text := Ascii("0123456789abcdef")

  /** `\u` and the number in four lower-case hex digits. */
  function Unicode(u: int): Text
    requires 0 <= u < 0x10000
  {
    Ascii("\\u") + [HEX[u / 16 / 16 / 16], HEX[u / 16 / 16 % 16], HEX[u / 16 % 16], HEX[u % 16]]
  }

  lemma HexLetter(d: int)
    requires 0 <= d < 16
    ensures HexDigit(d) == HEX[d]
  {
  }

  lemma UnicodeWritten(u: int)
    requires 0 <= u < 0x10000
    ensures UnicodeEscape(u) == Unicode(u)
  {
    HexLetter(u / 16 / 16 / 16);
    HexLetter(u / 16 / 16 % 16);
    HexLetter(u / 16 % 16);
    HexLetter(u % 16);
  }

  function ShortForm(b: byte): Option<Text> {
    if b == 34 then Some(Ascii("\\\"")) else if b == 92 then Some(Ascii("\\\\"))
    else if b == 8 then Some(Ascii("\\b")) else if b == 9 then Some(Ascii("\\t"))
    else if b == 10 then Some(Ascii("\\n")) else if b == 12 then Some(Ascii("\\f"))
    else if b == 13 then Some(Ascii("\\r")) else None
  }

  lemma ShortWritten(b: byte)
    requires b < 0x80 && ShortForm(b).Some?
    ensures EscapeAscii(b) == ShortForm(b).value
  {
  }

  lemma LongWritten(b: byte)
    requires b < 0x80 && ShortForm(b).None?
    ensures EscapeAscii(b) == if b < 32 || b == 60 || b == 62 || b == 38 then Unicode(b) else [b]
  {
    if !HtmlSafe(b) { UnicodeWritten(b); }
  }

  /** ASCII stands for itself but for the quote, the backslash, the three letters of HTML and control
      bytes; five of these have a short escape. */
  lemma AsciiWritten(b: byte, t: Text)
    requires b < 0x80
    ensures EncodeBody([b] + t)
         == (if ShortForm(b).Some? then ShortForm(b).value
             else if b < 32 || b == 60 || b == 62 || b == 38 then Unicode(b)
             else [b])
            + EncodeBody(t)
  {
    assert ([b] + t)[1..] == t;
    if ShortForm(b).Some? { ShortWritten(b); } else { LongWritten(b); }
  }

  /** A rune beyond ASCII stands for itself, the two line separators but escaped. */
  lemma RuneWritten(r: Scalar, t: Text)
    requires r >= 0x80
    ensures EncodeBody(EncodeRune(r) + t)
         == (if r == 0x2028 || r == 0x2029 then Unicode(r) else EncodeRune(r)) + EncodeBody(t)
  {
    DecodeEncode(r, t);
    assert (EncodeRune(r) + t)[|EncodeRune(r)|..] == t;
    UnicodeWritten(if r < 0x10000 then r else 0);
    assert (EncodeRune(r) + t)[0] >= 0x80;
  }

  /** A byte that is not UTF-8 is written as an escaped U+FFFD. */
  lemma BadWritten(s: Text)
    requires s != [] && DecodeRune(s).Bad()
    ensures EncodeBody(s) == Unicode(0xFFFD) + EncodeBody(s[1..])
  {
    UnicodeWritten(0xFFFD);
  }
}
