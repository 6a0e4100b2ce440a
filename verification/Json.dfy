/** JSON (RFC 8259) as encoding/json of Go 1.25 writes strings and reads whole documents. */
module Json {
  import opened GoText
  import opened Utf8

  const QUOTE: byte := 34
  const BACKSLASH: byte := 92
  const MAX_NESTING := 10000

  datatype Json =
    | Null
    | Bool(b: bool)
    | Number(literal: Text)
    | Str(s: Text)
    | Arr(items: seq<Json>)
    | Obj(fields: seq<(Text, Json)>)

  /** A parsed value together with the input that follows it. */
  datatype Parsed<+T> = Fail | Ok(value: T, rest: Text)

  // ---- strings: writing ----

  function HexDigit(d: int): byte
    requires 0 <= d < 16
  {
    if d < 10 then 48 + d else 87 + d
  }

  /** `\u` and four lower-case hex digits. */
  function UnicodeEscape(u: int): (s: Text)
    requires 0 <= u < 0x10000
    ensures |s| == 6
  {
    [BACKSLASH, 117, HexDigit(u / 16 / 16 / 16), HexDigit(u / 16 / 16 % 16), HexDigit(u / 16 % 16), HexDigit(u % 16)]
  }

  predicate HtmlSafe(b: byte) {
    0x20 <= b < 0x80 && b != QUOTE && b != BACKSLASH && b != 60 && b != 62 && b != 38
  }

  function EscapeAscii(b: byte): (s: Text)
    requires b < 0x80
    ensures |s| > 0
  {
    if HtmlSafe(b) then [b]
    else if b == BACKSLASH || b == QUOTE then [BACKSLASH, b]
    else if b == 8 then [BACKSLASH, 98]
    else if b == 12 then [BACKSLASH, 102]
    else if b == 10 then [BACKSLASH, 110]
    else if b == 13 then [BACKSLASH, 114]
    else if b == 9 then [BACKSLASH, 116]
    else UnicodeEscape(b)
  }

  /** One rune of two bytes or more: bad bytes and the two JavaScript line separators are escaped. */
  function EscapeRune(d: Rune): Text {
    if d.Bad() then UnicodeEscape(0xFFFD)
    else if d.r == 0x2028 || d.r == 0x2029 then UnicodeEscape(d.r)
    else EncodeRune(d.r)
  }

  function EncodeBody(s: Text): Text {
    if s == [] then []
    else if s[0] < 0x80 then EscapeAscii(s[0]) + EncodeBody(s[1..])
    else var d := DecodeRune(s); EscapeRune(d) + EncodeBody(s[d.size..])
  }

  function EncodeString(s: Text): Text {
    [QUOTE] + EncodeBody(s) + [QUOTE]
  }

  // ---- strings: reading ----

  function HexValue(b: byte): (v: Option<int>)
    ensures v.Some? ==> 0 <= v.value < 16
  {
    if 48 <= b <= 57 then Some(Num(b) - 48)
    else if 97 <= b <= 102 then Some(Num(b) - 87)
    else if 65 <= b <= 70 then Some(Num(b) - 55)
    else None
  }

  /** The code unit of a leading `\uXXXX`, if there is one. */
  function CodeUnit(s: Text): (u: Option<int>)
    ensures u.Some? ==> 0 <= u.value < 0x10000 && |s| >= 6
  {
    if |s| < 6 || s[0] != BACKSLASH || s[1] != 117 then None
    else
      match (HexValue(s[2]), HexValue(s[3]), HexValue(s[4]), HexValue(s[5]))
      case (Some(a), Some(b), Some(c), Some(d)) => Some(((a * 16 + b) * 16 + c) * 16 + d)
      case _ => None
  }

  /** What follows a backslash, as a decoded text and the number of input bytes it took.
      A surrogate that has no partner decodes to U+FFFD. */
  function Unescape(s: Text): (u: Option<(Text, nat)>)
    requires s != [] && s[0] == BACKSLASH
    ensures u.Some? ==> 2 <= u.value.1 <= |s|
  {
    if |s| < 2 then None
    else if s[1] == QUOTE || s[1] == BACKSLASH || s[1] == SLASH then Some(([s[1]], 2))
    else if s[1] == 98 then Some(([8], 2))
    else if s[1] == 102 then Some(([12], 2))
    else if s[1] == 110 then Some(([10], 2))
    else if s[1] == 114 then Some(([13], 2))
    else if s[1] == 116 then Some(([9], 2))
    else
      match CodeUnit(s)
      case None => None
      case Some(u) =>
        if !(0xD800 <= u < 0xE000) then Some((EncodeRune(u), 6))
        else
          match CodeUnit(s[6..])
          case Some(v) =>
            if u < 0xDC00 && 0xDC00 <= v < 0xE000
            then Some((EncodeRune((u - 0xD800) * 1024 + (v - 0xDC00) + 0x10000), 12))
            else Some((EncodeRune(REPLACEMENT), 6))
          case None => Some((EncodeRune(REPLACEMENT), 6))
  }

  function After(t: Text, p: Parsed<Text>): Parsed<Text> {
    match p
    case Fail => Fail
    case Ok(v, rest) => Ok(t + v, rest)
  }

  /** Reads up to and including the closing quote. Go scans the literal first and decodes it
      afterwards; the closing quote is neither a hex digit nor a continuation byte, so reading
      in one pass gives the same text. */
  function ParseBody(s: Text): (p: Parsed<Text>)
    ensures p.Ok? ==> |p.rest| < |s|
  {
    if s == [] || s[0] < 0x20 then Fail
    else if s[0] == QUOTE then Ok([], s[1..])
    else if s[0] == BACKSLASH then
      match Unescape(s)
      case None => Fail
      case Some((t, n)) => After(t, ParseBody(s[n..]))
    else if s[0] < 0x80 then After([s[0]], ParseBody(s[1..]))
    else var d := DecodeRune(s); After(EncodeRune(d.r), ParseBody(s[d.size..]))
  }

  // ---- numbers ----

  function CountDigits(s: Text): (n: nat)
    ensures n <= |s|
  {
    if s == [] || !IsDigit(s[0]) then 0 else 1 + CountDigits(s[1..])
  }

  /** Length of the exponent at the head of `s`, or None where digits are missing. */
  function ExponentLength(s: Text): (n: Option<nat>)
    ensures n.Some? ==> n.value <= |s|
  {
    if s == [] || (s[0] != 101 && s[0] != 69) then Some(0)
    else
      var sign := if |s| > 1 && (s[1] == 43 || s[1] == DASH) then 2 else 1;
      var e := CountDigits(s[sign..]);
      if e == 0 then None else Some(sign + e)
  }

  /** Length of the fraction and exponent at the head of `s`, or None where digits are missing. */
  function TailLength(s: Text): (n: Option<nat>)
    ensures n.Some? ==> n.value <= |s|
  {
    if s == [] || s[0] != DOT then ExponentLength(s)
    else
      var f := CountDigits(s[1..]);
      if f == 0 then None
      else
        match ExponentLength(s[1 + f..])
        case None => None
        case Some(e) => Some(1 + f + e)
  }

  /** Length of the integer part, which starts with no zero unless it is one. */
  function WholeLength(s: Text): (n: nat)
    ensures n <= |s|
  {
    if s != [] && s[0] == ZERO then 1 else CountDigits(s)
  }

  function UnsignedLength(s: Text): (n: Option<nat>)
    ensures n.Some? ==> 0 < n.value <= |s|
  {
    var i := WholeLength(s);
    if i == 0 then None
    else
      match TailLength(s[i..])
      case None => None
      case Some(t) => Some(i + t)
  }

  function NumberLength(s: Text): (n: Option<nat>)
    ensures n.Some? ==> 0 < n.value <= |s|
  {
    if s != [] && s[0] == DASH then
      match UnsignedLength(s[1..])
      case None => None
      case Some(n) => Some(1 + n)
    else UnsignedLength(s)
  }

  // ---- documents ----

  predicate IsSpace(b: byte) { b == 32 || b == 9 || b == 10 || b == 13 }

  function SkipSpace(s: Text): (t: Text)
    ensures |t| <= |s|
  {
    if s != [] && IsSpace(s[0]) then SkipSpace(s[1..]) else s
  }

  /** `depth` counts the arrays and objects that enclose the value. */
  function ParseValue(input: Text, depth: nat): (p: Parsed<Json>)
    ensures p.Ok? ==> |p.rest| < |input|
    decreases |input|, 1
  {
    var s := SkipSpace(input);
    if s == [] then Fail
    else if s[0] == 123 || s[0] == 91 then
      if depth >= MAX_NESTING then Fail else ParseNested(s, depth + 1)
    else ParseScalar(s)
  }

  function ParseNested(s: Text, depth: nat): (p: Parsed<Json>)
    requires s != []
    ensures p.Ok? ==> |p.rest| < |s|
    decreases |s|, 0
  {
    var t := SkipSpace(s[1..]);
    if s[0] == 123 then
      if t != [] && t[0] == 125 then Ok(Obj([]), t[1..])
      else
        match ParseMembers(t, depth)
        case Fail => Fail
        case Ok(fs, rest) => Ok(Obj(fs), rest)
    else
      if t != [] && t[0] == 93 then Ok(Arr([]), t[1..])
      else
        match ParseItems(t, depth)
        case Fail => Fail
        case Ok(items, rest) => Ok(Arr(items), rest)
  }

  function ParseScalar(s: Text): (p: Parsed<Json>)
    requires s != []
    ensures p.Ok? ==> |p.rest| < |s|
  {
    if s[0] == QUOTE then
      match ParseBody(s[1..])
      case Fail => Fail
      case Ok(t, rest) => Ok(Str(t), rest)
    else if s[0] == 116 then Word(s, [116, 114, 117, 101], Bool(true))
    else if s[0] == 102 then Word(s, [102, 97, 108, 115, 101], Bool(false))
    else if s[0] == 110 then Word(s, [110, 117, 108, 108], Null)
    else ParseNumber(s)
  }

  function Word(s: Text, word: Text, v: Json): (p: Parsed<Json>)
    requires word != []
    ensures p.Ok? ==> |p.rest| < |s|
  {
    if word <= s then Ok(v, s[|word|..]) else Fail
  }

  function ParseNumber(s: Text): (p: Parsed<Json>)
    ensures p.Ok? ==> |p.rest| < |s|
  {
    match NumberLength(s)
    case None => Fail
    case Some(n) => Ok(Number(s[..n]), s[n..])
  }

  /** Members separated by commas, up to and including the closing brace. */
  function ParseMembers(input: Text, depth: nat): (p: Parsed<seq<(Text, Json)>>)
    ensures p.Ok? ==> |p.rest| < |input|
    decreases |input|, 3
  {
    match ParseMember(input, depth)
    case Fail => Fail
    case Ok(f, rest) =>
      var s := SkipSpace(rest);
      if s != [] && s[0] == 125 then Ok([f], s[1..])
      else if s != [] && s[0] == 44 then
        match ParseMembers(s[1..], depth)
        case Fail => Fail
        case Ok(fs, rest') => Ok([f] + fs, rest')
      else Fail
  }

  function ParseMember(input: Text, depth: nat): (p: Parsed<(Text, Json)>)
    ensures p.Ok? ==> |p.rest| < |input|
    decreases |input|, 2
  {
    var s := SkipSpace(input);
    if s == [] || s[0] != QUOTE then Fail
    else
      match ParseBody(s[1..])
      case Fail => Fail
      case Ok(key, rest) =>
        var t := SkipSpace(rest);
        if t == [] || t[0] != 58 then Fail
        else
          match ParseValue(t[1..], depth)
          case Fail => Fail
          case Ok(v, rest') => Ok((key, v), rest')
  }

  function ParseItems(input: Text, depth: nat): (p: Parsed<seq<Json>>)
    ensures p.Ok? ==> |p.rest| < |input|
    decreases |input|, 3
  {
    match ParseValue(input, depth)
    case Fail => Fail
    case Ok(v, rest) =>
      var s := SkipSpace(rest);
      if s != [] && s[0] == 93 then Ok([v], s[1..])
      else if s != [] && s[0] == 44 then
        match ParseItems(s[1..], depth)
        case Fail => Fail
        case Ok(vs, rest') => Ok([v] + vs, rest')
      else Fail
  }

  function ParseDocument(s: Text): Option<Json> {
    match ParseValue(s, 0)
    case Fail => None
    case Ok(v, rest) => if SkipSpace(rest) == [] then Some(v) else None
  }

  // ---- what is written is read back ----

  lemma CodeUnitBack(u: int, t: Text)
    requires 0 <= u < 0x10000
    ensures CodeUnit(UnicodeEscape(u) + t) == Some(u)
  {
  }

  lemma EscapeAsciiBack(b: byte, t: Text)
    requires b < 0x80
    ensures ParseBody(EscapeAscii(b) + t) == After([b], ParseBody(t))
  {
    var e := EscapeAscii(b);
    var s := e + t;
    assert s[0] == e[0] && s[|e|..] == t;
    if !HtmlSafe(b) {
      assert s[1] == e[1];
      if |e| == 6 { CodeUnitBack(b, t); }
    }
  }

  lemma EscapeRuneBack(s: Text, t: Text)
    requires s != [] && s[0] >= 0x80
    ensures var d := DecodeRune(s); ParseBody(EscapeRune(d) + t) == After(EncodeRune(d.r), ParseBody(t))
  {
    var d := DecodeRune(s);
    var e := EscapeRune(d);
    assert (e + t)[0] == e[0] && (e + t)[|e|..] == t;
    if |e| == 6 {
      CodeUnitBack(d.r, t);
      assert (e + t)[1] == 117;
    } else {
      DecodeEncode(d.r, t);
      EncodeDecode(s);
      assert e[0] == s[0];
    }
  }

  lemma {:induction false} StringRoundTrip(s: Text, t: Text)
    ensures ParseBody(EncodeBody(s) + [QUOTE] + t) == Ok(Sanitize(s), t)
  {
    var q := [QUOTE] + t;
    if s == [] {
      assert EncodeBody(s) + [QUOTE] + t == q;
    } else {
      var d := DecodeRune(s);
      var n := if s[0] < 0x80 then 1 else d.size;
      var head := if s[0] < 0x80 then EscapeAscii(s[0]) else EscapeRune(d);
      var tail := EncodeBody(s[n..]) + [QUOTE] + t;
      assert EncodeBody(s) + [QUOTE] + t == head + tail;
      StringRoundTrip(s[n..], t);
      if s[0] < 0x80 { EscapeAsciiBack(s[0], tail); } else { EscapeRuneBack(s, tail); }
    }
  }

  // ---- what two written strings have in common ----

  /** What EncodeBody writes for the first rune of a string. */
  function Escaped(d: Rune): (e: Text)
    ensures e != []
  {
    if d.r < 0x80 then EscapeAscii(d.r) else EscapeRune(d)
  }

  /** Reads one written rune; only a bad byte is written as an escaped U+FFFD. */
  function ReadRune(x: Text): Option<(Rune, nat)>
    requires x != []
  {
    if x[0] != BACKSLASH then Some((DecodeRune(x), DecodeRune(x).size))
    else
      match Unescape(x)
      case Some((t, n)) =>
        if t == [] then None
        else var d := DecodeRune(t); Some((Rune(d.r, if d.r == REPLACEMENT then 1 else d.size), n))
      case None => None
  }

  lemma ReadAscii(b: byte, t: Text)
    requires b < 0x80
    ensures ReadRune(EscapeAscii(b) + t) == Some((Rune(b, 1), |EscapeAscii(b)|)) && EscapeAscii(b)[0] != QUOTE
  {
    var e := EscapeAscii(b);
    assert (e + t)[0] == e[0];
    if !HtmlSafe(b) {
      assert (e + t)[1] == e[1];
      if |e| == 6 { CodeUnitBack(b, t); }
    }
  }

  lemma ReadWide(s: Text, t: Text)
    requires s != [] && s[0] >= 0x80
    ensures var d, e := DecodeRune(s), EscapeRune(DecodeRune(s));
            ReadRune(e + t) == Some((d, |e|)) && e[0] != QUOTE
  {
    var d := DecodeRune(s);
    var e := EscapeRune(d);
    assert (e + t)[0] == e[0];
    DecodeEncode(d.r, []);
    assert EncodeRune(d.r) + [] == EncodeRune(d.r);
    if |e| == 6 {
      CodeUnitBack(d.r, t);
      assert (e + t)[1] == 117;
    } else {
      EncodeDecode(s);
      DecodeEncode(d.r, t);
      assert e[0] == s[0];
    }
  }

  lemma EscapedBack(s: Text, t: Text)
    requires s != []
    ensures var d := DecodeRune(s); ReadRune(Escaped(d) + t) == Some((d, |Escaped(d)|)) && Escaped(d)[0] != QUOTE
  {
    if s[0] < 0x80 { ReadAscii(s[0], t); } else { ReadWide(s, t); }
  }

  lemma BodyStep(s: Text)
    requires s != []
    ensures var d := DecodeRune(s);
            EncodeBody(s) == Escaped(d) + EncodeBody(s[d.size..]) && Runes(s) == [d] + Runes(s[d.size..])
  {
  }

  lemma {:induction false} SameRunesSameBody(s1: Text, s2: Text)
    requires Runes(s1) == Runes(s2)
    ensures EncodeBody(s1) == EncodeBody(s2)
  {
    if s1 != [] && s2 != [] {
      BodyStep(s1);
      BodyStep(s2);
      var d1, d2 := DecodeRune(s1), DecodeRune(s2);
      assert Runes(s1)[0] == d1 && Runes(s2)[0] == d2;
      assert Runes(s1)[1..] == Runes(s1[d1.size..]) && Runes(s2)[1..] == Runes(s2[d2.size..]);
      SameRunesSameBody(s1[d1.size..], s2[d2.size..]);
    }
  }

  lemma BodyStart(s: Text, t: Text)
    ensures (EncodeBody(s) + [QUOTE] + t)[0] == QUOTE <==> s == []
  {
    if s != [] { BodyStep(s); EscapedBack(s, []); }
  }

  lemma TailsEqual(a: Text, x: Text, y: Text)
    requires a + x == a + y
    ensures x == y
  {
    assert (a + x)[|a|..] == x && (a + y)[|a|..] == y;
  }

  lemma FirstRunes(d1: Rune, x: Text, d2: Rune, y: Text)
    requires Escaped(d1) + x == Escaped(d2) + y
    requires ReadRune(Escaped(d1) + x) == Some((d1, |Escaped(d1)|))
    requires ReadRune(Escaped(d2) + y) == Some((d2, |Escaped(d2)|))
    ensures d1 == d2 && x == y
  {
    TailsEqual(Escaped(d1), x, y);
  }

  lemma BodyUnfold(s: Text, t: Text) returns (d: Rune, rest: Text)
    requires s != []
    ensures d == DecodeRune(s) && rest == EncodeBody(s[d.size..]) + [QUOTE] + t
    ensures EncodeBody(s) + [QUOTE] + t == Escaped(d) + rest
    ensures ReadRune(Escaped(d) + rest) == Some((d, |Escaped(d)|))
    ensures Runes(s) == [d] + Runes(s[d.size..])
  {
    BodyStep(s);
    d := DecodeRune(s);
    EscapedBack(s, EncodeBody(s[d.size..]) + [QUOTE] + t);
    rest := EncodeBody(s[d.size..]) + [QUOTE] + t;
    assert Escaped(d) + EncodeBody(s[d.size..]) + [QUOTE] + t == Escaped(d) + rest;
  }

  /** Written strings at the head of one text have the same runes and the same text behind them. */
  lemma {:induction false} BodyDetermines(s1: Text, t1: Text, s2: Text, t2: Text)
    requires EncodeBody(s1) + [QUOTE] + t1 == EncodeBody(s2) + [QUOTE] + t2
    ensures Runes(s1) == Runes(s2) && t1 == t2
  {
    BodyStart(s1, t1);
    BodyStart(s2, t2);
    if s1 == [] {
      assert EncodeBody([]) + [QUOTE] == [QUOTE];
      TailsEqual([QUOTE], t1, t2);
    } else {
      var d1, r1 := BodyUnfold(s1, t1);
      var d2, r2 := BodyUnfold(s2, t2);
      FirstRunes(d1, r1, d2, r2);
      BodyDetermines(s1[d1.size..], t1, s2[d2.size..], t2);
    }
  }

  lemma {:induction false} CountAllDigits(ds: Text, t: Text)
    requires AllDigits(ds) && (t == [] || !IsDigit(t[0]))
    ensures CountDigits(ds + t) == |ds|
  {
    if ds == [] {
      assert ds + t == t;
    } else {
      CountAllDigits(ds[1..], t);
      assert (ds + t)[1..] == ds[1..] + t;
    }
  }

  lemma DigitsAreLiteral(n: nat, t: Text)
    requires t != [] && t[0] == 125
    ensures UnsignedLength(Digits(n) + t) == Some(|Digits(n)|)
  {
    var ds := Digits(n);
    CountAllDigits(ds, t);
    assert (ds + t)[0] == ds[0];
    assert (ds + t)[|ds|..] == t;
    assert TailLength(t) == Some(0);
  }

  lemma NegativeLength(s: Text, ds: Text)
    requires s == [DASH] + ds
    ensures NumberLength(s) == match UnsignedLength(ds) case None => None case Some(n) => Some(1 + n)
  {
  }

  lemma NegativeIsLiteral(ds: Text, t: Text)
    requires UnsignedLength(ds + t) == Some(|ds|)
    ensures NumberLength([DASH] + ds + t) == Some(1 + |ds|)
  {
    assert [DASH] + ds + t == [DASH] + (ds + t);
    NegativeLength([DASH] + ds + t, ds + t);
  }

  /** A printed integer is one number literal when a closing brace follows. */
  lemma DecimalIsLiteral(n: int, t: Text)
    requires t != [] && t[0] == 125
    ensures NumberLength(Decimal(n) + t) == Some(|Decimal(n)|)
  {
    if n < 0 {
      DigitsAreLiteral(0 - n, t);
      NegativeIsLiteral(Digits(0 - n), t);
    } else {
      DigitsAreLiteral(n, t);
      assert (Digits(n) + t)[0] == Digits(n)[0];
    }
  }

  lemma DecimalParses(n: int, t: Text)
    requires t != [] && t[0] == 125
    ensures ParseNumber(Decimal(n) + t) == Ok(Number(Decimal(n)), t)
  {
    DecimalIsLiteral(n, t);
    var d := Decimal(n);
    assert (d + t)[..|d|] == d && (d + t)[|d|..] == t;
  }

  lemma ScalarStart(s: Text, depth: nat)
    requires s != [] && !IsSpace(s[0]) && s[0] != 123 && s[0] != 91
    ensures ParseValue(s, depth) == ParseScalar(s)
  {
  }

  lemma NumberStart(s: Text, depth: nat)
    requires s != [] && (s[0] == DASH || IsDigit(s[0]))
    ensures ParseValue(s, depth) == ParseNumber(s)
  {
    ScalarStart(s, depth);
  }
}
