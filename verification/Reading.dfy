/** The JSON reader on every document of RFC 8259: any values nested below Go's limit, in any layout of
    white space, with every spelling of numbers and strings. */
module Reading {
  import opened GoText
  import opened Utf8
  import opened Json

  // ---- numbers: section 6 ----

  predicate DigitText(t: Text) { t != [] && AllDigits(t) }

  predicate Fraction(t: Text) { t == [] || (t[0] == DOT && DigitText(t[1..])) }

  predicate Exponent(t: Text) {
    || t == []
    || ((t[0] == 101 || t[0] == 69)
        && (DigitText(t[1..]) || (|t| > 2 && (t[1] == 43 || t[1] == DASH) && DigitText(t[2..]))))
  }

  /** An integer part has no leading zero. */
  predicate Whole(t: Text) { DigitText(t) && (t[0] == ZERO ==> |t| == 1) }

  /** Nothing that could go on a number. */
  predicate EndsNumber(t: Text) {
    t == [] || (!IsDigit(t[0]) && t[0] != DOT && t[0] != 101 && t[0] != 69)
  }

  lemma ExponentRead(e: Text, t: Text)
    requires Exponent(e) && EndsNumber(t)
    ensures ExponentLength(e + t) == Some(|e|)
    ensures e + t == [] || (!IsDigit((e + t)[0]) && (e + t)[0] != DOT)
  {
    if e == [] {
      assert e + t == t;
    } else {
      var k := if DigitText(e[1..]) then 1 else 2;
      assert (e + t)[0..] == e + t && (e + t)[k..] == e[k..] + t && (e + t)[0] == e[0] && (e + t)[1] == e[1];
      assert IsDigit(e[k]);
      CountAllDigits(e[k..], t);
    }
  }

  lemma PointRead(s: Text, ds: Text, rest: Text, k: nat)
    requires s != [] && s[0] == DOT && s[1..] == ds + rest && s[1 + |ds|..] == rest
    requires DigitText(ds) && ExponentLength(rest) == Some(k) && (rest == [] || !IsDigit(rest[0]))
    ensures TailLength(s) == Some(1 + |ds| + k)
  {
    CountAllDigits(ds, rest);
  }

  lemma Shift(f: Text, rest: Text)
    requires f != []
    ensures var s := f + rest; s[0] == f[0] && s[1..] == f[1..] + rest && s[|f|..] == rest
  {
  }

  lemma FractionRead(f: Text, rest: Text, k: nat)
    requires Fraction(f) && ExponentLength(rest) == Some(k) && (rest == [] || (!IsDigit(rest[0]) && rest[0] != DOT))
    ensures TailLength(f + rest) == Some(|f| + k)
    ensures f + rest == [] || !IsDigit((f + rest)[0])
  {
    var s := f + rest;
    if f == [] {
      assert s == rest;
    } else {
      Shift(f, rest);
      PointRead(s, f[1..], rest, k);
    }
  }

  lemma IntegerRead(w: Text, rest: Text)
    requires Whole(w) && (rest == [] || !IsDigit(rest[0]))
    ensures WholeLength(w + rest) == |w|
  {
    CountAllDigits(w, rest);
    assert (w + rest)[0] == w[0];
  }

  lemma WholeRead(w: Text, rest: Text, k: nat)
    requires w != [] && WholeLength(w + rest) == |w| && TailLength(rest) == Some(k)
    ensures UnsignedLength(w + rest) == Some(|w| + k)
  {
    assert (w + rest)[|w|..] == rest;
  }

  lemma Assoc(a: Text, b: Text, t: Text)
    ensures a + b + t == a + (b + t)
  {
  }

  /** What may follow the integer part. */
  ghost predicate Tail(x: Text) { exists f, e :: Fraction(f) && Exponent(e) && x == f + e }

  lemma TailRead(x: Text, t: Text)
    requires Tail(x) && EndsNumber(t)
    ensures TailLength(x + t) == Some(|x|)
    ensures x + t == [] || !IsDigit((x + t)[0])
  {
    var f, e :| Fraction(f) && Exponent(e) && x == f + e;
    ExponentRead(e, t);
    FractionRead(f, e + t, |e|);
    Assoc(f, e, t);
  }

  /** A number without a sign. */
  ghost predicate Magnitude(u: Text) { exists w, x :: Whole(w) && Tail(x) && u == w + x }

  lemma MagnitudeRead(u: Text, t: Text)
    requires Magnitude(u) && EndsNumber(t)
    ensures UnsignedLength(u + t) == Some(|u|) && u != [] && IsDigit(u[0])
  {
    var w, x :| Whole(w) && Tail(x) && u == w + x;
    TailRead(x, t);
    IntegerRead(w, x + t);
    WholeRead(w, x + t, |x|);
    Assoc(w, x, t);
  }

  /** Every number of the grammar is read whole, up to what ends it. */
  lemma NumberRead(u: Text, t: Text)
    requires Magnitude(u) && EndsNumber(t)
    ensures NumberLength(u + t) == Some(|u|) && NumberLength([DASH] + u + t) == Some(1 + |u|)
  {
    MagnitudeRead(u, t);
    assert (u + t)[0] == u[0];
    NegativeIsLiteral(u, t);
  }

  // ---- strings: section 7 ----

  /** One unit of a string as it may be spelled: a rune itself, a letter after a backslash, or `\u` escapes
      with each hex digit in either case. */
  datatype Piece =
    | Plain(r: Scalar)
    | Short(index: nat)
    | Unit(u: Scalar, upper: seq<bool>)
    | Pair(high: int, low: int, upper: seq<bool>, upper': seq<bool>)

  predicate GoodPiece(p: Piece) {
    match p
    case Plain(r) => r >= 32 && r != 34 && r != 92
    case Short(i) => i < 8
    case Unit(u, upper) => u < 0x10000 && |upper| == 4
    case Pair(hi, lo, upper, upper') => 0xD800 <= hi < 0xDC00 <= lo < 0xE000 && |upper| == |upper'| == 4
  }

  predicate GoodBody(ps: seq<Piece>) { forall i | 0 <= i < |ps| :: GoodPiece(ps[i]) }

  function Hex(v: int, upper: bool): byte
    requires 0 <= v < 16
  {
    Ascii(if upper then "0123456789ABCDEF" else "0123456789abcdef")[v]
  }

  function Nibbles(u: int): (v: seq<int>)
    requires 0 <= u < 0x10000
    ensures |v| == 4 && forall i | 0 <= i < 4 :: 0 <= v[i] < 16
  {
    [u / 16 / 16 / 16, u / 16 / 16 % 16, u / 16 % 16, u % 16]
  }

  function HexText(u: int, upper: seq<bool>): (t: Text)
    requires 0 <= u < 0x10000 && |upper| == 4
    ensures |t| == 6
  {
    [BACKSLASH, 117] + seq(4, i requires 0 <= i < 4 => Hex(Nibbles(u)[i], upper[i]))
  }

  /** Runes beyond U+FFFF take two code units (section 3.8 of the Unicode Standard). */
  function PieceText(p: Piece): Text
    requires GoodPiece(p)
  {
    match p
    case Plain(r) => EncodeRune(r)
    case Short(i) => [BACKSLASH, Ascii("\"\\/bfnrt")[i]]
    case Unit(u, upper) => HexText(u, upper)
    case Pair(hi, lo, upper, upper') => HexText(hi, upper) + HexText(lo, upper')
  }

  /** The eight short escapes are the quote, backslash, slash, and the bytes 8, 12, 10, 13 and 9. */
  function PieceMeaning(p: Piece): Text
    requires GoodPiece(p)
  {
    match p
    case Plain(r) => EncodeRune(r)
    case Short(i) => [[34, 92, 47, 8, 12, 10, 13, 9][i]]
    case Unit(u, _) => EncodeRune(u)
    case Pair(hi, lo, _, _) => EncodeRune(0x10000 + (hi - 0xD800) * 0x400 + (lo - 0xDC00))
  }

  function BodyText(ps: seq<Piece>, t: Text): Text
    requires GoodBody(ps)
  {
    if ps == [] then [34] + t else PieceText(ps[0]) + BodyText(ps[1..], t)
  }

  function Meaning(ps: seq<Piece>): Text
    requires GoodBody(ps)
  {
    if ps == [] then [] else PieceMeaning(ps[0]) + Meaning(ps[1..])
  }

  lemma HexBack(v: int, upper: bool)
    requires 0 <= v < 16
    ensures HexValue(Hex(v, upper)) == Some(v)
  {
    var digits := if upper then "0123456789ABCDEF" else "0123456789abcdef";
    assert Hex(v, upper) == digits[v] as int;
  }

  lemma UnitRead(h: Text, v: seq<int>, t: Text)
    requires |h| == 4 && |v| == 4 && forall i | 0 <= i < 4 :: 0 <= v[i] < 16 && HexValue(h[i]) == Some(v[i])
    ensures CodeUnit([BACKSLASH, 117] + h + t) == Some(((v[0] * 16 + v[1]) * 16 + v[2]) * 16 + v[3])
  {
    var s := [BACKSLASH, 117] + h + t;
    assert s[2] == h[0] && s[3] == h[1] && s[4] == h[2] && s[5] == h[3];
  }

  lemma HexRead(u: int, upper: seq<bool>, t: Text)
    requires 0 <= u < 0x10000 && |upper| == 4
    ensures CodeUnit(HexText(u, upper) + t) == Some(u)
  {
    var v := Nibbles(u);
    var h := seq(4, i requires 0 <= i < 4 => Hex(v[i], upper[i]));
    forall i | 0 <= i < 4 ensures HexValue(h[i]) == Some(v[i]) { HexBack(v[i], upper[i]); }
    UnitRead(h, v, t);
  }

  lemma EscapeRead(s: Text, t: Text, n: nat)
    requires s != [] && s[0] == BACKSLASH && Unescape(s) == Some((t, n))
    ensures ParseBody(s) == After(t, ParseBody(s[n..]))
  {
  }

  lemma UnitAlone(r: Scalar, s: Text)
    requires r < 0x10000 && CodeUnit(s) == Some(r)
    ensures s[0] == BACKSLASH && Unescape(s) == Some((EncodeRune(r), 6))
  {
  }

  lemma UnitPair(hi: int, lo: int, s: Text)
    requires 0xD800 <= hi < 0xDC00 <= lo < 0xE000
    requires CodeUnit(s) == Some(hi) && CodeUnit(s[6..]) == Some(lo)
    ensures s[0] == BACKSLASH
    ensures Unescape(s) == Some((EncodeRune((hi - 0xD800) * 1024 + (lo - 0xDC00) + 0x10000), 12))
  {
  }

  lemma PairRead(r: Scalar, hi: int, lo: int, a: Text, b: Text, t: Text)
    requires 0xD800 <= hi < 0xDC00 <= lo < 0xE000 && |a| == 6 && |b| == 6
    requires (hi - 0xD800) * 1024 + (lo - 0xDC00) + 0x10000 == r
    requires CodeUnit(a + (b + t)) == Some(hi) && CodeUnit(b + t) == Some(lo)
    ensures ParseBody(a + b + t) == After(EncodeRune(r), ParseBody(t))
  {
    var s := a + (b + t);
    assert a + b + t == s && s[6..] == b + t && s[12..] == t;
    UnitPair(hi, lo, s);
    EscapeRead(s, EncodeRune(r), 12);
  }

  lemma OneUnitRead(r: Scalar, upper: seq<bool>, t: Text)
    requires r < 0x10000 && |upper| == 4
    ensures ParseBody(HexText(r, upper) + t) == After(EncodeRune(r), ParseBody(t))
  {
    var s := HexText(r, upper) + t;
    HexRead(r, upper, t);
    UnitAlone(r, s);
    EscapeRead(s, EncodeRune(r), 6);
    assert s[6..] == t;
  }

  lemma TwoUnitsRead(r: Scalar, hi: int, lo: int, up: seq<bool>, up': seq<bool>, t: Text)
    requires 0xD800 <= hi < 0xDC00 <= lo < 0xE000 && |up| == 4 && |up'| == 4
    requires (hi - 0xD800) * 1024 + (lo - 0xDC00) + 0x10000 == r
    ensures ParseBody(HexText(hi, up) + HexText(lo, up') + t) == After(EncodeRune(r), ParseBody(t))
  {
    HexRead(hi, up, HexText(lo, up') + t);
    HexRead(lo, up', t);
    PairRead(r, hi, lo, HexText(hi, up), HexText(lo, up'), t);
  }

  lemma LoneEscape(u: int, s: Text)
    requires CodeUnit(s) == Some(u) && 0xD800 <= u < 0xE000
    requires u < 0xDC00 ==> CodeUnit(s[6..]) == None || !(0xDC00 <= CodeUnit(s[6..]).value < 0xE000)
    ensures s[0] == BACKSLASH && Unescape(s) == Some((EncodeRune(REPLACEMENT), 6))
  {
  }

  /** A surrogate without its partner reads as U+FFFD, and so does a byte that is not UTF-8. */
  lemma LoneRead(u: int, s: Text)
    requires CodeUnit(s) == Some(u) && 0xD800 <= u < 0xE000
    requires u < 0xDC00 ==> CodeUnit(s[6..]) == None || !(0xDC00 <= CodeUnit(s[6..]).value < 0xE000)
    ensures ParseBody(s) == After([0xEF, 0xBF, 0xBD], ParseBody(s[6..]))
  {
    LoneEscape(u, s);
    EscapeRead(s, EncodeRune(REPLACEMENT), 6);
  }

  lemma StrayRead(s: Text)
    requires s != [] && DecodeRune(s).Bad()
    ensures ParseBody(s) == After([0xEF, 0xBF, 0xBD], ParseBody(s[1..]))
  {
  }

  lemma ShortRead(i: nat, t: Text)
    requires i < 8
    ensures ParseBody(PieceText(Short(i)) + t) == After(PieceMeaning(Short(i)), ParseBody(t))
  {
    var e := PieceText(Short(i));
    assert e[1] == "\"\\/bfnrt"[i] as int;
    assert (e + t)[0] == e[0] && (e + t)[1] == e[1] && (e + t)[2..] == t;
  }

  lemma PlainRead(r: Scalar, t: Text)
    requires GoodPiece(Plain(r))
    ensures ParseBody(EncodeRune(r) + t) == After(EncodeRune(r), ParseBody(t))
  {
    DecodeEncode(r, t);
    var e := EncodeRune(r);
    assert (e + t)[0] == e[0] && (e + t)[|e|..] == t;
  }

  lemma PieceRead(p: Piece, t: Text)
    requires GoodPiece(p)
    ensures ParseBody(PieceText(p) + t) == After(PieceMeaning(p), ParseBody(t))
  {
    match p
    case Plain(r) => PlainRead(r, t);
    case Short(i) => ShortRead(i, t);
    case Unit(u, upper) => OneUnitRead(u, upper, t);
    case Pair(_, _, _, _) => PairPieceRead(p, t);
  }

  lemma PairPieceRead(p: Piece, t: Text)
    requires p.Pair? && GoodPiece(p)
    ensures ParseBody(PieceText(p) + t) == After(PieceMeaning(p), ParseBody(t))
  {
    var r := 0x10000 + (p.high - 0xD800) * 0x400 + (p.low - 0xDC00);
    TwoUnitsRead(r, p.high, p.low, p.upper, p.upper', t);
  }

  /** A string reads as what its pieces mean, whatever follows the closing quote. */
  lemma {:induction false} StringRead(ps: seq<Piece>, t: Text)
    requires GoodBody(ps)
    ensures ParseBody(BodyText(ps, t)) == Ok(Meaning(ps), t)
  {
    if ps != [] {
      StringRead(ps[1..], t);
      PieceRead(ps[0], BodyText(ps[1..], t));
    }
  }

  // ---- documents: section 2 ----

  /** A value as it is spelled: the words, numbers, strings, and lists with white space around each item. */
  datatype Doc =
    | Word(b: Option<bool>)
    | Numeral(negative: bool, magnitude: Text)
    | Quoted(pieces: seq<Piece>)
    | Empty(isObject: bool, gap: Text)
    | Array(items: Items)
    | Object(members: Members)

  datatype Items = Items(before: Text, item: Doc, after: Text, next: Option<Items>)

  datatype Members = Members(before: Text, key: seq<Piece>, colon: (Text, Text), item: Doc, after: Text,
                             next: Option<Members>)

  predicate Blank(t: Text) {
    forall i | 0 <= i < |t| :: t[i] == 32 || t[i] == 9 || t[i] == 10 || t[i] == 13
  }

  ghost predicate Good(d: Doc) {
    match d
    case Word(_) => true
    case Numeral(_, u) => Magnitude(u)
    case Quoted(ps) => GoodBody(ps)
    case Empty(_, gap) => Blank(gap)
    case Array(items) => GoodItems(items)
    case Object(members) => GoodMembers(members)
  }

  ghost predicate GoodItems(x: Items) {
    Blank(x.before) && Good(x.item) && Blank(x.after) && (x.next.Some? ==> GoodItems(x.next.value))
  }

  ghost predicate GoodMembers(x: Members) {
    && Blank(x.before) && GoodBody(x.key) && Blank(x.colon.0) && Blank(x.colon.1)
    && Good(x.item) && Blank(x.after) && (x.next.Some? ==> GoodMembers(x.next.value))
  }

  /** The spelling of `d` with `t` behind it. */
  ghost function Put(d: Doc, t: Text): Text
    requires Good(d)
    decreases d, 2
  {
    match d
    case Word(None) => Ascii("null") + t
    case Word(Some(b)) => Ascii(if b then "true" else "false") + t
    case Numeral(negative, u) => (if negative then [45] + u else u) + t
    case Quoted(ps) => Ascii("\"") + BodyText(ps, t)
    case Empty(isObject, gap) =>
      Ascii(if isObject then "{" else "[") + (gap + (Ascii(if isObject then "}" else "]") + t))
    case Array(items) => Ascii("[") + PutItems(items, t)
    case Object(members) => Ascii("{") + PutMembers(members, t)
  }

  ghost function PutItems(x: Items, t: Text): Text
    requires GoodItems(x)
    decreases x, 1
  {
    x.before + Put(x.item, x.after + ItemsEnd(x, t))
  }

  ghost function ItemsEnd(x: Items, t: Text): Text
    requires GoodItems(x)
    decreases x, 0
  {
    if x.next.Some? then Ascii(",") + PutItems(x.next.value, t) else Ascii("]") + t
  }

  ghost function PutMembers(x: Members, t: Text): Text
    requires GoodMembers(x)
    decreases x, 1
  {
    x.before + KeyText(x.key, x.colon.0, x.colon.1, Put(x.item, x.after + MembersEnd(x, t)))
  }

  function KeyText(key: seq<Piece>, before: Text, after: Text, t: Text): Text
    requires GoodBody(key)
  {
    Ascii("\"") + BodyText(key, before + (Ascii(":") + (after + t)))
  }

  ghost function MembersEnd(x: Members, t: Text): Text
    requires GoodMembers(x)
    decreases x, 0
  {
    if x.next.Some? then Ascii(",") + PutMembers(x.next.value, t) else Ascii("}") + t
  }

  ghost function Value(d: Doc): Json
    requires Good(d)
  {
    match d
    case Word(None) => Null
    case Word(Some(b)) => Bool(b)
    case Numeral(negative, u) => Number(if negative then [45] + u else u)
    case Quoted(ps) => Str(Meaning(ps))
    case Empty(isObject, _) => if isObject then Obj([]) else Arr([])
    case Array(items) => Arr(Values(items))
    case Object(members) => Obj(Fields(members))
  }

  ghost function Values(x: Items): seq<Json>
    requires GoodItems(x)
  {
    [Value(x.item)] + if x.next.Some? then Values(x.next.value) else []
  }

  ghost function Fields(x: Members): seq<(Text, Json)>
    requires GoodMembers(x)
  {
    [(Meaning(x.key), Value(x.item))] + if x.next.Some? then Fields(x.next.value) else []
  }

  /** How many arrays and objects lie in one another. */
  function Height(d: Doc): nat {
    match d
    case Word(_) => 0
    case Numeral(_, _) => 0
    case Quoted(_) => 0
    case Empty(_, _) => 1
    case Array(items) => 1 + ItemsHeight(items)
    case Object(members) => 1 + MembersHeight(members)
  }

  function ItemsHeight(x: Items): nat {
    var n := if x.next.Some? then ItemsHeight(x.next.value) else 0;
    if n < Height(x.item) then Height(x.item) else n
  }

  function MembersHeight(x: Members): nat {
    var n := if x.next.Some? then MembersHeight(x.next.value) else 0;
    if n < Height(x.item) then Height(x.item) else n
  }

  lemma {:induction false} BlankSkipped(b: Text, t: Text)
    requires Blank(b) && (t == [] || !IsSpace(t[0]))
    ensures SkipSpace(b + t) == t
  {
    if b == [] {
      assert b + t == t;
    } else {
      BlankSkipped(b[1..], t);
      assert (b + t)[1..] == b[1..] + t;
    }
  }

  lemma BlankBefore(b: Text, t: Text, depth: nat)
    requires Blank(b) && t != [] && !IsSpace(t[0])
    ensures ParseValue(b + t, depth) == ParseValue(t, depth)
  {
    BlankSkipped(b, t);
  }

  lemma NumeralRead(negative: bool, u: Text, t: Text, depth: nat)
    requires Magnitude(u) && EndsNumber(t)
    ensures var n := if negative then [45] + u else u;
            n + t != [] && !IsSpace((n + t)[0]) && ParseValue(n + t, depth) == Ok(Number(n), t)
  {
    var n := if negative then [45] + u else u;
    MagnitudeRead(u, t);
    NumberRead(u, t);
    assert (n + t)[0] == n[0] && (n + t)[..|n|] == n && (n + t)[|n|..] == t;
    NumberStart(n + t, depth);
  }

  lemma WordRead(b: Option<bool>, t: Text, depth: nat)
    ensures var s := Put(Word(b), t); s != [] && !IsSpace(s[0]) && ParseValue(s, depth) == Ok(Value(Word(b)), t)
  {
    var s := Put(Word(b), t);
    var w := Ascii(match b case None => "null" case Some(x) => if x then "true" else "false");
    assert s[0] == w[0] && w <= s && s[|w|..] == t;
    assert w == match b case None => [110, 117, 108, 108]
                        case Some(x) => if x then [116, 114, 117, 101] else [102, 97, 108, 115, 101];
    ScalarStart(s, depth);
  }

  lemma QuotedRead(ps: seq<Piece>, t: Text, depth: nat)
    requires GoodBody(ps)
    ensures var s := Put(Quoted(ps), t); s[0] == 34 && ParseValue(s, depth) == Ok(Str(Meaning(ps)), t)
  {
    var s := Put(Quoted(ps), t);
    StringRead(ps, t);
    assert s[0] == Ascii("\"")[0] && s[1..] == BodyText(ps, t);
    ScalarStart(s, depth);
  }

  lemma Opened(c: byte, rest: Text, depth: nat)
    requires c == 123 || c == 91
    ensures ParseValue([c] + rest, depth)
         == if depth >= MAX_NESTING then Fail else ParseNested([c] + rest, depth + 1)
  {
  }

  lemma EmptyRead(isObject: bool, gap: Text, t: Text, depth: nat)
    requires Blank(gap) && depth < MAX_NESTING
    ensures var s := Put(Empty(isObject, gap), t);
            s[0] == (if isObject then 123 else 91) && ParseValue(s, depth) == Ok(Value(Empty(isObject, gap)), t)
  {
    var open, close: byte := if isObject then 123 else 91, if isObject then 125 else 93;
    var s := [open] + (gap + ([close] + t));
    assert Ascii("{") == [123] && Ascii("}") == [125] && Ascii("[") == [91] && Ascii("]") == [93];
    BlankSkipped(gap, [close] + t);
    assert s[1..] == gap + ([close] + t) && ([close] + t)[1..] == t;
    Opened(open, gap + ([close] + t), depth);
  }

  lemma ArrayOpened(rest: Text, items: seq<Json>, t: Text, depth: nat)
    requires depth < MAX_NESTING && ParseItems(SkipSpace(rest), depth + 1) == Ok(items, t)
    requires SkipSpace(rest) != [] && SkipSpace(rest)[0] != 93
    ensures (Ascii("[") + rest)[0] == 91 && ParseValue(Ascii("[") + rest, depth) == Ok(Arr(items), t)
  {
    assert Ascii("[") == [91];
    Opened(91, rest, depth);
    assert ([91] + rest)[1..] == rest;
  }

  lemma ObjectOpened(rest: Text, fields: seq<(Text, Json)>, t: Text, depth: nat)
    requires depth < MAX_NESTING && ParseMembers(SkipSpace(rest), depth + 1) == Ok(fields, t)
    requires SkipSpace(rest) != [] && SkipSpace(rest)[0] != 125
    ensures (Ascii("{") + rest)[0] == 123 && ParseValue(Ascii("{") + rest, depth) == Ok(Obj(fields), t)
  {
    assert Ascii("{") == [123];
    Opened(123, rest, depth);
    assert ([123] + rest)[1..] == rest;
  }

  lemma ItemRead(before: Text, body: Text, v: Json, after: Text, end: Text, more: seq<Json>, t: Text, depth: nat)
    requires Blank(before) && body != [] && !IsSpace(body[0])
    requires ParseValue(body, depth) == Ok(v, after + end) && Blank(after) && end != []
    requires if end[0] == 93 then more == [] && end[1..] == t
             else end[0] == 44 && ParseItems(end[1..], depth) == Ok(more, t)
    ensures SkipSpace(before + body) == body
    ensures ParseItems(before + body, depth) == ParseItems(body, depth) == Ok([v] + more, t)
  {
    BlankSkipped(after, end);
    BlankSkipped(before, body);
    BlankBefore(before, body, depth);
    assert end[0] == 93 ==> [v] + more == [v];
  }

  lemma MemberRead(s: Text, f: (Text, Json), after: Text, end: Text, more: seq<(Text, Json)>, t: Text, depth: nat)
    requires ParseMember(s, depth) == Ok(f, after + end) && Blank(after) && end != []
    requires if end[0] == 125 then more == [] && end[1..] == t
             else end[0] == 44 && ParseMembers(end[1..], depth) == Ok(more, t)
    ensures ParseMembers(s, depth) == Ok([f] + more, t)
  {
    BlankSkipped(after, end);
    assert end[0] == 125 ==> [f] + more == [f];
  }

  lemma KeyRead(before: Text, key: seq<Piece>, gap: Text, gap': Text, body: Text, v: Json, rest: Text, depth: nat)
    requires Blank(before) && GoodBody(key) && Blank(gap) && Blank(gap')
    requires body != [] && !IsSpace(body[0]) && ParseValue(body, depth) == Ok(v, rest)
    ensures var s := KeyText(key, gap, gap', body);
            && s[0] == 34 && SkipSpace(before + s) == s
            && ParseMember(before + s, depth) == ParseMember(s, depth) == Ok((Meaning(key), v), rest)
  {
    var value := [58] + (gap' + body);
    var s := [34] + BodyText(key, gap + value);
    assert Ascii("\"") == [34] && Ascii(":") == [58];
    BlankSkipped(before, s);
    assert s[1..] == BodyText(key, gap + value) && value[1..] == gap' + body;
    StringRead(key, gap + value);
    BlankSkipped(gap, value);
    BlankBefore(gap', body, depth);
  }

  lemma Ends(after: Text, end: Text)
    requires Blank(after) && end != [] && (end[0] == 93 || end[0] == 125 || end[0] == 44)
    ensures EndsNumber(after + end)
  {
    assert after != [] ==> (after + end)[0] == after[0];
  }

  /** Whatever a good document spells is read as its value, up to the text behind it. */
  lemma {:induction false} DocRead(d: Doc, t: Text, depth: nat)
    requires Good(d) && EndsNumber(t) && depth + Height(d) <= MAX_NESTING
    ensures var s := Put(d, t);
            s != [] && !IsSpace(s[0]) && s[0] != 93 && s[0] != 125 && ParseValue(s, depth) == Ok(Value(d), t)
    decreases d
  {
    if d.Array? {
      ItemsRead(d.items, t, depth + 1);
      ArrayOpened(PutItems(d.items, t), Values(d.items), t, depth);
    } else if d.Object? {
      MembersRead(d.members, t, depth + 1);
      ObjectOpened(PutMembers(d.members, t), Fields(d.members), t, depth);
    } else {
      LeafRead(d, t, depth);
    }
  }

  lemma LeafRead(d: Doc, t: Text, depth: nat)
    requires Good(d) && EndsNumber(t) && depth + Height(d) <= MAX_NESTING && !d.Array? && !d.Object?
    ensures var s := Put(d, t);
            s != [] && !IsSpace(s[0]) && s[0] != 93 && s[0] != 125 && ParseValue(s, depth) == Ok(Value(d), t)
  {
    match d
    case Word(b) => WordRead(b, t, depth);
    case Numeral(negative, u) => NumeralRead(negative, u, t, depth);
    case Quoted(ps) => QuotedRead(ps, t, depth);
    case Empty(isObject, gap) => EmptyRead(isObject, gap, t, depth);
  }

  lemma ItemsRead(x: Items, t: Text, depth: nat)
    requires GoodItems(x) && depth + ItemsHeight(x) <= MAX_NESTING
    ensures var s := PutItems(x, t);
            && ParseItems(s, depth) == ParseItems(SkipSpace(s), depth) == Ok(Values(x), t)
            && SkipSpace(s) != [] && SkipSpace(s)[0] != 93
    decreases x
  {
    var end := ItemsEnd(x, t);
    assert end[0] == (if x.next.Some? then 44 else 93);
    assert end[1..] == if x.next.Some? then PutItems(x.next.value, t) else t;
    Ends(x.after, end);
    DocRead(x.item, x.after + end, depth);
    if x.next.Some? { ItemsRead(x.next.value, t, depth); }
    ItemRead(x.before, Put(x.item, x.after + end), Value(x.item), x.after, end,
             if x.next.Some? then Values(x.next.value) else [], t, depth);
  }

  lemma MembersRead(x: Members, t: Text, depth: nat)
    requires GoodMembers(x) && depth + MembersHeight(x) <= MAX_NESTING
    ensures var s := PutMembers(x, t);
            && ParseMembers(s, depth) == ParseMembers(SkipSpace(s), depth) == Ok(Fields(x), t)
            && SkipSpace(s) != [] && SkipSpace(s)[0] != 125
    decreases x
  {
    var end := MembersEnd(x, t);
    assert end[0] == (if x.next.Some? then 44 else 125);
    assert end[1..] == if x.next.Some? then PutMembers(x.next.value, t) else t;
    Ends(x.after, end);
    DocRead(x.item, x.after + end, depth);
    if x.next.Some? { MembersRead(x.next.value, t, depth); }
    MembersStart(x, t, end, if x.next.Some? then Fields(x.next.value) else [], depth);
  }

  lemma MembersStart(x: Members, t: Text, end: Text, more: seq<(Text, Json)>, depth: nat)
    requires GoodMembers(x) && end == MembersEnd(x, t) && end != []
    requires var body := Put(x.item, x.after + end);
             body != [] && !IsSpace(body[0]) && ParseValue(body, depth) == Ok(Value(x.item), x.after + end)
    requires if end[0] == 125 then more == [] && end[1..] == t
             else end[0] == 44 && ParseMembers(end[1..], depth) == Ok(more, t)
    ensures var s := PutMembers(x, t);
            && ParseMembers(s, depth) == ParseMembers(SkipSpace(s), depth)
               == Ok([(Meaning(x.key), Value(x.item))] + more, t)
            && SkipSpace(s) != [] && SkipSpace(s)[0] == 34
  {
    var body, f := Put(x.item, x.after + end), (Meaning(x.key), Value(x.item));
    var s := KeyText(x.key, x.colon.0, x.colon.1, body);
    KeyRead(x.before, x.key, x.colon.0, x.colon.1, body, f.1, x.after + end, depth);
    MemberRead(s, f, x.after, end, more, t, depth);
    MemberRead(x.before + s, f, x.after, end, more, t, depth);
  }

  /** Every document of the grammar, nested at most as deep as Go allows, is read as the value it spells. */
  lemma DocumentRead(before: Text, d: Doc, after: Text)
    requires Blank(before) && Good(d) && Blank(after) && Height(d) <= MAX_NESTING
    ensures ParseDocument(before + Put(d, after)) == Some(Value(d))
  {
    DocRead(d, after, 0);
    BlankBefore(before, Put(d, after), 0);
    BlankSkipped(after, []);
    assert after + [] == after;
  }
}
