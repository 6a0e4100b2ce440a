/** base64.RawURLEncoding: the URL alphabet of RFC 4648 section 5 without padding (section 3.2).
    As in Go, the decoder skips CR and LF and does not look at the unused low bits of the last digit. */
module Base64Url {
  import opened GoText

  type Digit = d: int | 0 <= d < 64

  function EncodeDigit(d: Digit): (b: byte)
    ensures b != DOT && 33 <= b < 127
  {
    if d < 26 then 65 + d        // A-Z
    else if d < 52 then 71 + d   // a-z
    else if d < 62 then d - 4    // 0-9
    else if d == 62 then 45      // -
    else 95                      // _
  }

  function DecodeDigit(b: byte): Option<Digit> {
    if 65 <= b <= 90 then Some(b - 65)
    else if 97 <= b <= 122 then Some(b - 71)
    else if 48 <= b <= 57 then Some(b + 4)
    else if b == 45 then Some(62)
    else if b == 95 then Some(63)
    else None
  }

  // Three bytes, zero where the input has ended, make four digits of six bits.
  function Digit0(a: byte): Digit { a / 4 }
  function Digit1(a: byte, b: byte): Digit { Num(a) % 4 * 16 + b / 16 }
  function Digit2(b: byte, c: byte): Digit { Num(b) % 16 * 4 + c / 64 }
  function Digit3(c: byte): Digit { c % 64 }

  function At(bs: Text, i: nat): byte { if i < |bs| then bs[i] else 0 }

  function Sextets(bs: Text): seq<Digit> {
    var a, b, c := At(bs, 0), At(bs, 1), At(bs, 2);
    if bs == [] then []
    else if |bs| == 1 then [Digit0(a), Digit1(a, b)]
    else if |bs| == 2 then [Digit0(a), Digit1(a, b), Digit2(b, c)]
    else [Digit0(a), Digit1(a, b), Digit2(b, c), Digit3(c)] + Sextets(bs[3..])
  }

  function Letters(ds: seq<Digit>): (s: Text)
    ensures DOT !in s && forall b | b in s :: 33 <= b < 127
  {
    if ds == [] then [] else [EncodeDigit(ds[0])] + Letters(ds[1..])
  }

  function Encode(bs: Text): (s: Text)
    ensures DOT !in s && forall b | b in s :: 33 <= b < 127
  {
    Letters(Sextets(bs))
  }

  function StripNewlines(s: Text): Text {
    if s == [] then []
    else (if s[0] == 10 || s[0] == 13 then [] else [s[0]]) + StripNewlines(s[1..])
  }

  // Four digits of six bits make three bytes.
  function Byte0(a: Digit, b: Digit): byte { Num(a) * 4 + b / 16 }
  function Byte1(b: Digit, c: Digit): byte { Num(b) % 16 * 16 + c / 4 }
  function Byte2(c: Digit, d: Digit): byte { Num(c) % 4 * 64 + d }

  function DecodeLetters(s: Text): Option<seq<Digit>> {
    if s == [] then Some([])
    else
      match (DecodeDigit(s[0]), DecodeLetters(s[1..]))
      case (Some(d), Some(ds)) => Some([d] + ds)
      case _ => None
  }

  /** A lone trailing digit is an error; two or three trailing digits give one or two bytes. */
  function Assemble(ds: seq<Digit>): Option<Text> {
    if ds == [] then Some([])
    else if |ds| == 1 then None
    else if |ds| == 2 then Some([Byte0(ds[0], ds[1])])
    else if |ds| == 3 then Some([Byte0(ds[0], ds[1]), Byte1(ds[1], ds[2])])
    else
      match Assemble(ds[4..])
      case Some(t) => Some([Byte0(ds[0], ds[1]), Byte1(ds[1], ds[2]), Byte2(ds[2], ds[3])] + t)
      case None => None
  }

  function Decode(s: Text): Option<Text> {
    match DecodeLetters(StripNewlines(s))
    case Some(ds) => Assemble(ds)
    case None => None
  }

  lemma {:induction false} StripNothing(s: Text)
    requires forall b | b in s :: 33 <= b < 127
    ensures StripNewlines(s) == s
  {
    if s != [] {
      assert s[0] in s && forall b | b in s[1..] :: b in s;
      StripNothing(s[1..]);
      assert s == [s[0]] + s[1..];
    }
  }

  lemma DigitBack(d: Digit)
    ensures DecodeDigit(EncodeDigit(d)) == Some(d)
  {
  }

  lemma {:induction false} LettersBack(ds: seq<Digit>)
    ensures DecodeLetters(Letters(ds)) == Some(ds)
  {
    if ds != [] {
      LettersBack(ds[1..]);
      DigitBack(ds[0]);
      assert ds == [ds[0]] + ds[1..];
      assert Letters(ds)[1..] == Letters(ds[1..]);
    }
  }

  lemma Byte0Back(a: byte, b: byte)
    ensures Byte0(Digit0(a), Digit1(a, b)) == a
  {
  }

  lemma Byte1Back(a: byte, b: byte, c: byte)
    ensures Byte1(Digit1(a, b), Digit2(b, c)) == b
  {
    assert Digit1(a, b) % 16 == b / 16;
    assert Digit2(b, c) / 4 == b % 16;
  }

  lemma Byte2Back(b: byte, c: byte)
    ensures Byte2(Digit2(b, c), Digit3(c)) == c
  {
  }

  lemma {:induction false} AssembleBack(bs: Text)
    ensures Assemble(Sextets(bs)) == Some(bs)
  {
    if bs != [] {
      var a, b, c := At(bs, 0), At(bs, 1), At(bs, 2);
      Byte0Back(a, b);
      if |bs| == 1 {
        assert bs == [a];
      } else {
        Byte1Back(a, b, c);
        if |bs| == 2 {
          assert bs == [a, b];
        } else {
          Byte2Back(b, c);
          AssembleBack(bs[3..]);
          assert Sextets(bs)[4..] == Sextets(bs[3..]);
          assert bs == [a, b, c] + bs[3..];
        }
      }
    }
  }

  lemma RoundTrip(bs: Text)
    ensures Decode(Encode(bs)) == Some(bs)
  {
    StripNothing(Encode(bs));
    LettersBack(Sextets(bs));
    AssembleBack(bs);
  }

  // ---- the encoding as RFC 4648 describes it ----

  /** The URL-safe alphabet in its order. */
  lemma AlphabetInOrder(d: Digit)
    ensures EncodeDigit(d)
         == if d < 26 then 'A' as int + d else if d < 52 then 'a' as int + (d - 26)
            else if d < 62 then '0' as int + (d - 52) else if d == 62 then '-' as int else '_' as int
  {
  }

  lemma SixBits(a: byte, b: byte, c: byte)
    ensures Digit0(a) * 262144 + Digit1(a, b) * 4096 + Digit2(b, c) * 64 + Digit3(c)
         == Num(a) * 65536 + Num(b) * 256 + c
  {
    assert Num(a) == Num(a) / 4 * 4 + Num(a) % 4;
    assert Num(b) == Num(b) / 16 * 16 + Num(b) % 16;
    assert Num(c) == Num(c) / 64 * 64 + Num(c) % 64;
  }

  /** Three bytes, most significant first, are four digits of six bits; two last bytes are three and one
      is two, filled up with zero bits. */
  lemma EncodesBits(a: byte, b: byte, c: byte, rest: Text) returns (w: Digit, x: Digit, y: Digit, z: Digit)
    ensures w * 262144 + x * 4096 + y * 64 + z == Num(a) * 65536 + Num(b) * 256 + c
    ensures Encode([a, b, c] + rest) == [EncodeDigit(w), EncodeDigit(x), EncodeDigit(y), EncodeDigit(z)] + Encode(rest)
    ensures c == 0 ==> z == 0 && Encode([a, b]) == [EncodeDigit(w), EncodeDigit(x), EncodeDigit(y)]
    ensures b == c == 0 ==> y == z == 0 && Encode([a]) == [EncodeDigit(w), EncodeDigit(x)]
  {
    w, x, y, z := Digit0(a), Digit1(a, b), Digit2(b, c), Digit3(c);
    SixBits(a, b, c);
    FullGroup(a, b, c, rest);
    assert [w, x, y, z] + Sextets(rest) == [w] + ([x] + ([y] + ([z] + Sextets(rest))));
    FewLetters(w, x, y, z, Sextets(rest));
  }

  lemma FewLetters(w: Digit, x: Digit, y: Digit, z: Digit, ds: seq<Digit>)
    ensures Letters([w, x, y, z] + ds) == [EncodeDigit(w), EncodeDigit(x), EncodeDigit(y), EncodeDigit(z)] + Letters(ds)
    ensures Letters([w, x, y]) == [EncodeDigit(w), EncodeDigit(x), EncodeDigit(y)]
    ensures Letters([w, x]) == [EncodeDigit(w), EncodeDigit(x)]
  {
    LettersStep(w, [x, y, z] + ds);
    LettersStep(x, [y, z] + ds);
    LettersStep(y, [z] + ds);
    LettersStep(z, ds);
    assert [w, x, y, z] + ds == [w] + ([x, y, z] + ds);
    assert [x, y, z] + ds == [x] + ([y, z] + ds) && [y, z] + ds == [y] + ([z] + ds);
    LettersStep(w, [x, y]);
    LettersStep(w, [x]);
    LettersStep(x, [y]);
    LettersStep(x, []);
    LettersStep(y, []);
    assert [w, x, y] == [w] + [x, y] && [w, x] == [w] + [x] && [x, y] == [x] + [y];
    assert [x] == [x] + [] && [y] == [y] + [];
  }

  lemma LettersStep(d: Digit, ds: seq<Digit>)
    ensures Letters([d] + ds) == [EncodeDigit(d)] + Letters(ds)
  {
    assert ([d] + ds)[1..] == ds;
  }

  // ---- what else the decoder takes ----

  /** The digits with the bits cleared that the decoder does not look at. */
  function Masked(ds: seq<Digit>): seq<Digit> {
    if |ds| >= 4 then ds[..4] + Masked(ds[4..])
    else if |ds| == 3 then [ds[0], ds[1], Num(ds[2]) / 4 * 4]
    else if |ds| == 2 then [ds[0], Num(ds[1]) / 16 * 16]
    else ds
  }

  lemma GroupForth(a: Digit, b: Digit, c: Digit, d: Digit)
    ensures Digit0(Byte0(a, b)) == a
    ensures Digit1(Byte0(a, b), Byte1(b, c)) == b
    ensures Digit2(Byte1(b, c), Byte2(c, d)) == c
    ensures Digit3(Byte2(c, d)) == d
  {
  }

  lemma LastGroup(a: Digit, b: Digit, c: Digit)
    ensures Digit1(Byte0(a, b), 0) == Num(b) / 16 * 16
    ensures Digit2(Byte1(b, c), 0) == Num(c) / 4 * 4
  {
  }

  lemma FullGroup(a: byte, b: byte, c: byte, rest: Text)
    ensures Sextets([a, b, c] + rest) == [Digit0(a), Digit1(a, b), Digit2(b, c), Digit3(c)] + Sextets(rest)
  {
  }

  lemma ShortGroup(ds: seq<Digit>)
    requires |ds| == 2 || |ds| == 3
    ensures Assemble(ds).Some? && Sextets(Assemble(ds).value) == Masked(ds)
  {
    var a, b := ds[0], ds[1];
    var c := if |ds| == 3 then ds[2] else 0;
    GroupForth(a, b, c, 0);
    LastGroup(a, b, c);
  }

  lemma FourLess(n: nat, m: nat)
    requires n == m + 4
    ensures n % 4 == m % 4
  {
  }

  lemma {:induction false} AssembleSome(ds: seq<Digit>)
    ensures Assemble(ds).Some? <==> |ds| % 4 != 1
  {
    if |ds| >= 4 {
      var rest := ds[4..];
      AssembleSome(rest);
      FourLess(|ds|, |rest|);
      assert Assemble(ds).Some? <==> Assemble(rest).Some?;
    }
  }

  lemma AssembleGroup(ds: seq<Digit>)
    requires |ds| >= 4 && Assemble(ds[4..]).Some?
    ensures Assemble(ds)
         == Some([Byte0(ds[0], ds[1]), Byte1(ds[1], ds[2]), Byte2(ds[2], ds[3])] + Assemble(ds[4..]).value)
  {
  }

  lemma {:induction false} AssembledSextets(ds: seq<Digit>)
    requires Assemble(ds).Some?
    ensures Sextets(Assemble(ds).value) == Masked(ds)
  {
    if |ds| >= 4 {
      var a, b, c, d := ds[0], ds[1], ds[2], ds[3];
      AssembledSextets(ds[4..]);
      AssembleGroup(ds);
      FullGroup(Byte0(a, b), Byte1(b, c), Byte2(c, d), Assemble(ds[4..]).value);
      GroupForth(a, b, c, d);
      assert ds[..4] == [a, b, c, d];
    } else if |ds| >= 2 {
      ShortGroup(ds);
    }
  }

  lemma {:induction false} SextetsInjective(x: Text, y: Text)
    requires Sextets(x) == Sextets(y)
    ensures x == y
  {
    AssembleBack(x);
    AssembleBack(y);
  }

  /** Exactly the texts whose letters, line breaks aside, are an encoding up to unused low bits of
      the last letter decode, and to what was encoded. */
  lemma DecodeExactly(s: Text, bs: Text)
    ensures Decode(s) == Some(bs)
       <==> var ds := DecodeLetters(StripNewlines(s));
            ds.Some? && |ds.value| % 4 != 1 && Masked(ds.value) == Sextets(bs)
  {
    var ds := DecodeLetters(StripNewlines(s));
    if ds.Some? {
      AssembleSome(ds.value);
      if Assemble(ds.value).Some? { AssembledSextets(ds.value); }
      if |ds.value| % 4 != 1 && Masked(ds.value) == Sextets(bs) {
        SextetsInjective(Assemble(ds.value).value, bs);
      }
    }
  }
}
