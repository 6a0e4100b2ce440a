/** strings.TrimSpace over the white space of unicode.IsSpace. */
module Trim {
  import opened GoText
  import opened Utf8

  predicate SpaceRune(r: Scalar) {
    9 <= r <= 13 || r == 32 || r == 0x85 || r == 0xA0 || r == 0x1680 || 0x2000 <= r <= 0x200A
    || r == 0x2028 || r == 0x2029 || r == 0x202F || r == 0x205F || r == 0x3000
  }

  /** Nothing but white space: what TrimSpace reduces to the empty string. */
  predicate Blank(s: Text) {
    s == [] || (var d := DecodeRune(s); SpaceRune(d.r) && Blank(s[d.size..]))
  }

  function TrimLeft(s: Text): (t: Text)
    ensures t == [] <==> Blank(s)
    ensures t != [] ==> !SpaceRune(DecodeRune(t).r)
  {
    if s == [] then []
    else var d := DecodeRune(s); if SpaceRune(d.r) then TrimLeft(s[d.size..]) else s
  }

  /** Go scans trailing runes backwards. A white-space rune starts with a lead byte, which no
      rune read forwards can swallow, so cutting at the last non-space rune is the same. */
  function TrimRight(s: Text): (t: Text)
    ensures t == [] <==> Blank(s)
  {
    if Blank(s) then []
    else var d := DecodeRune(s); s[..d.size] + TrimRight(s[d.size..])
  }

  function TrimSpace(s: Text): (t: Text)
    ensures t == [] <==> Blank(s)
  {
    NotBlankAfterTrimLeft(s);
    TrimRight(TrimLeft(s))
  }

  lemma {:induction false} NotBlankAfterTrimLeft(s: Text)
    ensures Blank(TrimLeft(s)) <==> Blank(s)
  {
  }

  // ---- trimming twice changes nothing ----

  /** A rune that lies in a prefix is read the same from the prefix. */
  lemma DecodePrefix(p: Text, s: Text)
    requires s != [] && p <= s && DecodeRune(s).size <= |p|
    ensures DecodeRune(p) == DecodeRune(s)
  {
  }

  lemma {:induction false} TrimRightPrefix(s: Text)
    ensures TrimRight(s) <= s
    ensures !Blank(s) ==> DecodeRune(TrimRight(s)) == DecodeRune(s)
  {
    if !Blank(s) {
      var d := DecodeRune(s);
      TrimRightPrefix(s[d.size..]);
      assert s == s[..d.size] + s[d.size..];
      DecodePrefix(TrimRight(s), s);
    }
  }

  lemma {:induction false} TrimRightTwice(s: Text)
    ensures TrimRight(TrimRight(s)) == TrimRight(s)
  {
    if !Blank(s) {
      var d, t := DecodeRune(s), TrimRight(s);
      TrimRightPrefix(s);
      TrimRightTwice(s[d.size..]);
      assert t[..d.size] == s[..d.size] && t[d.size..] == TrimRight(s[d.size..]);
    }
  }

  lemma TrimSpaceTwice(s: Text)
    ensures TrimSpace(TrimSpace(s)) == TrimSpace(s)
    ensures forall b | b in TrimSpace(s) :: b in s
  {
    var t := TrimLeft(s);
    TrimLeftSuffix(s);
    TrimRightPrefix(t);
    TrimRightTwice(t);
    assert forall b | b in TrimRight(t) :: b in t;
  }

  lemma {:induction false} TrimLeftSuffix(s: Text)
    ensures forall b | b in TrimLeft(s) :: b in s
  {
    if s != [] {
      var d := DecodeRune(s);
      if SpaceRune(d.r) {
        TrimLeftSuffix(s[d.size..]);
        assert forall b | b in s[d.size..] :: b in s;
      }
    }
  }

  // ---- what is trimmed ----

  /** White space as Unicode has it. */
  lemma SpacesExactly(r: Scalar)
    ensures SpaceRune(r)
       <==> r in {0x09, 0x0A, 0x0B, 0x0C, 0x0D, 0x20, 0x85, 0xA0, 0x1680, 0x2000, 0x2001, 0x2002, 0x2003, 0x2004,
                  0x2005, 0x2006, 0x2007, 0x2008, 0x2009, 0x200A, 0x2028, 0x2029, 0x202F, 0x205F, 0x3000}
  {
  }

  predicate Printable(b: byte) { 33 <= b < 127 }

  /** Printable ASCII without spaces is left alone. */
  lemma {:induction false} TrimNothing(s: Text)
    requires forall b | b in s :: Printable(b)
    ensures TrimSpace(s) == s
  {
    if s != [] {
      assert s[0] in s;
      KeepAll(s);
    }
  }

  lemma {:induction false} KeepAll(s: Text)
    requires forall b | b in s :: Printable(b)
    ensures TrimRight(s) == s && (s != [] ==> !Blank(s))
  {
    if s != [] {
      assert s[0] in s && DecodeRune(s) == Rune(s[0], 1);
      assert forall b | b in s[1..] :: b in s;
      KeepAll(s[1..]);
      assert s == s[..1] + s[1..];
    }
  }

  /** A rune that was read without error is read the same with more text behind it. */
  lemma DecodeExtends(p: Text, x: Text)
    requires p != [] && !DecodeRune(p).Bad()
    ensures DecodeRune(p + x) == DecodeRune(p)
  {
    var d := DecodeRune(p);
    EncodeDecode(p);
    DecodeEncode(d.r, p[d.size..] + x);
    DecodeEncode(d.r, p[d.size..]);
    assert p == EncodeRune(d.r) + p[d.size..];
    assert p + x == EncodeRune(d.r) + (p[d.size..] + x);
  }

  lemma {:induction false} LeftGoes(front: Text, x: Text)
    requires Blank(front) && x != [] && Printable(x[0])
    ensures TrimLeft(front + x) == x
  {
    if front == [] {
      assert front + x == x && DecodeRune(x).r == x[0];
    } else {
      var d := DecodeRune(front);
      LeftGoes(front[d.size..], x);
      LeftStep(front, x, d);
    }
  }

  lemma LeftStep(front: Text, x: Text, d: Rune)
    requires front != [] && d == DecodeRune(front) && SpaceRune(d.r)
    ensures TrimLeft(front + x) == TrimLeft(front[d.size..] + x)
  {
    DecodeExtends(front, x);
    assert (front + x)[d.size..] == front[d.size..] + x;
  }

  lemma {:induction false} RightGoes(s: Text, back: Text)
    requires Blank(back) && s != [] && forall b | b in s :: Printable(b)
    ensures TrimRight(s + back) == s && !Blank(s + back)
  {
    var t := s + back;
    assert s[0] in s && t[0] == s[0] && DecodeRune(t) == Rune(s[0], 1);
    assert t[1..] == s[1..] + back && s == [s[0]] + s[1..];
    if |s| > 1 {
      assert forall b | b in s[1..] :: b in s;
      RightGoes(s[1..], back);
    } else {
      assert s[1..] + back == back;
    }
  }

  /** White space goes on both sides of a printable text, and nothing else does. */
  lemma TrimsAround(front: Text, s: Text, back: Text)
    requires Blank(front) && Blank(back) && s != [] && forall b | b in s :: Printable(b)
    ensures TrimSpace(front + (s + back)) == s
  {
    var x := s + back;
    assert x[0] == s[0] && s[0] in s;
    LeftGoes(front, x);
    RightGoes(s, back);
  }
}
