/** Go strings are byte sequences. This module has the string operations the controller
    relies on (split, prefix, decimal printing) and the facts that make them invertible. */
module GoText {

  type byte = b: int | 0 <= b < 256
  type Text = seq<byte>

  datatype Option<+T> = None | Some(value: T)

  /** time.Time.Unix: the whole seconds of a time in nanoseconds, rounded down. */
  function Unix(t: int): int { t / 1_000_000_000 }

  /** Nanoseconds of a day. */
  const DAY := 86400 * 1_000_000_000

  /** A byte as a number, free of the byte's range. */
  function Num(b: byte): int { b }

  const DOT: byte := 46
  const SLASH: byte := 47
  const DASH: byte := 45
  const ZERO: byte := 48

  function AsciiByte(c: char): byte
    requires c < 128 as char
  {
    c as int
  }

  /** ASCII text as Go sees it. */
  function Ascii(s: string): (t: Text)
    requires forall i | 0 <= i < |s| :: s[i] < 128 as char
    ensures |t| == |s| && forall i | 0 <= i < |s| :: t[i] == s[i] as int
  {
    seq(|s|, i requires 0 <= i < |s| => AsciiByte(s[i]))
  }

  // ---- strings.Split with a one-byte separator ----

  /** Puts one more byte in front of text that is already split. */
  function Front(c: byte, parts: seq<Text>, sep: byte): (r: seq<Text>)
    requires |parts| > 0
    ensures |r| > 0
  {
    if c == sep then [[]] + parts else [[c] + parts[0]] + parts[1..]
  }

  function Split(s: Text, sep: byte): (parts: seq<Text>)
    ensures |parts| > 0
  {
    if s == [] then [[]] else Front(s[0], Split(s[1..], sep), sep)
  }

  function Join(parts: seq<Text>, sep: byte): Text {
    if parts == [] then []
    else if |parts| == 1 then parts[0]
    else parts[0] + [sep] + Join(parts[1..], sep)
  }

  ghost predicate Free(parts: seq<Text>, sep: byte) {
    forall p | p in parts :: sep !in p
  }

  lemma {:induction false} JoinSplit(s: Text, sep: byte)
    ensures Join(Split(s, sep), sep) == s
  {
    if s != [] {
      JoinSplit(s[1..], sep);
      var rest := Split(s[1..], sep);
      if s[0] == sep {
        assert Split(s, sep)[1..] == rest;
        assert s == [] + [sep] + s[1..];
      } else {
        assert Split(s, sep)[1..] == rest[1..];
        assert s == [s[0]] + s[1..];
      }
    }
  }

  /** The first part is what stands in front of the first separator. */
  lemma {:induction false} SplitFirst(s: Text, sep: byte)
    ensures var head := Split(s, sep)[0];
            head <= s && sep !in head && (head == s || s[|head|] == sep)
  {
    if s != [] { SplitFirst(s[1..], sep); }
  }

  lemma {:induction false} SplitFree(s: Text, sep: byte)
    ensures Free(Split(s, sep), sep)
  {
    if s != [] {
      SplitFree(s[1..], sep);
      var rest := Split(s[1..], sep);
      assert rest[0] in rest;
      assert forall p | p in rest[1..] :: p in rest;
    }
  }

  lemma {:induction false} SplitWhole(a: Text, sep: byte)
    requires sep !in a
    ensures Split(a, sep) == [a]
  {
    if a != [] {
      SplitWhole(a[1..], sep);
      assert [a[0]] + a[1..] == a;
    }
  }

  lemma FrontConcat(c: byte, x: seq<Text>, y: seq<Text>, sep: byte)
    requires |x| > 0
    ensures Front(c, x + y, sep) == Front(c, x, sep) + y
  {
  }

  lemma {:induction false} SplitConcat(a: Text, b: Text, sep: byte)
    ensures Split(a + [sep] + b, sep) == Split(a, sep) + Split(b, sep)
  {
    var s := a + [sep] + b;
    if a == [] {
      assert s[1..] == b;
    } else {
      SplitConcat(a[1..], b, sep);
      assert s[1..] == a[1..] + [sep] + b;
      FrontConcat(a[0], Split(a[1..], sep), Split(b, sep), sep);
    }
  }

  lemma {:induction false} SplitJoin(parts: seq<Text>, sep: byte)
    requires parts != [] && Free(parts, sep)
    ensures Split(Join(parts, sep), sep) == parts
  {
    var head := parts[0];
    assert head in parts && sep !in head;
    SplitWhole(head, sep);
    if |parts| == 1 {
      assert parts == [head];
    } else {
      var tail := parts[1..];
      assert forall p | p in tail :: p in parts;
      SplitJoin(tail, sep);
      SplitConcat(head, Join(tail, sep), sep);
      assert parts == [head] + tail;
    }
  }

  lemma {:induction false} JoinConcat(x: seq<Text>, y: seq<Text>, sep: byte)
    requires x != [] && y != []
    ensures Join(x + y, sep) == Join(x, sep) + [sep] + Join(y, sep)
  {
    if |x| > 1 {
      JoinConcat(x[1..], y, sep);
      assert (x + y)[1..] == x[1..] + y;
    } else {
      assert (x + y)[1..] == y;
    }
  }

  lemma JoinThree(a: Text, b: Text, c: Text, sep: byte)
    ensures Join([a, b, c], sep) == a + [sep] + b + [sep] + c
  {
    assert [a, b, c][1..] == [b, c] && [b, c][1..] == [c];
    assert Join([b, c], sep) == b + [sep] + c;
    assert a + [sep] + (b + [sep] + c) == a + [sep] + b + [sep] + c;
  }

  // ---- decimal printing ----

  predicate IsDigit(b: byte) { 48 <= b <= 57 }

  predicate AllDigits(s: Text) { forall i | 0 <= i < |s| :: IsDigit(s[i]) }

  function Digits(n: nat): (s: Text)
    ensures |s| > 0 && AllDigits(s)
    ensures |s| > 1 ==> s[0] != ZERO
    ensures |s| == 1 <==> n < 10
  {
    if n < 10 then [48 + n] else Digits(n / 10) + [48 + n % 10]
  }

  function DigitsValue(s: Text): nat
    requires AllDigits(s)
  {
    if s == [] then 0 else 10 * DigitsValue(s[..|s| - 1]) + (s[|s| - 1] - 48)
  }

  lemma {:induction false} DigitsRoundTrip(n: nat)
    ensures DigitsValue(Digits(n)) == n
  {
    if n >= 10 {
      DigitsRoundTrip(n / 10);
      var s := Digits(n);
      assert s[..|s| - 1] == Digits(n / 10);
    } else {
      assert Digits(n)[..0] == [];
    }
  }

  /** strconv.AppendInt in base ten. */
  function Decimal(n: int): (s: Text)
    ensures |s| > 0
  {
    if n < 0 then [DASH] + Digits(0 - n) else Digits(n)
  }
}
