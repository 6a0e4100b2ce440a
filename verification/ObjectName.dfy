/** The object name of a backup and the parser that takes it apart again. */
module ObjectName {
  import opened GoText

  const BACKUP: Text := [98, 97, 99, 107, 117, 112]   // backup
  const GZ: Text := [46, 103, 122]                    // .gz

  function NameOrDefault(s: Text): (r: Text)
    ensures r != []
  {
    if s == [] then BACKUP else s
  }

  /** fmt.Sprintf("%s/%s-%d.gz", dbType, nameOrDefault(name, "backup"), seconds) */
  function Format(kind: Text, name: Text, seconds: int): Text {
    kind + [SLASH] + FileName(name, seconds)
  }

  function FileName(name: Text, seconds: int): Text { Numbered(NameOrDefault(name), seconds) }

  function Numbered(stem: Text, seconds: int): Text { stem + Ending(seconds) }

  function Ending(seconds: int): Text { [DASH] + Decimal(seconds) + GZ }

  /** Length of the text before the first occurrence of `c`, or the whole length. */
  function FirstIndex(s: Text, c: byte): (i: nat)
    ensures i <= |s| && c !in s[..i] && (i < |s| ==> s[i] == c)
  {
    if s == [] || s[0] == c then 0 else 1 + FirstIndex(s[1..], c)
  }

  /** Position of the last occurrence of `c`, counted from the front; 0 if there is none before it. */
  function LastIndex(s: Text, c: byte): (i: nat)
    ensures i <= |s| && (i < |s| ==> s[i] == c && c !in s[i + 1..])
    ensures i == |s| ==> c !in s
  {
    if s == [] then 0
    else if s[|s| - 1] == c then |s| - 1
    else var i := LastIndex(s[..|s| - 1], c); if i == |s| - 1 then |s| else i
  }

  /** Name and seconds of a file name: the suffix goes, then the last dash splits. */
  function UnformatFile(file: Text): Option<(Text, nat)> {
    if |file| < 3 || file[|file| - 3..] != GZ then None
    else
      var stem := file[..|file| - 3];
      var j := LastIndex(stem, DASH);
      if j == |stem| || !AllDigits(stem[j + 1..]) then None
      else Some((stem[..j], DigitsValue(stem[j + 1..])))
  }

  /** The type ends at the first slash. */
  function Unformat(s: Text): Option<(Text, Text, nat)> {
    var i := FirstIndex(s, SLASH);
    if i == |s| then None
    else
      match UnformatFile(s[i + 1..])
      case None => None
      case Some((name, seconds)) => Some((s[..i], name, seconds))
  }

  lemma {:induction false} FirstIndexAt(a: Text, b: Text, c: byte)
    requires c !in a
    ensures FirstIndex(a + [c] + b, c) == |a|
  {
    if a != [] {
      FirstIndexAt(a[1..], b, c);
      assert (a + [c] + b)[1..] == a[1..] + [c] + b;
    }
  }

  lemma {:induction false} LastIndexAt(a: Text, b: Text, c: byte)
    requires c !in b
    ensures LastIndex(a + [c] + b, c) == |a|
  {
    var s := a + [c] + b;
    if b == [] {
      assert s[|s| - 1] == c;
    } else {
      var init := b[..|b| - 1];
      LastIndexAt(a, init, c);
      assert s[..|s| - 1] == a + [c] + init;
    }
  }

  lemma UnformatText(n: Text, ds: Text)
    requires AllDigits(ds)
    ensures UnformatFile(n + [DASH] + ds + GZ) == Some((n, DigitsValue(ds)))
  {
    var stem := n + [DASH] + ds;
    var file := stem + GZ;
    assert file[|file| - 3..] == GZ && file[..|file| - 3] == stem;
    LastIndexAt(n, ds, DASH);
    assert stem[..|n|] == n && stem[|n| + 1..] == ds;
  }

  lemma UnformatFileBack(n: Text, seconds: nat)
    ensures UnformatFile(Numbered(n, seconds)) == Some((n, seconds))
  {
    UnformatText(n, Digits(seconds));
    DigitsRoundTrip(seconds);
    assert Numbered(n, seconds) == n + [DASH] + Digits(seconds) + GZ;
  }

  lemma SplitAtSlash(kind: Text, file: Text)
    ensures SLASH !in kind ==> FirstIndex(kind + [SLASH] + file, SLASH) == |kind|
    ensures SLASH in kind ==> FirstIndex(kind + [SLASH] + file, SLASH) < |kind|
    ensures var s := kind + [SLASH] + file; s[..|kind|] == kind && s[|kind| + 1..] == file
  {
    if SLASH in kind {
      SlashComesFirst(kind, [SLASH] + file);
      assert kind + [SLASH] + file == kind + ([SLASH] + file);
    } else {
      FirstIndexAt(kind, file, SLASH);
    }
  }

  lemma UnformatFormat(kind: Text, name: Text, seconds: nat)
    requires SLASH !in kind
    ensures Unformat(Format(kind, name, seconds)) == Some((kind, NameOrDefault(name), seconds))
  {
    SplitAtSlash(kind, FileName(name, seconds));
    UnformatFileBack(NameOrDefault(name), seconds);
  }

  /** The type that is read off a name is never one with a slash. */
  lemma UnformatShort(kind: Text, file: Text)
    requires SLASH in kind
    ensures var u := Unformat(kind + [SLASH] + file); u.Some? ==> u.value.0 != kind
  {
  }

  ghost predicate TakenApart(kind: Text, name: Text, seconds: int) {
    match Unformat(Format(kind, name, seconds))
    case Some((k, n, s)) => k == kind && n == NameOrDefault(name) && s == seconds
    case None => false
  }

  /** The name can be taken apart again exactly for types without a slash and times from 1970 on. */
  lemma UnformatBack(kind: Text, name: Text, seconds: int)
    ensures TakenApart(kind, name, seconds) <==> SLASH !in kind && seconds >= 0
  {
    if SLASH in kind { UnformatShort(kind, FileName(name, seconds)); }
    else if seconds >= 0 { UnformatFormat(kind, name, seconds); }
  }

  lemma {:induction false} SlashComesFirst(a: Text, b: Text)
    requires SLASH in a
    ensures FirstIndex(a + b, SLASH) < |a|
  {
    if a[0] != SLASH {
      assert a == [a[0]] + a[1..];
      SlashComesFirst(a[1..], b);
      assert (a + b)[1..] == a[1..] + b;
    }
  }

  /** The object name without its number and suffix; the sign of a time before 1970 stays with it. */
  function Stem(kind: Text, name: Text, seconds: int): Text {
    var stem := kind + [SLASH] + NameOrDefault(name);
    if seconds < 0 then stem + [DASH] else stem
  }

  function Magnitude(seconds: int): nat { if seconds < 0 then 0 - seconds else seconds }

  lemma StemIsName(kind: Text, name: Text, seconds: int)
    ensures Format(kind, name, seconds) == Numbered(Stem(kind, name, seconds), Magnitude(seconds))
  {
  }

  lemma StemAndNumber(kind: Text, name: Text, seconds: int)
    ensures UnformatFile(Format(kind, name, seconds)) == Some((Stem(kind, name, seconds), Magnitude(seconds)))
  {
    StemIsName(kind, name, seconds);
    UnformatFileBack(Stem(kind, name, seconds), Magnitude(seconds));
  }

  /** Two calls write one object name exactly if their stems and their numbers agree, for all types,
      names and times. */
  lemma FormatMeets(k1: Text, n1: Text, s1: int, k2: Text, n2: Text, s2: int)
    ensures Format(k1, n1, s1) == Format(k2, n2, s2)
       <==> Stem(k1, n1, s1) == Stem(k2, n2, s2) && Magnitude(s1) == Magnitude(s2)
  {
    StemAndNumber(k1, n1, s1);
    StemAndNumber(k2, n2, s2);
    StemIsName(k1, n1, s1);
    StemIsName(k2, n2, s2);
  }

  lemma LastSlash(kind: Text, name: Text)
    requires SLASH !in name
    ensures var s := kind + [SLASH] + name;
            LastIndex(s, SLASH) == |kind| && s[..|kind|] == kind && s[|kind| + 1..] == name
  {
    LastIndexAt(kind, name, SLASH);
  }

  /** So where either the types or the names are free of slashes, equal object names come only from
      equal type, defaulted name and second. */
  lemma FormatInjective(k1: Text, n1: Text, s1: nat, k2: Text, n2: Text, s2: nat)
    requires (SLASH !in k1 && SLASH !in k2) || (SLASH !in n1 && SLASH !in n2)
    ensures Format(k1, n1, s1) == Format(k2, n2, s2)
       <==> k1 == k2 && NameOrDefault(n1) == NameOrDefault(n2) && s1 == s2
  {
    if SLASH !in k1 && SLASH !in k2 {
      UnformatFormat(k1, n1, s1);
      UnformatFormat(k2, n2, s2);
    } else {
      FormatMeets(k1, n1, s1, k2, n2, s2);
      StemInjective(k1, NameOrDefault(n1), k2, NameOrDefault(n2));
    }
  }

  lemma StemInjective(k1: Text, n1: Text, k2: Text, n2: Text)
    requires SLASH !in n1 && SLASH !in n2
    ensures k1 + [SLASH] + n1 == k2 + [SLASH] + n2 <==> k1 == k2 && n1 == n2
  {
    LastSlash(k1, n1);
    LastSlash(k2, n2);
  }

  lemma NumberedInjective(n1: Text, s1: nat, n2: Text, s2: nat)
    ensures Numbered(n1, s1) == Numbered(n2, s2) <==> n1 == n2 && s1 == s2
  {
    UnformatFileBack(n1, s1);
    UnformatFileBack(n2, s2);
  }

  // ---- the last component of an object name ----

  /** What a name with slashes puts in front of its last component, as part of the directory. */
  function Folder(kind: Text, name: Text): Text {
    var n := NameOrDefault(name);
    var i := LastIndex(n, SLASH);
    if i == |n| then kind else kind + [SLASH] + n[..i]
  }

  function LastPart(name: Text): Text {
    var n := NameOrDefault(name);
    var i := LastIndex(n, SLASH);
    if i == |n| then n else n[i + 1..]
  }

  lemma CutName(kind: Text, n: Text, i: nat, end: Text)
    requires i < |n| && n[i] == SLASH
    ensures kind + [SLASH] + (n + end) == kind + [SLASH] + n[..i] + [SLASH] + (n[i + 1..] + end)
  {
    assert n == n[..i] + [SLASH] + n[i + 1..];
  }

  lemma PlainParts(kind: Text, name: Text)
    ensures SLASH !in LastPart(name)
    ensures SLASH !in name ==> Folder(kind, name) == kind && LastPart(name) == NameOrDefault(name)
  {
    assert SLASH !in BACKUP;
    var n := NameOrDefault(name);
    assert SLASH !in name ==> SLASH !in n;
  }

  lemma PutTogether(kind: Text, name: Text, seconds: int)
    ensures Format(kind, name, seconds) == Folder(kind, name) + [SLASH] + Numbered(LastPart(name), seconds)
  {
    var n := NameOrDefault(name);
    var i := LastIndex(n, SLASH);
    if i < |n| {
      CutName(kind, n, i, Ending(seconds));
    }
  }

  /** Every object name is a directory, a slash, and a file name without a slash. */
  lemma FormatParts(kind: Text, name: Text, seconds: int)
    ensures Format(kind, name, seconds) == Folder(kind, name) + [SLASH] + Numbered(LastPart(name), seconds)
    ensures SLASH !in LastPart(name)
    ensures SLASH !in name ==> Folder(kind, name) == kind && LastPart(name) == NameOrDefault(name)
  {
    PlainParts(kind, name);
    PutTogether(kind, name, seconds);
  }

  lemma PartsOf(kind: Text, pre: Text, last: Text)
    requires SLASH !in last
    ensures Folder(kind, pre + [SLASH] + last) == kind + [SLASH] + pre
    ensures LastPart(pre + [SLASH] + last) == last
  {
    LastSlash(pre, last);
  }

  /** Whether a text is some backup's file name. */
  predicate IsFileName(file: Text) {
    match UnformatFile(file)
    case Some((name, seconds)) => FileName(name, seconds) == file
    case None => false
  }

  lemma FileNameIsOne(name: Text, seconds: nat)
    ensures IsFileName(FileName(name, seconds))
  {
    UnformatFileBack(NameOrDefault(name), seconds);
  }

  lemma FileNamesExactly(file: Text)
    ensures IsFileName(file) <==> exists name: Text, seconds: nat :: file == FileName(name, seconds)
  {
    if name: Text, seconds: nat :| file == FileName(name, seconds) { FileNameIsOne(name, seconds); }
  }

  /** Before 1970 the sign reads as one more dash of the name. */
  lemma NegativeSecondsCollide(kind: Text, name: Text, seconds: nat)
    requires name != [] && seconds > 0
    ensures Format(kind, name, 0 - seconds) == Format(kind, name + [DASH], seconds)
  {
    FormatMeets(kind, name, 0 - seconds, kind, name + [DASH], seconds);
    assert kind + [SLASH] + name + [DASH] == kind + [SLASH] + (name + [DASH]);
  }

  /** A slash in the type moves into the name. */
  lemma SlashInTypeCollides(a: Text, b: Text, name: Text, seconds: int)
    requires name != []
    ensures Format(a + [SLASH] + b, name, seconds) == Format(a, b + [SLASH] + name, seconds)
  {
  }

  const SCHEDULED: Text := [115, 99, 104, 101, 100, 117, 108, 101, 100, 45]   // "scheduled-"

  /** Different schedules never write the same object, whatever their types and the times: their ids
      are UUIDs and hold no slash. */
  lemma SchedulesWriteApart(k1: Text, id1: Text, s1: nat, k2: Text, id2: Text, s2: nat)
    requires SLASH !in id1 && SLASH !in id2 && id1 != id2
    ensures Format(k1, SCHEDULED + id1, s1) != Format(k2, SCHEDULED + id2, s2)
  {
    FormatInjective(k1, SCHEDULED + id1, s1, k2, SCHEDULED + id2, s2);
    assert (SCHEDULED + id1)[|SCHEDULED|..] == id1 && (SCHEDULED + id2)[|SCHEDULED|..] == id2;
  }
}
