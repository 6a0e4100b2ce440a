/** The two storage back-ends, as the keys that Save, Open and Delete act on. */
module Adapters {
  import opened GoText
  import opened FilePath
  import opened LocalStorage
  import opened ObjectName

  /** `urlPath` is the path that url.Parse finds in a full URL. */
  datatype Adapter = Local(base: Text) | S3(urlPath: Text -> Option<Text>)

  const BACKSLASH: byte := 92
  const HTTP: Text := [104, 116, 116, 112]

  // ---- s3.go ----

  function ForwardSlashes(s: Text): (t: Text)
    ensures |t| == |s|
    ensures BACKSLASH !in s ==> t == s
    ensures BACKSLASH !in t
  {
    if s == [] then [] else [if s[0] == BACKSLASH then SLASH else s[0]] + ForwardSlashes(s[1..])
  }

  function TrimSlash(s: Text): Text { if Rooted(s) then s[1..] else s }

  predicate StartsHttp(s: Text) { |s| >= 4 && s[..4] == HTTP }

  function ObjectNameFromLocation(urlPath: Text -> Option<Text>, loc: Text): Option<Text> {
    if StartsHttp(loc) then
      match urlPath(loc)
      case None => None
      case Some(p) => Some(TrimSlash(p))
    else Some(TrimSlash(ForwardSlashes(loc)))
  }

  lemma {:induction false} SlashedAt(s: Text, i: nat)
    requires i < |s|
    ensures ForwardSlashes(s)[i] == if s[i] == '\\' as int then '/' as int else s[i]
  {
    if i > 0 { SlashedAt(s[1..], i - 1); }
  }

  /** What S3 opens for a location: the path of a URL, or the location with slashes for backslashes, in
      both cases without one leading slash; nothing left, or no URL, is an error. */
  lemma OpensOnS3(urlPath: Text -> Option<Text>, loc: Text)
    ensures var whole := if Ascii("http") <= loc then urlPath(loc) else Some(ForwardSlashes(loc));
            OpenKey(S3(urlPath), loc)
            == if whole == None || whole == Some([]) || whole == Some(Ascii("/")) then None
               else if whole.value[0] == '/' as int then Some(whole.value[1..]) else whole
  {
    assert Ascii("http") == HTTP && Ascii("/") == [SLASH];
    HttpPrefix(loc);
    var whole := if HTTP <= loc then urlPath(loc) else Some(ForwardSlashes(loc));
    if whole.Some? { SlashOnly(whole.value); }
  }

  lemma HttpPrefix(loc: Text)
    ensures StartsHttp(loc) <==> HTTP <= loc
  {
    if StartsHttp(loc) { assert loc == loc[..4] + loc[4..]; }
  }

  lemma SlashOnly(s: Text)
    ensures TrimSlash(s) == [] <==> s == [] || s == [SLASH]
  {
  }

  // ---- the adapter interface ----

  /** The file or object that Save(objectName) writes. */
  function SaveKey(a: Adapter, obj: Text): Text {
    if a.Local? then FileOf(a.base, obj) else obj
  }

  /** The location that Save answers with. */
  function Location(a: Adapter, obj: Text): Text {
    if a.Local? then Normalize(a.base, obj) else obj
  }

  /** What Open(location) reads; None where it reports a missing object name. */
  function OpenKey(a: Adapter, loc: Text): Option<Text> {
    if a.Local? then Some(FileOf(a.base, loc))
    else
      match ObjectNameFromLocation(a.urlPath, loc)
      case None => None
      case Some(name) => if name == [] then None else Some(name)
  }

  function DeleteKey(a: Adapter, loc: Text): Text {
    if a.Local? then FileOf(a.base, loc) else loc
  }

  /** The interface both adapters implement: keys and locations of an object name, and whether
      deleting a missing object is an error (os.Remove says so, RemoveObject does not). */
  datatype Storage = Storage(
    save: Text -> Text, location: Text -> Text, open: Text -> Option<Text>, delete: Text -> Text, missingIsError: bool)

  function AsStorage(a: Adapter): Storage {
    Storage(n => SaveKey(a, n), n => Location(a, n), l => OpenKey(a, l), l => DeleteKey(a, l), a.Local?)
  }

  // ---- which names are kept apart ----

  const SQLITE: Text := [115, 113, 108, 105, 116, 101]
  const MYSQL: Text := [109, 121, 115, 113, 108]
  const POSTGRES: Text := [112, 111, 115, 116, 103, 114, 101, 115]
  const POSTGRESQL: Text := POSTGRES + [113, 108]
  const MONGO: Text := [109, 111, 110, 103, 111]
  const MONGODB: Text := MONGO + [100, 98]

  lemma TypesSpelled()
    ensures SQLITE == Ascii("sqlite") && MYSQL == Ascii("mysql") && POSTGRES == Ascii("postgres")
    ensures POSTGRESQL == Ascii("postgresql") && MONGO == Ascii("mongo") && MONGODB == Ascii("mongodb")
  {
  }

  /** performDump has a command for exactly these. */
  lemma SupportedExactly(kind: Text)
    ensures Supported(kind)
       <==> kind in {Ascii("sqlite"), Ascii("mysql"), Ascii("postgres"), Ascii("postgresql"), Ascii("mongo"),
                     Ascii("mongodb")}
  {
    TypesSpelled();
  }

  /** The types that performDump has a command for. */
  predicate Supported(kind: Text) {
    kind == SQLITE || kind == MYSQL || kind == POSTGRES || kind == POSTGRESQL || kind == MONGO || kind == MONGODB
  }

  lemma SupportedIsName(kind: Text)
    requires Supported(kind)
    ensures Name(kind) && BACKSLASH !in kind && kind[0] != HTTP[0] && !IsFileName(kind)
  {
    assert kind[|kind| - 3..][2] == kind[|kind| - 1] != GZ[2];
  }

  lemma NumberedIsName(stem: Text, seconds: nat)
    requires SLASH !in stem
    ensures Name(Numbered(stem, seconds))
  {
  }

  lemma FileNameIsName(name: Text, seconds: nat)
    requires SLASH !in name
    ensures Name(FileName(name, seconds)) && IsFileName(FileName(name, seconds))
  {
    assert Name(FileName(name, seconds)) by { NumberedIsName(NameOrDefault(name), seconds); }
    assert IsFileName(FileName(name, seconds)) by { FileNameIsOne(name, seconds); }
  }

  // ---- the directory in which Local puts an object ----

  /** A name that starts with the base stays where it is, any other goes below the base; an empty
      base puts nothing in front. */
  function Dir(base: Text, kind: Text, file: Text): Path {
    var b, q := Parse(base), Parse(kind + [SLASH]);
    if base == [] || Under(b, q.Push(file)) then q else b.PushAll(Split(kind, SLASH))
  }

  lemma ObjectPath(kind: Text, file: Text)
    requires Name(file)
    ensures Split(kind + [SLASH] + file, SLASH) == Split(kind, SLASH) + [file]
    ensures Parse(kind + [SLASH] + file) == Parse(kind + [SLASH]).Push(file)
    ensures Parse(kind + [SLASH]) == Root(Rooted(kind + [SLASH])).PushAll(Split(kind, SLASH))
  {
    var root, none: Text := Root(Rooted(kind + [SLASH])), [];
    SplitConcat(kind, file, SLASH);
    SplitConcat(kind, none, SLASH);
    SplitWhole(file, SLASH);
    assert kind + [SLASH] + none == kind + [SLASH];
    PushAllConcat(root, Split(kind, SLASH), [file]);
    PushAllConcat(root, Split(kind, SLASH), [none]);
    PushOne(root.PushAll(Split(kind, SLASH)), file);
    PushOne(root.PushAll(Split(kind, SLASH)), none);
  }

  lemma DirNormal(base: Text, kind: Text, file: Text)
    ensures Dir(base, kind, file).Normal()
  {
    ParseNormal(base);
    ParseNormal(kind + [SLASH]);
    SplitFree(kind, SLASH);
    PushAllNormal(Parse(base), Split(kind, SLASH));
  }

  lemma ObjectFile(base: Text, kind: Text, file: Text)
    requires Name(file)
    ensures Dir(base, kind, file).Push(file).Normal()
    ensures FileOf(base, kind + [SLASH] + file) == Render(Dir(base, kind, file).Push(file))
  {
    var b, obj := Parse(base), kind + [SLASH] + file;
    DirNormal(base, kind, file);
    NormalizeResolves(base, obj);
    ObjectPath(kind, file);
    if base != [] && !Under(b, Parse(obj)) {
      ParseJoin(base, obj);
      PushAllConcat(b, Split(kind, SLASH), [file]);
      PushOne(b.PushAll(Split(kind, SLASH)), file);
    }
  }

  lemma PushInjective(p: Path, f: Text, q: Path, g: Text)
    requires Name(f) && Name(g)
    ensures p.Push(f) == q.Push(g) <==> p == q && f == g
  {
    assert p.Push(f).names == p.names + [f] && q.Push(g).names == q.names + [g];
    if p.names + [f] == q.names + [g] {
      assert (p.names + [f])[..|p.names|] == p.names && (q.names + [g])[..|q.names|] == q.names;
      assert (p.names + [f])[|p.names|] == f && (q.names + [g])[|q.names|] == g;
    }
  }

  /** Two calls write one file exactly if their last parts and seconds agree and what stands before
      them leads to the same directory, for every base and all types and names. */
  lemma FilesMeet(base: Text, k1: Text, n1: Text, s1: nat, k2: Text, n2: Text, s2: nat)
    ensures FileOf(base, Format(k1, n1, s1)) == FileOf(base, Format(k2, n2, s2))
       <==> LastPart(n1) == LastPart(n2) && s1 == s2
            && Dir(base, Folder(k1, n1), Numbered(LastPart(n1), s1))
               == Dir(base, Folder(k2, n2), Numbered(LastPart(n2), s2))
  {
    var d1, f1 := PlacedAt(base, k1, n1, s1);
    var d2, f2 := PlacedAt(base, k2, n2, s2);
    NumberedInjective(LastPart(n1), s1, LastPart(n2), s2);
    PushInjective(d1, f1, d2, f2);
    if FileOf(base, Format(k1, n1, s1)) == FileOf(base, Format(k2, n2, s2)) {
      RenderInjective(d1.Push(f1), d2.Push(f2));
    }
  }

  lemma PlacedAt(base: Text, kind: Text, name: Text, seconds: nat) returns (dir: Path, file: Text)
    ensures file == Numbered(LastPart(name), seconds) && Name(file)
    ensures dir == Dir(base, Folder(kind, name), file) && dir.Push(file).Normal()
    ensures FileOf(base, Format(kind, name, seconds)) == Render(dir.Push(file))
  {
    FormatParts(kind, name, seconds);
    NumberedIsName(LastPart(name), seconds);
    file := Numbered(LastPart(name), seconds);
    dir := Dir(base, Folder(kind, name), file);
    ObjectFile(base, Folder(kind, name), file);
  }

  // ---- which bases keep supported types apart ----

  /** The base is not a database type by itself, nor one followed by what looks like a backup file. */
  predicate GoodBase(base: Text) {
    var b := Parse(base);
    b.rooted || b.ups > 0 || b.names == [] || !Supported(b.names[0])
    || !(|b.names| == 1 || (|b.names| == 2 && IsFileName(b.names[1])))
  }

  lemma OneName(n: Text)
    requires Name(n)
    ensures Split(n, SLASH) == [n] && Parse(n) == Path(false, 0, [n]) && Parse(n + [SLASH]) == Path(false, 0, [n])
  {
    SplitWhole(n, SLASH);
    PushOne(Root(false), n);
    ObjectPath(n, n);
  }

  lemma TwoComps(b: Path, k: Text, f: Text)
    requires b.Normal() && Name(k) && Name(f)
    ensures Under(b, Path(false, 0, [k]).Push(f))
       <==> !b.rooted && b.ups == 0 && (b.names == [] || b.names == [k] || b.names == [k, f])
  {
    var cs := b.Comps();
    assert Path(false, 0, [k]).Push(f).Comps() == [k, f];
    UpsFirst(b);
    assert b.ups == 0 ==> cs == b.names;
    ShortPrefix(cs, k, f);
    if cs != [] && b.ups > 0 { assert cs[0] == DOTDOT; }
  }

  lemma ShortPrefix(cs: seq<Text>, k: Text, f: Text)
    ensures cs <= [k, f] <==> cs == [] || cs == [k] || cs == [k, f]
  {
  }

  /** Below such a base a supported type has the directory of its own name. */
  lemma SupportedDir(base: Text, kind: Text, file: Text)
    requires GoodBase(base) && Supported(kind) && Name(file) && IsFileName(file)
    ensures Dir(base, kind, file) == Parse(base).Push(kind)
  {
    var b := Parse(base);
    SupportedIsName(kind);
    OneName(kind);
    ParseNormal(base);
    PushOne(b, kind);
    TwoComps(b, kind, file);
    if base == [] { PushOne(Root(false), []); }
  }

  lemma SlashFreeType(kind: Text)
    requires SLASH !in kind
    ensures Split(kind, SLASH) == [kind]
    ensures Parse(kind + [SLASH]) == Root(kind == []).Push(kind)
  {
    SplitWhole(kind, SLASH);
    ObjectPath(kind, GZ);
    PushOne(Root(kind == []), kind);
    assert Rooted(kind + [SLASH]) <==> kind == [];
  }

  /** No other type without a slash leads to that directory. */
  lemma SlashFreeDir(base: Text, kind: Text, file: Text, other: Text)
    requires SLASH !in kind && Name(other) && Dir(base, kind, file) == Parse(base).Push(other)
    ensures kind == other
  {
    var b := Parse(base);
    SlashFreeType(kind);
    PushOne(b, kind);
    assert b.Push(other).names == b.names + [other] && (b.names + [other])[|b.names|] == other;
    if Name(kind) {
      assert b.Push(kind).names == b.names + [kind] && (b.names + [kind])[|b.names|] == kind;
    }
  }

  /** Every supported type's files are written by no other call whose type has no slash. */
  ghost predicate TypesApart(base: Text) {
    forall k1, n1, s1: nat, k2, n2, s2: nat
      | Supported(k1) && SLASH !in n1 && SLASH !in k2 && SLASH !in n2
        && FileOf(base, Format(k1, n1, s1)) == FileOf(base, Format(k2, n2, s2)) ::
      k1 == k2 && NameOrDefault(n1) == NameOrDefault(n2) && s1 == s2
  }

  lemma GoodBaseApart(base: Text, k1: Text, n1: Text, s1: nat, k2: Text, n2: Text, s2: nat)
    requires GoodBase(base) && Supported(k1) && SLASH !in n1 && SLASH !in k2 && SLASH !in n2
    requires FileOf(base, Format(k1, n1, s1)) == FileOf(base, Format(k2, n2, s2))
    ensures k1 == k2 && NameOrDefault(n1) == NameOrDefault(n2) && s1 == s2
  {
    FilesMeet(base, k1, n1, s1, k2, n2, s2);
    FormatParts(k1, n1, s1);
    FormatParts(k2, n2, s2);
    FileNameIsName(n1, s1);
    SupportedIsName(k1);
    SupportedDir(base, k1, FileName(n1, s1));
    SlashFreeDir(base, k2, FileName(n2, s2), k1);
  }

  lemma NonemptyBase(base: Text)
    requires Parse(base).names != []
    ensures base != []
  {
    if base == [] { PushOne(Root(false), []); }
  }

  lemma NameInFile(file: Text) returns (name: Text, seconds: nat)
    requires Name(file) && IsFileName(file)
    ensures SLASH !in name && FileName(name, seconds) == file
  {
    var u := UnformatFile(file).value;
    name, seconds := u.0, u.1;
    assert forall b | b in name :: b in FileName(name, seconds);
  }

  /** Below a base named like a type, the type `.` has the same directory. */
  lemma DotMeets(base: Text, kind: Text, file: Text)
    requires Name(kind) && Name(file) && file != kind && Parse(base) == Path(false, 0, [kind])
    ensures Dir(base, kind, file) == Dir(base, [DOT], file)
  {
    var b := Parse(base);
    NonemptyBase(base);
    OneName(kind);
    TwoComps(b, kind, file);
    SlashFreeType([DOT]);
    PushOne(b, [DOT]);
    assert b.Comps()[0] == kind && Path(false, 0, [file]).Comps()[0] == file;
  }

  /** Below a base named like a type and a backup file, the type `..` has, for that file. */
  lemma DotDotMeets(base: Text, kind: Text, file: Text)
    requires Name(kind) && Name(file) && Parse(base) == Path(false, 0, [kind, file])
    ensures Dir(base, kind, file) == Dir(base, DOTDOT, file)
  {
    var b := Parse(base);
    NonemptyBase(base);
    OneName(kind);
    TwoComps(b, kind, file);
    SlashFreeType(DOTDOT);
    PushOne(b, DOTDOT);
    assert [kind, file][..1] == [kind];
    ClimbsOut(b, file);
  }

  lemma ClimbsOut(b: Path, file: Text)
    requires b.Normal() && b.ups == 0 && b.names != []
    ensures !Under(b, Path(false, 1, []).Push(file))
  {
    assert b.Comps()[0] == b.names[0] && b.names[0] in b.names;
    assert Path(false, 1, [] + [file]).Comps()[0] == DOTDOT;
  }

  lemma SlashFreeMeet(base: Text, k1: Text, k2: Text, name: Text, seconds: nat)
    requires SLASH !in name && Dir(base, k1, FileName(name, seconds)) == Dir(base, k2, FileName(name, seconds))
    ensures FileOf(base, Format(k1, name, seconds)) == FileOf(base, Format(k2, name, seconds))
  {
    FilesMeet(base, k1, name, seconds, k2, name, seconds);
    FormatParts(k1, name, seconds);
    FormatParts(k2, name, seconds);
  }

  /** Two types without a slash, the first of them supported, that share a file. */
  ghost predicate Clash(base: Text, k1: Text, k2: Text, name: Text, seconds: nat) {
    Supported(k1) && SLASH !in name && SLASH !in k2 && k1 != k2
    && FileOf(base, Format(k1, name, seconds)) == FileOf(base, Format(k2, name, seconds))
  }

  lemma TypeBaseMeets(base: Text, kind: Text)
    requires Supported(kind) && Parse(base) == Path(false, 0, [kind])
    ensures Clash(base, kind, [DOT], [], 0)
  {
    SupportedIsName(kind);
    FileNameIsName([], 0);
    DotMeets(base, kind, FileName([], 0));
    SlashFreeMeet(base, kind, [DOT], [], 0);
  }

  lemma FileBaseMeets(base: Text, kind: Text, file: Text) returns (name: Text, seconds: nat)
    requires Supported(kind) && Name(file) && IsFileName(file) && Parse(base) == Path(false, 0, [kind, file])
    ensures Clash(base, kind, DOTDOT, name, seconds)
  {
    SupportedIsName(kind);
    name, seconds := NameInFile(file);
    DotDotMeets(base, kind, file);
    SlashFreeMeet(base, kind, DOTDOT, name, seconds);
  }

  lemma BadBaseMeets(base: Text) returns (k1: Text, k2: Text, name: Text, seconds: nat)
    requires !GoodBase(base)
    ensures Clash(base, k1, k2, name, seconds)
  {
    var b := Parse(base);
    k1 := b.names[0];
    ParseNormal(base);
    if |b.names| == 1 {
      k2, name, seconds := [DOT], [], 0;
      assert b.names == [k1];
      TypeBaseMeets(base, k1);
    } else {
      k2 := DOTDOT;
      assert b.names == [k1, b.names[1]];
      name, seconds := FileBaseMeets(base, k1, b.names[1]);
    }
  }

  /** Exactly the good bases keep supported types apart from all other types without a slash. */
  lemma GoodBaseExactly(base: Text)
    ensures TypesApart(base) <==> GoodBase(base)
  {
    if GoodBase(base) {
      forall k1, n1, s1: nat, k2, n2, s2: nat
        | Supported(k1) && SLASH !in n1 && SLASH !in k2 && SLASH !in n2
          && FileOf(base, Format(k1, n1, s1)) == FileOf(base, Format(k2, n2, s2))
        ensures k1 == k2 && NameOrDefault(n1) == NameOrDefault(n2) && s1 == s2
      {
        GoodBaseApart(base, k1, n1, s1, k2, n2, s2);
      }
    } else {
      var k1, k2, name, seconds := BadBaseMeets(base);
      assert Clash(base, k1, k2, name, seconds);
    }
  }

  // ---- types with a slash ----

  /** An unsupported type that leads to the directory of a supported one. */
  predicate Stray(base: Text, kind: Text, file: Text) {
    var p := Dir(base, kind, file);
    !Supported(kind) && p.names != [] && Supported(p.names[|p.names| - 1])
    && p == Parse(base).Push(p.names[|p.names| - 1])
  }

  /** Exactly which calls, whatever their type and name, write a supported type's file: those with the
      same last part and second whose type and folders lead to that type's directory. */
  lemma OverwrittenExactly(base: Text, k1: Text, n1: Text, s1: nat, k2: Text, n2: Text, s2: nat)
    requires GoodBase(base) && Supported(k1) && SLASH !in n1
    ensures FileOf(base, Format(k1, n1, s1)) == FileOf(base, Format(k2, n2, s2))
       <==> LastPart(n2) == NameOrDefault(n1) && s1 == s2
            && Dir(base, Folder(k2, n2), FileName(n1, s1)) == Parse(base).Push(k1)
  {
    FilesMeet(base, k1, n1, s1, k2, n2, s2);
    FormatParts(k1, n1, s1);
    FileNameIsName(n1, s1);
    SupportedDir(base, k1, FileName(n1, s1));
  }

  /** A type that leads there is that type itself or strays. */
  lemma OwnOrStray(base: Text, kind: Text, file: Text, other: Text)
    requires GoodBase(base) && Supported(other) && Name(file) && IsFileName(file)
    ensures Dir(base, kind, file) == Parse(base).Push(other) ==> kind == other || Stray(base, kind, file)
    ensures kind == other ==> Dir(base, kind, file) == Parse(base).Push(other)
  {
    var b := Parse(base);
    SupportedIsName(other);
    SupportedDir(base, other, file);
    assert b.Push(other).names == b.names + [other];
    if Supported(kind) {
      SupportedIsName(kind);
      SupportedDir(base, kind, file);
      PushInjective(b, kind, b, other);
    }
  }

  /** Below a base of plain names, the types that lead to a directory of it, by the two ways there
      are: the type itself starts with the base, or its components are put below the base. */
  lemma LeadsTo(base: Text, kind: Text, file: Text, other: Text)
    requires PlainBase(base) && GoodBase(base) && Supported(other) && Name(file) && IsFileName(file)
    ensures Dir(base, kind, file) == Parse(base).Push(other)
       <==> Parse(kind + [SLASH]) == Parse(base).Push(other)
            || Parse(base).PushAll(Split(kind, SLASH)) == Parse(base).Push(other)
  {
    var b, q := Parse(base), Parse(kind + [SLASH]);
    SupportedIsName(other);
    NonemptyBase(base);
    ParseNormal(base);
    ParseNormal(kind + [SLASH]);
    if q == b.Push(other) { DirectlyBelow(b, other, file); }
    if Under(b, q.Push(file)) && b.PushAll(Split(kind, SLASH)) == b.Push(other) {
      NotBothWays(base, kind, file, other);
    }
  }

  lemma DirectlyBelow(b: Path, other: Text, file: Text)
    requires Name(other) && Name(file)
    ensures Under(b, b.Push(other).Push(file))
  {
  }

  lemma NotBothWays(base: Text, kind: Text, file: Text, other: Text)
    requires PlainBase(base) && GoodBase(base) && Supported(other) && Name(file) && IsFileName(file)
    requires Under(Parse(base), Parse(kind + [SLASH]).Push(file))
    ensures Parse(base).PushAll(Split(kind, SLASH)) != Parse(base).Push(other)
  {
    var b, q := Parse(base), Parse(kind + [SLASH]);
    SupportedIsName(other);
    PutTwice(base, kind, file);
    ParseNormal(base);
    TwoComps(b, other, file);
    assert (b.names + q.names)[|b.names|..] == q.names && (b.names + [other])[|b.names|..] == [other];
  }

  lemma PlainStart(b: Path, q: Path, file: Text)
    requires b.Normal() && q.Normal() && !b.rooted && b.ups == 0 && b.names != []
    requires Name(file) && Under(b, q.Push(file))
    ensures !q.rooted && q.ups == 0 && q.Comps() == q.names
  {
    UpsFirst(q.Push(file));
    assert b.Comps()[0] == q.Push(file).Comps()[0] && b.names[0] in b.names;
  }

  /** A type that starts with the base, below the base again. */
  lemma PutTwice(base: Text, kind: Text, file: Text)
    requires PlainBase(base) && Name(file) && Under(Parse(base), Parse(kind + [SLASH]).Push(file))
    ensures var b, q := Parse(base), Parse(kind + [SLASH]);
            b.PushAll(Split(kind, SLASH)) == Path(false, 0, b.names + q.names) && q == Path(false, 0, q.names)
  {
    var b, q := Parse(base), Parse(kind + [SLASH]);
    ParseNormal(base);
    ParseNormal(kind + [SLASH]);
    PlainStart(b, q, file);
    ObjectPath(kind, file);
    SplitFree(kind, SLASH);
    PushCleaned(b, Split(kind, SLASH));
    PushNames(b, q.names);
  }

  /** So three spellings with a slash overwrite every supported type's backups below any good base of
      plain names: the type followed by `/.`, the type after a slash, and the type after the base. */
  lemma SlashTypesOverwrite(base: Text, kind: Text, name: Text, seconds: nat)
    requires PlainBase(base) && GoodBase(base) && Supported(kind) && SLASH !in name
    ensures forall k2 | k2 in {kind + [SLASH, DOT], [SLASH] + kind, base + [SLASH] + kind} ::
              !Supported(k2) && FileOf(base, Format(k2, name, seconds)) == FileOf(base, Format(kind, name, seconds))
  {
    var b, f := Parse(base), FileName(name, seconds);
    SupportedIsName(kind);
    FileNameIsName(name, seconds);
    SpellingsLead(base, kind);
    forall k2 | k2 in {kind + [SLASH, DOT], [SLASH] + kind, base + [SLASH] + kind}
      ensures !Supported(k2) && FileOf(base, Format(k2, name, seconds)) == FileOf(base, Format(kind, name, seconds))
    {
      assert SLASH in k2;
      if Supported(k2) { SupportedIsName(k2); }
      LeadsTo(base, k2, f, kind);
      SupportedDir(base, kind, f);
      SlashFreeMeet(base, k2, kind, name, seconds);
    }
  }

  lemma SpellingsLead(base: Text, kind: Text)
    requires Name(kind)
    ensures Parse(base).PushAll(Split(kind + [SLASH, DOT], SLASH)) == Parse(base).Push(kind)
    ensures Parse(base).PushAll(Split([SLASH] + kind, SLASH)) == Parse(base).Push(kind)
    ensures Parse(base) != Root(false) ==> Parse(base + [SLASH] + kind + [SLASH]) == Parse(base).Push(kind)
  {
    assert kind + [SLASH, DOT] == kind + [SLASH] + [DOT];
    PushSplit(Parse(base), kind, [DOT]);
    var none: Text := [];
    assert [SLASH] + kind == none + [SLASH] + kind;
    PushSplit(Parse(base), none, kind);
    BaseBefore(base, kind);
  }

  lemma PushSplit(b: Path, x: Text, y: Text)
    requires SLASH !in x && SLASH !in y
    ensures b.PushAll(Split(x + [SLASH] + y, SLASH)) == b.Push(x).Push(y)
  {
    SplitConcat(x, y, SLASH);
    SplitWhole(x, SLASH);
    SplitWhole(y, SLASH);
    PushAllConcat(b, [x], [y]);
    PushOne(b, x);
    PushOne(b.Push(x), y);
  }

  lemma BaseBefore(base: Text, kind: Text)
    requires Name(kind)
    ensures Parse(base) != Root(false) ==> Parse(base + [SLASH] + kind + [SLASH]) == Parse(base).Push(kind)
  {
    if base == [] {
      PushOne(Root(false), []);
    } else {
      var none: Text := [];
      SplitConcat(base, kind, SLASH);
      SplitWhole(kind, SLASH);
      SplitConcat(base + [SLASH] + kind, none, SLASH);
      assert base + [SLASH] + kind + [SLASH] + none == base + [SLASH] + kind + [SLASH];
      var r := Root(Rooted(base));
      PushAllConcat(r, Split(base, SLASH), [kind]);
      PushAllConcat(r, Split(base, SLASH) + [kind], [none]);
      PushOne(r.PushAll(Split(base, SLASH)), kind);
      PushOne(r.PushAll(Split(base, SLASH) + [kind]), none);
    }
  }

  lemma StepBack(p: Path, other: Text, kind: Text)
    requires Name(other) && Name(kind)
    ensures p.PushAll(Split(other + [SLASH] + DOTDOT + [SLASH] + kind, SLASH)) == p.Push(kind)
  {
    SplitConcat(other + [SLASH] + DOTDOT, kind, SLASH);
    SplitConcat(other, DOTDOT, SLASH);
    SplitWhole(other, SLASH);
    SplitWhole(DOTDOT, SLASH);
    SplitWhole(kind, SLASH);
    assert [other] + [DOTDOT] + [kind] == [other, DOTDOT] + [kind];
    PushAllConcat(p, [other, DOTDOT], [kind]);
    PushAllConcat(p, [other], [DOTDOT]);
    PushOne(p, other);
    PushOne(p.Push(other), DOTDOT);
    PushOne(p, kind);
    assert [other] + [DOTDOT] == [other, DOTDOT];
    assert p.Push(other).names == p.names + [other] && (p.names + [other])[..|p.names|] == p.names;
  }

  lemma SameDir(base: Text, other: Text, kind: Text, file: Text)
    requires Name(other) && Name(kind) && Name(file)
    ensures Dir(base, other + [SLASH] + DOTDOT + [SLASH] + kind, file) == Dir(base, kind, file)
  {
    var long := other + [SLASH] + DOTDOT + [SLASH] + kind;
    assert long[0] == other[0] && other[0] in other && kind[0] in kind;
    ObjectPath(long, file);
    OneName(kind);
    StepBack(Root(false), other, kind);
    StepBack(Parse(base), other, kind);
    PushOne(Parse(base), kind);
  }

  /** So names with a slash overwrite as well: below every base, a name that steps back out of its own
      type writes the file of any type that it likes. */
  lemma SlashNamesOverwrite(base: Text, other: Text, kind: Text, name: Text, seconds: nat)
    requires Name(other) && Name(kind) && SLASH !in name
    ensures FileOf(base, Format(other, DOTDOT + [SLASH] + kind + [SLASH] + NameOrDefault(name), seconds))
         == FileOf(base, Format(kind, name, seconds))
  {
    var last, f := NameOrDefault(name), FileName(name, seconds);
    PartsOf(other, DOTDOT + [SLASH] + kind, last);
    FormatParts(kind, name, seconds);
    NumberedIsName(last, seconds);
    BackOut(other, kind);
    SameDir(base, other, kind, f);
    PartsMeet(base, other, DOTDOT + [SLASH] + kind + [SLASH] + last, kind, name, seconds);
  }

  lemma BackOut(other: Text, kind: Text)
    ensures other + [SLASH] + (DOTDOT + [SLASH] + kind) == other + [SLASH] + DOTDOT + [SLASH] + kind
  {
  }

  lemma PartsMeet(base: Text, k1: Text, n1: Text, k2: Text, n2: Text, seconds: nat)
    requires LastPart(n1) == LastPart(n2)
    requires var f := Numbered(LastPart(n1), seconds); Dir(base, Folder(k1, n1), f) == Dir(base, Folder(k2, n2), f)
    ensures FileOf(base, Format(k1, n1, seconds)) == FileOf(base, Format(k2, n2, seconds))
  {
    FilesMeet(base, k1, n1, seconds, k2, n2, seconds);
  }

  // ---- both adapters ----

  predicate GoodAdapter(a: Adapter) { a.Local? ==> GoodBase(a.base) }

  /** S3 keys are told apart if types have no slash, files if names have none and no type strays. */
  predicate GoodName(a: Adapter, kind: Text, name: Text, seconds: nat) {
    if a.Local? then SLASH !in name && !Stray(a.base, kind, FileName(name, seconds)) else SLASH !in kind
  }

  /** Types without a slash never stray. */
  lemma SlashFreeStays(base: Text, kind: Text, file: Text)
    requires SLASH !in kind
    ensures !Stray(base, kind, file)
  {
    var p := Dir(base, kind, file);
    if Stray(base, kind, file) {
      SupportedIsName(p.names[|p.names| - 1]);
      SlashFreeDir(base, kind, file, p.names[|p.names| - 1]);
    }
  }

  /** A supported type's object is overwritten by no other backup whose type does not stray. */
  lemma KeysApart(a: Adapter, k1: Text, n1: Text, s1: nat, k2: Text, n2: Text, s2: nat)
    requires GoodAdapter(a) && Supported(k1) && GoodName(a, k1, n1, s1) && GoodName(a, k2, n2, s2)
    ensures SaveKey(a, Format(k1, n1, s1)) == SaveKey(a, Format(k2, n2, s2))
       <==> k1 == k2 && NameOrDefault(n1) == NameOrDefault(n2) && s1 == s2
  {
    if a.Local? {
      OverwrittenExactly(a.base, k1, n1, s1, k2, n2, s2);
      FormatParts(k2, n2, s2);
      FileNameIsName(n1, s1);
      OwnOrStray(a.base, k2, FileName(n1, s1), k1);
    } else {
      FormatInjective(k1, n1, s1, k2, n2, s2);
    }
  }

  lemma NeverDoubled(base: Text, kind: Text, file: Text)
    requires Supported(kind) && Name(file) && IsFileName(file)
    ensures !DoubledBase(base, kind + [SLASH] + file)
  {
    var b, o := Parse(base), Parse(kind + [SLASH] + file);
    SupportedIsName(kind);
    OneName(kind);
    ObjectPath(kind, file);
    assert o.Comps() == [kind, file];
    if b.Comps() != [] { NoSquare(b.Comps(), kind, file); }
  }

  lemma NoSquare(cs: seq<Text>, x: Text, y: Text)
    requires x != y && cs != []
    ensures !(cs + cs <= [x, y])
  {
    assert (cs + cs)[0] == cs[0] && (cs + cs)[|cs|] == cs[0];
  }

  /** When the stored location reaches what Save wrote. On Local it deletes and opens it exactly if the
      name does not repeat the base twice, for all types and names. On S3 it always deletes it, and opens
      it exactly if the name has no backslash, which S3 turns into a slash when it opens. */
  lemma LocationReaches(a: Adapter, kind: Text, name: Text, seconds: int)
    requires a.Local? || Supported(kind)
    ensures var obj := Format(kind, name, seconds);
            var reaches := if a.Local? then !DoubledBase(a.base, obj) else BACKSLASH !in name;
            && (OpenKey(a, Location(a, obj)) == Some(SaveKey(a, obj)) <==> reaches)
            && (DeleteKey(a, Location(a, obj)) == SaveKey(a, obj) <==> a.S3? || reaches)
  {
    var obj := Format(kind, name, seconds);
    if a.Local? {
      LocationAgrees(a.base, obj);
    } else {
      SupportedIsName(kind);
      assert obj[0] == kind[0] && obj[..4][0] == obj[0];
      BackslashOnlyInName(kind, name, seconds);
    }
  }

  /** A base put after steps back to nothing, twice over. */
  lemma BaseTwice(base: Text, kind: Text)
    requires PlainBase(base) && Name(kind)
    ensures var b, long := Parse(base), kind + [SLASH] + (DOTDOT + [SLASH] + base + [SLASH] + base);
            Parse(long + [SLASH]) == Path(false, 0, b.names + b.names)
  {
    var b, root := Parse(base), Root(false);
    var first := kind + [SLASH] + DOTDOT;
    var long := first + [SLASH] + base + [SLASH] + base;
    assert long == kind + [SLASH] + (DOTDOT + [SLASH] + base + [SLASH] + base);
    assert long[0] == kind[0] && kind[0] in kind;
    NonemptyBase(base);
    ParseNormal(base);
    ObjectPath(long, GZ);
    SplitConcat(first + [SLASH] + base, base, SLASH);
    SplitConcat(first, base, SLASH);
    SplitFree(base, SLASH);
    PushAllConcat(root, Split(first + [SLASH] + base, SLASH), Split(base, SLASH));
    PushAllConcat(root, Split(first, SLASH), Split(base, SLASH));
    UpAndDown(kind);
    PushCleaned(b, Split(base, SLASH));
    PushNames(b, b.names);
    assert b.Comps() == b.names;
  }

  lemma UpAndDown(kind: Text)
    requires Name(kind)
    ensures Root(false).PushAll(Split(kind + [SLASH] + DOTDOT, SLASH)) == Root(false)
  {
    PushSplit(Root(false), kind, DOTDOT);
    assert [kind][..0] == [];
  }

  /** A call that the location does not find again, for every plain base and every type: a name that
      steps back out of the type and then gives the base twice. Below `backups`, the name
      `../backups/backups/x` does it. */
  lemma DoubledNameIsLost(base: Text, kind: Text, last: Text, seconds: nat)
    requires PlainBase(base) && Name(kind) && SLASH !in last
    ensures var name := DOTDOT + [SLASH] + base + [SLASH] + base + [SLASH] + last;
            var obj := Format(kind, name, seconds);
            && DoubledBase(base, obj)
            && DeleteKey(Local(base), Location(Local(base), obj)) != SaveKey(Local(base), obj)
            && OpenKey(Local(base), Location(Local(base), obj)) != Some(SaveKey(Local(base), obj))
  {
    var twice := DOTDOT + [SLASH] + base + [SLASH] + base;
    var b, f := Parse(base), Numbered(last, seconds);
    BaseTwice(base, kind);
    ParseNormal(base);
    FormatParts(kind, twice + [SLASH] + last, seconds);
    PartsOf(kind, twice, last);
    NumberedIsName(last, seconds);
    ObjectPath(kind + [SLASH] + twice, f);
    DoubledComps(b, f);
    LocationReaches(Local(base), kind, twice + [SLASH] + last, seconds);
  }

  lemma DoubledComps(b: Path, f: Text)
    requires b.ups == 0 && Name(f)
    ensures b.Comps() + b.Comps() <= Path(false, 0, b.names + b.names).Push(f).Comps()
  {
    assert b.Comps() == b.names;
    assert Path(false, 0, b.names + b.names).Push(f).Comps() == b.names + b.names + [f];
  }

  /** So it does for supported types and names without a slash, or a backslash on S3. */
  lemma PlainReaches(a: Adapter, kind: Text, name: Text, seconds: nat)
    requires Supported(kind) && (a.Local? ==> SLASH !in name)
    ensures var obj := Format(kind, name, seconds);
            && DeleteKey(a, Location(a, obj)) == SaveKey(a, obj)
            && (a.Local? || BACKSLASH !in name ==> OpenKey(a, Location(a, obj)) == Some(SaveKey(a, obj)))
  {
    LocationReaches(a, kind, name, seconds);
    if a.Local? {
      FileNameIsName(name, seconds);
      NeverDoubled(a.base, kind, FileName(name, seconds));
    }
  }

  lemma BackslashOnlyInName(kind: Text, name: Text, seconds: int)
    requires BACKSLASH !in kind
    ensures BACKSLASH in Format(kind, name, seconds) <==> BACKSLASH in name
  {
  }

  const BACKUPS: Text := [98, 97, 99, 107, 117, 112, 115]   // backups

  lemma BackupsSpelled()
    ensures BACKUPS == Ascii("backups") && !Supported(BACKUPS)
  {
    assert BACKUPS[0] == 98 && SQLITE[0] == 115 && MYSQL[0] == 109 && POSTGRES[0] == 112 && POSTGRESQL[0] == 112;
    assert MONGO[0] == 109 && MONGODB[0] == 109;
  }

  /** The base directory that both programs pass is a good one of plain names. */
  lemma ControllerBase()
    ensures BACKUPS == Ascii("backups") && GoodBase(BACKUPS) && PlainBase(BACKUPS)
  {
    BackupsSpelled();
    OneName(BACKUPS);
  }
}
