/** Which file the Local adapter touches for an object name or a stored location. */
module LocalStorage {
  import opened GoText
  import opened FilePath

  /** Local.normalizeObjectName, branch by branch. */
  function Normalize(base: Text, obj: Text): Text {
    var cleanBase, cleanObj := Clean(base), Clean(obj);
    var rel := Rel(Parse(cleanBase), Parse(cleanObj));
    if rel.Some? && !(DOTDOT <= rel.value) then rel.value
    else if cleanBase + [SLASH] <= cleanObj then cleanObj[|cleanBase| + 1..]
    else obj
  }

  /** The file that Save writes, and that Open and Delete look for. */
  function FileOf(base: Text, name: Text): Text { JoinPath(base, Normalize(base, name)) }

  // ---- reference definition ----

  /** The object's components start with all of the base's. */
  predicate Under(base: Path, obj: Path) {
    base.rooted == obj.rooted && base.Comps() <= obj.Comps()
  }

  /** A name that already starts with the base is taken as it stands, any other is put below it. */
  function Resolve(base: Text, obj: Text): Text {
    if Under(Parse(base), Parse(obj)) then Clean(obj) else JoinPath(base, obj)
  }

  /** What is left of an object under the base. */
  function Rest(base: Path, obj: Path): seq<Text>
    requires Under(base, obj)
  {
    obj.Comps()[|base.Comps()|..]
  }

  lemma {:induction false} CommonPrefixIsAll(a: seq<Text>, b: seq<Text>)
    requires a <= b
    ensures CommonPrefix(a, b) == |a|
  {
  }

  lemma JoinKeepsPrefix(c: Text, cs: seq<Text>)
    ensures c <= Join([c] + cs, SLASH)
  {
  }

  /** Rel succeeds without climbing only below the base, and then gives the remaining components. */
  lemma RelUnder(b: Path, o: Path)
    requires b.Normal() && o.Normal()
    ensures Rel(b, o).Some? && !(DOTDOT <= Rel(b, o).value) ==> Under(b, o)
    ensures Under(b, o) ==>
              Rel(b, o) == Some(if b == o then [DOT] else Join(Rest(b, o), SLASH))
    ensures Under(b, o) ==> (b == o <==> Rest(b, o) == [])
  {
    var bs, ts := b.Comps(), o.Comps();
    var n := CommonPrefix(bs, ts);
    if Under(b, o) {
      CommonPrefixIsAll(bs, ts);
      if Rest(b, o) == [] {
        assert bs == ts;
        SameComps(b, o);
      }
    } else if b.rooted == o.rooted {
      assert bs[..|bs|] == bs;
      var climb := seq(|bs| - n, _ => DOTDOT) + ts[n..];
      assert climb == [DOTDOT] + climb[1..];
      JoinKeepsPrefix(DOTDOT, climb[1..]);
    }
  }

  lemma SameComps(p: Path, q: Path)
    requires p.Normal() && q.Normal() && p.rooted == q.rooted && p.Comps() == q.Comps()
    ensures p == q
  {
    PushComps(p);
    PushComps(q);
  }

  lemma UpsFirst(p: Path)
    requires p.Normal()
    ensures forall i | 0 <= i < |p.Comps()| :: p.Comps()[i] == DOTDOT <==> i < p.ups
  {
    assert forall i | p.ups <= i < |p.Comps()| :: p.Comps()[i] in p.names;
  }

  lemma RestShape(b: Path, o: Path) returns (r: Path)
    requires b.Normal() && o.Normal() && Under(b, o)
    ensures r.Normal() && !r.rooted && r.Comps() == Rest(b, o)
  {
    var bs, os := b.Comps(), o.Comps();
    UpsFirst(b);
    UpsFirst(o);
    assert b.ups == |bs| || bs[b.ups] == os[b.ups];
    if |bs| <= o.ups {
      r := Path(false, o.ups - |bs|, o.names);
    } else {
      assert bs[o.ups] == os[o.ups];
      r := Path(false, 0, o.names[|b.names|..]);
      assert forall c | c in r.names :: c in o.names;
    }
  }

  /** The remaining components as a relative path. Steps up remain only when the base is all steps up. */
  lemma RestPath(b: Path, o: Path) returns (r: Path)
    requires b.Normal() && o.Normal() && Under(b, o)
    ensures r.Normal() && !r.rooted && r.Comps() == Rest(b, o)
    ensures b.PushAll(r.Comps()) == o
  {
    r := RestShape(b, o);
    PushComps(o);
    PushComps(b);
    PushAllConcat(Root(b.rooted), b.Comps(), r.Comps());
    assert b.Comps() + r.Comps() == o.Comps();
  }

  lemma RenderLength(p: Path)
    requires p.Normal()
    ensures |Render(p)| >= 1
    ensures p.Comps() == [] ==> p == Root(p.rooted) && |Render(p)| == 1
  {
    if p.Comps() != [] {
      assert p.Comps()[0] in p.Comps();
      JoinFirst(p.Comps());
    }
  }

  /** `.` and `/` followed by a slash start no cleaned path. */
  lemma BareBase(b: Path, o: Path, tail: Text)
    requires b.Normal() && o.Normal() && b.Comps() == []
    ensures Render(o) != Render(b) + [SLASH] + tail
  {
    RenderLength(b);
    RenderLength(o);
    var s := Render(b) + [SLASH] + tail;
    if o.Comps() != [] {
      var first := o.Comps()[0];
      CompsFree(o);
      assert first in o.Comps() && first != [] && SLASH !in first;
      JoinFirst(o.Comps());
      if b.rooted {
        assert s[1] == SLASH;
      } else if !o.rooted {
        SplitRender(o);
        SplitConcat([DOT], tail, SLASH);
        SplitWhole([DOT], SLASH);
        assert Split(s, SLASH)[0] == [DOT];
      }
    }
  }

  lemma DropHead(x: Text, a: seq<Text>, b: seq<Text>, c: seq<Text>)
    requires [x] + a == [x] + b + c
    ensures a == b + c
  {
    assert a == ([x] + a)[1..] && ([x] + b + c)[1..] == b + c;
  }

  /** A cleaned object that starts with the cleaned base and a slash is below the base. */
  lemma PrefixIsUnder(b: Path, o: Path, tail: Text)
    requires b.Normal() && o.Normal() && Render(o) == Render(b) + [SLASH] + tail
    ensures Under(b, o) && b.Comps() != [] && tail == Join(Rest(b, o), SLASH)
  {
    var parts := Split(tail, SLASH);
    if b.Comps() == [] { BareBase(b, o, tail); }
    RenderLength(b);
    RenderLength(o);
    SplitRender(b);
    SplitRender(o);
    SplitConcat(Render(b), tail, SLASH);
    assert Render(o)[0] == Render(b)[0];
    if b.rooted { DropHead([], o.Comps(), b.Comps(), parts); }
    JoinSplit(tail, SLASH);
  }

  /** The text that takes the base to an object under it. */
  function RelText(b: Path, o: Path): Text
    requires Under(b, o)
  {
    if b == o then [DOT] else Join(Rest(b, o), SLASH)
  }

  /** Normalize in terms of the two cleaned paths. */
  lemma NormalizeOnPaths(base: Text, obj: Text)
    ensures var b, o := Parse(base), Parse(obj);
            b.Normal() && o.Normal()
            && Normalize(base, obj)
               == if Rel(b, o).Some? && !(DOTDOT <= Rel(b, o).value) then Rel(b, o).value
                  else if Render(b) + [SLASH] <= Render(o) then Render(o)[|Render(b)| + 1..]
                  else obj
  {
    CleanIsNormalForm(base);
    CleanIsNormalForm(obj);
    ParseNormal(base);
    ParseNormal(obj);
  }

  lemma NormalizeNotUnder(base: Text, obj: Text)
    requires !Under(Parse(base), Parse(obj))
    ensures Normalize(base, obj) == obj
  {
    var b, o := Parse(base), Parse(obj);
    NormalizeOnPaths(base, obj);
    RelUnder(b, o);
    if Render(b) + [SLASH] <= Render(o) {
      var tail := Render(o)[|Render(b)| + 1..];
      assert Render(o) == Render(b) + [SLASH] + tail;
      PrefixIsUnder(b, o, tail);
    }
  }

  lemma NormalizeUnder(base: Text, obj: Text)
    requires Under(Parse(base), Parse(obj))
    ensures var b, o := Parse(base), Parse(obj);
            && (b.Comps() != [] ==> Normalize(base, obj) == RelText(b, o))
            && (b.Comps() == [] ==> Normalize(base, obj) == RelText(b, o) || (Normalize(base, obj) == obj && obj != []))
  {
    var b, o := Parse(base), Parse(obj);
    NormalizeOnPaths(base, obj);
    RelUnder(b, o);
    if DOTDOT <= RelText(b, o) {
      if b.Comps() == [] {
        BareObject(b, o, obj);
        if Render(b) + [SLASH] <= Render(o) { BareBase(b, o, Render(o)[|Render(b)| + 1..]); }
      } else {
        UnderIsPrefix(b, o);
      }
    }
  }

  /** The three ways out of Normalize. The second prefix test catches names that only look like
      steps up; a base of `.` or `/` has no such test and falls back to the name itself. */
  lemma NormalizeCases(base: Text, obj: Text)
    ensures var b, o := Parse(base), Parse(obj);
            && (!Under(b, o) ==> Normalize(base, obj) == obj)
            && (Under(b, o) && b.Comps() != [] ==> Normalize(base, obj) == RelText(b, o))
            && (Under(b, o) && b.Comps() == [] ==>
                  Normalize(base, obj) == RelText(b, o) || (Normalize(base, obj) == obj && obj != []))
  {
    if Under(Parse(base), Parse(obj)) { NormalizeUnder(base, obj); } else { NormalizeNotUnder(base, obj); }
  }

  lemma BareObject(b: Path, o: Path, obj: Text)
    requires o == Parse(obj) && b.Normal() && b.Comps() == [] && Under(b, o) && b != o
    ensures obj != []
  {
    RenderLength(b);
    if obj == [] { PushOne(Root(false), []); }
  }

  /** Below a base with components, the printed object is the printed base, a slash and the rest. */
  lemma UnderIsPrefix(b: Path, o: Path)
    requires b.Normal() && o.Normal() && Under(b, o) && b.Comps() != [] && b != o
    ensures Render(o) == Render(b) + [SLASH] + Join(Rest(b, o), SLASH)
  {
    RelUnder(b, o);
    JoinConcat(b.Comps(), Rest(b, o), SLASH);
    assert b.Comps() + Rest(b, o) == o.Comps();
  }

  // ---- main results ----

  /** Putting the remaining components below the base again gives the object itself. */
  lemma RestJoins(base: Text, obj: Text)
    requires Under(Parse(base), Parse(obj))
    ensures var rel := RelText(Parse(base), Parse(obj));
            Parse(rel).Comps() == Rest(Parse(base), Parse(obj)) && !Rooted(rel) && JoinPath(base, rel) == Clean(obj)
  {
    var b, o := Parse(base), Parse(obj);
    ParseNormal(base);
    ParseNormal(obj);
    var r := RestPath(b, o);
    RelUnder(b, o);
    ParseRender(r);
    RenderLength(r);
    ParseNormal(Render(r));
    JoinedAt(base, Render(r));
  }

  /** Where a relative name lands, also under an empty base. */
  lemma JoinedAt(base: Text, name: Text)
    requires name != [] && !Rooted(name)
    ensures JoinPath(base, name) == Render(Parse(base).PushAll(Parse(name).Comps()))
    ensures Parse(base).PushAll(Parse(name).Comps()).Normal()
  {
    SplitFree(name, SLASH);
    PushCleaned(Parse(base), Split(name, SLASH));
    if base == [] {
      PushOne(Root(false), []);
      assert Parse(base) == Root(false);
      ParseNormal(name);
    } else {
      ParseJoin(base, name);
    }
  }

  /** For every base and every name, the file that the code reaches is the reference one. */
  lemma NormalizeResolves(base: Text, obj: Text)
    ensures FileOf(base, obj) == Resolve(base, obj)
  {
    var b, o := Parse(base), Parse(obj);
    NormalizeCases(base, obj);
    if Under(b, o) {
      if Normalize(base, obj) == RelText(b, o) {
        RestJoins(base, obj);
      } else if base != [] {
        ParseNormal(base);
        ParseNormal(obj);
        RenderLength(b);
        ParseJoin(base, obj);
      }
    }
  }

  /** The object name repeats a relative base twice over. */
  predicate DoubledBase(base: Text, obj: Text) {
    var b, o := Parse(base), Parse(obj);
    !b.rooted && !o.rooted && b.Comps() != [] && b.Comps() + b.Comps() <= o.Comps()
  }

  lemma PrefixAfter<T>(a: seq<T>, b: seq<T>, c: seq<T>)
    ensures a + b <= a + c <==> b <= c
  {
    if a + b <= a + c { assert forall i | 0 <= i < |b| :: b[i] == (a + b)[|a| + i] == (a + c)[|a| + i] == c[i]; }
  }

  lemma DoubledIsUnderAgain(base: Text, obj: Text)
    requires Under(Parse(base), Parse(obj)) && Parse(base).Comps() != []
    ensures var loc := RelText(Parse(base), Parse(obj));
            Under(Parse(base), Parse(loc)) <==> DoubledBase(base, obj)
  {
    var b, o := Parse(base), Parse(obj);
    RestJoins(base, obj);
    ParseNormal(RelText(b, o));
    assert o.Comps() == b.Comps() + Rest(b, o);
    PrefixAfter(b.Comps(), b.Comps(), Rest(b, o));
  }

  lemma ResolveAgain(base: Text, obj: Text)
    requires Under(Parse(base), Parse(obj)) && Parse(base).Comps() != []
    ensures Resolve(base, RelText(Parse(base), Parse(obj))) == Clean(obj) <==> !DoubledBase(base, obj)
  {
    var loc := RelText(Parse(base), Parse(obj));
    RestJoins(base, obj);
    DoubledIsUnderAgain(base, obj);
    assert |Parse(obj).Comps()| > |Parse(loc).Comps()|;
    if DoubledBase(base, obj) && Clean(loc) == Clean(obj) {
      ParseNormal(loc);
      ParseNormal(obj);
      RenderInjective(Parse(loc), Parse(obj));
      assert false;
    }
  }

  /** Save answers with Normalize(base, obj). Opening or deleting that location reaches the file
      that Save wrote unless the name starts with the base twice, and then it never does. */
  lemma LocationAgrees(base: Text, obj: Text)
    ensures FileOf(base, Normalize(base, obj)) == FileOf(base, obj) <==> !DoubledBase(base, obj)
  {
    var b, o := Parse(base), Parse(obj);
    NormalizeCases(base, obj);
    if Under(b, o) && b.Comps() != [] {
      NormalizeResolves(base, obj);
      NormalizeResolves(base, RelText(b, o));
      ResolveAgain(base, obj);
    } else {
      assert (b.Comps() + b.Comps())[..|b.Comps()|] == b.Comps();
      if Normalize(base, obj) != obj { BareBaseAgrees(base, obj); }
    }
  }

  /** Under a base without components every location is found again. */
  lemma BareBaseAgrees(base: Text, obj: Text)
    requires Under(Parse(base), Parse(obj)) && Parse(base).Comps() == []
    requires Normalize(base, obj) == RelText(Parse(base), Parse(obj))
    ensures FileOf(base, RelText(Parse(base), Parse(obj))) == FileOf(base, obj)
  {
    var b, o := Parse(base), Parse(obj);
    var loc := RelText(b, o);
    RestJoins(base, obj);
    NormalizeResolves(base, obj);
    NormalizeResolves(base, loc);
    ParseNormal(base);
    ParseNormal(obj);
    ParseNormal(loc);
    if Under(b, Parse(loc)) {
      assert Parse(loc).Comps() == o.Comps();
      SameComps(Parse(loc), o);
    }
  }

  lemma {:induction false} PushUpsOn(p: Path, u: nat)
    requires !p.rooted
    ensures p.PushAll(seq(u, _ => DOTDOT))
         == if u <= |p.names| then Path(false, p.ups, p.names[..|p.names| - u])
            else Path(false, p.ups + u - |p.names|, [])
  {
    if u == 0 {
      assert p.names[..|p.names|] == p.names;
    } else {
      PushUpsOn(p, u - 1);
      assert seq(u, _ => DOTDOT)[..u - 1] == seq(u - 1, _ => DOTDOT);
    }
  }

  /** Below a base of names only, a path never joins to itself. */
  lemma JoinMoves(b: Path, p: Path)
    requires b.Normal() && p.Normal() && !b.rooted && b.ups == 0 && b.names != []
    ensures b.PushAll(p.Comps()).names != p.names || b.PushAll(p.Comps()).ups != p.ups
  {
    var us := seq(p.ups, _ => DOTDOT);
    PushUpsOn(b, p.ups);
    PushAllConcat(b, us, p.names);
    PushNames(b.PushAll(us), p.names);
  }

  /** A relative base made of names, such as the controller's `backups`. */
  predicate PlainBase(base: Text) {
    var b := Parse(base); !b.rooted && b.ups == 0 && b.names != []
  }

  /** A name that repeats the base lands one base deeper when the base is put in front again. */
  lemma JoinDeepens(base: Text, obj: Text)
    requires PlainBase(base) && Under(Parse(base), Parse(obj))
    ensures JoinPath(base, obj) != Clean(obj) && Under(Parse(base), Parse(JoinPath(base, obj)))
  {
    var b, o := Parse(base), Parse(obj);
    ParseNormal(base);
    ParseNormal(obj);
    PlainBaseNonempty(base);
    ParseJoin(base, obj);
    SplitFree(obj, SLASH);
    PushCleaned(b, Split(obj, SLASH));
    UpsFirst(o);
    assert b.Comps()[0] == o.Comps()[0] && b.names[0] in b.names;
    PushNames(b, o.names);
    assert o.Comps() == o.names && b.Comps() == b.names;
    var f := Path(false, 0, b.names + o.names);
    ParseRender(f);
    assert f.Comps() == f.names;
    ParseRender(o);
    assert |f.names| > |o.names|;
  }

  lemma PlainBaseNonempty(base: Text)
    requires PlainBase(base)
    ensures base != []
  {
    if base == [] { PushOne(Root(false), []); }
  }

  /** A joined path that left the base does not stay put when it is joined once more. */
  lemma EscapedMoves(base: Text, obj: Text)
    requires PlainBase(base)
    ensures var full := JoinPath(base, obj); JoinPath(base, full) != full && Clean(full) == full
  {
    var b := Parse(base);
    var full, f := JoinPath(base, obj), Parse(base).PushAll(Split(obj, SLASH));
    PlainBaseNonempty(base);
    ParseNormal(base);
    ParseJoin(base, obj);
    SplitFree(obj, SLASH);
    PushAllNormal(b, Split(obj, SLASH));
    ParseRender(f);
    RenderLength(f);
    ParseNormal(full);
    JoinedAt(base, full);
    JoinMoves(b, f);
    if JoinPath(base, full) == full { RenderInjective(b.PushAll(f.Comps()), f); }
  }

  /** Older rows hold the location with the base in front. It reaches the file of the bare name
      whenever the name neither starts with the base nor climbs out of it, for every base; for a
      relative base of plain names it reaches it only then. */
  lemma LegacyLocation(base: Text, obj: Text)
    ensures !Under(Parse(base), Parse(obj)) && Under(Parse(base), Parse(JoinPath(base, obj))) ==>
              FileOf(base, JoinPath(base, obj)) == FileOf(base, obj)
    ensures PlainBase(base) && FileOf(base, JoinPath(base, obj)) == FileOf(base, obj) ==>
              !Under(Parse(base), Parse(obj)) && Under(Parse(base), Parse(JoinPath(base, obj)))
  {
    NormalizeResolves(base, obj);
    NormalizeResolves(base, JoinPath(base, obj));
    JoinIsClean(base, obj);
    if PlainBase(base) {
      EscapedMoves(base, obj);
      if Under(Parse(base), Parse(obj)) { JoinDeepens(base, obj); }
    }
  }

  lemma JoinIsClean(base: Text, obj: Text)
    ensures base != [] || obj != [] ==> Clean(JoinPath(base, obj)) == JoinPath(base, obj)
    ensures base == [] && obj == [] ==> Under(Parse(base), Parse(obj))
  {
    CleanIsNormalForm(obj);
    CleanIsNormalForm(base + [SLASH] + obj);
  }
}
