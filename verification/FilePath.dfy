/** The lexical path operations of path/filepath on Unix that Local storage uses: Clean, Join and
    Rel, as one left-to-right pass over components with a stack. */
module FilePath {
  import opened GoText

  const DOTDOT: Text := [DOT, DOT]

  /** A component that names a file or directory. Names may start with dots, as in `..foo`. */
  predicate Name(c: Text) { c != [] && c != [DOT] && c != DOTDOT && SLASH !in c }

  /** A cleaned path: some steps up, then names. A rooted path never goes up. */
  datatype Path = Path(rooted: bool, ups: nat, names: seq<Text>) {
    ghost predicate Normal() {
      (rooted ==> ups == 0) && forall c | c in names :: Name(c)
    }

    function Comps(): seq<Text> { seq(ups, _ => DOTDOT) + names }

    function Push(c: Text): Path {
      if c == [] || c == [DOT] then this
      else if c != DOTDOT then Path(rooted, ups, names + [c])
      else if names != [] then Path(rooted, ups, names[..|names| - 1])
      else if rooted then this
      else Path(rooted, ups + 1, [])
    }

    function PushAll(cs: seq<Text>): Path {
      if cs == [] then this else PushAll(cs[..|cs| - 1]).Push(cs[|cs| - 1])
    }
  }

  function Root(rooted: bool): Path { Path(rooted, 0, []) }

  predicate Rooted(s: Text) { s != [] && s[0] == SLASH }

  function Parse(s: Text): Path { Root(Rooted(s)).PushAll(Split(s, SLASH)) }

  function Render(p: Path): Text {
    if p.rooted then [SLASH] + Join(p.Comps(), SLASH)
    else if p.Comps() == [] then [DOT]
    else Join(p.Comps(), SLASH)
  }

  function Clean(s: Text): Text { Render(Parse(s)) }

  /** filepath.Join of two elements: an empty first element is dropped. */
  function JoinPath(a: Text, b: Text): Text {
    if a != [] then Clean(a + [SLASH] + b) else if b != [] then Clean(b) else []
  }

  function CommonPrefix(a: seq<Text>, b: seq<Text>): (n: nat)
    ensures n <= |a| && n <= |b| && a[..n] == b[..n]
    ensures n < |a| && n < |b| ==> a[n] != b[n]
  {
    if a != [] && b != [] && a[0] == b[0] then 1 + CommonPrefix(a[1..], b[1..]) else 0
  }

  /** filepath.Rel on two cleaned paths; None is its error. */
  function Rel(base: Path, target: Path): Option<Text> {
    var bs, ts := base.Comps(), target.Comps();
    var n := CommonPrefix(bs, ts);
    if base == target then Some([DOT])
    else if base.rooted != target.rooted then None
    else if n < |bs| && bs[n] == DOTDOT then None
    else if n < |bs| then Some(Join(seq(|bs| - n, _ => DOTDOT) + ts[n..], SLASH))
    else Some(Join(ts[n..], SLASH))
  }

  // ---- cleaning reaches a normal form, and printing it loses nothing ----

  lemma {:induction false} PushAllNormal(p: Path, cs: seq<Text>)
    requires p.Normal() && Free(cs, SLASH)
    ensures p.PushAll(cs).Normal() && p.PushAll(cs).rooted == p.rooted
  {
    if cs != [] {
      var init := cs[..|cs| - 1];
      assert forall c | c in init :: c in cs;
      assert cs[|cs| - 1] in cs;
      PushAllNormal(p, init);
    }
  }

  lemma ParseNormal(s: Text)
    ensures Parse(s).Normal() && Parse(s).rooted == Rooted(s)
  {
    SplitFree(s, SLASH);
    PushAllNormal(Root(Rooted(s)), Split(s, SLASH));
  }

  lemma PushOne(p: Path, c: Text)
    ensures p.PushAll([c]) == p.Push(c)
  {
  }

  lemma {:induction false} PushAllConcat(p: Path, a: seq<Text>, b: seq<Text>)
    ensures p.PushAll(a + b) == p.PushAll(a).PushAll(b)
  {
    if b == [] {
      assert a + b == a;
    } else {
      var init := b[..|b| - 1];
      PushAllConcat(p, a, init);
      assert (a + b)[..|a + b| - 1] == a + init;
    }
  }

  lemma {:induction false} PushNames(p: Path, ns: seq<Text>)
    requires forall c | c in ns :: Name(c)
    ensures p.PushAll(ns) == Path(p.rooted, p.ups, p.names + ns)
  {
    if ns == [] {
      assert p.names + ns == p.names;
    } else {
      var init, last := ns[..|ns| - 1], ns[|ns| - 1];
      assert forall c | c in init :: c in ns;
      assert last in ns;
      PushNames(p, init);
      assert p.names + init + [last] == p.names + ns;
    }
  }

  lemma {:induction false} PushUps(k: nat, u: nat)
    ensures Path(false, k, []).PushAll(seq(u, _ => DOTDOT)) == Path(false, k + u, [])
  {
    if u > 0 {
      PushUps(k, u - 1);
      assert seq(u, _ => DOTDOT)[..u - 1] == seq(u - 1, _ => DOTDOT);
    }
  }

  lemma PushComps(p: Path)
    requires p.Normal()
    ensures Root(p.rooted).PushAll(p.Comps()) == p
  {
    var us := seq(p.ups, _ => DOTDOT);
    PushAllConcat(Root(p.rooted), us, p.names);
    if !p.rooted { PushUps(0, p.ups); } else { assert us == []; }
    PushNames(Path(p.rooted, p.ups, []), p.names);
    assert [] + p.names == p.names;
  }

  lemma CompsFree(p: Path)
    requires p.Normal()
    ensures Free(p.Comps(), SLASH)
  {
  }

  lemma {:induction false} JoinFirst(cs: seq<Text>)
    requires cs != [] && cs[0] != []
    ensures Join(cs, SLASH) != [] && Join(cs, SLASH)[0] == cs[0][0]
  {
  }

  /** The components of a printed path are its own, after one empty component when it is rooted. */
  lemma SplitRender(p: Path)
    requires p.Normal() && p.Comps() != []
    ensures Split(Render(p), SLASH) == if p.rooted then [[]] + p.Comps() else p.Comps()
    ensures Rooted(Render(p)) == p.rooted
  {
    var cs := p.Comps();
    CompsFree(p);
    SplitJoin(cs, SLASH);
    assert cs[0] in cs && cs[0] != [] && SLASH !in cs[0];
    JoinFirst(cs);
    if p.rooted {
      assert Render(p)[1..] == Join(cs, SLASH);
    }
  }

  lemma ParseRender(p: Path)
    requires p.Normal()
    ensures Parse(Render(p)) == p
  {
    if p.Comps() == [] {
      assert p == Root(p.rooted);
      var s := Render(p);
      if p.rooted {
        assert s == [SLASH] && s[1..] == [];
        var none: Text := [];
        assert Split(s, SLASH) == [none] + [none];
        PushOne(p, none);
        PushAllConcat(p, [none], [none]);
      } else {
        SplitWhole([DOT], SLASH);
        PushOne(Root(false), [DOT]);
      }
    } else {
      SplitRender(p);
      PushComps(p);
      if p.rooted {
        PushAllConcat(Root(true), [[]], p.Comps());
        PushOne(Root(true), []);
      }
    }
  }

  /** Cleaning is idempotent and keeps what the path means. */
  lemma CleanIsNormalForm(s: Text)
    ensures Parse(Clean(s)) == Parse(s)
    ensures Clean(Clean(s)) == Clean(s)
  {
    ParseNormal(s);
    ParseRender(Parse(s));
  }

  lemma RenderInjective(p: Path, q: Path)
    requires p.Normal() && q.Normal() && Render(p) == Render(q)
    ensures p == q
  {
    ParseRender(p);
    ParseRender(q);
  }

  /** Joining pushes the second path's components on the first path. */
  lemma ParseJoin(a: Text, b: Text)
    requires a != []
    ensures JoinPath(a, b) == Render(Parse(a).PushAll(Split(b, SLASH)))
    ensures Parse(a).PushAll(Split(b, SLASH)).Normal()
  {
    SplitConcat(a, b, SLASH);
    PushAllConcat(Root(Rooted(a)), Split(a, SLASH), Split(b, SLASH));
    ParseNormal(a);
    SplitFree(b, SLASH);
    PushAllNormal(Parse(a), Split(b, SLASH));
  }

  /** One pushed component and one component more in the cleaned list have the same effect. */
  lemma PushCleanedStep(p: Path, r: Path, c: Text)
    requires r.Normal() && !r.rooted && SLASH !in c
    ensures p.PushAll(r.Push(c).Comps()) == p.PushAll(r.Comps()).Push(c)
  {
    var q := r.Push(c);
    if c == DOTDOT && r.names != [] {
      var n := r.names[|r.names| - 1];
      assert n in r.names;
      assert r.Comps() == q.Comps() + [n];
      PushAllConcat(p, q.Comps(), [n]);
      var t := p.PushAll(q.Comps());
      PushOne(t, n);
      assert (t.names + [n])[..|t.names|] == t.names;
    } else if c != [] && c != [DOT] {
      assert q.Comps() == r.Comps() + [c];
      assert (r.Comps() + [c])[..|r.Comps()|] == r.Comps();
    }
  }

  /** Pushing a relative path's raw components is pushing its cleaned ones. */
  lemma {:induction false} PushCleaned(p: Path, cs: seq<Text>)
    requires Free(cs, SLASH)
    ensures p.PushAll(cs) == p.PushAll(Root(false).PushAll(cs).Comps())
  {
    if cs == [] {
      assert Root(false).Comps() == [];
    } else {
      var init, c := cs[..|cs| - 1], cs[|cs| - 1];
      assert forall x | x in init :: x in cs;
      assert c in cs;
      PushCleaned(p, init);
      PushAllNormal(Root(false), init);
      PushCleanedStep(p, Root(false).PushAll(init), c);
    }
  }
}
