/** The users table: normalised unique emails, unique Google ids, and a link that is set once. */
module Users {
  import opened GoText
  import opened Utf8
  import opened Trim

  /** A row; `googleId` and `passwordHash` are nullable columns. */
  datatype User = User(
    id: Text, email: Text, passwordHash: Option<Text>, name: Text, googleId: Option<Text>, provider: Text)

  type Table = map<Text, User>

  const LOCAL: Text := [108, 111, 99, 97, 108]            // local
  const GOOGLE: Text := [103, 111, 111, 103, 108, 101]    // google
  const AT: byte := 64

  // ---- emails ----

  function Lower(s: Text): (t: Text)
    ensures |t| == |s|
  {
    if s == [] then [] else [if 65 <= s[0] <= 90 then s[0] + 32 else s[0]] + Lower(s[1..])
  }

  function Normalize(email: Text): Text { TrimSpace(Lower(email)) }

  predicate NoUpper(s: Text) { forall b | b in s :: !(65 <= b <= 90) }

  lemma {:induction false} LowerTwice(s: Text)
    ensures NoUpper(Lower(s)) && (NoUpper(s) ==> Lower(s) == s)
  {
    if s != [] {
      LowerTwice(s[1..]);
      assert s == [s[0]] + s[1..];
      assert NoUpper(s) ==> !(65 <= s[0] <= 90) && NoUpper(s[1..]) by {
        if NoUpper(s) { assert s[0] in s && forall b | b in s[1..] :: b in s; }
      }
    }
  }

  /** Storing and looking up normalise alike: doing it twice is doing it once. */
  lemma NormalizeTwice(email: Text)
    ensures Normalize(Normalize(email)) == Normalize(email) && Lower(Normalize(email)) == Normalize(email)
  {
    LowerTwice(email);
    TrimSpaceTwice(Lower(email));
    LowerTwice(Normalize(email));
  }

  // ---- constraints ----

  /** What a UTF8 text column takes: well-formed UTF-8 without a zero byte. */
  predicate Storable(t: Text) { Sanitize(t) == t && 0 !in t }

  predicate StorableUser(u: User) {
    Storable(u.id) && Storable(u.email) && Storable(u.name)
    && (u.passwordHash.Some? ==> Storable(u.passwordHash.value)) && (u.googleId.Some? ==> Storable(u.googleId.value))
  }

  predicate Clashes(t: Table, u: User) {
    u.id in t || exists id :: id in t && (t[id].email == u.email || (u.googleId.Some? && t[id].googleId == u.googleId))
  }

  datatype Inserted = Ok(table: Table) | Duplicate | Invalid

  function Insert(t: Table, u: User): Inserted {
    if !StorableUser(u) then Invalid else if Clashes(t, u) then Duplicate else Ok(t[u.id := u])
  }

  function LocalUser(id: Text, email: Text, hash: Text, name: Text): User {
    User(id, Normalize(email), Some(hash), name, None, LOCAL)
  }

  function GoogleUser(id: Text, email: Text, name: Text, googleId: Text): User {
    var e, n := Normalize(email), TrimSpace(name);
    User(id, e, None, if n == [] then Split(e, AT)[0] else n, Some(googleId), GOOGLE)
  }

  /** The guard of the UPDATE: no Google id yet. */
  predicate Unlinked(u: User) { u.googleId == None || u.googleId == Some([]) }

  /** LinkGoogleID: None where the database reports an error; a row that is linked already is
      skipped without one. */
  function Link(t: Table, id: Text, googleId: Text): Option<Table> {
    if id !in t || !Unlinked(t[id]) then Some(t)
    else if !Storable(googleId) || exists k :: k in t && k != id && t[k].googleId == Some(googleId) then None
    else Some(t[id := t[id].(googleId := Some(googleId))])
  }

  // ---- lookups ----

  predicate RowOk(u: User) { StorableUser(u) && u.email == Normalize(u.email) }

  ghost predicate RowsOk(t: Table) {
    forall id | id in t :: t[id].id == id && RowOk(t[id])
  }

  ghost predicate NoTwins(t: Table) {
    && (forall i, k | i in t && k in t && t[i].email == t[k].email :: i == k)
    && (forall i, k | i in t && k in t && t[i].googleId.Some? && t[i].googleId == t[k].googleId :: i == k)
  }

  ghost predicate Unique(t: Table) { RowsOk(t) && NoTwins(t) }

  /** SELECT ... WHERE LOWER(email) = $1 */
  ghost function ByEmail(t: Table, email: Text): Option<User> {
    if exists id :: id in t && Lower(t[id].email) == Normalize(email)
    then var id :| id in t && Lower(t[id].email) == Normalize(email); Some(t[id])
    else None
  }

  /** GetUserByGoogleID: a blank subject finds nobody, even a row whose Google id is empty. */
  ghost function ByGoogleId(t: Table, googleId: Text): Option<User> {
    var g := TrimSpace(googleId);
    if g != [] && exists id :: id in t && t[id].googleId == Some(g)
    then var id :| id in t && t[id].googleId == Some(g); Some(t[id])
    else None
  }

  /** Lookups find the one row there is. */
  lemma LookupsExact(t: Table, id: Text, email: Text, googleId: Text)
    requires Unique(t) && id in t
    ensures ByEmail(t, email) == Some(t[id]) <==> t[id].email == Normalize(email)
    ensures ByGoogleId(t, googleId) == Some(t[id])
       <==> TrimSpace(googleId) != [] && t[id].googleId == Some(TrimSpace(googleId))
  {
    forall k | k in t ensures Lower(t[k].email) == t[k].email { NormalizeTwice(t[k].email); }
  }

  /** Nobody leaves, nobody is renamed, and a Google id that is not empty stays. */
  ghost predicate Evolves(t: Table, u: Table) {
    forall id | id in t ::
      && id in u && u[id].email == t[id].email && u[id].name == t[id].name && u[id].passwordHash == t[id].passwordHash
      && (!Unlinked(t[id]) ==> u[id].googleId == t[id].googleId)
  }

  lemma InsertNoTwins(t: Table, u: User)
    requires NoTwins(t) && !Clashes(t, u)
    ensures NoTwins(t[u.id := u]) && Evolves(t, t[u.id := u])
  {
  }

  lemma InsertKeeps(t: Table, u: User)
    requires Unique(t) && u.email == Normalize(u.email) && Insert(t, u).Ok?
    ensures Unique(Insert(t, u).table) && Evolves(t, Insert(t, u).table)
  {
    InsertNoTwins(t, u);
    assert RowOk(u);
  }

  lemma LinkNoTwins(t: Table, id: Text, g: Text)
    requires NoTwins(t) && id in t && Unlinked(t[id]) && forall k | k in t && k != id :: t[k].googleId != Some(g)
    ensures var r := t[id := t[id].(googleId := Some(g))]; NoTwins(r) && Evolves(t, r)
  {
  }

  lemma LinkKeeps(t: Table, id: Text, googleId: Text)
    requires Unique(t) && Link(t, id, googleId).Some?
    ensures Unique(Link(t, id, googleId).value) && Evolves(t, Link(t, id, googleId).value)
  {
    if id in t && Unlinked(t[id]) {
      LinkNoTwins(t, id, googleId);
      LinkedRowsOk(t, id, googleId);
    }
  }

  lemma LinkedRowsOk(t: Table, id: Text, g: Text)
    requires RowsOk(t) && id in t && Storable(g)
    ensures RowsOk(t[id := t[id].(googleId := Some(g))])
  {
  }

  // ---- rows and their values ----

  /** Letters of ASCII go to lower case, each byte in its place. */
  lemma {:induction false} LowerAt(s: Text, i: nat)
    requires i < |s|
    ensures Lower(s)[i] == if 'A' as int <= s[i] <= 'Z' as int then s[i] + 32 else s[i]
  {
    if i > 0 { LowerAt(s[1..], i - 1); }
  }

  /** Valid UTF-8 without a zero byte. */
  ghost predicate TextValue(t: Text) { ValidUtf8(t) && 0 !in t }

  lemma StorableIs(t: Text)
    ensures Storable(t) <==> TextValue(t)
  {
    SanitizeExact(t);
  }

  /** The new row of a Google sign-in: named by the trimmed profile name, or, if that is blank, by what
      stands before the first `@` of the email. */
  lemma GoogleRow(id: Text, email: Text, name: Text, googleId: Text)
    ensures var u := GoogleUser(id, email, name, googleId);
            && u.id == id && u.email == Normalize(email) && u.passwordHash == None && u.googleId == Some(googleId)
            && u.provider == Ascii("google")
            && if TrimSpace(name) != [] then u.name == TrimSpace(name)
               else u.name <= u.email && '@' as int !in u.name && (u.name == u.email || u.email[|u.name|] == '@' as int)
  {
    assert Ascii("google") == GOOGLE;
    SplitFirst(Normalize(email), AT);
  }

  /** The new row of a registration. */
  lemma LocalRow(id: Text, email: Text, hash: Text, name: Text)
    ensures LocalUser(id, email, hash, name) == User(id, Normalize(email), Some(hash), name, None, Ascii("local"))
  {
    assert Ascii("local") == LOCAL;
  }

  /** Exactly when a row goes into the table: its values are storable, its id is new, and no other row has
      its email or its Google id. Then it is added and nothing else changes. */
  lemma InsertExactly(t: Table, u: User)
    ensures Insert(t, u).Ok?
       <==> && TextValue(u.id) && TextValue(u.email) && TextValue(u.name)
            && (u.passwordHash.Some? ==> TextValue(u.passwordHash.value))
            && (u.googleId.Some? ==> TextValue(u.googleId.value))
            && u.id !in t
            && forall k | k in t :: t[k].email != u.email && (u.googleId.Some? ==> t[k].googleId != u.googleId)
    ensures Insert(t, u).Ok? ==> Insert(t, u).table == t[u.id := u]
  {
    StorableIs(u.id);
    StorableIs(u.email);
    StorableIs(u.name);
    if u.passwordHash.Some? { StorableIs(u.passwordHash.value); }
    if u.googleId.Some? { StorableIs(u.googleId.value); }
  }

  /** What the guarded UPDATE does to a row that exists. */
  lemma LinkExactly(t: Table, id: Text, googleId: Text)
    requires id in t
    ensures var open := t[id].googleId == None || t[id].googleId == Some([]);
            var free := forall k | k in t && k != id :: t[k].googleId != Some(googleId);
            Link(t, id, googleId)
            == if !open then Some(t)
               else if TextValue(googleId) && free then Some(t[id := t[id].(googleId := Some(googleId))])
               else None
  {
    StorableIs(googleId);
  }

  /** What a query for one row says; Down where the database reports an error. */
  datatype Lookup = Row(user: User) | NoRows | Down

  ghost function Looked(o: Option<User>, up: bool): Lookup {
    if !up then Down else if o.Some? then Row(o.value) else NoRows
  }

  /** The rows with constraints; `up` says whether the database answers. */
  class UserStore {
    var users: Table

    constructor ()
      ensures users == map[]
    {
      users := map[];
    }

    method CreateUser(id: Text, email: Text, hash: Text, name: Text, up: bool) returns (r: Option<User>)
      modifies this
      ensures var u := LocalUser(id, email, hash, name); var i := Insert(old(users), u);
              r == (if up && i.Ok? then Some(u) else None) && users == if r.Some? then i.table else old(users)
    {
      var u := User(id, Normalize(email), Some(hash), name, None, LOCAL);
      if !up || !StorableUser(u) || id in users || exists k | k in users :: users[k].email == u.email { return None; }
      users := users[id := u];
      r := Some(u);
    }

    method CreateGoogleUser(id: Text, email: Text, name: Text, googleId: Text, up: bool) returns (r: Option<User>)
      modifies this
      ensures var u := GoogleUser(id, email, name, googleId); var i := Insert(old(users), u);
              r == (if up && i.Ok? then Some(u) else None) && users == if r.Some? then i.table else old(users)
    {
      var address, shown := Normalize(email), TrimSpace(name);
      if shown == [] { shown := Split(address, AT)[0]; }
      var u := User(id, address, None, shown, Some(googleId), GOOGLE);
      if !up || !StorableUser(u) || id in users { return None; }
      if exists k | k in users :: users[k].email == address || users[k].googleId == Some(googleId) { return None; }
      users := users[id := u];
      r := Some(u);
    }

    method GetUserByEmail(email: Text, up: bool) returns (r: Lookup)
      requires Unique(users)
      ensures r == Looked(ByEmail(users, email), up)
    {
      if !up { return Down; }
      var key, left := Normalize(email), users.Keys;
      while left != {}
        invariant left <= users.Keys
        invariant forall id | id in users && id !in left :: Lower(users[id].email) != key
        decreases left
      {
        var id :| id in left;
        if Lower(users[id].email) == key {
          NormalizeTwice(users[id].email);
          LookupsExact(users, id, email, []);
          return Row(users[id]);
        }
        left := left - {id};
      }
      r := NoRows;
    }

    /** A blank id is answered without a query. */
    method GetUserByGoogleID(googleId: Text, up: bool) returns (r: Lookup)
      requires Unique(users)
      ensures r == Looked(ByGoogleId(users, googleId), up || TrimSpace(googleId) == [])
    {
      var g, left := TrimSpace(googleId), users.Keys;
      if g == [] { return NoRows; }
      if !up { return Down; }
      while left != {}
        invariant left <= users.Keys
        invariant forall id | id in users && id !in left :: users[id].googleId != Some(g)
        decreases left
      {
        var id :| id in left;
        if users[id].googleId == Some(g) {
          LookupsExact(users, id, [], googleId);
          return Row(users[id]);
        }
        left := left - {id};
      }
      r := NoRows;
    }

    method LinkGoogleID(id: Text, googleId: Text, up: bool) returns (ok: bool)
      modifies this
      ensures ok <==> up && Link(old(users), id, googleId).Some?
      ensures users == if ok then Link(old(users), id, googleId).value else old(users)
    {
      if !up { return false; }
      if id !in users || (users[id].googleId != None && users[id].googleId != Some([])) { return true; }
      if !Storable(googleId) || exists k | k in users && k != id :: users[k].googleId == Some(googleId) {
        return false;
      }
      users := users[id := users[id].(googleId := Some(googleId))];
      ok := true;
    }
  }
}
