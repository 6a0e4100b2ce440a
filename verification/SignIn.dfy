/** Google sign-in as a program of store calls without a transaction. */
module SignIn {
  import opened GoText
  import opened Trim
  import opened Users

  /** What a verified Google ID token says. */
  datatype Profile = Profile(subject: Text, email: Text, name: Text)

  /** The next store call of a sign-in, or its end. */
  datatype Call =
    | BySubject(p: Profile)
    | ByAddress(p: Profile)
    | LinkTo(p: Profile, found: User)
    | CreateNew(p: Profile)
    | Found(p: Profile, user: User)
    | Refused

  ghost function FindSubject(t: Table, p: Profile): Call {
    match ByGoogleId(t, p.subject)
    case Some(u) => Found(p, u)
    case None => ByAddress(p)
  }

  ghost function FindAddress(t: Table, p: Profile): Call {
    match ByEmail(t, p.email)
    case None => CreateNew(p)
    case Some(u) =>
      if Unlinked(u) then LinkTo(p, u)
      else if u.googleId != Some(p.subject) then Refused
      else Found(p, u)
  }

  /** The answer carries the subject whether or not the UPDATE found the row still unlinked. */
  function LinkFound(t: Table, p: Profile, u: User): (Table, Call) {
    match Link(t, u.id, p.subject)
    case None => (t, Refused)
    case Some(t') => (t', Found(p, u.(googleId := Some(p.subject))))
  }

  function Create(t: Table, p: Profile, newId: Text): (Table, Call) {
    var u := GoogleUser(newId, p.email, p.name, p.subject);
    match Insert(t, u)
    case Ok(t') => (t', Found(p, u))
    case _ => (t, Refused)
  }

  /** `up` is false where a call reports an error that is no constraint; `newId` is a fresh UUID. A
      blank subject needs no query. */
  ghost function Next(t: Table, c: Call, newId: Text, up: bool): (Table, Call) {
    match c
    case BySubject(p) => (t, if up || TrimSpace(p.subject) == [] then FindSubject(t, p) else Refused)
    case ByAddress(p) => (t, if up then FindAddress(t, p) else Refused)
    case LinkTo(p, u) => if up then LinkFound(t, p, u) else (t, Refused)
    case CreateNew(p) => if up then Create(t, p, newId) else (t, Refused)
    case Found(_, _) => (t, c)
    case Refused => (t, c)
  }

  /** The user is stored, under the same id, email and name. */
  ghost predicate Holds(t: Table, u: User) {
    u.id in t && t[u.id].id == u.id && t[u.id].email == u.email && t[u.id].name == u.name
  }

  /** The row has the profile's subject, or its email. */
  ghost predicate Matches(t: Table, id: Text, p: Profile)
    requires id in t
  {
    (TrimSpace(p.subject) != [] && t[id].googleId == Some(TrimSpace(p.subject))) || t[id].email == Normalize(p.email)
  }

  ghost predicate CallOk(t: Table, c: Call) {
    match c
    case LinkTo(p, u) => Holds(t, u) && u.email == Normalize(p.email)
    case Found(p, u) => Holds(t, u) && Matches(t, u.id, p)
    case _ => true
  }

  lemma CallOkLater(t: Table, t': Table, c: Call)
    requires RowsOk(t') && Evolves(t, t') && CallOk(t, c)
    ensures CallOk(t', c)
  {
  }

  lemma FoundByEmail(t: Table, email: Text)
    requires Unique(t)
    ensures var r := ByEmail(t, email);
            r.Some? ==> r.value.id in t && t[r.value.id] == r.value && r.value.email == Normalize(email)
    ensures ByEmail(t, email) == None ==> forall id | id in t :: t[id].email != Normalize(email)
  {
    forall k | k in t ensures Lower(t[k].email) == t[k].email { assert RowOk(t[k]); NormalizeTwice(t[k].email); }
  }

  lemma CreateKeeps(t: Table, p: Profile, newId: Text)
    requires Unique(t)
    ensures var (t', c) := Create(t, p, newId); Unique(t') && Evolves(t, t') && CallOk(t', c)
  {
    NormalizeTwice(p.email);
    var u := GoogleUser(newId, p.email, p.name, p.subject);
    if Insert(t, u).Ok? { InsertKeeps(t, u); }
  }

  lemma LinkFoundKeeps(t: Table, p: Profile, u: User)
    requires Unique(t) && CallOk(t, LinkTo(p, u))
    ensures var (t', c) := LinkFound(t, p, u); Unique(t') && Evolves(t, t') && CallOk(t', c)
  {
    if Link(t, u.id, p.subject).Some? { LinkKeeps(t, u.id, p.subject); }
  }

  lemma FindSubjectKeeps(t: Table, p: Profile)
    requires Unique(t)
    ensures CallOk(t, FindSubject(t, p))
  {
  }

  lemma FindAddressKeeps(t: Table, p: Profile)
    requires Unique(t)
    ensures CallOk(t, FindAddress(t, p))
  {
    FoundByEmail(t, p.email);
  }

  /** One call of a sign-in keeps the table's constraints and what the request knows about it. */
  lemma NextKeeps(t: Table, c: Call, newId: Text, up: bool)
    requires Unique(t) && CallOk(t, c)
    ensures var (t', c') := Next(t, c, newId, up); Unique(t') && Evolves(t, t') && CallOk(t', c')
  {
    match c
    case BySubject(p) => FindSubjectKeeps(t, p);
    case ByAddress(p) => FindAddressKeeps(t, p);
    case LinkTo(p, u) => LinkFoundKeeps(t, p, u);
    case CreateNew(p) => CreateKeeps(t, p, newId);
    case _ =>
  }

  // ---- main results ----

  /** The answer to a link step carries the subject that the row has in the store exactly when the
      row was still unlinked, or linked to this very subject, at that moment. */
  lemma LinkAnswersExactly(t: Table, p: Profile, u: User)
    requires Unique(t) && CallOk(t, LinkTo(p, u)) && LinkFound(t, p, u).1.Found?
    ensures LinkFound(t, p, u).0[u.id].googleId == LinkFound(t, p, u).1.user.googleId
       <==> Unlinked(t[u.id]) || t[u.id].googleId == Some(p.subject)
  {
  }

  /** The interleaving in which they differ: two profiles with one email both find the row unlinked,
      `p` links first, and `q` is then answered with a subject that the row does not have. */
  lemma LateLinkAnswersOtherSubject(t: Table, id: Text, p: Profile, q: Profile)
    requires Unique(t) && id in t && Unlinked(t[id])
    requires t[id].email == Normalize(p.email) == Normalize(q.email) && p.subject != [] && p.subject != q.subject
    requires LinkFound(t, p, t[id]).1.Found?
    ensures FindAddress(t, p) == LinkTo(p, t[id]) && FindAddress(t, q) == LinkTo(q, t[id])
    ensures var t1 := LinkFound(t, p, t[id]).0;
            && LinkFound(t1, q, t[id]) == (t1, Found(q, t[id].(googleId := Some(q.subject))))
            && t1[id].googleId == Some(p.subject)
  {
    AddressUnlinked(t, id, p);
    AddressUnlinked(t, id, q);
    LinkedOnce(t, id, p.subject, q.subject);
  }

  lemma LinkedOnce(t: Table, id: Text, g: Text, h: Text)
    requires id in t && Unlinked(t[id]) && g != [] && Link(t, id, g).Some?
    ensures var t1 := Link(t, id, g).value; t1[id].googleId == Some(g) && Link(t1, id, h) == Some(t1)
  {
  }

  lemma AddressUnlinked(t: Table, id: Text, p: Profile)
    requires Unique(t) && id in t && Unlinked(t[id]) && t[id].email == Normalize(p.email)
    ensures FindAddress(t, p) == LinkTo(p, t[id])
  {
    LookupsExact(t, id, p.email, []);
  }

  /** Which of the at most three store calls of one sign-in are answered. */
  datatype Ups = Ups(subject: bool, address: bool, write: bool)

  ghost function AfterAddress(t: Table, p: Profile, c: Call, newId: Text, up: bool): (Table, Call) {
    if c.LinkTo? then (if up then LinkFound(t, p, c.found) else (t, Refused))
    else if c.CreateNew? then (if up then Create(t, p, newId) else (t, Refused))
    else (t, c)
  }

  /** A sign-in whose calls follow each other with no other request in between. */
  ghost function Alone(t: Table, p: Profile, newId: Text, ups: Ups): (Table, Call) {
    if !ups.subject && TrimSpace(p.subject) != [] then (t, Refused)
    else if FindSubject(t, p).Found? then (t, FindSubject(t, p))
    else if !ups.address then (t, Refused)
    else AfterAddress(t, p, FindAddress(t, p), newId, ups.write)
  }

  /** It is three of the calls that interleave elsewhere. */
  lemma AloneIsThreeCalls(t: Table, p: Profile, newId: Text, ups: Ups)
    ensures var (t1, c1) := Next(t, BySubject(p), newId, ups.subject);
            var (t2, c2) := Next(t1, c1, newId, ups.address);
            Next(t2, c2, newId, ups.write) == Alone(t, p, newId, ups)
  {
    var (t1, c1) := Next(t, BySubject(p), newId, ups.subject);
    assert c1.Found? || c1 == ByAddress(p) || c1 == Refused;
    assert FindAddress(t, p).LinkTo? ==> FindAddress(t, p) == LinkTo(p, FindAddress(t, p).found);
    assert FindAddress(t, p).CreateNew? ==> FindAddress(t, p) == CreateNew(p);
  }

  method GoogleLogin(store: UserStore, p: Profile, newId: Text, ups: Ups) returns (r: Option<User>)
    requires Unique(store.users)
    modifies store
    ensures (store.users, if r.Some? then Found(p, r.value) else Refused) == Alone(old(store.users), p, newId, ups)
  {
    var user := store.GetUserByGoogleID(p.subject, ups.subject);
    if user.Row? { return Some(user.user); }
    if user.Down? { return None; }
    assert FindSubject(store.users, p) == ByAddress(p);
    var existing := store.GetUserByEmail(p.email, ups.address);
    if existing.Down? { return None; }
    assert Alone(store.users, p, newId, ups)
        == AfterAddress(store.users, p, FindAddress(store.users, p), newId, ups.write);
    if existing.Row? {
      var u := existing.user;
      if Unlinked(u) {
        var ok := store.LinkGoogleID(u.id, p.subject, ups.write);
        return if ok then Some(u.(googleId := Some(p.subject))) else None;
      }
      return if u.googleId != Some(p.subject) then None else Some(u);
    }
    r := store.CreateGoogleUser(newId, p.email, p.name, p.subject, ups.write);
  }

  // ---- when a sign-in is answered, and with whom ----

  predicate HasSubject(u: User, p: Profile) {
    TrimSpace(p.subject) != [] && u.googleId == Some(TrimSpace(p.subject))
  }

  ghost predicate NobodyHas(t: Table, p: Profile) { forall k | k in t :: !HasSubject(t[k], p) }

  lemma SubjectLookup(t: Table, p: Profile)
    requires Unique(t)
    ensures forall id | id in t && HasSubject(t[id], p) :: FindSubject(t, p) == Found(p, t[id])
    ensures NobodyHas(t, p) ==> FindSubject(t, p) == ByAddress(p)
  {
    forall id | id in t && HasSubject(t[id], p) ensures FindSubject(t, p) == Found(p, t[id]) {
      LookupsExact(t, id, [], p.subject);
    }
  }

  /** A stored subject answers its user at once; only that lookup can fail. */
  lemma KnownSubject(t: Table, p: Profile, newId: Text, ups: Ups, id: Text)
    requires Unique(t) && id in t && HasSubject(t[id], p)
    ensures Alone(t, p, newId, ups) == (t, if ups.subject then Found(p, t[id]) else Refused)
  {
    SubjectLookup(t, p);
  }

  lemma AskedByAddress(t: Table, p: Profile, newId: Text, ups: Ups)
    requires Unique(t) && NobodyHas(t, p)
    requires (ups.subject || TrimSpace(p.subject) == []) && ups.address
    ensures Alone(t, p, newId, ups) == AfterAddress(t, p, FindAddress(t, p), newId, ups.write)
  {
    SubjectLookup(t, p);
  }

  /** A stored email with a new subject, where the row is unlinked: it is linked and answered. */
  lemma OpenEmail(t: Table, p: Profile, newId: Text, ups: Ups, id: Text)
    requires Unique(t) && NobodyHas(t, p) && id in t && t[id].email == Normalize(p.email)
    requires (ups.subject || TrimSpace(p.subject) == []) && ups.address
    requires t[id].googleId == None || t[id].googleId == Some([])
    ensures var linked := t[id].(googleId := Some(p.subject));
            Alone(t, p, newId, ups)
            == if && ups.write && TextValue(p.subject)
                  && forall k | k in t && k != id :: t[k].googleId != Some(p.subject)
               then (t[id := linked], Found(p, linked)) else (t, Refused)
  {
    AskedByAddress(t, p, newId, ups);
    AddressLookup(t, p, id);
    LinkedExactly(t, p, id);
  }

  /** Where the row is linked, it is answered for its own subject and refused for any other. */
  lemma LinkedEmail(t: Table, p: Profile, newId: Text, ups: Ups, id: Text)
    requires Unique(t) && NobodyHas(t, p) && id in t && t[id].email == Normalize(p.email)
    requires (ups.subject || TrimSpace(p.subject) == []) && ups.address
    requires t[id].googleId != None && t[id].googleId != Some([])
    ensures Alone(t, p, newId, ups) == (t, if t[id].googleId == Some(p.subject) then Found(p, t[id]) else Refused)
  {
    AskedByAddress(t, p, newId, ups);
    AddressLookup(t, p, id);
  }

  lemma LinkedExactly(t: Table, p: Profile, id: Text)
    requires id in t && t[id].id == id && (t[id].googleId == None || t[id].googleId == Some([]))
    ensures var linked := t[id].(googleId := Some(p.subject));
            LinkFound(t, p, t[id])
            == if TextValue(p.subject) && forall k | k in t && k != id :: t[k].googleId != Some(p.subject)
               then (t[id := linked], Found(p, linked)) else (t, Refused)
  {
    LinkExactly(t, id, p.subject);
  }

  lemma AddressLookup(t: Table, p: Profile, id: Text)
    requires Unique(t) && id in t && t[id].email == Normalize(p.email)
    ensures FindAddress(t, p)
         == if t[id].googleId == None || t[id].googleId == Some([]) then LinkTo(p, t[id])
            else if t[id].googleId == Some(p.subject) then Found(p, t[id]) else Refused
  {
    LookupsExact(t, id, p.email, []);
  }

  /** A new subject with a new email makes a new row, if the database takes it. */
  lemma NewUser(t: Table, p: Profile, newId: Text, ups: Ups)
    requires Unique(t) && NobodyHas(t, p) && forall id | id in t :: t[id].email != Normalize(p.email)
    requires (ups.subject || TrimSpace(p.subject) == []) && ups.address
    ensures var u := GoogleUser(newId, p.email, p.name, p.subject);
            var taken := && ups.write && TextValue(newId) && TextValue(u.email) && TextValue(u.name)
                         && TextValue(p.subject) && newId !in t
                         && forall k | k in t :: t[k].googleId != Some(p.subject);
            Alone(t, p, newId, ups) == if taken then (t[newId := u], Found(p, u)) else (t, Refused)
  {
    SubjectLookup(t, p);
    NoneByEmail(t, p.email);
    InsertExactly(t, GoogleUser(newId, p.email, p.name, p.subject));
  }

  lemma NoneByEmail(t: Table, email: Text)
    requires Unique(t) && forall id | id in t :: t[id].email != Normalize(email)
    ensures ByEmail(t, email) == None
  {
    FoundByEmail(t, email);
  }

  /** The answered user's row has the subject, and nobody else was disturbed. */
  ghost predicate Sticks(t: Table, r: (Table, Call), subject: Text) {
    Unique(r.0) && Evolves(t, r.0) && r.1.Found? && r.1.user.id in r.0 && r.0[r.1.user.id].googleId == Some(subject)
  }

  lemma SubjectFound(t: Table, p: Profile)
    requires Unique(t) && FindSubject(t, p).Found?
    ensures Sticks(t, (t, FindSubject(t, p)), TrimSpace(p.subject))
  {
  }

  lemma AddressFound(t: Table, p: Profile)
    requires Unique(t) && FindAddress(t, p).Found?
    ensures Sticks(t, (t, FindAddress(t, p)), p.subject)
  {
  }

  lemma AddressLinked(t: Table, p: Profile)
    requires Unique(t) && FindAddress(t, p).LinkTo? && LinkFound(t, p, FindAddress(t, p).found).1.Found?
    ensures Sticks(t, LinkFound(t, p, FindAddress(t, p).found), p.subject)
  {
    FoundByEmail(t, p.email);
    LinkKeeps(t, FindAddress(t, p).found.id, p.subject);
  }

  lemma NewlyCreated(t: Table, p: Profile, newId: Text)
    requires Unique(t) && Create(t, p, newId).1.Found?
    ensures Sticks(t, Create(t, p, newId), p.subject)
  {
    CreateKeeps(t, p, newId);
  }

  /** A sign-in with a trimmed subject that succeeds alone leaves that subject on the answered user. */
  lemma SignInSticks(t: Table, p: Profile, newId: Text, ups: Ups)
    requires Unique(t) && TrimSpace(p.subject) == p.subject && Alone(t, p, newId, ups).1.Found?
    ensures Sticks(t, Alone(t, p, newId, ups), p.subject)
  {
    var c1, c2 := FindSubject(t, p), FindAddress(t, p);
    if !c1.ByAddress? {
      SubjectFound(t, p);
    } else if c2.LinkTo? {
      AddressLinked(t, p);
    } else if c2.CreateNew? {
      NewlyCreated(t, p, newId);
    } else {
      AddressFound(t, p);
    }
  }

  /** From then on the subject finds that user, so every later sign-in with it returns them, whatever
      email it brings and whatever other requests did in between, unless the lookup fails. */
  lemma LaterSignIn(t: Table, u: Table, id: Text, q: Profile, newId: Text, ups: Ups)
    requires Unique(u) && Evolves(t, u) && id in t
    requires q.subject != [] && TrimSpace(q.subject) == q.subject && t[id].googleId == Some(q.subject)
    ensures Alone(u, q, newId, ups) == (u, if ups.subject then Found(q, u[id]) else Refused) && u[id].id == id
  {
  }
}
