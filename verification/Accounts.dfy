/** Registration, login, Google sign-in and refresh. Each request is a small program of store calls;
    requests interleave between any two of them and no transaction spans them. */
module Accounts {
  import opened GoText
  import opened Trim
  import opened Users
  import opened SignIn
  import Metadata
  import Token

  datatype Env = Env(mac: Token.Mac, secret: Text, canon: Metadata.Canon)

  /** The request that an answer is for. */
  datatype Reason =
    | SignedIn(p: Profile)
    | Registered(email: Text, hash: Text, name: Text)
    | LoggedIn(email: Text, matches: Text -> bool)
    | Refreshed(subject: Text)

  /** A time in nanoseconds whose seconds, and those a day later, fit the token's expiry field. */
  type Time = t: int | -0x8000_0000_0000_0000 <= Unix(t) < 0x8000_0000_0000_0000 - 86400

  /** Where a request stands; each state but the last two ends in one more call. */
  datatype Handler =
    | Google(call: Call)
    | Register(email: Text, hash: Text, name: Text)
    | Login(email: Text, matches: Text -> bool)
    | Refresh(header: Text)
    | RefreshLookup(subject: Text)
    | Respond(user: User, why: Reason)
    | Answered(user: User, token: Text, at: Time, why: Reason)
    | Rejected

  predicate Starts(h: Handler) { (h.Google? && h.call.BySubject?) || h.Register? || h.Login? || h.Refresh? }

  const BEARER: Text := [66, 101, 97, 114, 101, 114, 32]   // "Bearer "

  /** claimsFromBearer */
  function BearerClaims(env: Env, header: Text, now: int): Option<Token.Claims> {
    if !(BEARER <= header) then None
    else
      match Token.ValidateToken(env.mac, TrimSpace(header[|BEARER|..]), env.secret, now)
      case Accepted(c) => Some(c)
      case _ => None
  }

  lemma UnixLater(t: int)
    ensures Unix(t + DAY) == Unix(t) + 86400
  {
  }

  /** The claims of a token issued now: it expires 24 hours later. */
  function ClaimsFor(u: User, now: Time): Token.Claims {
    UnixLater(now);
    Token.Claims(u.id, u.email, u.name, Unix(now + DAY))
  }

  function CreateLocal(t: Table, email: Text, hash: Text, name: Text, newId: Text): (Table, Handler) {
    var u := LocalUser(newId, email, hash, TrimSpace(name));
    match Insert(t, u)
    case Ok(t') => (t', Respond(u, Registered(email, hash, name)))
    case _ => (t, Rejected)
  }

  ghost function CheckPassword(t: Table, email: Text, matches: Text -> bool): Handler {
    match ByEmail(t, email)
    case None => Rejected
    case Some(u) =>
      if u.passwordHash.Some? && TrimSpace(u.passwordHash.value) != [] && matches(u.passwordHash.value)
      then Respond(u, LoggedIn(email, matches)) else Rejected
  }

  function FindClaimed(env: Env, t: Table, subject: Text): Handler {
    match env.canon(subject)
    case None => Rejected
    case Some(id) => if id in t then Respond(t[id], Refreshed(subject)) else Rejected
  }

  function ReadBearer(env: Env, header: Text, now: int): Handler {
    match BearerClaims(env, header, now)
    case Some(c) => RefreshLookup(c.subject)
    case None => Rejected
  }

  /** writeAuthResponse */
  function Answer(env: Env, u: User, why: Reason, now: Time): Handler {
    match Token.GenerateToken(env.mac, ClaimsFor(u, now), env.secret)
    case SecretMissing => Rejected
    case Generated(token) => Answered(u, token, now, why)
  }

  function AfterCall(c: Call): Handler {
    match c
    case Found(p, u) => Respond(u, SignedIn(p))
    case Refused => Rejected
    case _ => Google(c)
  }

  /** The next call of one request. `up` is false where a store call reports an error other than a
      constraint; `newId` is the UUID drawn for a new row. */
  ghost function Advance(env: Env, t: Table, h: Handler, newId: Text, now: Time, up: bool): (Table, Handler) {
    match h
    case Google(c) => (Next(t, c, newId, up).0, AfterCall(Next(t, c, newId, up).1))
    case Register(email, hash, name) => if up then CreateLocal(t, email, hash, name, newId) else (t, Rejected)
    case Login(email, matches) => (t, if up then CheckPassword(t, email, matches) else Rejected)
    case Refresh(header) => (t, ReadBearer(env, header, now))
    case RefreshLookup(subject) => (t, if up then FindClaimed(env, t, subject) else Rejected)
    case Respond(u, why) => (t, Answer(env, u, why, now))
    case Answered(_, _, _, _) => (t, h)
    case Rejected => (t, h)
  }

  datatype System = System(users: Table, handlers: map<nat, Handler>)

  datatype Step =
    | Arrive(n: nat, h: Handler)
    | Move(n: nat, newId: Text, now: Time, up: bool)

  predicate Enabled(s: System, step: Step) {
    match step
    case Arrive(n, h) => n !in s.handlers && Starts(h)
    case Move(n, _, _, _) => n in s.handlers
  }

  ghost function Apply(env: Env, s: System, step: Step): System
    requires Enabled(s, step)
  {
    match step
    case Arrive(n, h) => s.(handlers := s.handlers[n := h])
    case Move(n, newId, now, up) =>
      var (t, h) := Advance(env, s.users, s.handlers[n], newId, now, up);
      System(t, s.handlers[n := h])
  }

  ghost predicate Runs(env: Env, s: System, steps: seq<Step>, r: System)
    decreases |steps|
  {
    if steps == [] then s == r
    else Enabled(s, steps[0]) && Runs(env, Apply(env, s, steps[0]), steps[1..], r)
  }

  // ---- what every request knows about the users it holds ----

  ghost predicate Justified(env: Env, t: Table, id: Text, why: Reason)
    requires id in t
  {
    match why
    case SignedIn(p) => Matches(t, id, p)
    case Refreshed(subject) => env.canon(subject) == Some(id)
    case Registered(email, hash, name) =>
      t[id].email == Normalize(email) && t[id].passwordHash == Some(hash) && t[id].name == TrimSpace(name)
    case LoggedIn(email, matches) =>
      t[id].email == Normalize(email) && t[id].passwordHash.Some? && matches(t[id].passwordHash.value)
  }

  ghost predicate HandlerOk(env: Env, t: Table, h: Handler) {
    match h
    case Google(c) => CallOk(t, c)
    case Respond(u, why) => Holds(t, u) && Justified(env, t, u.id, why)
    case Answered(u, token, at, why) =>
      Holds(t, u) && Justified(env, t, u.id, why)
      && Token.GenerateToken(env.mac, ClaimsFor(u, at), env.secret) == Token.Generated(token)
    case _ => true
  }

  ghost predicate Inv(env: Env, s: System) {
    Unique(s.users) && forall n | n in s.handlers :: HandlerOk(env, s.users, s.handlers[n])
  }

  lemma HandlerOkLater(env: Env, t: Table, t': Table, h: Handler)
    requires RowsOk(t') && Evolves(t, t') && HandlerOk(env, t, h)
    ensures HandlerOk(env, t', h)
  {
    if h.Google? { CallOkLater(t, t', h.call); }
  }

  lemma CreateLocalKeeps(env: Env, t: Table, email: Text, hash: Text, name: Text, newId: Text)
    requires Unique(t)
    ensures var (t', h) := CreateLocal(t, email, hash, name, newId);
            Unique(t') && Evolves(t, t') && HandlerOk(env, t', h)
  {
    NormalizeTwice(email);
    var u := LocalUser(newId, email, hash, TrimSpace(name));
    if Insert(t, u).Ok? { InsertKeeps(t, u); }
  }

  lemma CheckPasswordKeeps(env: Env, t: Table, email: Text, matches: Text -> bool)
    requires Unique(t)
    ensures HandlerOk(env, t, CheckPassword(t, email, matches))
  {
    FoundByEmail(t, email);
  }

  lemma FindClaimedKeeps(env: Env, t: Table, subject: Text)
    requires RowsOk(t)
    ensures HandlerOk(env, t, FindClaimed(env, t, subject))
  {
  }

  lemma AdvanceKeeps(env: Env, t: Table, h: Handler, newId: Text, now: Time, up: bool)
    requires Unique(t) && HandlerOk(env, t, h)
    ensures var (t', h') := Advance(env, t, h, newId, now, up); Unique(t') && Evolves(t, t') && HandlerOk(env, t', h')
  {
    match h
    case Google(c) => NextKeeps(t, c, newId, up);
    case Register(email, hash, name) => CreateLocalKeeps(env, t, email, hash, name, newId);
    case Login(email, matches) => CheckPasswordKeeps(env, t, email, matches);
    case RefreshLookup(subject) => FindClaimedKeeps(env, t, subject);
    case _ =>
  }

  lemma StepKeeps(env: Env, s: System, step: Step)
    requires Inv(env, s) && Enabled(s, step)
    ensures Inv(env, Apply(env, s, step)) && Evolves(s.users, Apply(env, s, step).users)
  {
    if step.Move? {
      AdvanceKeeps(env, s.users, s.handlers[step.n], step.newId, step.now, step.up);
      var r := Apply(env, s, step);
      forall n | n in r.handlers && n != step.n
        ensures HandlerOk(env, r.users, r.handlers[n])
      {
        HandlerOkLater(env, s.users, r.users, s.handlers[n]);
      }
    }
  }

  lemma {:induction false} RunKeeps(env: Env, s: System, steps: seq<Step>, r: System)
    requires Inv(env, s) && Runs(env, s, steps, r)
    ensures Inv(env, r) && Evolves(s.users, r.users)
    decreases |steps|
  {
    if steps != [] {
      StepKeeps(env, s, steps[0]);
      RunKeeps(env, Apply(env, s, steps[0]), steps[1..], r);
    }
  }

  // ---- main results: requests in any interleaving ----

  const EMPTY := System(map[], map[])

  /** Emails and Google ids stay unique, emails stay normalised, and between any two points of a run
      nobody disappears or changes email or name, and no Google id that is set changes. */
  lemma AccountsSafe(env: Env, before: seq<Step>, s: System, steps: seq<Step>, r: System)
    requires Runs(env, EMPTY, before, s) && Runs(env, s, steps, r)
    ensures Unique(s.users) && Unique(r.users) && Evolves(s.users, r.users)
  {
    RunKeeps(env, EMPTY, before, s);
    RunKeeps(env, s, steps, r);
  }

  /** Every answer names a stored user whom the request entitles: the profile's subject or email,
      the registered or logged-in email with its password hash, or the refreshed token's subject. */
  lemma AnswersMatch(env: Env, steps: seq<Step>, r: System, n: nat)
    requires Runs(env, EMPTY, steps, r) && n in r.handlers && r.handlers[n].Answered?
    ensures var u, why := r.handlers[n].user, r.handlers[n].why;
            && u.id in r.users && Justified(env, r.users, u.id, why)
            && (why.SignedIn? ==>
                  (TrimSpace(why.p.subject) != [] && r.users[u.id].googleId == Some(TrimSpace(why.p.subject)))
                  || r.users[u.id].email == Normalize(why.p.email))
  {
    RunKeeps(env, EMPTY, steps, r);
  }

  lemma StorableClaims(u: User, at: Time)
    requires StorableUser(u)
    ensures Token.SanitizeClaims(ClaimsFor(u, at)) == ClaimsFor(u, at)
  {
  }

  /** A token that was answered at any point validates to the stored user's present id, email and
      name, until a day in whole seconds after it was issued, and is expired from then on. */
  lemma TokensStayTrue(env: Env, steps: seq<Step>, r: System, n: nat, later: int)
    requires Runs(env, EMPTY, steps, r) && n in r.handlers && r.handlers[n].Answered?
    ensures var h := r.handlers[n];
            h.user.id in r.users
            && Token.ValidateToken(env.mac, h.token, env.secret, later)
            == (if Unix(later) < Unix(h.at) + 86400
                then Token.Accepted(ClaimsFor(r.users[h.user.id], h.at)) else Token.Expired)
  {
    RunKeeps(env, EMPTY, steps, r);
    var h := r.handlers[n];
    var row := r.users[h.user.id];
    assert RowOk(row);
    StorableClaims(row, h.at);
    UnixLater(h.at);
    assert ClaimsFor(row, h.at) == ClaimsFor(h.user, h.at);
    Token.ValidateGenerated(env.mac, ClaimsFor(h.user, h.at), env.secret, later);
  }

  /** Tokens hold no white space, so the Authorization header carries them unchanged. */
  lemma BearerCarries(env: Env, c: Token.Claims, now: int)
    requires !Blank(env.secret)
    ensures var token := Token.GenerateToken(env.mac, c, env.secret).token;
            BearerClaims(env, BEARER + token, now)
            == match Token.ValidateToken(env.mac, token, env.secret, now) case Accepted(d) => Some(d) case _ => None
  {
    var token := Token.GenerateToken(env.mac, c, env.secret).token;
    assert forall b | b in token :: Printable(b);
    TrimNothing(token);
    assert (BEARER + token)[|BEARER|..] == token;
  }

  /** Presenting a token that was answered earlier in the run, before it expires, looks up the user
      it was answered for. */
  lemma RefreshReadsUser(env: Env, steps: seq<Step>, s: System, n: nat, now: Time)
    requires Runs(env, EMPTY, steps, s) && n in s.handlers && s.handlers[n].Answered?
    requires Unix(now) < Unix(s.handlers[n].at) + 86400
    ensures ReadBearer(env, BEARER + s.handlers[n].token, now) == RefreshLookup(s.handlers[n].user.id)
  {
    var h := s.handlers[n];
    UnixLater(h.at);
    TokensStayTrue(env, steps, s, n, now);
    AnsweredHolds(env, steps, s, n);
    BearerCarries(env, ClaimsFor(h.user, h.at), now);
  }

  lemma AnsweredHolds(env: Env, steps: seq<Step>, s: System, n: nat)
    requires Runs(env, EMPTY, steps, s) && n in s.handlers && s.handlers[n].Answered?
    ensures var h := s.handlers[n];
            && Holds(s.users, h.user) && !Blank(env.secret)
            && Token.GenerateToken(env.mac, ClaimsFor(h.user, h.at), env.secret) == Token.Generated(h.token)
  {
    RunKeeps(env, EMPTY, steps, s);
  }

  lemma HoldsLater(t: Table, r: Table, u: User)
    requires Holds(t, u) && Evolves(t, r) && RowsOk(r)
    ensures Holds(r, u)
  {
  }

  /** That lookup finds the same user at any later point of the run, so the new token keeps the
      subject, the email and the name. */
  lemma RefreshFindsUser(env: Env, steps: seq<Step>, s: System, n: nat, more: seq<Step>, r: System)
    requires Runs(env, EMPTY, steps, s) && n in s.handlers && s.handlers[n].Answered? && Runs(env, s, more, r)
    requires env.canon(s.handlers[n].user.id) == Some(s.handlers[n].user.id)
    ensures var u := s.handlers[n].user;
            && Holds(r.users, u) && FindClaimed(env, r.users, u.id) == Respond(r.users[u.id], Refreshed(u.id))
            && forall at :: ClaimsFor(r.users[u.id], at) == ClaimsFor(u, at)
  {
    AnsweredHolds(env, steps, s, n);
    RunKeeps(env, EMPTY, steps, s);
    RunKeeps(env, s, more, r);
    HoldsLater(s.users, r.users, s.handlers[n].user);
  }

  // ---- when requests are answered ----

  /** What a login needs: the row has the email and a hash that is not blank and matches. */
  ghost predicate Opens(u: User, email: Text, matches: Text -> bool) {
    u.email == Normalize(email) && u.passwordHash.Some? && TrimSpace(u.passwordHash.value) != []
    && matches(u.passwordHash.value)
  }

  /** A login is answered with exactly the user whose row it opens, and refused if there is none. */
  lemma LoginExactly(env: Env, t: Table, email: Text, matches: Text -> bool, newId: Text, now: Time, up: bool)
    requires Unique(t)
    ensures var (t', h) := Advance(env, t, Login(email, matches), newId, now, up);
            && t' == t
            && (forall id | id in t ::
                  h == Respond(t[id], LoggedIn(email, matches)) <==> up && Opens(t[id], email, matches))
            && (h == Rejected <==> !up || forall id | id in t :: !Opens(t[id], email, matches))
  {
    FoundByEmail(t, email);
    forall id | id in t && t[id].email == Normalize(email) ensures ByEmail(t, email) == Some(t[id]) {
      LookupsExact(t, id, email, []);
    }
  }

  /** A registration is answered exactly if its values are storable, the id is new and nobody has the
      email; then the row is there, with the name trimmed. */
  lemma RegisterExactly(env: Env, t: Table, email: Text, hash: Text, name: Text, newId: Text, now: Time, up: bool)
    requires Unique(t)
    ensures var row := User(newId, Normalize(email), Some(hash), TrimSpace(name), None, Ascii("local"));
            var taken := && up && TextValue(newId) && TextValue(row.email) && TextValue(row.name) && TextValue(hash)
                         && newId !in t && forall id | id in t :: t[id].email != row.email;
            Advance(env, t, Register(email, hash, name), newId, now, up)
            == if taken then (t[newId := row], Respond(row, Registered(email, hash, name))) else (t, Rejected)
  {
    LocalRow(newId, email, hash, TrimSpace(name));
    InsertExactly(t, LocalUser(newId, email, hash, TrimSpace(name)));
  }

  /** A call of a request that is still at Google's sign-in. */
  ghost function GoogleOn(env: Env, t: Table, h: Handler, newId: Text, now: Time, up: bool): (Table, Handler) {
    if h.Google? then Advance(env, t, h, newId, now, up) else (t, h)
  }

  /** A Google sign-in alone goes on to answer exactly the user that the handler finds, links or creates. */
  lemma GoogleExactly(env: Env, t: Table, p: Profile, newId: Text, now: Time, ups: Ups)
    ensures var (t1, h1) := GoogleOn(env, t, Google(BySubject(p)), newId, now, ups.subject);
            var (t2, h2) := GoogleOn(env, t1, h1, newId, now, ups.address);
            var (r, call) := Alone(t, p, newId, ups);
            GoogleOn(env, t2, h2, newId, now, ups.write)
            == (r, if call.Found? then Respond(call.user, SignedIn(p)) else Rejected)
  {
    AloneIsThreeCalls(t, p, newId, ups);
    var (t1, c1) := Next(t, BySubject(p), newId, ups.subject);
    var (t2, c2) := Next(t1, c1, newId, ups.address);
    CallAlone(env, t, BySubject(p), newId, now, ups.subject);
    CallAlone(env, t1, c1, newId, now, ups.address);
    CallAlone(env, t2, c2, newId, now, ups.write);
    AloneEnds(t, p, newId, ups);
  }

  lemma CallAlone(env: Env, t: Table, c: Call, newId: Text, now: Time, up: bool)
    ensures GoogleOn(env, t, AfterCall(c), newId, now, up)
         == (Next(t, c, newId, up).0, AfterCall(Next(t, c, newId, up).1))
  {
  }

  lemma AloneEnds(t: Table, p: Profile, newId: Text, ups: Ups)
    ensures var call := Alone(t, p, newId, ups).1; call == Refused || (call.Found? && call.p == p)
  {
  }

  /** The answer to a user carries a token of their data, a day ahead, exactly if there is a secret. */
  lemma RespondExactly(env: Env, t: Table, u: User, why: Reason, newId: Text, now: Time, up: bool)
    ensures var claims := Token.Claims(u.id, u.email, u.name, Unix(now) + 86400);
            Advance(env, t, Respond(u, why), newId, now, up)
            == (t, if TrimSpace(env.secret) == [] then Rejected
                   else Answered(u, Token.GenerateToken(env.mac, claims, env.secret).token, now, why))
  {
    UnixLater(now);
  }

  /** A refresh goes on exactly with the subject that an unexpired token in a Bearer header carries. */
  lemma RefreshExactly(env: Env, t: Table, header: Text, newId: Text, now: Time, up: bool, subject: Text)
    ensures Advance(env, t, Refresh(header), newId, now, up) == (t, RefreshLookup(subject))
       <==> Ascii("Bearer ") <= header && TrimSpace(env.secret) != []
            && exists c: Token.Claims :: c.subject == subject && Unix(now) < c.expires
                 && Token.Carries(env.mac, TrimSpace(header[7..]), env.secret, c)
  {
    assert Ascii("Bearer ") == BEARER;
    if BEARER <= header {
      var token := TrimSpace(header[7..]);
      match Token.ValidateToken(env.mac, token, env.secret, now)
      case Accepted(c) =>
        Token.AcceptedExactly(env.mac, token, env.secret, now, c);
        forall e: Token.Claims | Unix(now) < e.expires && Token.Carries(env.mac, token, env.secret, e) ensures e == c {
          Token.AcceptedExactly(env.mac, token, env.secret, now, e);
        }
      case _ =>
        forall e: Token.Claims
          ensures !(Unix(now) < e.expires && Token.Carries(env.mac, token, env.secret, e) && !Blank(env.secret))
        {
          Token.AcceptedExactly(env.mac, token, env.secret, now, e);
        }
    }
  }

  /** And its lookup answers exactly the row of that subject as the database reads it. */
  lemma LookupExactly(env: Env, t: Table, subject: Text, newId: Text, now: Time, up: bool)
    ensures Advance(env, t, RefreshLookup(subject), newId, now, up)
         == (t, match env.canon(subject)
                case Some(id) => if up && id in t then Respond(t[id], Refreshed(subject)) else Rejected
                case None => Rejected)
  {
  }
}
