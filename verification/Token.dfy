/** Session tokens: claims as JSON, base64url, and a keyed digest, joined by dots. The digest is a
    parameter; nothing here depends on which deterministic function it is. */
module Token {
  import opened GoText
  import opened Utf8
  import opened Json
  import opened Trim
  import Base64Url

  type Int64 = i: int | -0x8000_0000_0000_0000 <= i < 0x8000_0000_0000_0000

  /** `mac(secret, message)` */
  type Mac = (Text, Text) -> Text

  datatype Claims = Claims(subject: Text, email: Text, name: Text, expires: Int64)

  datatype Generated = SecretMissing | Generated(token: Text)

  datatype Validated = SecretRequired | Invalid | Expired | Accepted(claims: Claims)

  const VERSION: Text := [118, 49]                   // v1
  const SUB: Text := [115, 117, 98]                  // sub
  const EMAIL: Text := [101, 109, 97, 105, 108]      // email
  const NAME: Text := [110, 97, 109, 101]            // name
  const EXP: Text := [101, 120, 112]                 // exp

  // ---- json.Marshal(claims) ----

  function Field(key: Text, value: Text): Text {
    [QUOTE] + key + [QUOTE, 58] + value
  }

  function ExpiryText(c: Claims): Text {
    Field(EXP, Decimal(c.expires)) + [125]
  }

  function StringFields(fields: seq<(Text, Text)>, last: Text): Text {
    if fields == [] then last
    else Field(fields[0].0, EncodeString(fields[0].1)) + ([44] + StringFields(fields[1..], last))
  }

  function Strings(c: Claims): seq<(Text, Text)> {
    [(SUB, c.subject), (EMAIL, c.email), (NAME, c.name)]
  }

  function Marshal(c: Claims): Text {
    [123] + StringFields(Strings(c), ExpiryText(c))
  }

  // ---- json.Unmarshal(payload, &claims) ----

  /** Field names match after simple case folding: ASCII letters upper-cased, and the two runes
      U+017F and U+212A that fold to ASCII. */
  function FoldName(key: Text): Text {
    if key == [] then []
    else if 97 <= key[0] <= 122 then [key[0] - 32] + FoldName(key[1..])
    else if [0xC5, 0xBF] <= key then [83] + FoldName(key[2..])
    else if [0xE2, 0x84, 0xAA] <= key then [75] + FoldName(key[3..])
    else [key[0]] + FoldName(key[1..])
  }

  /** strconv.ParseInt(literal, 10, 64) */
  function ParseInt(literal: Text): Option<Int64> {
    var negative := literal != [] && literal[0] == DASH;
    var ds := if negative then literal[1..] else literal;
    if ds == [] || !AllDigits(ds) then None
    else
      var v := DigitsValue(ds);
      if negative && v <= 0x8000_0000_0000_0000 then Some(0 - v)
      else if !negative && v < 0x8000_0000_0000_0000 then Some(v)
      else None
  }

  /** Stores one member. Unknown names and null leave the claims alone; a value of the wrong type
      makes the whole decoding fail. */
  function Store(c: Claims, key: Text, value: Json): Option<Claims> {
    var k := FoldName(key);
    if k == FoldName(SUB) then
      match value case Str(s) => Some(c.(subject := s)) case Null => Some(c) case _ => None
    else if k == FoldName(EMAIL) then
      match value case Str(s) => Some(c.(email := s)) case Null => Some(c) case _ => None
    else if k == FoldName(NAME) then
      match value case Str(s) => Some(c.(name := s)) case Null => Some(c) case _ => None
    else if k == FoldName(EXP) then
      match value
      case Number(l) => (match ParseInt(l) case Some(v) => Some(c.(expires := v)) case None => None)
      case Null => Some(c)
      case _ => None
    else Some(c)
  }

  function StoreAll(c: Claims, fields: seq<(Text, Json)>): Option<Claims>
    decreases |fields|
  {
    if fields == [] then Some(c)
    else
      match Store(c, fields[0].0, fields[0].1)
      case None => None
      case Some(c') => StoreAll(c', fields[1..])
  }

  /** The value that wins for a field: the last one under a matching name that is not null. */
  function Last(fields: seq<(Text, Json)>, name: Text): Option<Json>
    decreases |fields|
  {
    if fields == [] then None
    else
      var later := Last(fields[1..], name);
      if later.Some? then later
      else if FoldName(fields[0].0) == FoldName(name) && !fields[0].1.Null? then Some(fields[0].1)
      else None
  }

  predicate WellTyped(f: (Text, Json)) {
    var k := FoldName(f.0);
    && (k == FoldName(SUB) || k == FoldName(EMAIL) || k == FoldName(NAME) ==> f.1.Str? || f.1.Null?)
    && (k == FoldName(EXP) ==> f.1.Null? || (f.1.Number? && ParseInt(f.1.literal).Some?))
  }

  function TextOr(v: Option<Json>, default: Text): Text {
    if v.Some? && v.value.Str? then v.value.s else default
  }

  function IntOr(v: Option<Json>, default: Int64): Int64 {
    if v.Some? && v.value.Number? && ParseInt(v.value.literal).Some? then ParseInt(v.value.literal).value else default
  }

  /** Members come in any order and may repeat; unknown ones do not matter. Decoding succeeds when
      every known member has the right type, and then each field is the last one given for it. */
  lemma {:induction false} StoreAllExactly(c: Claims, fields: seq<(Text, Json)>)
    ensures StoreAll(c, fields)
         == if forall f | f in fields :: WellTyped(f)
            then Some(Claims(TextOr(Last(fields, SUB), c.subject), TextOr(Last(fields, EMAIL), c.email),
                             TextOr(Last(fields, NAME), c.name), IntOr(Last(fields, EXP), c.expires)))
            else None
    decreases |fields|
  {
    if fields != [] {
      var f, rest := fields[0], fields[1..];
      FoldedNames();
      StoreOne(c, f.0, f.1);
      assert forall g :: g in fields <==> g == f || g in rest;
      if WellTyped(f) {
        StoreAllExactly(Store(c, f.0, f.1).value, rest);
        if forall g | g in rest :: WellTyped(g) { LastTyped(rest); }
      }
    }
  }

  lemma {:induction false} LastTyped(fields: seq<(Text, Json)>)
    requires forall f | f in fields :: WellTyped(f)
    ensures Last(fields, SUB).Some? ==> Last(fields, SUB).value.Str?
    ensures Last(fields, EMAIL).Some? ==> Last(fields, EMAIL).value.Str?
    ensures Last(fields, NAME).Some? ==> Last(fields, NAME).value.Str?
    ensures Last(fields, EXP).Some? ==>
              Last(fields, EXP).value.Number? && ParseInt(Last(fields, EXP).value.literal).Some?
    decreases |fields|
  {
    if fields != [] {
      assert fields[0] in fields && forall f | f in fields[1..] :: f in fields;
      LastTyped(fields[1..]);
    }
  }

  lemma StoreOne(c: Claims, key: Text, value: Json)
    ensures Store(c, key, value).Some? <==> WellTyped((key, value))
    ensures Store(c, key, value).Some? ==>
              Store(c, key, value).value
              == Claims(if FoldName(key) == FoldName(SUB) && value.Str? then value.s else c.subject,
                        if FoldName(key) == FoldName(EMAIL) && value.Str? then value.s else c.email,
                        if FoldName(key) == FoldName(NAME) && value.Str? then value.s else c.name,
                        if FoldName(key) == FoldName(EXP) && value.Number?
                        then ParseInt(value.literal).value else c.expires)
  {
    FoldedNames();
  }

  const ZERO_CLAIMS := Claims([], [], [], 0)

  function Unmarshal(payload: Text): Option<Claims> {
    match ParseDocument(payload)
    case Some(Obj(fields)) => StoreAll(ZERO_CLAIMS, fields)
    case Some(Null) => Some(ZERO_CLAIMS)
    case _ => None
  }

  // ---- tokens ----

  function Sign(mac: Mac, payload: Text, secret: Text): Text {
    Base64Url.Encode(mac(secret, payload))
  }

  function Frame(mac: Mac, payload: Text, secret: Text): Text {
    VERSION + [DOT] + payload + [DOT] + Sign(mac, payload, secret)
  }

  function GenerateToken(mac: Mac, c: Claims, secret: Text): Generated {
    if TrimSpace(secret) == [] then SecretMissing
    else Generated(Frame(mac, Base64Url.Encode(Marshal(c)), secret))
  }

  function ValidateToken(mac: Mac, token: Text, secret: Text, now: int): Validated {
    if TrimSpace(secret) == [] then SecretRequired
    else
      var parts := Split(token, DOT);
      if |parts| != 3 || parts[0] != VERSION then Invalid
      else if Sign(mac, parts[1], secret) != parts[2] then Invalid
      else
        match Base64Url.Decode(parts[1])
        case None => Invalid
        case Some(payload) =>
          match Unmarshal(payload)
          case None => Invalid
          case Some(c) => if c.expires <= Unix(now) then Expired else Accepted(c)
  }

  // ---- the payload survives its own JSON ----

  ghost predicate PlainName(k: Text) { forall b | b in k :: HtmlSafe(b) }

  lemma {:induction false} PlainKey(k: Text, t: Text)
    requires PlainName(k)
    ensures ParseBody(k + [QUOTE] + t) == Ok(k, t)
  {
    var s := k + [QUOTE] + t;
    if k == [] {
      assert s == [QUOTE] + t;
    } else {
      PlainKey(k[1..], t);
      assert s[1..] == k[1..] + [QUOTE] + t;
      assert k == [k[0]] + k[1..];
      assert HtmlSafe(k[0]);
    }
  }

  lemma KeyBack(k: Text, u: Text)
    requires PlainName(k) && u != [] && u[0] == 58
    ensures ParseBody(k + [QUOTE] + u) == Ok(k, u) && SkipSpace(u) == u
  {
    PlainKey(k, u);
  }

  /** A member that Field writes is read back once its value is. */
  lemma MemberBack(k: Text, v: Text, j: Json, t: Text, depth: nat)
    requires PlainName(k)
    requires ParseValue(v + t, depth) == Ok(j, t)
    ensures ParseMember(Field(k, v) + t, depth) == Ok((k, j), t)
  {
    var u := [58] + (v + t);
    FieldUnfold(k, v, t);
    KeyBack(k, u);
    assert u[1..] == v + t;
  }

  lemma FieldUnfold(k: Text, v: Text, t: Text)
    ensures var s := Field(k, v) + t;
            s[0] == QUOTE && SkipSpace(s) == s && s[1..] == k + [QUOTE] + ([58] + (v + t))
  {
  }

  lemma StringMember(k: Text, s: Text, t: Text, depth: nat)
    requires PlainName(k)
    ensures ParseMember(Field(k, EncodeString(s)) + t, depth) == Ok((k, Str(Sanitize(s))), t)
  {
    var v := EncodeString(s) + t;
    assert SkipSpace(v) == v;
    assert v[1..] == EncodeBody(s) + [QUOTE] + t;
    StringRoundTrip(s, t);
    MemberBack(k, EncodeString(s), Str(Sanitize(s)), t, depth);
  }

  lemma NumberMember(k: Text, n: Int64, t: Text, depth: nat)
    requires PlainName(k)
    requires t != [] && t[0] == 125
    ensures ParseMember(Field(k, Decimal(n)) + t, depth) == Ok((k, Number(Decimal(n))), t)
  {
    var d := Decimal(n);
    DecimalParses(n, t);
    assert (d + t)[0] == d[0];
    NumberStart(d + t, depth);
    MemberBack(k, d, Number(d), t, depth);
  }

  lemma DecimalBack(n: Int64)
    ensures ParseInt(Decimal(n)) == Some(n)
  {
    var m: nat := if n < 0 then 0 - n else n;
    DigitsRoundTrip(m);
    assert n < 0 ==> Decimal(n)[1..] == Digits(m);
  }

  /** Among the integers as JSON writes them, exactly those of 64 bits are read. */
  lemma IntegersExactly(n: int)
    ensures ParseInt(Decimal(n)) == if -0x8000_0000_0000_0000 <= n < 0x8000_0000_0000_0000 then Some(n) else None
  {
    var m: nat := if n < 0 then 0 - n else n;
    DigitsRoundTrip(m);
    assert n < 0 ==> Decimal(n)[1..] == Digits(m);
  }

  /** A literal with a fraction or an exponent is no integer. */
  lemma NotAnInteger(l: Text, i: nat)
    requires i < |l| && (l[i] == 46 || l[i] == 101 || l[i] == 69)
    ensures ParseInt(l).None?
  {
    assert l[0] == DASH && i > 0 ==> l[1..][i - 1] == l[i];
  }

  /** Without bytes beyond ASCII, a name stands for a field exactly if it has the same letters, in either case. */
  lemma {:induction false} NamesExactly(k: Text)
    requires forall i | 0 <= i < |k| :: k[i] < 0x80
    ensures |FoldName(k)| == |k|
    ensures forall i | 0 <= i < |k| :: FoldName(k)[i] == if 97 <= k[i] <= 122 then k[i] - 32 else k[i]
  {
    if k != [] {
      NamesExactly(k[1..]);
      assert FoldName(k)[0] == if 97 <= k[0] <= 122 then k[0] - 32 else k[0];
      assert FoldName(k)[1..] == FoldName(k[1..]);
    }
  }

  /** Two runes beyond ASCII fold to letters: U+017F to S and U+212A to K. */
  lemma RunesFold(k: Text)
    ensures EncodeRune(0x017F) == [0xC5, 0xBF] && FoldName([0xC5, 0xBF] + k) == [83] + FoldName(k)
    ensures EncodeRune(0x212A) == [0xE2, 0x84, 0xAA] && FoldName([0xE2, 0x84, 0xAA] + k) == [75] + FoldName(k)
  {
    var s, t := [0xC5, 0xBF] + k, [0xE2, 0x84, 0xAA] + k;
    assert s[0] == 0xC5 && [0xC5, 0xBF] <= s && s[2..] == k;
    assert t[0] == 0xE2 && [0xE2, 0x84, 0xAA] <= t && t[3..] == k;
  }

  function SanitizeClaims(c: Claims): Claims {
    Claims(Sanitize(c.subject), Sanitize(c.email), Sanitize(c.name), c.expires)
  }

  /** Parsing `m`, a separator, and the rest as one member list. */
  lemma MembersBack(m: Text, f: (Text, Json), rest: Text, depth: nat)
    requires rest != [] && (rest[0] == 44 || rest[0] == 125)
    requires ParseMember(m + rest, depth) == Ok(f, rest)
    ensures rest[0] == 125 ==> ParseMembers(m + rest, depth) == Ok([f], rest[1..])
    ensures rest[0] == 44 && ParseMembers(rest[1..], depth).Ok? ==>
              var tail := ParseMembers(rest[1..], depth);
              ParseMembers(m + rest, depth) == Ok([f] + tail.value, tail.rest)
  {
  }

  /** A string member in front of members that are read back is read back with them. */
  lemma StringThenMore(k: Text, s: Text, more: Text, fs: seq<(Text, Json)>)
    requires PlainName(k)
    requires ParseMembers(more, 1) == Ok(fs, [])
    ensures ParseMembers(Field(k, EncodeString(s)) + ([44] + more), 1)
         == Ok([(k, Str(Sanitize(s)))] + fs, [])
  {
    var rest := [44] + more;
    assert rest[1..] == more;
    StringMember(k, s, rest, 1);
    MembersBack(Field(k, EncodeString(s)), (k, Str(Sanitize(s))), rest, 1);
  }

  function Members(c: Claims): seq<(Text, Json)> {
    Decoded(Strings(c)) + [(EXP, Number(Decimal(c.expires)))]
  }

  lemma ExpiryBack(c: Claims)
    ensures ParseMembers(ExpiryText(c), 1) == Ok([(EXP, Number(Decimal(c.expires)))], [])
  {
    NumberMember(EXP, c.expires, [125], 1);
    MembersBack(Field(EXP, Decimal(c.expires)), (EXP, Number(Decimal(c.expires))), [125], 1);
  }

  function Decoded(fields: seq<(Text, Text)>): seq<(Text, Json)> {
    if fields == [] then [] else [(fields[0].0, Str(Sanitize(fields[0].1)))] + Decoded(fields[1..])
  }

  lemma {:induction false} StringFieldsBack(fields: seq<(Text, Text)>, last: Text, fs: seq<(Text, Json)>)
    requires forall f | f in fields :: PlainName(f.0)
    requires ParseMembers(last, 1) == Ok(fs, [])
    ensures ParseMembers(StringFields(fields, last), 1) == Ok(Decoded(fields) + fs, [])
  {
    if fields == [] {
      assert Decoded(fields) + fs == fs;
    } else {
      var k, v, tail := fields[0].0, fields[0].1, Decoded(fields[1..]) + fs;
      StringFieldsBack(fields[1..], last, fs);
      assert PlainName(k);
      StringThenMore(k, v, StringFields(fields[1..], last), tail);
      assert [(k, Str(Sanitize(v)))] + tail == Decoded(fields) + fs;
    }
  }

  /** The whole payload reads back as the four members in order. */
  lemma DocumentBack(c: Claims)
    ensures ParseDocument(Marshal(c)) == Some(Obj(Members(c)))
  {
    ExpiryBack(c);
    StringFieldsBack(Strings(c), ExpiryText(c), [(EXP, Number(Decimal(c.expires)))]);
    ObjectBack(Marshal(c), StringFields(Strings(c), ExpiryText(c)), Members(c));
  }

  lemma ObjectBack(s: Text, body: Text, fs: seq<(Text, Json)>)
    requires s == [123] + body && body != [] && body[0] == QUOTE
    requires ParseMembers(body, 1) == Ok(fs, [])
    ensures ParseDocument(s) == Some(Obj(fs))
  {
    assert s[1..] == body;
    assert SkipSpace(s) == s && SkipSpace(body) == body;
    assert ParseNested(s, 1) == Ok(Obj(fs), []);
    assert ParseValue(s, 0) == ParseNested(s, 1);
  }

  lemma FoldedNames()
    ensures FoldName(SUB) == [83, 85, 66] && FoldName(EMAIL) == [69, 77, 65, 73, 76]
    ensures FoldName(NAME) == [78, 65, 77, 69] && FoldName(EXP) == [69, 88, 80]
  {
  }

  lemma MembersInOrder(c: Claims)
    ensures Members(c) == [(SUB, Str(Sanitize(c.subject))), (EMAIL, Str(Sanitize(c.email))),
                           (NAME, Str(Sanitize(c.name))), (EXP, Number(Decimal(c.expires)))]
  {
    var fs := Strings(c);
    assert fs[1..][1..] == fs[2..] && fs[2..][1..] == fs[3..];
    assert Decoded(fs[3..]) == [];
    assert Decoded(fs[2..]) == [(NAME, Str(Sanitize(c.name)))];
    assert Decoded(fs[1..]) == [(EMAIL, Str(Sanitize(c.email)))] + Decoded(fs[2..]);
  }

  lemma StoreNamed(c: Claims, s: Text, n: Int64)
    ensures Store(c, SUB, Str(s)) == Some(c.(subject := s))
    ensures Store(c, EMAIL, Str(s)) == Some(c.(email := s))
    ensures Store(c, NAME, Str(s)) == Some(c.(name := s))
    ensures Store(c, EXP, Number(Decimal(n))) == Some(c.(expires := n))
  {
    FoldedNames();
    DecimalBack(n);
  }

  lemma StoreFirst(c: Claims, key: Text, value: Json, rest: seq<(Text, Json)>)
    requires Store(c, key, value).Some?
    ensures StoreAll(c, [(key, value)] + rest) == StoreAll(Store(c, key, value).value, rest)
  {
  }

  lemma StoreMembers(c: Claims)
    ensures StoreAll(ZERO_CLAIMS, Members(c)) == Some(SanitizeClaims(c))
  {
    MembersInOrder(c);
    var fs := Members(c);
    var (s, e, n) := (Sanitize(c.subject), Sanitize(c.email), Sanitize(c.name));
    var c1 := ZERO_CLAIMS.(subject := s);
    var c2 := c1.(email := e);
    var c3 := c2.(name := n);
    StoreNamed(ZERO_CLAIMS, s, 0); StoreNamed(c1, e, 0); StoreNamed(c2, n, 0); StoreNamed(c3, [], c.expires);
    StoreFirst(c3, EXP, fs[3].1, []);
    StoreFirst(c2, NAME, fs[2].1, fs[3..]);
    StoreFirst(c1, EMAIL, fs[1].1, fs[2..]);
    StoreFirst(ZERO_CLAIMS, SUB, fs[0].1, fs[1..]);
    assert [fs[3]] + [] == fs[3..] && [fs[2]] + fs[3..] == fs[2..];
    assert [fs[1]] + fs[2..] == fs[1..] && [fs[0]] + fs[1..] == fs;
  }

  /** Decoding the payload gives the claims back, with bytes that are not UTF-8 replaced. */
  lemma PayloadBack(c: Claims)
    ensures Unmarshal(Marshal(c)) == Some(SanitizeClaims(c))
  {
    DocumentBack(c);
    StoreMembers(c);
  }

  // ---- main results ----

  lemma FrameParts(mac: Mac, payload: Text, secret: Text)
    requires DOT !in payload
    ensures Split(Frame(mac, payload, secret), DOT) == [VERSION, payload, Sign(mac, payload, secret)]
  {
    var parts := [VERSION, payload, Sign(mac, payload, secret)];
    JoinThree(VERSION, payload, Sign(mac, payload, secret), DOT);
    SplitJoin(parts, DOT);
  }

  /** Validating what was generated, for every claims value, secret, digest and time. */
  lemma ValidateGenerated(mac: Mac, c: Claims, secret: Text, now: int)
    requires !Blank(secret)
    ensures GenerateToken(mac, c, secret).Generated?
    ensures ValidateToken(mac, GenerateToken(mac, c, secret).token, secret, now)
         == if c.expires <= Unix(now) then Expired else Accepted(SanitizeClaims(c))
  {
    var payload := Base64Url.Encode(Marshal(c));
    FrameParts(mac, payload, secret);
    Base64Url.RoundTrip(Marshal(c));
    PayloadBack(c);
  }

  ghost predicate ValidStrings(c: Claims) {
    ValidUtf8(c.subject) && ValidUtf8(c.email) && ValidUtf8(c.name)
  }

  /** The same claims come back exactly when the token is unexpired and every string is UTF-8. */
  lemma RoundTripExact(mac: Mac, c: Claims, secret: Text, now: int)
    requires !Blank(secret)
    ensures ValidateToken(mac, GenerateToken(mac, c, secret).token, secret, now) == Accepted(c)
       <==> Unix(now) < c.expires && ValidStrings(c)
  {
    ValidateGenerated(mac, c, secret, now);
    SanitizeExact(c.subject); SanitizeExact(c.email); SanitizeExact(c.name);
  }

  lemma FramedWhenThreeParts(mac: Mac, token: Text, secret: Text)
    requires var parts := Split(token, DOT);
             |parts| == 3 && parts[0] == VERSION && Sign(mac, parts[1], secret) == parts[2]
    ensures token == Frame(mac, Split(token, DOT)[1], secret) && DOT !in Split(token, DOT)[1]
  {
    var parts := Split(token, DOT);
    JoinSplit(token, DOT);
    SplitFree(token, DOT);
    assert parts[1] in parts;
    assert parts == [VERSION, parts[1], parts[2]];
    JoinThree(VERSION, parts[1], parts[2], DOT);
  }

  ghost predicate WellFramed(mac: Mac, token: Text, secret: Text, payload: Text, c: Claims) {
    DOT !in payload && token == Frame(mac, payload, secret)
    && Base64Url.Decode(payload).Some? && Unmarshal(Base64Url.Decode(payload).value) == Some(c)
  }

  /** The token is framed and signed, and its payload decodes to these claims. */
  ghost predicate Carries(mac: Mac, token: Text, secret: Text, c: Claims) {
    exists payload :: WellFramed(mac, token, secret, payload, c)
  }

  lemma CarriedOutcome(mac: Mac, token: Text, secret: Text, now: int, c: Claims)
    requires !Blank(secret) && Carries(mac, token, secret, c)
    ensures ValidateToken(mac, token, secret, now) == if c.expires <= Unix(now) then Expired else Accepted(c)
  {
    var payload :| WellFramed(mac, token, secret, payload, c);
    FrameParts(mac, payload, secret);
  }

  lemma OutcomeCarried(mac: Mac, token: Text, secret: Text, now: int) returns (c: Claims)
    requires !Blank(secret)
    requires var v := ValidateToken(mac, token, secret, now); v.Accepted? || v.Expired?
    ensures Carries(mac, token, secret, c)
  {
    FramedWhenThreeParts(mac, token, secret);
    var payload := Split(token, DOT)[1];
    c := Unmarshal(Base64Url.Decode(payload).value).value;
    assert WellFramed(mac, token, secret, payload, c);
  }

  /** Exactly the framed, correctly signed and decodable tokens whose claims expire later are
      accepted; the blank secret is reported first. */
  lemma AcceptedExactly(mac: Mac, token: Text, secret: Text, now: int, c: Claims)
    ensures ValidateToken(mac, token, secret, now) == Accepted(c)
       <==> !Blank(secret) && Unix(now) < c.expires && Carries(mac, token, secret, c)
    ensures ValidateToken(mac, token, secret, now) == SecretRequired <==> Blank(secret)
  {
    if ValidateToken(mac, token, secret, now) == Accepted(c) {
      var d := OutcomeCarried(mac, token, secret, now);
      CarriedOutcome(mac, token, secret, now, d);
    } else if !Blank(secret) && Carries(mac, token, secret, c) {
      CarriedOutcome(mac, token, secret, now, c);
    }
  }

  /** Only such tokens are called expired, when their claims expire now or earlier. */
  lemma ExpiredExactly(mac: Mac, token: Text, secret: Text, now: int)
    requires !Blank(secret)
    ensures ValidateToken(mac, token, secret, now) == Expired
       <==> exists c: Claims :: Carries(mac, token, secret, c) && c.expires <= Unix(now)
  {
    if ValidateToken(mac, token, secret, now) == Expired {
      var c := OutcomeCarried(mac, token, secret, now);
      CarriedOutcome(mac, token, secret, now, c);
    } else if c: Claims :| Carries(mac, token, secret, c) && c.expires <= Unix(now) {
      CarriedOutcome(mac, token, secret, now, c);
    }
  }

  /** Every other token is invalid. */
  lemma InvalidExactly(mac: Mac, token: Text, secret: Text, now: int)
    requires !Blank(secret)
    ensures ValidateToken(mac, token, secret, now) == Invalid <==> forall c: Claims :: !Carries(mac, token, secret, c)
  {
    var v := ValidateToken(mac, token, secret, now);
    if v.Accepted? || v.Expired? {
      var _ := OutcomeCarried(mac, token, secret, now);
    } else if c: Claims :| Carries(mac, token, secret, c) {
      CarriedOutcome(mac, token, secret, now, c);
    }
  }

  /** Two accepted tokens that agree in the payload segment are the same token. */
  lemma PayloadDeterminesToken(mac: Mac, t1: Text, t2: Text, secret: Text, now: int)
    requires ValidateToken(mac, t1, secret, now).Accepted? && ValidateToken(mac, t2, secret, now).Accepted?
    requires Split(t1, DOT)[1] == Split(t2, DOT)[1]
    ensures t1 == t2
  {
    var p1, p2 := Split(t1, DOT), Split(t2, DOT);
    JoinSplit(t1, DOT);
    JoinSplit(t2, DOT);
    assert p1 == [VERSION, p1[1], p1[2]] && p2 == [VERSION, p2[1], p2[2]];
  }

  /** Equal up to which bytes that are not UTF-8 stand where such bytes stand. */
  predicate SameRunes(c1: Claims, c2: Claims) {
    Runes(c1.subject) == Runes(c2.subject) && Runes(c1.email) == Runes(c2.email) && Runes(c1.name) == Runes(c2.name)
    && c1.expires == c2.expires
  }

  lemma StringFieldsSplit(k: Text, v: Text, tail: Text)
    ensures Field(k, EncodeString(v)) + ([44] + tail)
         == ([QUOTE] + k + [QUOTE, 58, QUOTE]) + (EncodeBody(v) + [QUOTE] + ([44] + tail))
  {
  }

  lemma {:induction false} FieldsDetermine(fs1: seq<(Text, Text)>, last1: Text, fs2: seq<(Text, Text)>, last2: Text)
    requires |fs1| == |fs2| && forall i | 0 <= i < |fs1| :: fs1[i].0 == fs2[i].0
    requires StringFields(fs1, last1) == StringFields(fs2, last2)
    ensures last1 == last2 && forall i | 0 <= i < |fs1| :: Runes(fs1[i].1) == Runes(fs2[i].1)
    decreases |fs1|
  {
    if fs1 != [] {
      var t1, t2 := StringFields(fs1[1..], last1), StringFields(fs2[1..], last2);
      var k := fs1[0].0;
      StringFieldsSplit(k, fs1[0].1, t1);
      StringFieldsSplit(k, fs2[0].1, t2);
      TailsEqual([QUOTE] + k + [QUOTE, 58, QUOTE], EncodeBody(fs1[0].1) + [QUOTE] + ([44] + t1),
                 EncodeBody(fs2[0].1) + [QUOTE] + ([44] + t2));
      BodyDetermines(fs1[0].1, [44] + t1, fs2[0].1, [44] + t2);
      TailsEqual([44], t1, t2);
      FieldsDetermine(fs1[1..], last1, fs2[1..], last2);
      assert forall i | 1 <= i < |fs1| :: fs1[i] == fs1[1..][i - 1] && fs2[i] == fs2[1..][i - 1];
    }
  }

  lemma MarshalDetermines(c1: Claims, c2: Claims)
    requires Marshal(c1) == Marshal(c2)
    ensures SameRunes(c1, c2)
  {
    TailsEqual([123], StringFields(Strings(c1), ExpiryText(c1)), StringFields(Strings(c2), ExpiryText(c2)));
    FieldsDetermine(Strings(c1), ExpiryText(c1), Strings(c2), ExpiryText(c2));
    assert forall i | 0 <= i < 3 :: Runes(Strings(c1)[i].1) == Runes(Strings(c2)[i].1);
    assert Strings(c1)[0].1 == c1.subject && Strings(c1)[1].1 == c1.email && Strings(c1)[2].1 == c1.name;
    assert Strings(c2)[0].1 == c2.subject && Strings(c2)[1].1 == c2.email && Strings(c2)[2].1 == c2.name;
    PayloadBack(c1);
    PayloadBack(c2);
  }

  lemma {:induction false} SameFields(fs1: seq<(Text, Text)>, fs2: seq<(Text, Text)>, last: Text)
    requires |fs1| == |fs2| && forall i | 0 <= i < |fs1| :: fs1[i].0 == fs2[i].0 && Runes(fs1[i].1) == Runes(fs2[i].1)
    ensures StringFields(fs1, last) == StringFields(fs2, last)
    decreases |fs1|
  {
    if fs1 != [] {
      SameRunesSameBody(fs1[0].1, fs2[0].1);
      SameFields(fs1[1..], fs2[1..], last);
    }
  }

  /** Two claims share a token under one secret exactly if they decode to the same runes and expire
      together, that is, if they differ at most in bytes that are not UTF-8. */
  lemma GenerateInjective(mac: Mac, c1: Claims, c2: Claims, secret: Text)
    requires !Blank(secret)
    ensures GenerateToken(mac, c1, secret) == GenerateToken(mac, c2, secret) <==> SameRunes(c1, c2)
  {
    if SameRunes(c1, c2) {
      SameFields(Strings(c1), Strings(c2), ExpiryText(c1));
    } else if GenerateToken(mac, c1, secret) == GenerateToken(mac, c2, secret) {
      FrameParts(mac, Base64Url.Encode(Marshal(c1)), secret);
      FrameParts(mac, Base64Url.Encode(Marshal(c2)), secret);
      Base64Url.RoundTrip(Marshal(c1));
      Base64Url.RoundTrip(Marshal(c2));
      MarshalDetermines(c1, c2);
    }
  }

  /** So claims made of UTF-8 strings share a token only if they are equal. */
  lemma Utf8Injective(mac: Mac, c1: Claims, c2: Claims, secret: Text)
    requires !Blank(secret) && ValidStrings(c1) && ValidStrings(c2)
    requires GenerateToken(mac, c1, secret) == GenerateToken(mac, c2, secret)
    ensures c1 == c2
  {
    var early := 1_000_000_000 * (-0x8000_0000_0000_0000 - 1);
    assert Unix(early) == -0x8000_0000_0000_0000 - 1;
    RoundTripExact(mac, c1, secret, early);
    RoundTripExact(mac, c2, secret, early);
  }
}
