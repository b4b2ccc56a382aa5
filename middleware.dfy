/**
 * The HTTP Basic authentication gate in front of `/users` (the "Basic" scheme of RFC 7617,
 * section 2): parse `Authorization: Basic base64(email:password)`, look the email up, compare
 * the password, and either attach `{ id, email }` to the request and pass it on, or answer 401
 * with a challenge.
 */
module Middleware {
  import opened Wrappers
  import opened Text
  import opened Documents
  import opened Http
  import opened UserModel

  const BasicPrefix := "Basic "
  const AuthRequired := "Authentication required"
  const InvalidCredentials := "Invalid email or password"
  const InvalidHeader := "Invalid authorization header"
  const ChallengeHeader := "WWW-Authenticate"
  const Challenge := "Basic realm=\"User API\", charset=\"UTF-8\""

  datatype Credentials = Credentials(email: string, password: string)

  /** What the gate stores in `req.user`. */
  datatype Identity = Identity(id: Id, email: Json)

  datatype GateOutcome = Denied(message: string) | Admitted(identity: Identity)

  /** `req.headers.authorization || ''`. */
  function HeaderValue(authorization: Option<string>): (r: string)
    ensures authorization.Some? ==> r == authorization.value
    ensures authorization.None? ==> r == ""
  {
    if authorization.Some? then authorization.value else ""
  }

  /**
   * The decoded payload `email:password` split at its first ':'. Only the email part is
   * trimmed; the password is the rest, untrimmed; both must be non-empty.
   */
  function SplitCredentials(raw: string): (r: Option<Credentials>)
    ensures ':' !in raw ==> r == None
    ensures r.Some? ==> r.value.email != [] && r.value.password != []
    ensures r.Some? ==> Trim(r.value.email) == r.value.email
  {
    var sep := IndexOf(raw, ':');
    if sep < 0 then None
    else
      var email := Trim(raw[..sep]);
      var password := raw[sep + 1..];
      if email == [] || password == [] then None
      else
        TrimIdempotent(raw[..sep]);
        Some(Credentials(email, password))
  }

  /**
   * The credential parse of `basicAuth`. `decode` is `Buffer.from(_, 'base64').toString('utf8')`
   * applied to what follows the exact, case-sensitive prefix `Basic `.
   */
  function ParseBasic(header: string, decode: string -> string): (r: Option<Credentials>)
    ensures !StartsWith(header, BasicPrefix) ==> r == None
  {
    if !StartsWith(header, BasicPrefix) then None
    else SplitCredentials(decode(header[|BasicPrefix|..]))
  }

  /**
   * Every payload `user:password` with no ':' in `user`, a user-id that is not all whitespace
   * and a non-empty password, splits into the trimmed user-id and exactly that password; a ':'
   * inside the password is kept.
   */
  lemma SplitCredentialsOfPair(user: string, password: string)
    requires ':' !in user
    requires Trim(user) != [] && password != []
    ensures SplitCredentials(user + ":" + password) == Some(Credentials(Trim(user), password))
  {
    var raw := user + ":" + password;
    assert raw[..|user|] == user && raw[|user|] == ':' && raw[|user| + 1..] == password by {
      PairParts(user, password);
    }
    IndexOfFirst(raw, ':', |user|);
  }

  lemma PairParts(user: string, password: string)
    ensures (user + ":" + password)[..|user|] == user
    ensures (user + ":" + password)[|user|] == ':'
    ensures (user + ":" + password)[|user| + 1..] == password
  {
  }

  /** Conversely, every accepted payload has that form. */
  lemma SplitCredentialsAccepted(raw: string) returns (user: string)
    requires SplitCredentials(raw).Some?
    ensures raw == user + ":" + SplitCredentials(raw).value.password
    ensures ':' !in user && Trim(user) == SplitCredentials(raw).value.email
  {
    var sep := IndexOf(raw, ':');
    user := raw[..sep];
    var password := raw[sep + 1..];
    assert SplitCredentials(raw).value == Credentials(Trim(user), password);
    assert raw == user + ":" + password by {
      SplitAround(raw, sep);
    }
  }

  lemma SplitAround(s: string, k: nat)
    requires k < |s|
    ensures s == s[..k] + [s[k]] + s[k + 1..]
  {
  }

  /**
   * Every header `Basic b`, where `b` decodes to such a pair, is accepted with the trimmed
   * user-id and the password.
   */
  lemma ParseBasicOfSplit(b: string, decode: string -> string, user: string, password: string)
    requires decode(b) == user + ":" + password
    requires ':' !in user
    requires Trim(user) != [] && password != []
    ensures ParseBasic(BasicPrefix + b, decode) == Some(Credentials(Trim(user), password))
  {
    var header := BasicPrefix + b;
    assert header[..|BasicPrefix|] == BasicPrefix;
    assert header[|BasicPrefix|..] == b;
    SplitCredentialsOfPair(user, password);
  }

  /**
   * Conversely, every accepted header has that form: the prefix `Basic `, and a decoded
   * payload `user:password` where `user` holds no ':' and trims to the accepted email.
   */
  lemma ParseBasicAccepted(header: string, decode: string -> string) returns (user: string)
    requires ParseBasic(header, decode).Some?
    ensures StartsWith(header, BasicPrefix)
    ensures decode(header[|BasicPrefix|..]) == user + ":" + ParseBasic(header, decode).value.password
    ensures ':' !in user && Trim(user) == ParseBasic(header, decode).value.email
  {
    user := SplitCredentialsAccepted(decode(header[|BasicPrefix|..]));
  }

  /** The request/response pair one middleware call works on. */
  class Exchange {
    const authorization: Option<string>
    var user: Option<Identity>
    var headers: map<string, string>
    var status: nat
    var body: Option<Body>
    var nextCalls: nat

    constructor (authorization: Option<string>)
      ensures this.authorization == authorization
      ensures user == None && headers == map[] && status == Ok && body == None && nextCalls == 0
    {
      this.authorization := authorization;
      user := None;
      headers := map[];
      status := Ok;
      body := None;
      nextCalls := 0;
    }

    /** `deny(res, msg)`: the challenge header, status 401 and `{ message: msg }`. */
    method Deny(msg: string)
      modifies this
      ensures headers == old(headers)[ChallengeHeader := Challenge]
      ensures status == Unauthorized && body == Some(Message(msg))
      ensures user == old(user) && nextCalls == old(nextCalls)
    {
      headers := headers[ChallengeHeader := Challenge];
      status := Unauthorized;
      body := Some(Message(msg));
    }

    /** `req.user = identity; next()`. */
    method Admit(identity: Identity)
      modifies this
      ensures user == Some(identity) && nextCalls == old(nextCalls) + 1
      ensures headers == old(headers) && status == old(status) && body == old(body)
    {
      user := Some(identity);
      nextCalls := nextCalls + 1;
    }

    /** Carries out a gate outcome: `deny` for a denial, `Admit` otherwise. */
    method Conclude(outcome: GateOutcome)
      modifies this
      ensures outcome.Denied? ==>
        && headers == old(headers)[ChallengeHeader := Challenge]
        && status == Unauthorized && body == Some(Message(outcome.message))
        && user == old(user) && nextCalls == old(nextCalls)
      ensures outcome.Admitted? ==>
        && user == Some(outcome.identity) && nextCalls == old(nextCalls) + 1
        && headers == old(headers) && status == old(status) && body == old(body)
    {
      if outcome.Denied? {
        Deny(outcome.message);
      } else {
        Admit(outcome.identity);
      }
    }
  }

  /** No stored document has this email. */
  ghost predicate Unknown(docs: map<Id, Doc>, email: string) {
    forall id :: id in docs ==> !Matches(docs[id], JString(email))
  }

  /** `comparePassword` gives `v` on every stored document with the email of `creds`. */
  ghost predicate ComparesAs(docs: map<Id, Doc>, creds: Credentials, compare: (Doc, Option<Json>) -> Comparison, v: Comparison) {
    forall id :: id in docs && Matches(docs[id], JString(creds.email)) ==> compare(docs[id], Some(JString(creds.password))) == v
  }

  /**
   * The outcome once `findOne` has returned `doc`, stored under `id`, and `comparePassword`
   * has given `c`: only a match admits, and only a throw reports a bad header.
   */
  function GateVerdict(id: Id, doc: Doc, c: Comparison): (r: GateOutcome)
    requires EmailField in doc
    ensures r.Admitted? <==> c == Match
    ensures r.Admitted? ==> r.identity == Identity(id, doc[EmailField])
    ensures r.Denied? ==> r.message == (if c == Throws then InvalidHeader else InvalidCredentials)
  {
    match c
    case Throws => Denied(InvalidHeader)
    case Mismatch => Denied(InvalidCredentials)
    case Match => Admitted(Identity(id, doc[EmailField]))
  }

  /**
   * The outcomes the lookup and comparison may give for parsed credentials. Which matching
   * document `findOne` picks is open, so where several match the outcome is the verdict on one
   * of them.
   */
  ghost predicate Checked(docs: map<Id, Doc>, online: bool, creds: Credentials,
                          compare: (Doc, Option<Json>) -> Comparison, outcome: GateOutcome) {
    && (outcome.Denied? ==> outcome.message in {InvalidCredentials, InvalidHeader})
    && (!online ==> outcome == Denied(InvalidHeader))
    && (online && Unknown(docs, creds.email) ==> outcome == Denied(InvalidCredentials))
    && (online && ComparesAs(docs, creds, compare, Mismatch) ==> outcome == Denied(InvalidCredentials))
    && ((online && !Unknown(docs, creds.email) && ComparesAs(docs, creds, compare, Throws))
          ==> outcome == Denied(InvalidHeader))
    && ((online && !Unknown(docs, creds.email) && ComparesAs(docs, creds, compare, Match))
          ==> outcome.Admitted?)
    && (online && !Unknown(docs, creds.email) ==>
          exists id :: id in docs && Matches(docs[id], JString(creds.email))
            && outcome == GateVerdict(id, docs[id], compare(docs[id], Some(JString(creds.password)))))
    && (outcome.Admitted? ==>
          && online
          && outcome.identity.id in docs
          && Matches(docs[outcome.identity.id], JString(creds.email))
          && compare(docs[outcome.identity.id], Some(JString(creds.password))) == Match
          && outcome.identity.email == JString(creds.email))
  }

  /**
   * The lookup and comparison half of `basicAuth`, for credentials that parsed. A failing store
   * or a throwing comparison is reported as 'Invalid authorization header', never as a 500;
   * an unknown email and a wrong password get the same message.
   */
  method CheckCredentials(users: Store, creds: Credentials, compare: (Doc, Option<Json>) -> Comparison)
    returns (outcome: GateOutcome)
    ensures Checked(users.docs, users.online, creds, compare, outcome)
  {
    var found := users.FindOne(JString(creds.email));
    if found.Failed? {
      return Denied(InvalidHeader);
    }
    if found.value.None? {
      return Denied(InvalidCredentials);
    }
    var id := found.value.value;
    var doc := users.docs[id];
    outcome := GateVerdict(id, doc, compare(doc, Some(JString(creds.password))));
  }

  /**
   * The outcome `basicAuth` may reach for an `Authorization` header: a header that does not
   * parse is denied with 'Authentication required', whatever the store holds; credentials that
   * parse get an outcome `Checked` allows.
   */
  ghost predicate Authenticated(header: string, decode: string -> string, docs: map<Id, Doc>, online: bool,
                                compare: (Doc, Option<Json>) -> Comparison, outcome: GateOutcome) {
    && (ParseBasic(header, decode).None? ==> outcome == Denied(AuthRequired))
    && (ParseBasic(header, decode).Some? ==> Checked(docs, online, ParseBasic(header, decode).value, compare, outcome))
  }

  /** The decision of `basicAuth` for one header, before anything is written to the response. */
  method Authenticate(header: string, users: Store, decode: string -> string, compare: (Doc, Option<Json>) -> Comparison)
    returns (outcome: GateOutcome)
    ensures Authenticated(header, decode, users.docs, users.online, compare, outcome)
  {
    var creds := ParseBasic(header, decode);
    if creds.None? {
      outcome := Denied(AuthRequired);
    } else {
      outcome := CheckCredentials(users, creds.value, compare);
    }
  }

  /**
   * `basicAuth(req, res, next)`: decides, then either answers 401 with the challenge or sets
   * `req.user` and calls `next` once.
   */
  method BasicAuth(ex: Exchange, users: Store, decode: string -> string, compare: (Doc, Option<Json>) -> Comparison)
    returns (outcome: GateOutcome)
    modifies ex
    ensures Authenticated(HeaderValue(ex.authorization), decode, users.docs, users.online, compare, outcome)
    ensures outcome.Denied? ==>
      && ex.headers == old(ex.headers)[ChallengeHeader := Challenge]
      && ex.status == Unauthorized && ex.body == Some(Message(outcome.message))
      && ex.user == old(ex.user) && ex.nextCalls == old(ex.nextCalls)
    ensures outcome.Admitted? ==>
      && ex.user == Some(outcome.identity) && ex.nextCalls == old(ex.nextCalls) + 1
      && ex.headers == old(ex.headers) && ex.status == old(ex.status) && ex.body == old(ex.body)
  {
    outcome := Authenticate(HeaderValue(ex.authorization), users, decode, compare);
    ex.Conclude(outcome);
  }
}
