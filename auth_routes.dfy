/**
 * The `/auth` routes: registration with a pre-insert duplicate-email lookup, and login, which
 * answers an unknown email and a wrong password alike. `sign(id, seconds)` is `jwt.sign` of the
 * payload `{ id }` with that lifetime.
 */
module AuthRoutes {
  import opened Wrappers
  import opened Documents
  import opened Http
  import opened UserModel

  const AlreadyRegistered := "Email already registered"
  const Registered := "User registered successfully"
  const InvalidCredentials := "Invalid email or password"
  /** `expiresIn: '1h'`. */
  const TokenLifetimeSeconds: nat := 3600
  /** The fields `new User({ name, age, email, password })` is built from. */
  const RegistrationFields := {"name", "age", EmailField, PasswordField}

  /** Some stored document has this email. */
  ghost predicate Taken(docs: map<Id, Doc>, email: Json) {
    exists id :: id in docs && Matches(docs[id], email)
  }

  /** POST /auth/register. `newId` is the identifier the new document receives; none is in use. */
  method Register(users: Store, body: Doc, newId: Id) returns (resp: Response)
    requires newId !in users.docs
    modifies users
    ensures users.online == old(users.online)
    ensures !old(users.online) ==>
      resp == Response(InternalError, ServerError) && users.docs == old(users.docs)
    ensures old(users.online) && Taken(old(users.docs), FilterValue(body, EmailField)) ==>
      resp == Response(BadRequest, Message(AlreadyRegistered)) && users.docs == old(users.docs)
    ensures old(users.online) && !Taken(old(users.docs), FilterValue(body, EmailField)) ==>
      && resp == Response(Created, Message(Registered))
      && users.docs == old(users.docs)[newId := Pick(body, RegistrationFields)]
      && |users.docs| == |old(users.docs)| + 1
  {
    var existing := users.FindOne(FilterValue(body, EmailField));
    if existing.Failed? {
      return Response(InternalError, ServerError);
    }
    if existing.value.Some? {
      return Response(BadRequest, Message(AlreadyRegistered));
    }
    var saved := users.Save(newId, Pick(body, RegistrationFields));
    if saved.Failed? {
      return Response(InternalError, ServerError);
    }
    return Response(Created, Message(Registered));
  }

  /**
   * The response once `findOne` has returned the document stored under `id` and
   * `comparePassword` has given `c`: a match gets the token signed over `id`, a mismatch the
   * shared rejection, a throw a 500.
   */
  function LoginVerdict(id: Id, c: Comparison, sign: (Id, nat) -> string): (r: Response)
    ensures r.status == Ok <==> c == Match
    ensures r.status == Ok ==> r.body == Token(sign(id, TokenLifetimeSeconds))
    ensures c == Mismatch ==> r == Response(BadRequest, Message(InvalidCredentials))
    ensures c == Throws ==> r == Response(InternalError, ServerError)
  {
    match c
    case Throws => Response(InternalError, ServerError)
    case Mismatch => Response(BadRequest, Message(InvalidCredentials))
    case Match => Response(Ok, Token(sign(id, TokenLifetimeSeconds)))
  }

  /**
   * POST /auth/login. It changes nothing. Where several documents carry the email, `findOne`
   * picks one, and the outcome is that of the one it picked.
   */
  method Login(users: Store, body: Doc, compare: (Doc, Option<Json>) -> Comparison, sign: (Id, nat) -> string)
    returns (resp: Response)
    ensures resp.status in {Ok, BadRequest, InternalError}
    ensures !users.online ==> resp == Response(InternalError, ServerError)
    ensures resp.status == BadRequest ==> resp.body == Message(InvalidCredentials)
    ensures users.online && !Taken(users.docs, FilterValue(body, EmailField)) ==>
      resp == Response(BadRequest, Message(InvalidCredentials))
    ensures users.online
      && (forall id :: id in users.docs && Matches(users.docs[id], FilterValue(body, EmailField))
            ==> compare(users.docs[id], Field(body, PasswordField)) == Mismatch)
      ==> resp == Response(BadRequest, Message(InvalidCredentials))
    ensures users.online && Taken(users.docs, FilterValue(body, EmailField))
      && (forall id :: id in users.docs && Matches(users.docs[id], FilterValue(body, EmailField))
            ==> compare(users.docs[id], Field(body, PasswordField)) == Match)
      ==> resp.status == Ok
    ensures users.online && Taken(users.docs, FilterValue(body, EmailField))
      && (forall id :: id in users.docs && Matches(users.docs[id], FilterValue(body, EmailField))
            ==> compare(users.docs[id], Field(body, PasswordField)) == Throws)
      ==> resp == Response(InternalError, ServerError)
    ensures users.online && Taken(users.docs, FilterValue(body, EmailField)) ==>
      exists id :: id in users.docs && Matches(users.docs[id], FilterValue(body, EmailField))
        && resp == LoginVerdict(id, compare(users.docs[id], Field(body, PasswordField)), sign)
    ensures resp.status == Ok ==>
      exists id :: id in users.docs && Matches(users.docs[id], FilterValue(body, EmailField))
        && compare(users.docs[id], Field(body, PasswordField)) == Match
        && resp.body == Token(sign(id, TokenLifetimeSeconds))
  {
    var found := users.FindOne(FilterValue(body, EmailField));
    if found.Failed? {
      return Response(InternalError, ServerError);
    }
    if found.value.None? {
      return Response(BadRequest, Message(InvalidCredentials));
    }
    var id := found.value.value;
    resp := LoginVerdict(id, compare(users.docs[id], Field(body, PasswordField)), sign);
  }

  /** Registering the same email twice: the second attempt is refused and stores nothing. */
  method RegisterTwice(users: Store, body: Doc, firstId: Id, secondId: Id)
    returns (first: Response, second: Response)
    requires firstId !in users.docs && secondId !in users.docs && firstId != secondId
    requires users.online
    modifies users
    ensures second == Response(BadRequest, Message(AlreadyRegistered))
    ensures secondId !in users.docs
    ensures users.docs == if Taken(old(users.docs), FilterValue(body, EmailField)) then old(users.docs)
                          else old(users.docs)[firstId := Pick(body, RegistrationFields)]
  {
    first := Register(users, body, firstId);
    if !Taken(old(users.docs), FilterValue(body, EmailField)) {
      assert firstId in users.docs && Matches(users.docs[firstId], FilterValue(body, EmailField));
    }
    second := Register(users, body, secondId);
  }
}
