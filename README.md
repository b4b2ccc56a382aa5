# Crudback: the Basic-auth gate and the user routes, in Dafny

Crudback is a small Express/Mongoose service that stores "user" documents (name, email, age,
password). It exposes CRUD routes under `/users` and registration/login routes under `/auth`.
An HTTP Basic authentication middleware (the "Basic" scheme of RFC 7617, section 2) is put in
front of the routes. This project models the three pieces of decision logic in that service and
proves what outcome each class of input produces:

- **The Basic-auth gate.**
  - It parses `Authorization: Basic base64(email:password)`. The exact prefix is required, the
    payload is split at the first `:`, only the email part is trimmed, and both parts must be
    non-empty.
  - It looks the email up and compares the password.
  - It then either attaches `{ id, email }` to the request and calls `next` once, or answers 401
    with a `WWW-Authenticate` challenge and one of three fixed messages.
- **The `/users` handlers.**
  - There is an id-format gate and a name/email/age body test.
  - List, get, create, replace (whole-document overwrite), patch (field merge) and delete work
    on a store.
  - The order of the checks is proved: 400 for a bad id, then 400 for a bad body, then 500 for a
    failing store, then 404 for an absent id, then success. "Nothing else changes" is proved too.
- **`/auth/register` and `/auth/login`.**
  - Register rejects an email that is already stored; otherwise it inserts a document holding
    exactly those of `name`, `age`, `email` and `password` that the body has.
  - Login answers an unknown email and a wrong password with the identical 400 response. It
    issues a one-hour token over the matched id only when the password matches, and changes
    nothing.

Layout, one module per file:

| file             | contents |
|------------------|----------|
| `wrappers.dfy`   | `Option` |
| `text.dfy`       | `startsWith`, `indexOf` and ECMAScript `trim`, with their lemmas |
| `documents.dfy`  | JSON values and documents, the `{ email }` filter, destructuring |
| `http.dfy`       | responses: status codes and body shapes |
| `user_model.dfy` | `Store`: the `User` collection as a class holding `map<Id, Doc>` |
| `middleware.dfy` | the credential parse (pure), the decision and the `Exchange` the gate writes to |
| `user_routes.dfy`| the `/users` handlers |
| `auth_routes.dfy`| the `/auth` handlers |

The collaborators the code calls but does not define are parameters of the members that use
them:

- `decode: string -> string` is `Buffer.from(_, 'base64').toString('utf8')`.
- `compare: (Doc, Option<Json>) -> Comparison` is `user.comparePassword(candidate)`. It resolves
  to a match or a mismatch, or it throws.
- `sign: (Id, nat) -> string` is `jwt.sign({ id }, secret, { expiresIn })`.
- `validId: string -> bool` is `mongoose.Types.ObjectId.isValid`.

A false `Store.online` means the database does not answer: every store call throws. The route
handlers turn that into a 500. The gate turns it into a 401 with 'Invalid authorization header'.

The code has no bearer-token gate, no logout route and no per-user `tokenVersion` counter; the
only gate modelled is the Basic-auth one.

## Model

| member | source | states |
|---|---|---|
| Text.StartsWith | middleware.js:14 | `startsWith` holds exactly when the string is the prefix followed by some rest: exact and case-sensitive |
| Text.IndexOf | middleware.js:18 | the result is -1 exactly when the character is absent; otherwise it is an index holding the character, with no occurrence before it |
| Text.IndexOfFirst | middleware.js:18 | a position holding the character, with no occurrence before it, is exactly the position `indexOf` returns |
| Text.Trim | middleware.js:21 | the result is empty exactly when the input is all whitespace; otherwise it starts and ends with a non-whitespace character |
| Text.TrimIsMiddleSlice | middleware.js:21 | `trim` removes only leading and trailing whitespace: the result is a contiguous slice of the input, and everything outside it is whitespace |
| Text.TrimIdempotent | middleware.js:21 | trimming twice gives the same result as trimming once |
| Documents.Field | routes/authRoutes.js:27 | definition (its ensures only split the body into cases): reading a body field gives the value exactly when the body has the field, and `undefined` (`None`) otherwise |
| Documents.Matches | routes/authRoutes.js:12 | definition, restated through `Field`: the `{ email }` filter selects a document exactly when its email equals the value; a null value selects the documents whose email is null or missing |
| Documents.FilterValue | routes/authRoutes.js:11-12 | definition (its ensures only split the body into cases): a destructured field that is absent becomes a null filter value; a present field keeps its value |
| Documents.Pick | routes/authRoutes.js:11-16 | the record built from `{ name, age, email, password }` has exactly those body fields that are present, with the body's values |
| Middleware.HeaderValue | middleware.js:13 | definition (its ensures only split the body into cases): a missing `Authorization` header reads as the empty string |
| Middleware.SplitCredentials | middleware.js:18-24 | a payload without ':' is rejected; an accepted result has a non-empty email that is already trimmed and a non-empty password |
| Middleware.ParseBasic | middleware.js:13-24 | a header without the exact `Basic ` prefix is rejected; the accepted headers are given by the two lemmas below |
| Middleware.SplitCredentialsOfPair | middleware.js:18-24 | `user:password` with no ':' in `user`, a `user` that is not all whitespace and a non-empty password splits into the trimmed `user` and exactly `password`, even when `password` itself contains ':' |
| Middleware.SplitCredentialsAccepted | middleware.js:18-24 | every accepted payload is `user:password` with no ':' in `user`, where `user` trims to the email (the converse of the row above) |
| Middleware.ParseBasicOfSplit | middleware.js:13-24 | `Basic b`, where `b` decodes to such a pair, parses to the trimmed user-id and the untrimmed password |
| Middleware.ParseBasicAccepted | middleware.js:13-24 | every accepted header has the `Basic ` prefix, and its decoded payload has the form above (the converse) |
| Middleware.Exchange.Deny | middleware.js:6-9 | sets the challenge header `Basic realm="User API", charset="UTF-8"`, status 401 and `{ message }`; `req.user` is left alone and `next` is not called |
| Middleware.Exchange.Admit | middleware.js:33-34 | `req.user` becomes the identity and `next` is called once; the response is left alone |
| Middleware.Exchange.Conclude | middleware.js:14-37 | a denial has exactly the effect of `deny`, and an admission exactly that of `req.user = …; next()` |
| Middleware.GateVerdict | middleware.js:28-36 | once `findOne` has returned a document, its comparison decides: only a match admits, with that document's id and email; a throw gives 'Invalid authorization header' and a mismatch 'Invalid email or password' |
| Middleware.CheckCredentials | middleware.js:27-37 | when the email is stored, the outcome is the `GateVerdict` on some stored document carrying that email, which is the one `findOne` picked, whatever the other matching documents would give. All denial messages come from two fixed messages. An unknown email, or a password every matching document rejects, gives 'Invalid email or password'. A failing store, or a comparison that throws on every match, gives 'Invalid authorization header'. When the email is stored and the password compares as a match on every document with that email, the credentials are admitted. Admission in turn requires a stored document with that email whose password compares as a match, and the identity is that document's id and email |
| Middleware.Authenticate | middleware.js:13-37 | a header that does not parse is denied with 'Authentication required' whatever the store holds or whether it answers, so no lookup is made; parsed credentials are decided as the row above says |
| Middleware.BasicAuth | middleware.js:11-38 | the gate's outcome is the one `Authenticate` allows for the header, where a missing header counts as empty, so correct credentials are admitted and everything else is denied; every denial is a 401 with the challenge and never calls `next`, and an admission sets `req.user` and calls `next` once |
| UserModel.Store.Find | routes/userRoutes.js:295 | definition of `User.find()`: every document, or a failure when the store is down |
| UserModel.Store.FindById | routes/userRoutes.js:308 | definition of `User.findById`: the document under the id exactly when there is one |
| UserModel.Store.FindOne | routes/authRoutes.js:12 | some document the `{ email }` filter selects, or none exactly when no document matches |
| UserModel.Store.Save | routes/userRoutes.js:333 | writes the whole document under its id and nothing else |
| UserModel.Store.FindByIdAndUpdate | routes/userRoutes.js:376-380 | merges the fields into the stored document (`$set`) and returns the updated one; an absent id changes nothing |
| UserModel.Store.FindByIdAndDelete | routes/userRoutes.js:396 | removes exactly that document; an absent id changes nothing |
| UserRoutes.ValidProfile | routes/userRoutes.js:319-326 | the body test, field by field: name and email are strings that are not all whitespace, and age is a number other than NaN |
| UserRoutes.GetAll | routes/userRoutes.js:293-300 | 200 with every stored document, or 500 when the store fails |
| UserRoutes.GetById | routes/userRoutes.js:303-314 | a bad id gives 400 'Invalid ID format' before any lookup (even with the store down); an absent id gives 404 'User not found'; otherwise 200 with that document |
| UserRoutes.Create | routes/userRoutes.js:317-338 | a body failing the test gives 400 'name, email, and age are required' and stores nothing; a valid body gives 201 'saved successfully' with the saved document, and the store gains exactly that one document |
| UserRoutes.Replace | routes/userRoutes.js:341-368 | the id is checked, then the body, then the lookup; each failure leaves the store unchanged. On success the document under the id becomes exactly the body, the set of ids stays the same, and every other document keeps its value |
| UserRoutes.Patch | routes/userRoutes.js:371-388 | a bad id gives 400, an absent id 404, and both leave the store unchanged. On success only the body's fields change, and the document's other fields and all other documents stay as they were. The response is the updated document |
| UserRoutes.Delete | routes/userRoutes.js:391-404 | a bad id gives 400 and an absent id 404, both with the store unchanged. On success it answers 200 'User deleted successfully' and removes exactly that document |
| UserRoutes.CreateThenGet | routes/userRoutes.js:317-338 | a document created by POST is returned unchanged by GET under its new id |
| UserRoutes.DeleteThenGet | routes/userRoutes.js:391-404 | after a successful DELETE, GET under the same id answers 404 |
| UserRoutes.PatchAgeKeepsProfile | routes/userRoutes.js:371-388 | PATCH with only `age` sets the age and keeps every other field |
| AuthRoutes.Register | routes/authRoutes.js:9-22 | an email already stored gives 400 'Email already registered' with the store unchanged; otherwise 201 'User registered successfully', and the store gains exactly one document holding the given name, age, email and password; a failing store gives 500 |
| AuthRoutes.LoginVerdict | routes/authRoutes.js:32-39 | once `findOne` has returned a document, its comparison decides: a match gives 200 with the token signed over its id, a mismatch the shared 400, a throw 500 |
| AuthRoutes.Login | routes/authRoutes.js:25-41 | when the email is stored, the response is the `LoginVerdict` on some stored document carrying that email, the one `findOne` picked. The status is 200, 400 or 500, and every 400 carries 'Invalid email or password'. An unknown email and a password every match rejects both give exactly that 400. A stored email whose password every match accepts gives 200, and one on which every comparison throws gives 500. A 200 carries the token signed over the id of a stored document with that email whose password matched, with a lifetime of 3600 seconds. The store is not changed |
| AuthRoutes.RegisterTwice | routes/authRoutes.js:9-22 | registering the same body twice: the second attempt is refused, and the store ends as the first call alone leaves it: unchanged when the email was already taken, otherwise with just the one new document |

## Left out

- Base64 and UTF-8 decoding is the `decode` parameter, so Node's `Buffer` leniency (it skips
  invalid characters rather than throwing) is outside the model. The gate has no decode-failure
  path, and the model has none either.
- `comparePassword`, bcrypt hashing in the schema's save hook, and the signature and expiry of
  `jwt.sign` are foreign calls. They are the `compare` and `sign` parameters. `JWT_SECRET` is a
  fixed constant of `sign`.
- `isValidObjectId` (routes/userRoutes.js:264-266) is the `validId` parameter. The ObjectId
  format rule belongs to Mongoose, which is not part of this model. The route's string is used
  as the document id as is, without casting.
- The `User` schema (models/user) is not part of this model. This leaves out:
  - strict-mode filtering of unknown fields;
  - casting;
  - `runValidators` and the schema validators;
  - timestamps;
  - the hashing of the stored password;
  - hiding the password (`select: false`) from every response that returns a document.
  A stored document is the body as given. For register, it is the four destructured fields.
- `_id` in a request body is not treated specially.
- The `{ email }` filter compares for equality. A MongoDB query operator inside the email value
  (an object such as `{ "$ne": … }`) is treated as a literal value. An absent email is queried as
  null, which also selects documents lacking the field.
- The text of `err.message` in a 500 body is the `ServerError` shape. Which store call threw is
  not distinguished.
- The list order of `User.find()` is left out: the collection is a map.
- The fresh id of a new document is the `newId` parameter, required not to be in use.
- Concurrency is left out: the async suspension points, and the race between the lookup and the
  insert in register. Each request is one sequential step.
- The kinds of number are modelled, not IEEE doubles: finite, infinite, NaN.
- Characters are Unicode scalar values, not UTF-16 code units.
- index.js (app wiring, the database connection, `listen`) and swagger.js are left out, along
  with the `@swagger` comment blocks. They are bootstrap and documentation.
- Middleware.Authenticate states "no store lookup" through its outcome, which does not depend on
  the store. Store reads themselves are not counted.
