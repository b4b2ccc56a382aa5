/**
 * The `/users` CRUD handlers. Each checks the id format first (when it takes an id), then the
 * body (POST and PUT), and only then calls the store; a failing store call gives a 500.
 * `validId` is `mongoose.Types.ObjectId.isValid`.
 */
module UserRoutes {
  import opened Text
  import opened Documents
  import opened Http
  import opened UserModel

  const InvalidIdFormat := "Invalid ID format"
  const FieldsRequired := "name, email, and age are required"
  const UserNotFound := "User not found"
  const SavedSuccessfully := "saved successfully"
  const UserDeleted := "User deleted successfully"

  /** `typeof v === "string" && v.trim()` (a non-empty string is truthy). */
  predicate NonBlankString(v: Json) {
    v.JString? && Trim(v.s) != []
  }

  /** `typeof v === "number" && !isNaN(v)`. */
  predicate IsNumber(v: Json) {
    v.JNumber? && !v.n.NaN?
  }

  /**
   * The condition POST and PUT accept a body under: name and email are strings with a
   * non-whitespace character, and age is a number other than NaN.
   */
  predicate ValidProfile(body: Doc)
    ensures ValidProfile(body) <==>
      && "name" in body && body["name"].JString? && !AllWhitespace(body["name"].s)
      && EmailField in body && body[EmailField].JString? && !AllWhitespace(body[EmailField].s)
      && "age" in body && body["age"].JNumber? && (body["age"].n.Finite? || body["age"].n.Infinite?)
  {
    && "name" in body && NonBlankString(body["name"])
    && EmailField in body && NonBlankString(body[EmailField])
    && "age" in body && IsNumber(body["age"])
  }

  /** GET /users. */
  method GetAll(users: Store) returns (resp: Response)
    ensures users.online ==> resp == Response(Ok, Records(users.docs))
    ensures !users.online ==> resp == Response(InternalError, ServerError)
  {
    var all := users.Find();
    if all.Failed? {
      return Response(InternalError, ServerError);
    }
    return Response(Ok, Records(all.value));
  }

  /** GET /users/:id. */
  method GetById(users: Store, id: string, validId: string -> bool) returns (resp: Response)
    ensures !validId(id) ==> resp == Response(BadRequest, Message(InvalidIdFormat))
    ensures validId(id) && !users.online ==> resp == Response(InternalError, ServerError)
    ensures validId(id) && users.online && id !in users.docs ==> resp == Response(NotFound, Message(UserNotFound))
    ensures validId(id) && users.online && id in users.docs ==> resp == Response(Ok, Record(id, users.docs[id]))
  {
    if !validId(id) {
      return Response(BadRequest, Message(InvalidIdFormat));
    }
    var found := users.FindById(id);
    if found.Failed? {
      return Response(InternalError, ServerError);
    }
    if found.value.None? {
      return Response(NotFound, Message(UserNotFound));
    }
    return Response(Ok, Record(id, found.value.value));
  }

  /** POST /users. `newId` is the identifier the new document receives; none is in use. */
  method Create(users: Store, body: Doc, newId: Id) returns (resp: Response)
    requires newId !in users.docs
    modifies users
    ensures users.online == old(users.online)
    ensures !ValidProfile(body) ==>
      resp == Response(BadRequest, Message(FieldsRequired)) && users.docs == old(users.docs)
    ensures ValidProfile(body) && !old(users.online) ==>
      resp == Response(InternalError, ServerError) && users.docs == old(users.docs)
    ensures ValidProfile(body) && old(users.online) ==>
      && resp == Response(Created, Saved(SavedSuccessfully, newId, body))
      && users.docs == old(users.docs)[newId := body]
      && |users.docs| == |old(users.docs)| + 1
  {
    if !ValidProfile(body) {
      return Response(BadRequest, Message(FieldsRequired));
    }
    var saved := users.Save(newId, body);
    if saved.Failed? {
      return Response(InternalError, ServerError);
    }
    return Response(Created, Saved(SavedSuccessfully, newId, saved.value));
  }

  /**
   * PUT /users/:id: id format, then body, then the lookup. The stored document becomes exactly
   * the body (`doc.overwrite(body)`), under the same id.
   */
  method Replace(users: Store, id: string, body: Doc, validId: string -> bool) returns (resp: Response)
    modifies users
    ensures users.online == old(users.online)
    ensures !validId(id) ==>
      resp == Response(BadRequest, Message(InvalidIdFormat)) && users.docs == old(users.docs)
    ensures validId(id) && !ValidProfile(body) ==>
      resp == Response(BadRequest, Message(FieldsRequired)) && users.docs == old(users.docs)
    ensures validId(id) && ValidProfile(body) && !old(users.online) ==>
      resp == Response(InternalError, ServerError) && users.docs == old(users.docs)
    ensures validId(id) && ValidProfile(body) && old(users.online) && id !in old(users.docs) ==>
      resp == Response(NotFound, Message(UserNotFound)) && users.docs == old(users.docs)
    ensures validId(id) && ValidProfile(body) && old(users.online) && id in old(users.docs) ==>
      && resp == Response(Ok, Record(id, body))
      && users.docs == old(users.docs)[id := body]
      && users.docs.Keys == old(users.docs).Keys
  {
    if !validId(id) {
      return Response(BadRequest, Message(InvalidIdFormat));
    }
    if !ValidProfile(body) {
      return Response(BadRequest, Message(FieldsRequired));
    }
    var found := users.FindById(id);
    if found.Failed? {
      return Response(InternalError, ServerError);
    }
    if found.value.None? {
      return Response(NotFound, Message(UserNotFound));
    }
    var saved := users.Save(id, body);
    if saved.Failed? {
      return Response(InternalError, ServerError);
    }
    return Response(Ok, Record(id, saved.value));
  }

  /**
   * PATCH /users/:id: no body test. The fields of the body replace those of the same name,
   * every other field and every other document stay as they were.
   */
  method Patch(users: Store, id: string, body: Doc, validId: string -> bool) returns (resp: Response)
    modifies users
    ensures users.online == old(users.online)
    ensures !validId(id) ==>
      resp == Response(BadRequest, Message(InvalidIdFormat)) && users.docs == old(users.docs)
    ensures validId(id) && !old(users.online) ==>
      resp == Response(InternalError, ServerError) && users.docs == old(users.docs)
    ensures validId(id) && old(users.online) && id !in old(users.docs) ==>
      resp == Response(NotFound, Message(UserNotFound)) && users.docs == old(users.docs)
    ensures validId(id) && old(users.online) && id in old(users.docs) ==>
      && users.docs.Keys == old(users.docs).Keys
      && (forall other :: other in old(users.docs) && other != id ==> users.docs[other] == old(users.docs)[other])
      && users.docs[id].Keys == old(users.docs)[id].Keys + body.Keys
      && (forall k :: k in body ==> users.docs[id][k] == body[k])
      && (forall k :: k in old(users.docs)[id] && k !in body ==> users.docs[id][k] == old(users.docs)[id][k])
      && resp == Response(Ok, Record(id, users.docs[id]))
  {
    if !validId(id) {
      return Response(BadRequest, Message(InvalidIdFormat));
    }
    var updated := users.FindByIdAndUpdate(id, body);
    if updated.Failed? {
      return Response(InternalError, ServerError);
    }
    if updated.value.None? {
      return Response(NotFound, Message(UserNotFound));
    }
    return Response(Ok, Record(id, updated.value.value));
  }

  /** DELETE /users/:id: removes exactly that document. */
  method Delete(users: Store, id: string, validId: string -> bool) returns (resp: Response)
    modifies users
    ensures users.online == old(users.online)
    ensures !validId(id) ==>
      resp == Response(BadRequest, Message(InvalidIdFormat)) && users.docs == old(users.docs)
    ensures validId(id) && !old(users.online) ==>
      resp == Response(InternalError, ServerError) && users.docs == old(users.docs)
    ensures validId(id) && old(users.online) && id !in old(users.docs) ==>
      resp == Response(NotFound, Message(UserNotFound)) && users.docs == old(users.docs)
    ensures validId(id) && old(users.online) && id in old(users.docs) ==>
      && resp == Response(Ok, Message(UserDeleted))
      && users.docs.Keys == old(users.docs).Keys - {id}
      && (forall other :: other in users.docs ==> users.docs[other] == old(users.docs)[other])
  {
    if !validId(id) {
      return Response(BadRequest, Message(InvalidIdFormat));
    }
    var deleted := users.FindByIdAndDelete(id);
    if deleted.Failed? {
      return Response(InternalError, ServerError);
    }
    if deleted.value.None? {
      return Response(NotFound, Message(UserNotFound));
    }
    return Response(Ok, Message(UserDeleted));
  }

  /** A document created by POST is returned unchanged by GET under its new id. */
  method CreateThenGet(users: Store, body: Doc, newId: Id, validId: string -> bool)
    returns (created: Response, fetched: Response)
    requires newId !in users.docs && validId(newId)
    requires users.online && ValidProfile(body)
    modifies users
    ensures created == Response(Created, Saved(SavedSuccessfully, newId, body))
    ensures fetched == Response(Ok, Record(newId, body))
  {
    created := Create(users, body, newId);
    fetched := GetById(users, newId, validId);
  }

  /** After a successful DELETE, GET under the same id answers 404. */
  method DeleteThenGet(users: Store, id: Id, validId: string -> bool)
    returns (deleted: Response, fetched: Response)
    requires id in users.docs && validId(id) && users.online
    modifies users
    ensures deleted == Response(Ok, Message(UserDeleted))
    ensures fetched == Response(NotFound, Message(UserNotFound))
  {
    deleted := Delete(users, id, validId);
    fetched := GetById(users, id, validId);
  }

  /** PATCH with `{ age }` alone changes the age and keeps name and email. */
  method PatchAgeKeepsProfile(users: Store, id: Id, age: Json, validId: string -> bool)
    returns (patched: Response)
    requires id in users.docs && validId(id) && users.online
    modifies users
    ensures id in users.docs && "age" in users.docs[id] && users.docs[id]["age"] == age
    ensures forall k :: k in old(users.docs)[id] && k != "age" ==> k in users.docs[id] && users.docs[id][k] == old(users.docs)[id][k]
    ensures patched == Response(Ok, Record(id, users.docs[id]))
  {
    patched := Patch(users, id, map["age" := age], validId);
  }
}
