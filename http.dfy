/** The responses a handler sends: a status code and the JSON body, by shape. */
module Http {
  import opened Documents

  datatype Body =
    | Message(text: string)                        // { message: text }
    | ServerError                                  // { error: err.message }; the text is the store's
    | Record(id: Id, fields: Doc)                  // one user document
    | Records(all: map<Id, Doc>)                   // every user document
    | Saved(message: string, id: Id, data: Doc)    // { message, data: saved }
    | Token(token: string)                         // { token }

  datatype Response = Response(status: nat, body: Body)

  const Ok: nat := 200
  const Created: nat := 201
  const BadRequest: nat := 400
  const Unauthorized: nat := 401
  const NotFound: nat := 404
  const InternalError: nat := 500
}
