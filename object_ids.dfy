/**
 * MongoDB ObjectIds. Every collection mints its ids from one monotone
 * counter, so ids are unique across collections and id order is creation
 * order. An id that arrives in a request is either castable to an ObjectId
 * or not; Mongoose rejects the latter with a CastError.
 */
module ObjectIds {
  import opened Wrappers
  import opened ErrorTypes

  type ObjectId = nat
  type UserId = ObjectId
  type ChatId = ObjectId
  type MsgId = ObjectId

  /** An id as supplied in a path, a body or a socket payload. */
  datatype IdInput = Castable(id: ObjectId) | Uncastable(text: string)

  /** Casting an id for a query on `model` at `path` (usually `_id`). */
  function CastId(input: IdInput, model: string, path: string): (r: Result<ObjectId, Failure>)
    ensures r.Ok? <==> input.Castable?
    ensures r.Ok? ==> r.value == input.id
    ensures r.Err? ==> r.error == CastFailure(model, path, input.text)
  {
    match input
    case Castable(id) => Ok(id)
    case Uncastable(text) => Err(CastFailure(model, path, text))
  }
}
