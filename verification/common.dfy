/** Values shared by the backend models and handlers and by the pages. */
module Common {

  datatype Option<T> = None | Some(value: T) {
    function GetOr(default: T): T {
      match this
      case Some(v) => v
      case None => default
    }
  }

  /** Document ids. The database hands out a fresh one for every created document. */
  type UserId = nat
  type ListingId = nat
  type OrderId = nat
  type NotesId = nat
  type BlogId = nat

  /** The JSON envelope every handler answers with: `{ success: true, data }` under
      a 2xx status, `{ success: false, message }` under an error status. */
  datatype Reply<T> = Ok(status: nat, data: T) | Err(status: nat, message: string)

  /** The message Mongoose reports when a document fails schema validation; its
      exact wording (which field, which rule) is not modelled. */
  const ValidationFailed: string := "validation failed"

  /** A file the browser hands to a page: its name, its size in bytes and its
      MIME type. */
  datatype File = File(name: string, size: nat, mimeType: string)
}
