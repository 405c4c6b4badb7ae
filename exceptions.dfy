/** The exceptions that the application throws or lets through, as a closed
    sum type: one constructor per exception class the code names, and one for
    every other class. */
module Exceptions {
  import opened Common

  /** `ArgumentException` and the subclasses the framework throws
      (`ArgumentNullException` from a null guard, `ArgumentOutOfRangeException`). */
  datatype ArgumentKind = PlainArgument | ArgumentNull | ArgumentOutOfRange

  /** An exception instance: its class, its message and any data it carries. */
  datatype Exception =
    | MovieNotFound(message: string)
    | PlaylistNotFound(message: string)
      /** The upstream movie database failed; `statusCode` is null when no HTTP response arrived. */
    | TmdbApi(message: string, statusCode: Option<int>)
      /** An `ArgumentException`, or an instance of one of its subclasses. */
    | InvalidArgument(kind: ArgumentKind, message: string)
    | KeyNotFound(message: string)
    | HttpRequest(message: string)
    | InvalidOperation(message: string)
      /** A `ValidationException` thrown by the data-annotation validator. */
    | Validation(message: string)
      /** A `FormatException`, as thrown by date parsing. */
    | Format(message: string)
    | NullReference(message: string)
      /** Any exception class not listed above (database errors, for one). */
    | Unclassified(message: string)

  /** The text .NET uses for a dereference of null. */
  const NullReferenceText := "Object reference not set to an instance of an object."

  /** The message of the `KeyNotFoundException` that the playlist repository
      throws for a missing playlist: `$"Playlist {id} not found"`. */
  function PlaylistKeyNotFound(id: int): (e: Exception)
    ensures e.KeyNotFound? && |e.message| > |"Playlist  not found"|
    ensures e.message[..9] == "Playlist " && e.message[|e.message| - 10..] == " not found"
    ensures e.message[9..|e.message| - 10] == IntToString(id)
    ensures DecimalValue(e.message[9..|e.message| - 10]) == id
  {
    KeyNotFound("Playlist " + IntToString(id) + " not found")
  }
}
