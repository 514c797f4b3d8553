/** What can become of a request to the forge. */
module ForgeServer {

  datatype ErrorKind =
    | Authentication | Permission | NotFound | RateLimit | StaleRef | Conflict | MalformedResponse | Transport

  /** A read is answered, or fails with an error that is classified; a lost message is `Transport`. */
  datatype ReadFate = Reply | Fails(kind: ErrorKind)

  /** A write takes effect and is then answered or not, or never takes effect. */
  datatype WriteFate = Applied(reply: ReadFate) | NotApplied(kind: ErrorKind)
}
