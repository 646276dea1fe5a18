/** `customFormatErrorFn` of app.js: how an error reaches the client. */
module ErrorFormat {
  import opened Types
  import opened Errors

  const DefaultMessage := "An error occured"
  const DefaultStatus := 500

  /** The error graphql-js hands to the formatter: its message and, when a
      resolver threw it, the thrown error. */
  datatype GraphQLError = GraphQLError(message: string, originalError: Option<ResolverError>)

  /** The formatter's answer: the error itself, or `{ message, status, data }`. */
  datatype FormattedError =
    | PassedThrough(error: GraphQLError)
    | Shaped(message: string, status: int, data: Option<seq<string>>)

  /** graphql-js wraps an error thrown by a resolver, keeping its message. */
  function Located(e: ResolverError): GraphQLError {
    GraphQLError(e.message, Some(e))
  }

  /** `err.originalError.code || 500`: a missing code or a zero code, both
      falsy in JavaScript, become 500. */
  function StatusOf(code: Option<int>): (status: int)
    ensures status != 0
    ensures code.Some? && code.value != 0 ==> status == code.value
    ensures code.None? || code.value == 0 ==> status == DefaultStatus
  {
    match code
    case Some(c) => if c != 0 then c else DefaultStatus
    case None => DefaultStatus
  }

  /** `err.message || 'An error occured'`. */
  function MessageOf(message: string): (m: string)
    ensures m != []
    ensures message != [] ==> m == message
    ensures message == [] ==> m == DefaultMessage
  {
    if message != [] then message else DefaultMessage
  }

  function FormatError(err: GraphQLError): (r: FormattedError)
    ensures err.originalError.None? <==> r.PassedThrough?
    ensures r.PassedThrough? ==> r.error == err
    ensures err.originalError.Some? ==>
      && r.message == MessageOf(err.message)
      && r.status == StatusOf(err.originalError.value.code)
      && r.data == err.originalError.value.data
  {
    match err.originalError
    case None => PassedThrough(err)
    case Some(original) => Shaped(MessageOf(err.message), StatusOf(original.code), original.data)
  }

  /** A resolver's error reaches the client with its own message, its code
      as the status (500 when it has none) and its data untouched. */
  lemma ResolverErrorsKeepTheirShape(e: ResolverError)
    requires e.message != []
    ensures FormatError(Located(e)) ==
      Shaped(e.message, if e.code.Some? && e.code.value != 0 then e.code.value else DefaultStatus, e.data)
  {
  }

  /** Every error the resolvers throw gets the status its kind calls for:
      401 for authentication and ownership, 404 for a missing post, 422 for
      bad input, 500 for the errors that carry no code. */
  lemma ResolverStatuses(messages: seq<string>)
    ensures FormatError(Located(NotAuthenticated)).status == 401
    ensures FormatError(Located(NotAuthorized)).status == 401
    ensures FormatError(Located(NoUserFound)).status == 401
    ensures FormatError(Located(WrongPassword)).status == 401
    ensures FormatError(Located(PostUnavailable)).status == 404
    ensures FormatError(Located(WrongUrl)).status == 404
    ensures FormatError(Located(ImageRequired)).status == 422
    ensures FormatError(Located(UserExists)).status == 422
    ensures FormatError(Located(InvalidInput(messages))) == Shaped("Invalid Input", 422, Some(messages))
    ensures FormatError(Located(ImagePublicIdMissing)).status == 500
    ensures forall holder, property :: FormatError(Located(MissingProperty(holder, property))).status == 500
  {
  }
}
