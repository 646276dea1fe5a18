/** The errors the resolvers of graphql/resolvers.js throw, with the exact
    messages, codes and attached data the code gives them. */
module Errors {
  import opened Types

  // Entries of the `data` array of a validation or login error.
  const InvalidEmailMessage := "E-mail is invalid"
  const NamesRequiredMessage := "Both name fields are required"
  const PasswordTooShortMessage := "Password is too short"
  const PasswordMismatchMessage := "Both Password fields should be the same"
  const EmailTakenMessage := "Email already exists, use another one"
  const LoginEmailMessage := "Please enter a valid email"
  const NoUserMessage := "No user found with that email"
  const WrongPasswordMessage := "password is incorrect"

  /** A failed input validation: code 422, carrying every collected message. */
  function InvalidInput(messages: seq<string>): ResolverError {
    ResolverError("Invalid Input", Some(422), Some(messages))
  }

  // `createUser` and `login` rethrow a caught Error as `new Error(err)`, whose
  // message is the caught error's string form, "Error: " followed by its message.
  const UserExists := ResolverError("Error: User exists allready", Some(422), Some([EmailTakenMessage]))
  const LoginInvalidInput := InvalidInput([LoginEmailMessage])
  const NoUserFound := ResolverError("Error: No user found", Some(401), Some([NoUserMessage]))
  const WrongPassword := ResolverError("Error: Wrong Password", Some(401), Some([WrongPasswordMessage]))

  const NotAuthenticated := ResolverError("Not authenticated", Some(401), None)
  const PostUnavailable := ResolverError("Post unavailable!", Some(404), None)
  const WrongUrl := ResolverError("Post unavailable! Wrong URL", Some(404), None)
  const NotAuthorized := ResolverError("Not Authorized", Some(401), None)
  const ImageRequired := ResolverError("Image Required", Some(422), None)

  /** The mongoose validation error `save` throws for a post whose required
      `imagePublicId` is empty; it carries no code. */
  const ImagePublicIdMissing :=
    ResolverError("Post validation failed: imagePublicId: Path `imagePublicId` is required.", None, None)

  /** The TypeError raised by reading `property` of a `holder` that is null or
      undefined (a populate that found no document); it carries no code. */
  function MissingProperty(holder: string, property: string): ResolverError {
    ResolverError("Cannot read properties of " + holder + " (reading '" + property + "')", None, None)
  }
}
