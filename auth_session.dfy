/**
 * The signed-in user as the screens read it from `auth.currentUser`: an id, and a display
 * name and e-mail that may be `null`; and what Firebase Authentication answers to a call
 * the screens make, which the model takes as a parameter.
 */
module AuthSession {
  import opened Wrappers

  datatype AuthUser = AuthUser(uid: string, displayName: Option<string>, email: Option<string>)

  /** A rejected Authentication call: the error's `code` and its `message`. */
  datatype AuthError = AuthError(code: string, message: string)

  /** The answer to an account creation or sign-in: the account's id, or the error. */
  datatype AuthOutcome = Accepted(uid: string) | Rejected(error: AuthError)
}
