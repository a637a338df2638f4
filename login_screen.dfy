/**
 * screens/LoginScreen.js: an e-mail and a password, checked in order (both given, the
 * e-mail pattern, the password pattern) before Firebase Authentication is asked to sign
 * in. Editing either field clears the error line.
 */
module LoginView {
  import opened Wrappers
  import opened AuthSession
  import opened CredentialPatterns

  const MissingCredentialsMessage := "Informe o e-mail e senha."

  /** The message `login` stops with, if any. */
  function LoginCheck(email: string, password: string): (r: Option<string>)
    ensures r.None? || r.value in {MissingCredentialsMessage, InvalidEmailMessage, WeakPasswordMessage}
  {
    if email == "" || password == "" then Some(MissingCredentialsMessage)
    else if !IsValidEmail(email) then Some(InvalidEmailMessage)
    else if !IsStrongPassword(password) then Some(WeakPasswordMessage)
    else None
  }

  /** Sign-in is attempted exactly when the e-mail and the password match their patterns:
      the emptiness check only chooses the message. The e-mail is reported before the
      password. */
  lemma LoginCheckIff(email: string, password: string)
    ensures LoginCheck(email, password).None? <==> IsValidEmail(email) && IsStrongPassword(password)
    ensures email != "" && password != "" && !IsValidEmail(email) ==>
      LoginCheck(email, password) == Some(InvalidEmailMessage)
    ensures password != "" && IsValidEmail(email) && !IsStrongPassword(password) ==>
      LoginCheck(email, password) == Some(WeakPasswordMessage)
  {
    ValidEmailNonEmpty(email);
  }

  /** The same, stated on the languages of the two regular expressions. */
  lemma LoginCheckMatchesRegexes(email: string, password: string)
    ensures LoginCheck(email, password).None? <==> EmailRegexMatches(email) && PasswordRegexMatches(password)
  {
    LoginCheckIff(email, password);
    EmailPatternIff(email);
    PasswordPatternIff(password);
  }

  class LoginScreen {
    var email: string
    var password: string
    var errorMessage: string

    constructor ()
      ensures email == "" && password == "" && errorMessage == ""
    {
      email := "";
      password := "";
      errorMessage := "";
    }

    /** Typing in the e-mail field: the effect on `[email, password]` clears the error
        line when the value changed. */
    method SetEmail(value: string)
      modifies this
      ensures email == value && password == old(password)
      ensures errorMessage == if value != old(email) then "" else old(errorMessage)
    {
      if value != email {
        errorMessage := "";
      }
      email := value;
    }

    /** Typing in the password field, likewise. */
    method SetPassword(value: string)
      modifies this
      ensures password == value && email == old(email)
      ensures errorMessage == if value != old(password) then "" else old(errorMessage)
    {
      if value != password {
        errorMessage := "";
      }
      password := value;
    }

    /** `login`: a failed check shows its message and nothing is sent; otherwise the error
        line is cleared and sign-in is attempted, a rejection showing the error's message.
        `signInError` is Authentication's answer. Whether sign-in was attempted is returned. */
    method Login(signInError: Option<AuthError>) returns (attempted: bool)
      modifies this
      ensures email == old(email) && password == old(password)
      ensures attempted <==> IsValidEmail(email) && IsStrongPassword(password)
      ensures !attempted ==> errorMessage == LoginCheck(email, password).value
      ensures attempted ==> errorMessage == if signInError.Some? then signInError.value.message else ""
    {
      LoginCheckIff(email, password);
      var failed := LoginCheck(email, password);
      if failed.Some? {
        errorMessage := failed.value;
        return false;
      }
      errorMessage := "";
      attempted := true;
      if signInError.Some? {
        errorMessage := signInError.value.message;
      }
    }
  }
}
