/**
 * screens/ForgotPasswordScreen.js: an e-mail, checked (given, then the e-mail pattern)
 * before Firebase Authentication is asked to send a reset link. Editing the field clears
 * the error line.
 */
module ForgotPasswordView {
  import opened Wrappers
  import opened AuthSession
  import opened CredentialPatterns
  import LoginView

  const MissingEmailMessage := "Informe o e-mail."
  const ResetSentMessage := "Verifique seu e-mail para redefinir a senha."
  const UserNotFoundCode := "auth/user-not-found"
  const UserNotFoundMessage := "Usuário não encontrado."
  const ResetFailedMessage := "Erro ao enviar e-mail de redefinição."

  /** The message `resetPassword` stops with, if any. */
  function ResetCheck(email: string): (r: Option<string>)
    ensures r.None? || r.value in {MissingEmailMessage, InvalidEmailMessage}
  {
    if email == "" then Some(MissingEmailMessage)
    else if !IsValidEmail(email) then Some(InvalidEmailMessage)
    else None
  }

  /** A reset is requested exactly for an e-mail that matches the pattern. */
  lemma ResetCheckIff(email: string)
    ensures ResetCheck(email).None? <==> IsValidEmail(email)
    ensures ResetCheck(email).None? <==> EmailRegexMatches(email)
  {
    ValidEmailNonEmpty(email);
    EmailPatternIff(email);
  }

  /** The reset screen refuses an e-mail with the login screen's own message whenever the
      login screen refuses it for its e-mail, and with a strong password the two screens
      let the same e-mails through. */
  lemma ResetAgreesWithLogin(email: string, password: string)
    ensures LoginView.LoginCheck(email, password) == Some(InvalidEmailMessage) ==>
      ResetCheck(email) == Some(InvalidEmailMessage)
    ensures IsStrongPassword(password) ==>
      (LoginView.LoginCheck(email, password).None? <==> ResetCheck(email).None?)
  {
    LoginView.LoginCheckIff(email, password);
    ResetCheckIff(email);
  }

  /** The error line for a rejected request: a missing account has its own message, any
      other error the generic one. */
  function ResetErrorMessage(error: AuthError): (r: string)
    ensures r == UserNotFoundMessage <==> error.code == UserNotFoundCode
    ensures r != UserNotFoundMessage ==> r == ResetFailedMessage
  {
    if error.code == UserNotFoundCode then UserNotFoundMessage else ResetFailedMessage
  }

  class ForgotPasswordScreen {
    var email: string
    var errorMessage: string

    constructor ()
      ensures email == "" && errorMessage == ""
    {
      email := "";
      errorMessage := "";
    }

    /** Typing in the e-mail field: the effect on `[email]` clears the error line when the
        value changed. */
    method SetEmail(value: string)
      modifies this
      ensures email == value
      ensures errorMessage == if value != old(email) then "" else old(errorMessage)
    {
      if value != email {
        errorMessage := "";
      }
      email := value;
    }

    /** `resetPassword`: a failed check shows its message; otherwise the error line is
        cleared and the reset is requested. `resetError` is Authentication's answer. A sent
        link is announced with an alert, which is returned; a rejection sets the error
        line from its code. */
    method ResetPassword(resetError: Option<AuthError>) returns (alert: Option<string>)
      modifies this
      ensures email == old(email)
      ensures ResetCheck(email).Some? ==> alert.None? && errorMessage == ResetCheck(email).value
      ensures ResetCheck(email).None? && resetError.None? ==> alert == Some(ResetSentMessage) && errorMessage == ""
      ensures ResetCheck(email).None? && resetError.Some? ==>
        alert.None? && errorMessage == ResetErrorMessage(resetError.value)
    {
      alert := None;
      var failed := ResetCheck(email);
      if failed.Some? {
        errorMessage := failed.value;
        return;
      }
      errorMessage := "";
      if resetError.None? {
        alert := Some(ResetSentMessage);
      } else {
        errorMessage := ResetErrorMessage(resetError.value);
      }
    }
  }
}
