/**
 * screens/RegisterScreen.js: name, phone, e-mail and password, checked in order (all
 * given, the e-mail pattern, the password pattern) before an account is created; the new
 * account's user document is then written with the three plain fields only. Editing any
 * field clears the error line.
 */
module RegisterView {
  import opened Wrappers
  import opened Documents
  import opened AuthSession
  import opened CredentialPatterns
  import opened FirebaseConfig
  import LoginView

  const MissingFieldsMessage := "Preencha todos os campos."

  /** The message `register` stops with, if any. */
  function RegisterCheck(name: string, phone: string, email: string, password: string): (r: Option<string>)
    ensures r.None? || r.value in {MissingFieldsMessage, InvalidEmailMessage, WeakPasswordMessage}
  {
    if name == "" || phone == "" || email == "" || password == "" then Some(MissingFieldsMessage)
    else if !IsValidEmail(email) then Some(InvalidEmailMessage)
    else if !IsStrongPassword(password) then Some(WeakPasswordMessage)
    else None
  }

  /** An account is attempted exactly when the name and phone are given (untrimmed: a
      single space will do) and the e-mail and password match their patterns. */
  lemma RegisterCheckIff(name: string, phone: string, email: string, password: string)
    ensures RegisterCheck(name, phone, email, password).None? <==>
      name != "" && phone != "" && IsValidEmail(email) && IsStrongPassword(password)
  {
    ValidEmailNonEmpty(email);
  }

  /** Once all four fields are given, registering reports exactly what logging in with the
      same e-mail and password reports. */
  lemma RegisterAgreesWithLogin(name: string, phone: string, email: string, password: string)
    requires name != "" && phone != "" && email != "" && password != ""
    ensures RegisterCheck(name, phone, email, password) == LoginView.LoginCheck(email, password)
  {
    assert LoginView.LoginCheck(email, password) ==
      if !IsValidEmail(email) then Some(InvalidEmailMessage)
      else if !IsStrongPassword(password) then Some(WeakPasswordMessage)
      else None;
  }

  /** The user document `register` writes: the three fields as typed. */
  function RegisteredDoc(name: string, phone: string, email: string): (d: Doc)
    ensures d.Keys == {"name", "phone", "email"}
    ensures d["name"] == Str(name) && d["phone"] == Str(phone) && d["email"] == Str(email)
  {
    map["name" := Str(name), "phone" := Str(phone), "email" := Str(email)]
  }

  /** The registered document is not the profile `createUserAndProfile` stores: it has no
      follow lists, no `postsCount`, no bio and no timestamps, so readers see empty lists
      and a zero count. */
  lemma RegisteredDocLacksProfile(name: string, phone: string, email: string, uid: string, userData: Doc, now: int)
    requires "name" in userData
    ensures var d := RegisteredDoc(name, phone, email);
      && Following(d) == [] && Followers(d) == [] && Counter(d, "postsCount") == 0
      && "followers" !in d && "following" !in d && "postsCount" !in d && "bio" !in d && "createdAt" !in d
      && d != NewProfile(uid, email, userData, now)
  {
    var d := RegisteredDoc(name, phone, email);
    assert "followers" in NewProfile(uid, email, userData, now);
  }

  /** No stored user follows or is followed by `uid`. */
  predicate Unreferenced(users: map<string, Doc>, uid: string) {
    forall a :: a in users ==> Str(uid) !in Following(users[a]) && Str(uid) !in Followers(users[a])
  }

  /** Storing the registered document for a new account nobody refers to keeps
      following/followers symmetric. */
  lemma RegisterKeepsSymmetric(users: map<string, Doc>, uid: string, name: string, phone: string, email: string)
    requires Symmetric(users) && uid !in users && Unreferenced(users, uid)
    ensures Symmetric(users[uid := RegisteredDoc(name, phone, email)])
  {
    var after := users[uid := RegisteredDoc(name, phone, email)];
    forall a, b | a in after && b in after
      ensures Str(b) in Following(after[a]) <==> Str(a) in Followers(after[b])
    {
      if a == uid {
        assert Following(after[a]) == [];
        if b != uid { assert Str(a) !in Followers(users[b]); }
      } else if b == uid {
        assert Followers(after[b]) == [];
        assert Str(b) !in Following(users[a]);
      } else {
        assert after[a] == users[a] && after[b] == users[b];
      }
    }
  }

  class RegisterScreen {
    var name: string
    var phone: string
    var email: string
    var password: string
    var errorMessage: string

    constructor ()
      ensures name == "" && phone == "" && email == "" && password == "" && errorMessage == ""
    {
      name := "";
      phone := "";
      email := "";
      password := "";
      errorMessage := "";
    }

    /** Typing in one of the four fields: the effect on `[email, password, name, phone]`
        clears the error line when the value changed. */
    method SetName(value: string)
      modifies this
      ensures name == value && phone == old(phone) && email == old(email) && password == old(password)
      ensures errorMessage == if value != old(name) then "" else old(errorMessage)
    {
      if value != name {
        errorMessage := "";
      }
      name := value;
    }

    method SetPhone(value: string)
      modifies this
      ensures phone == value && name == old(name) && email == old(email) && password == old(password)
      ensures errorMessage == if value != old(phone) then "" else old(errorMessage)
    {
      if value != phone {
        errorMessage := "";
      }
      phone := value;
    }

    method SetEmail(value: string)
      modifies this
      ensures email == value && name == old(name) && phone == old(phone) && password == old(password)
      ensures errorMessage == if value != old(email) then "" else old(errorMessage)
    {
      if value != email {
        errorMessage := "";
      }
      email := value;
    }

    method SetPassword(value: string)
      modifies this
      ensures password == value && name == old(name) && phone == old(phone) && email == old(email)
      ensures errorMessage == if value != old(password) then "" else old(errorMessage)
    {
      if value != password {
        errorMessage := "";
      }
      password := value;
    }

    /** `register`: a failed check shows its message and nothing is written; otherwise the
        error line is cleared and the account is requested (`outcome` is Authentication's
        answer). A rejection shows the error's message; a new account gets
        `RegisteredDoc` written over `users/{uid}` without merging. Whether an account was
        requested is returned. */
    method Register(db: Db, outcome: AuthOutcome) returns (attempted: bool)
      modifies this, db
      ensures name == old(name) && phone == old(phone) && email == old(email) && password == old(password)
      ensures db.posts == old(db.posts)
      ensures attempted <==> name != "" && phone != "" && IsValidEmail(email) && IsStrongPassword(password)
      ensures !attempted ==> errorMessage == RegisterCheck(name, phone, email, password).value && db.users == old(db.users)
      ensures attempted && outcome.Rejected? ==> errorMessage == outcome.error.message && db.users == old(db.users)
      ensures attempted && outcome.Accepted? ==>
        errorMessage == "" && db.users == old(db.users)[outcome.uid := RegisteredDoc(name, phone, email)]
    {
      RegisterCheckIff(name, phone, email, password);
      var failed := RegisterCheck(name, phone, email, password);
      if failed.Some? {
        errorMessage := failed.value;
        return false;
      }
      errorMessage := "";
      attempted := true;
      match outcome
      case Rejected(error) =>
        errorMessage := error.message;
      case Accepted(uid) =>
        db.SetDoc(Users, uid, RegisteredDoc(name, phone, email), false);
    }
  }
}
