/**
 * screens/EditProfile.js: the signed-in user edits a name, a phone and a profile picture.
 * The form is loaded from the user's document (falling back on the Auth display name),
 * checked by `validateForm`, and saved by a merging `setDoc` into `users/{uid}`.
 */
module EditProfileView {
  import opened Wrappers
  import opened Documents
  import opened Text
  import opened AuthSession
  import opened FirebaseConfig
  import CreatePostView

  const NameRequiredMessage := "Nome é obrigatório"
  const NameTooShortMessage := "Nome deve ter pelo menos 2 caracteres"
  const PhoneTooShortMessage := "Telefone deve ter pelo menos 10 dígitos"
  const LoadFailedMessage := "Não foi possível carregar os dados do perfil"
  const SavedMessage := "Perfil atualizado com sucesso!"
  const SaveFailedMessage := "Não foi possível salvar o perfil"

  /** The `editData` state: `profileImage` is `null` or a local file path. */
  datatype EditData = EditData(name: string, phone: string, profileImage: Option<string>)

  // ------------------------------------------------------------ loading

  /** The stored user document, if there is one. */
  function Stored(users: map<string, Doc>, uid: string): (r: Option<Doc>)
    ensures r.Some? <==> uid in users
    ensures r.Some? ==> r.value == users[uid]
  {
    if uid in users then Some(users[uid]) else None
  }

  /** The form `loadUserData` fills in for a signed-in user: from the document,
      `name || displayName || ''`, `phone || ''` and `profileImage || null`; without a
      document, the display name and two blanks. */
  function LoadedEditData(doc: Option<Doc>, displayName: Option<string>): (r: EditData)
    ensures doc.None? ==> r == EditData(StrOr(displayName, ""), "", None)
    ensures r.profileImage.Some? ==> r.profileImage.value != ""
  {
    match doc
    case None => EditData(StrOr(displayName, ""), "", None)
    case Some(d) =>
      var image := StrField(d, "profileImage");
      EditData(
        StrOr(OrElse(StrField(d, "name"), displayName), ""),
        StrOr(StrField(d, "phone"), ""),
        if image.Some? && image.value != "" then image else None)
  }

  /** A stored non-empty name wins over the display name, which wins over ''; a stored
      phone or picture is taken only when it is non-empty. */
  lemma LoadedFromDocument(d: Doc, displayName: Option<string>)
    ensures var r, name := LoadedEditData(Some(d), displayName), StrField(d, "name");
      && (name.Some? && name.value != "" ==> r.name == name.value)
      && (!(name.Some? && name.value != "") ==> r.name == StrOr(displayName, ""))
      && (r.phone != "" <==> StrField(d, "phone").Some? && StrField(d, "phone").value != "")
      && (r.phone != "" ==> d["phone"] == Str(r.phone))
      && (r.profileImage.Some? <==> StrField(d, "profileImage").Some? && StrField(d, "profileImage").value != "")
      && (r.profileImage.Some? ==> d["profileImage"] == Str(r.profileImage.value))
  {
  }

  /** `handleGoBack`'s test: the name differs from `displayName || ''`, or a phone or a
      picture is set. */
  predicate HasChanges(data: EditData, user: Option<AuthUser>) {
    || data.name != StrOr(if user.Some? then user.value.displayName else None, "")
    || data.phone != ""
    || data.profileImage.Some?
  }

  /** Right after loading, the form counts as changed exactly when the document holds a
      non-empty phone or picture, or a non-empty name other than the display name: for
      such a user the discard prompt appears even though nothing was edited. */
  lemma HasChangesAfterLoad(doc: Option<Doc>, user: AuthUser)
    ensures HasChanges(LoadedEditData(doc, user.displayName), Some(user)) <==>
      doc.Some? && (
        || (StrField(doc.value, "name").Some? && StrField(doc.value, "name").value != ""
            && StrField(doc.value, "name").value != StrOr(user.displayName, ""))
        || (StrField(doc.value, "phone").Some? && StrField(doc.value, "phone").value != "")
        || (StrField(doc.value, "profileImage").Some? && StrField(doc.value, "profileImage").value != ""))
  {
    if doc.Some? {
      LoadedFromDocument(doc.value, user.displayName);
    }
  }

  // ------------------------------------------------------------ validation

  /** `validateForm`: the first check that fails decides the message. Lengths are counted
      in characters of the trimmed text, whatever those characters are. */
  function ValidateForm(data: EditData): (r: Option<string>)
    ensures r.None? || r.value in {NameRequiredMessage, NameTooShortMessage, PhoneTooShortMessage}
  {
    CheckTrimmed(Trim(data.name), Trim(data.phone))
  }

  /** The checks of `validateForm`, on the trimmed name and phone. */
  function CheckTrimmed(name: string, phone: string): Option<string> {
    if name == "" then Some(NameRequiredMessage)
    else if |name| < 2 then Some(NameTooShortMessage)
    else if phone != "" && |phone| < 10 then Some(PhoneTooShortMessage)
    else None
  }

  /** The form passes exactly when the trimmed name has two characters or more and the
      phone is blank or has ten trimmed characters or more; a blank name is reported
      first, a short name next, a short phone last. */
  lemma ValidateFormIff(data: EditData)
    ensures ValidateForm(data).None? <==>
      |Trim(data.name)| >= 2 && (AllSpace(data.phone) || |Trim(data.phone)| >= 10)
    ensures AllSpace(data.name) ==> ValidateForm(data) == Some(NameRequiredMessage)
    ensures !AllSpace(data.name) && |Trim(data.name)| < 2 ==> ValidateForm(data) == Some(NameTooShortMessage)
    ensures |Trim(data.name)| >= 2 && !AllSpace(data.phone) && |Trim(data.phone)| < 10 ==>
      ValidateForm(data) == Some(PhoneTooShortMessage)
  {
    TrimEmptyIff(data.name);
    TrimEmptyIff(data.phone);
  }

  // ------------------------------------------------------------ saving

  /** The fields `saveProfile` merges into the user document; `now` is the client's
      `new Date()`. */
  function SavedFields(data: EditData, email: Option<string>, now: int): (f: Doc)
    ensures f.Keys == {"name", "email", "phone", "profileImage", "updatedAt"}
    ensures f["name"] == Str(Trim(data.name)) && f["phone"] == Str(Trim(data.phone))
    ensures f["updatedAt"] == Time(now)
    ensures data.profileImage.None? <==> f["profileImage"] == Null
    ensures email.None? <==> f["email"] == Null
  {
    map[
      "name" := Str(Trim(data.name)),
      "email" := if email.Some? then Str(email.value) else Null,
      "phone" := Str(Trim(data.phone)),
      "profileImage" := if data.profileImage.Some? then Str(data.profileImage.value) else Null,
      "updatedAt" := Time(now)]
  }

  /** The users after the merging `setDoc` of the signed-in user's document. */
  function SavedUsers(users: map<string, Doc>, user: AuthUser, data: EditData, now: int): map<string, Doc> {
    var fields := SavedFields(data, user.email, now);
    users[user.uid := if user.uid in users then users[user.uid] + fields else fields]
  }

  /** The merge keeps every field the form does not write, such as the follow lists and
      `postsCount`, and leaves every other user alone. */
  lemma SaveKeepsOtherFields(users: map<string, Doc>, user: AuthUser, data: EditData, now: int)
    ensures var after := SavedUsers(users, user, data, now);
      && after.Keys == users.Keys + {user.uid}
      && (forall id :: id in users && id != user.uid ==> after[id] == users[id])
      && (user.uid in users ==>
            && after[user.uid].Keys == users[user.uid].Keys + SavedFields(data, user.email, now).Keys
            && forall f :: f in users[user.uid] && f !in SavedFields(data, user.email, now) ==>
                 after[user.uid][f] == users[user.uid][f])
  {
  }

  /** What a form that passed validation reads back after its save: the trimmed name and
      phone and the picture, whatever the document held before. */
  lemma MergedLoadsBack(d: Doc, data: EditData, email: Option<string>, now: int, displayName: Option<string>)
    requires ValidateForm(data).None?
    ensures LoadedEditData(Some(d + SavedFields(data, email, now)), displayName) ==
      EditData(Trim(data.name), Trim(data.phone),
        if data.profileImage.Some? && data.profileImage.value != "" then data.profileImage else None)
  {
    var m := d + SavedFields(data, email, now);
    assert StrField(m, "name") == Some(Trim(data.name));
    assert StrField(m, "phone") == Some(Trim(data.phone));
    if data.profileImage.Some? {
      assert StrField(m, "profileImage") == data.profileImage;
    } else {
      assert StrField(m, "profileImage").None?;
    }
  }

  /** Validation looks at the trimmed text only, so the trimmed form passes when the
      form did. */
  lemma TrimmedFormValid(data: EditData, image: Option<string>)
    requires ValidateForm(data).None?
    ensures ValidateForm(EditData(Trim(data.name), Trim(data.phone), image)).None?
  {
    TrimIdempotent(data.name);
    TrimIdempotent(data.phone);
  }

  /** The signed-in user's document after the save: the fields merged into what was
      stored, or the fields alone when nothing was. */
  lemma SavedDocument(users: map<string, Doc>, user: AuthUser, data: EditData, now: int)
    ensures Stored(SavedUsers(users, user, data, now), user.uid) ==
      Some((if user.uid in users then users[user.uid] else map[]) + SavedFields(data, user.email, now))
  {
    var fields := SavedFields(data, user.email, now);
    if user.uid !in users {
      assert map[] + fields == fields;
    }
  }

  /** Saving and then loading again gives back the trimmed form, which passes validation
      again: the save round-trips through the document. */
  lemma SaveThenLoad(users: map<string, Doc>, user: AuthUser, data: EditData, now: int)
    requires ValidateForm(data).None?
    ensures var back := LoadedEditData(Stored(SavedUsers(users, user, data, now), user.uid), user.displayName);
      && back == EditData(Trim(data.name), Trim(data.phone),
           if data.profileImage.Some? && data.profileImage.value != "" then data.profileImage else None)
      && ValidateForm(back).None?
  {
    var d: Doc := if user.uid in users then users[user.uid] else map[];
    SavedDocument(users, user, data, now);
    MergedLoadsBack(d, data, user.email, now, user.displayName);
    TrimmedFormValid(data, if data.profileImage.Some? && data.profileImage.value != "" then data.profileImage else None);
  }

  // ------------------------------------------------------------ device paths

  /** `saveImageLocally(uri, prefix = 'image')`: the destination
      `documentDirectory + prefix + '_' + Date.now() + '.jpg'`; `None` stands for an
      omitted prefix. */
  function SaveImagePath(documentDirectory: string, prefix: Option<string>, timestamp: nat): (r: string)
    ensures |r| >= |documentDirectory| + 6
    ensures r[..|documentDirectory|] == documentDirectory
    ensures r[|r| - 4..] == ".jpg"
  {
    documentDirectory + prefix.GetOr("image") + "_" + Decimal(timestamp) + ".jpg"
  }

  /** With the prefix "post" this is the post screen's path. */
  lemma SaveImagePathPost(documentDirectory: string, timestamp: nat)
    ensures SaveImagePath(documentDirectory, Some("post"), timestamp) ==
      CreatePostView.PostImagePath(documentDirectory, timestamp)
  {
    assert "post" + "_" == "post_";
  }

  /** A profile picture never lands on a post picture's path. */
  lemma ProfileAndPostPathsDiffer(documentDirectory: string, t1: nat, t2: nat)
    ensures SaveImagePath(documentDirectory, Some("profile"), t1) != CreatePostView.PostImagePath(documentDirectory, t2)
  {
    var n := |documentDirectory|;
    assert SaveImagePath(documentDirectory, Some("profile"), t1)[n + 2] == 'o';
    assert CreatePostView.PostImagePath(documentDirectory, t2)[n + 2] == 's';
  }

  /** Two saves with the same prefix at different milliseconds never share a path. */
  lemma SaveImagePathInjective(documentDirectory: string, prefix: Option<string>, t1: nat, t2: nat)
    ensures SaveImagePath(documentDirectory, prefix, t1) == SaveImagePath(documentDirectory, prefix, t2) ==> t1 == t2
  {
    var p1, p2 := SaveImagePath(documentDirectory, prefix, t1), SaveImagePath(documentDirectory, prefix, t2);
    if p1 == p2 {
      var n := |documentDirectory| + |prefix.GetOr("image")| + 1;
      assert |Decimal(t1)| == |Decimal(t2)|;
      assert Decimal(t1) == p1[n..n + |Decimal(t1)|];
      assert Decimal(t2) == p2[n..n + |Decimal(t2)|];
      DecimalInjective(t1, t2);
    }
  }

  // ------------------------------------------------------------ the screen

  class EditProfileScreen {
    var editData: EditData
    var saving: bool
    var loading: bool

    constructor ()
      ensures editData == EditData("", "", None) && !saving && loading
    {
      editData := EditData("", "", None);
      saving := false;
      loading := true;
    }

    /** `loadUserData`: with nobody signed in nothing is read; a read that fails alerts and
        keeps the form; otherwise the form is `LoadedEditData`. Loading ends in every case.
        The alert shown, if any, is returned. */
    method LoadUserData(db: Db, user: Option<AuthUser>, readFails: bool) returns (alert: Option<string>)
      modifies this
      ensures saving == old(saving) && !loading
      ensures user.None? ==> alert.None? && editData == old(editData)
      ensures user.Some? && readFails ==> alert == Some(LoadFailedMessage) && editData == old(editData)
      ensures user.Some? && !readFails ==>
        alert.None? && editData == LoadedEditData(Stored(db.users, user.value.uid), user.value.displayName)
    {
      alert := None;
      if user.Some? {
        if readFails {
          alert := Some(LoadFailedMessage);
        } else {
          editData := LoadedEditData(Stored(db.users, user.value.uid), user.value.displayName);
        }
      }
      loading := false;
    }

    /** `saveProfile`: a form that fails validation alerts and writes nothing; with nobody
        signed in, or when the Auth profile update fails, the error alert is shown and the
        document is not written; otherwise the trimmed fields are merged into the user's
        document. Saving ends in every case past validation. */
    method SaveProfile(db: Db, user: Option<AuthUser>, authUpdateFails: bool, now: int) returns (alert: string)
      modifies this, db
      ensures editData == old(editData) && loading == old(loading)
      ensures db.posts == old(db.posts)
      ensures ValidateForm(old(editData)).Some? ==>
        alert == ValidateForm(old(editData)).value && db.users == old(db.users) && saving == old(saving)
      ensures ValidateForm(old(editData)).None? && (user.None? || authUpdateFails) ==>
        alert == SaveFailedMessage && db.users == old(db.users) && !saving
      ensures ValidateForm(old(editData)).None? && user.Some? && !authUpdateFails ==>
        alert == SavedMessage && !saving && db.users == SavedUsers(old(db.users), user.value, old(editData), now)
    {
      var invalid := ValidateForm(editData);
      if invalid.Some? {
        return invalid.value;
      }
      saving := true;
      if user.None? || authUpdateFails {
        // `updateProfile` throws before the document is written.
        alert := SaveFailedMessage;
      } else {
        db.SetDoc(Users, user.value.uid, SavedFields(editData, user.value.email, now), true);
        alert := SavedMessage;
      }
      saving := false;
    }
  }
}
