/**
 * screens/CreatePostScreen.js: a new post is an image, a description and a location.
 * `createPost` validates the form, normalises it into a post document and adds it to the
 * `posts` collection directly, without going through the service helper.
 */
module CreatePostView {
  import opened Wrappers
  import opened Documents
  import opened Text
  import opened AuthSession
  import opened FirebaseConfig
  import PostCardView

  const NoImageMessage := "Selecione uma imagem para o post"
  const NoDescriptionMessage := "Adicione uma descrição para o post"
  const CreatedMessage := "Post criado com sucesso!"
  const CreateFailedMessage := "Não foi possível criar o post"
  const DefaultUserName := "Usuário"
  const NoLocation := "Localização não informada"

  // ------------------------------------------------------------ validation

  /** The message `createPost` stops with, if any: the image is checked first, then the
      description after `trim`. */
  function ValidatePost(image: Option<string>, description: string): (r: Option<string>)
    ensures r.None? || r.value in {NoImageMessage, NoDescriptionMessage}
  {
    if !(image.Some? && image.value != "") then Some(NoImageMessage)
    else if Trim(description) == "" then Some(NoDescriptionMessage)
    else None
  }

  /** The form passes exactly when there is an image and the description has a
      character that is not whitespace; a missing image is reported whatever the
      description. */
  lemma ValidatePostIff(image: Option<string>, description: string)
    ensures ValidatePost(image, description).None? <==>
      image.Some? && image.value != "" && !AllSpace(description)
    ensures !(image.Some? && image.value != "") ==> ValidatePost(image, description) == Some(NoImageMessage)
    ensures image.Some? && image.value != "" && AllSpace(description) ==>
      ValidatePost(image, description) == Some(NoDescriptionMessage)
  {
    TrimEmptyIff(description);
  }

  // ------------------------------------------------------------ the document

  /** `location.trim() || 'Localização não informada'`. */
  function StoredLocation(location: string): (r: string)
    ensures r != ""
  {
    StrOr(Some(Trim(location)), NoLocation)
  }

  /** A post document from its normalised fields. */
  function PostDoc(userId: string, userName: string, userEmail: Value, image: string, description: string, location: string, now: int): Doc {
    map[
      "userId" := Str(userId),
      "userName" := Str(userName),
      "userEmail" := userEmail,
      "image" := Str(image),
      "description" := Str(description),
      "location" := Str(location),
      "likes" := Arr([]),
      "createdAt" := Time(now)]
  }

  /** The `postData` object `createPost` adds; `now` is the server timestamp. */
  function PostData(user: AuthUser, image: string, description: string, location: string, now: int): Doc {
    PostDoc(user.uid, StrOr(user.displayName, DefaultUserName),
      if user.email.Some? then Str(user.email.value) else Null,
      image, Trim(description), StoredLocation(location), now)
  }

  /** The fields of a post document, and the two it lacks. */
  lemma PostDocFields(userId: string, userName: string, userEmail: Value, image: string, description: string, location: string, now: int)
    ensures var p := PostDoc(userId, userName, userEmail, image, description, location, now);
      && p.Keys == {"userId", "userName", "userEmail", "image", "description", "location", "likes", "createdAt"}
      && "likesCount" !in p && "imageUri" !in p
      && p["userId"] == Str(userId) && p["userName"] == Str(userName) && Likes(p) == []
      && p["description"] == Str(description) && p["location"] == Str(location) && p["createdAt"] == Time(now)
  {
  }

  /** The stored post: the author's id, display name or 'Usuário', and no likes; it has
      no `likesCount` field, and the image goes under `image`, not under the `imageUri`
      the post card reads. */
  lemma PostDataFields(user: AuthUser, image: string, description: string, location: string, now: int)
    ensures var p := PostData(user, image, description, location, now);
      && p.Keys == {"userId", "userName", "userEmail", "image", "description", "location", "likes", "createdAt"}
      && "likesCount" !in p && "imageUri" !in p && !LikesConsistent(p)
      && p["userId"] == Str(user.uid) && Likes(p) == [] && p["createdAt"] == Time(now)
      && (user.displayName.Some? && user.displayName.value != "" ==> p["userName"] == Str(user.displayName.value))
      && (!(user.displayName.Some? && user.displayName.value != "") ==> p["userName"] == Str(DefaultUserName))
  {
    var email := if user.email.Some? then Str(user.email.value) else Null;
    PostDocFields(user.uid, StrOr(user.displayName, DefaultUserName), email, image, Trim(description), StoredLocation(location), now);
  }

  /** On a post card, a post stored by this screen offers the delete button to its author
      and to nobody else; since the image is stored under `image`, deleting it never
      touches the file system, and the local copy of the picture stays behind. */
  lemma PostDataDeleteGate(user: AuthUser, image: string, description: string, location: string, now: int, u: string)
    ensures var p := PostData(user, image, description, location, now);
      && (PostCardView.ShowsDelete(p, u) <==> u == user.uid)
      && !PostCardView.TouchesFile(p)
  {
    PostDataFields(user, image, description, location, now);
  }

  /** The stored location is the trimmed input, or the default exactly when the input is
      blank. */
  lemma StoredLocationIff(location: string)
    ensures AllSpace(location) ==> StoredLocation(location) == NoLocation
    ensures !AllSpace(location) ==> StoredLocation(location) == Trim(location)
  {
    TrimEmptyIff(location);
  }

  /** The stored description is trimmed, so a second trim changes nothing; the stored
      location follows `StoredLocationIff`. */
  lemma PostDataText(user: AuthUser, image: string, description: string, location: string, now: int)
    ensures var p := PostData(user, image, description, location, now);
      && p["description"] == Str(Trim(description)) && Trim(p["description"].s) == p["description"].s
      && p["location"] == Str(StoredLocation(location))
  {
    var email := if user.email.Some? then Str(user.email.value) else Null;
    PostDocFields(user.uid, StrOr(user.displayName, DefaultUserName), email, image, Trim(description), StoredLocation(location), now);
    TrimIdempotent(description);
  }

  // ------------------------------------------------------------ device paths

  /** `${street || ''} ${streetNumber || ''}, ${city || ''} - ${region || ''}`, trimmed. */
  function AddressString(street: Option<string>, number: Option<string>, city: Option<string>, region: Option<string>): string {
    Trim(StrOr(street, "") + " " + StrOr(number, "") + ", " + StrOr(city, "") + " - " + StrOr(region, ""))
  }

  /** The address is never blank: its comma survives the trim. */
  lemma AddressNeverBlank(street: Option<string>, number: Option<string>, city: Option<string>, region: Option<string>)
    ensures ',' in AddressString(street, number, city, region)
  {
    var st, nu, ci, rg := StrOr(street, ""), StrOr(number, ""), StrOr(city, ""), StrOr(region, "");
    var raw := st + " " + nu + ", " + ci + " - " + rg;
    assert raw[|st| + 1 + |nu|] == ',';
    TrimKeeps(raw, |st| + 1 + |nu|);
  }

  /** With no part known the address is ",  -", with two spaces. */
  lemma AddressAllMissing()
    ensures AddressString(None, None, None, None) == ",  -"
  {
    var raw := StrOr(None, "") + " " + StrOr(None, "") + ", " + StrOr(None, "") + " - " + StrOr(None, "");
    assert raw == " ,  - ";
    assert raw[1..] == ",  - ";
    assert TrimStart(raw) == ",  - ";
    assert ",  - "[..4] == ",  -";
    assert TrimEnd(",  - ") == ",  -";
  }

  /** When the street starts and the region ends with a non-space, nothing is trimmed. */
  lemma AddressUntrimmed(street: Option<string>, number: Option<string>, city: Option<string>, region: Option<string>)
    requires var st, rg := StrOr(street, ""), StrOr(region, "");
      st != "" && !IsJsSpace(st[0]) && rg != "" && !IsJsSpace(rg[|rg| - 1])
    ensures AddressString(street, number, city, region) ==
      StrOr(street, "") + " " + StrOr(number, "") + ", " + StrOr(city, "") + " - " + StrOr(region, "")
  {
    var st, nu, ci, rg := StrOr(street, ""), StrOr(number, ""), StrOr(city, ""), StrOr(region, "");
    var raw := st + " " + nu + ", " + ci + " - " + rg;
    assert raw[0] == st[0];
    assert raw[|raw| - 1] == rg[|rg| - 1];
    TrimUntouched(raw);
  }

  /** `saveImageLocally`'s destination: `documentDirectory + 'post_' + Date.now() + '.jpg'`. */
  function PostImagePath(documentDirectory: string, timestamp: nat): string {
    documentDirectory + "post_" + Decimal(timestamp) + ".jpg"
  }

  /** Two saves at different milliseconds never share a path. */
  lemma PostImagePathInjective(documentDirectory: string, t1: nat, t2: nat)
    ensures PostImagePath(documentDirectory, t1) == PostImagePath(documentDirectory, t2) ==> t1 == t2
  {
    var p1, p2 := PostImagePath(documentDirectory, t1), PostImagePath(documentDirectory, t2);
    if p1 == p2 {
      var n := |documentDirectory| + 5;
      assert |Decimal(t1)| == |Decimal(t2)|;
      assert Decimal(t1) == p1[n..n + |Decimal(t1)|];
      assert Decimal(t2) == p2[n..n + |Decimal(t2)|];
      DecimalInjective(t1, t2);
    }
  }

  // ------------------------------------------------------------ the screen

  class CreatePostScreen {
    var image: Option<string>
    var description: string
    var location: string
    var isLoading: bool

    constructor ()
      ensures image.None? && description == "" && location == "" && !isLoading
    {
      image := None;
      description := "";
      location := "";
      isLoading := false;
    }

    /** `createPost`: a failed check alerts and writes nothing; otherwise one post is
        added under the fresh id `newId` and nothing else changes, in particular no
        author's `postsCount`. Reading `uid` of a missing signed-in user throws before the
        write. The alert shown is returned. */
    method CreatePost(db: Db, user: Option<AuthUser>, newId: string, now: int) returns (alert: string)
      requires newId !in db.posts
      modifies this, db
      ensures image == old(image) && description == old(description) && location == old(location)
      ensures db.users == old(db.users)
      ensures ValidatePost(old(image), old(description)).Some? ==>
        alert == ValidatePost(old(image), old(description)).value
        && db.posts == old(db.posts) && isLoading == old(isLoading)
      ensures ValidatePost(old(image), old(description)).None? && user.None? ==>
        alert == CreateFailedMessage && db.posts == old(db.posts) && !isLoading
      ensures ValidatePost(old(image), old(description)).None? && user.Some? ==>
        alert == CreatedMessage && !isLoading
        && db.posts == old(db.posts)[newId := PostData(user.value, old(image).value, old(description), old(location), now)]
    {
      if !(image.Some? && image.value != "") {
        return NoImageMessage;
      }
      if Trim(description) == "" {
        return NoDescriptionMessage;
      }
      isLoading := true;
      if user.None? {
        alert := CreateFailedMessage;
      } else {
        db.AddPost(newId, PostData(user.value, image.value, description, location, now));
        alert := CreatedMessage;
      }
      isLoading := false;
    }
  }
}
