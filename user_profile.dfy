/**
 * screens/UserProfileScreen.js: another user's profile, with a header built from the
 * user's document and the list of that user's posts, newest first.
 */
module UserProfileView {
  import opened Wrappers
  import opened Documents
  import opened Text
  import opened FirebaseConfig
  import PostCardView

  // ------------------------------------------------------------ the header

  /** The record shown when the user has no document, or the read fails. */
  function FallbackUser(userName: Option<string>): (r: Doc)
    ensures r.Keys == {"name", "email", "phone", "profileImage"}
    ensures r["email"] == Str("") && r["phone"] == Str("") && r["profileImage"] == Null
  {
    map[
      "name" := Str(StrOr(userName, "Usuário")),
      "email" := Str(""),
      "phone" := Str(""),
      "profileImage" := Null]
  }

  /** What `loadUserData` puts in `userData`. */
  function LoadedUserData(users: map<string, Doc>, userId: string, userName: Option<string>, readFails: bool): Doc {
    if !readFails && userId in users then users[userId] else FallbackUser(userName)
  }

  /** The letter in the placeholder avatar: the first character of a non-empty name,
      upper-cased, otherwise 'U'. */
  function AvatarLetter(userData: Doc): (r: string)
    ensures |r| == 1
    ensures (match StrField(userData, "name") case Some(n) => n != "" case None => false) ==>
      r == [UpperChar(StrField(userData, "name").value[0])]
    ensures !(match StrField(userData, "name") case Some(n) => n != "" case None => false) ==> r == "U"
  {
    match StrField(userData, "name")
    case Some(n) => if n != "" then [UpperChar(n[0])] else "U"
    case None => "U"
  }

  /** `userData.name || 'Nome não informado'`. */
  function ProfileName(userData: Doc): (r: string)
    ensures r != ""
    ensures StrField(userData, "name").Some? && StrField(userData, "name").value != "" ==>
      r == StrField(userData, "name").value
    ensures !(StrField(userData, "name").Some? && StrField(userData, "name").value != "") ==>
      r == "Nome não informado"
  {
    StrOr(StrField(userData, "name"), "Nome não informado")
  }

  /** Without a stored profile the header still has a name: the route's user name, or
      'Usuário'; the avatar letter is that name's first letter upper-cased. */
  lemma FallbackHeader(users: map<string, Doc>, userId: string, userName: Option<string>, readFails: bool)
    requires readFails || userId !in users
    ensures var d := LoadedUserData(users, userId, userName, readFails);
      && ProfileName(d) == StrOr(userName, "Usuário")
      && AvatarLetter(d) == [UpperChar(StrOr(userName, "Usuário")[0])]
      && (userName.None? ==> AvatarLetter(d) == "U")
  {
  }

  // ------------------------------------------------------------ the posts query

  /** `where('userId', '==', userId)` with `orderBy('createdAt')`: the post belongs to
      the user and has a timestamp to be ordered by. */
  predicate Listed(post: Doc, userId: string) {
    "userId" in post && post["userId"] == Str(userId) && "createdAt" in post && post["createdAt"].Time?
  }

  function TimeOf(posts: map<string, Doc>, id: string): int {
    if id in posts && "createdAt" in posts[id] && posts[id]["createdAt"].Time? then posts[id]["createdAt"].t else 0
  }

  /** The ids of the posts the query returns. */
  function ListedIds(posts: map<string, Doc>, userId: string): set<string> {
    set id | id in posts && Listed(posts[id], userId)
  }

  predicate Unique(ids: seq<string>) {
    forall i, j :: 0 <= i < j < |ids| ==> ids[i] != ids[j]
  }

  /** `orderBy('createdAt', 'desc')`. */
  predicate NewestFirst(posts: map<string, Doc>, ids: seq<string>) {
    forall i, j :: 0 <= i < j < |ids| ==> TimeOf(posts, ids[i]) >= TimeOf(posts, ids[j])
  }

  /** `id` placed before the first post that is not newer than it. */
  function InsertByTime(posts: map<string, Doc>, ids: seq<string>, id: string): (r: seq<string>)
    ensures |r| == |ids| + 1
    ensures forall x :: x in r <==> x == id || x in ids
  {
    if ids == [] || TimeOf(posts, id) >= TimeOf(posts, ids[0]) then
      [id] + ids
    else
      assert ids == [ids[0]] + ids[1..];
      [ids[0]] + InsertByTime(posts, ids[1..], id)
  }

  /** Inserting keeps the list newest first. */
  lemma {:induction false} InsertKeepsOrder(posts: map<string, Doc>, ids: seq<string>, id: string)
    requires NewestFirst(posts, ids)
    ensures NewestFirst(posts, InsertByTime(posts, ids, id))
  {
    if !(ids == [] || TimeOf(posts, id) >= TimeOf(posts, ids[0])) {
      var tail := ids[1..];
      var rest := InsertByTime(posts, tail, id);
      InsertKeepsOrder(posts, tail, id);
      var r := [ids[0]] + rest;
      forall j | 0 <= j < |rest| ensures TimeOf(posts, ids[0]) >= TimeOf(posts, rest[j]) {
        assert rest[j] in rest;
        if rest[j] != id {
          var k :| 0 <= k < |tail| && tail[k] == rest[j];
          assert ids[k + 1] == rest[j];
        }
      }
      forall i, j | 0 <= i < j < |r| ensures TimeOf(posts, r[i]) >= TimeOf(posts, r[j]) {
        if i > 0 { assert r[i] == rest[i - 1]; }
        assert r[j] == rest[j - 1];
      }
    }
  }

  /** Inserting an id that is not listed yet keeps every id listed once. */
  lemma {:induction false} InsertKeepsUnique(posts: map<string, Doc>, ids: seq<string>, id: string)
    requires Unique(ids) && id !in ids
    ensures Unique(InsertByTime(posts, ids, id))
  {
    if !(ids == [] || TimeOf(posts, id) >= TimeOf(posts, ids[0])) {
      var tail := ids[1..];
      var rest := InsertByTime(posts, tail, id);
      assert ids == [ids[0]] + tail;
      InsertKeepsUnique(posts, tail, id);
      var r := [ids[0]] + rest;
      assert ids[0] !in rest;
      forall i, j | 0 <= i < j < |r| ensures r[i] != r[j] {
        assert r[j] == rest[j - 1] && rest[j - 1] in rest;
        if i > 0 { assert r[i] == rest[i - 1]; }
      }
    }
  }

  /** A duplicate-free list has as many elements as the set of its elements. */
  lemma {:induction false} UniqueCount(ids: seq<string>)
    requires Unique(ids)
    ensures |set x | x in ids| == |ids|
  {
    if ids != [] {
      var tail := ids[1..];
      assert Unique(tail);
      UniqueCount(tail);
      assert ids[0] !in tail;
      assert (set x | x in ids) == (set x | x in tail) + {ids[0]} by {
        assert ids == [ids[0]] + tail;
      }
    }
  }

  /** The query behind `loadUserPosts`: the ids of exactly the user's timestamped posts,
      each once, newest first. */
  method QueryUserPosts(posts: map<string, Doc>, userId: string) returns (ids: seq<string>)
    ensures forall id :: id in ids <==> id in posts && Listed(posts[id], userId)
    ensures Unique(ids)
    ensures NewestFirst(posts, ids)
    ensures |ids| == |ListedIds(posts, userId)|
  {
    ids := [];
    var rest := posts.Keys;
    while rest != {}
      invariant rest <= posts.Keys
      invariant forall id :: id in ids <==> id in posts && id !in rest && Listed(posts[id], userId)
      invariant Unique(ids)
      invariant NewestFirst(posts, ids)
      decreases |rest|
    {
      var id :| id in rest;
      rest := rest - {id};
      if Listed(posts[id], userId) {
        InsertKeepsOrder(posts, ids, id);
        InsertKeepsUnique(posts, ids, id);
        ids := InsertByTime(posts, ids, id);
      }
    }
    UniqueCount(ids);
    assert (set x | x in ids) == ListedIds(posts, userId);
  }

  // ------------------------------------------------------------ liking

  /** The write `handleLike` evidently means to send: remove the user from `likes` when
      the list handed in holds them, add them otherwise, as the post card does. */
  function HandleLikeWrites(currentLikes: seq<Value>, currentUserId: string): (w: Writes)
    ensures w == PostCardView.CardLikeWrites(Str(currentUserId) in currentLikes, currentUserId)
  {
    if Str(currentUserId) in currentLikes then map["likes" := ArrayRemove(Str(currentUserId))]
    else map["likes" := ArrayUnion(Str(currentUserId))]
  }

  /** With the post's own list handed in, the intended like flips the user's membership
      and no one else's, whereas `handleLike` as written (`UserProfileScreen.HandleLikeAsWritten`)
      would leave every post as it was: on a post nobody liked, a like by "u" gives
      `["u"]` where the code as written leaves `likes` empty. */
  lemma HandleLikeDiscrepancy(post: Doc, currentUserId: string)
    ensures var after, u := ApplyWrites(post, HandleLikeWrites(Likes(post), currentUserId)), Str(currentUserId);
      && (u in Likes(after) <==> u !in Likes(post))
      && (forall v :: v != u ==> (v in Likes(after) <==> v in Likes(post)))
    ensures post == map[] && currentUserId == "u" ==>
      Likes(ApplyWrites(post, HandleLikeWrites(Likes(post), currentUserId))) == [Str("u")]
  {
    var u := Str(currentUserId);
    UnionMembers(Lookup(post, "likes"), u, u);
    forall v ensures v != u ==> (v in Likes(ApplyWrites(post, HandleLikeWrites(Likes(post), currentUserId))) <==> v in Likes(post)) {
      UnionMembers(Lookup(post, "likes"), u, v);
    }
  }

  /** Two intended likes by the same user, each handed the post's refreshed list, give
      back the set of users who liked the post. */
  lemma HandleLikeTwice(post: Doc, currentUserId: string)
    ensures var once := ApplyWrites(post, HandleLikeWrites(Likes(post), currentUserId));
      var twice := ApplyWrites(once, HandleLikeWrites(Likes(once), currentUserId));
      forall v :: v in Likes(twice) <==> v in Likes(post)
  {
    var once := ApplyWrites(post, HandleLikeWrites(Likes(post), currentUserId));
    HandleLikeDiscrepancy(post, currentUserId);
    HandleLikeDiscrepancy(once, currentUserId);
  }

  class UserProfileScreen {
    const userId: string
    const userName: Option<string>
    var userData: Doc
    var userPosts: seq<Doc>
    var loading: bool

    constructor (userId: string, userName: Option<string>)
      ensures this.userId == userId && this.userName == userName
      ensures userData == map[] && userPosts == [] && loading
    {
      this.userId := userId;
      this.userName := userName;
      userData := map[];
      userPosts := [];
      loading := true;
    }

    /** `loadUserData`: the stored profile, or the fallback record when there is none or
        the read fails. */
    method LoadUserData(db: Db, readFails: bool)
      modifies this
      ensures userData == LoadedUserData(db.users, userId, userName, readFails)
      ensures userPosts == old(userPosts) && loading == old(loading)
    {
      if !readFails && userId in db.users {
        userData := db.users[userId];
      } else {
        userData := FallbackUser(userName);
      }
    }

    /** `loadUserPosts`: each post of the query's snapshot becomes `{id, ...data}`, in
        order; a failing listener only ends the loading state. `snapshot` is the list of
        ids the query returned. */
    method LoadUserPosts(db: Db, queryFails: bool) returns (snapshot: seq<string>)
      modifies this
      ensures !loading && userData == old(userData)
      ensures queryFails ==> userPosts == old(userPosts) && snapshot == []
      ensures !queryFails ==>
        && (forall id :: id in snapshot <==> id in db.posts && Listed(db.posts[id], userId))
        && Unique(snapshot) && NewestFirst(db.posts, snapshot)
        && |userPosts| == |snapshot| == |ListedIds(db.posts, userId)|
        && forall i :: 0 <= i < |snapshot| ==> userPosts[i] == WithId(snapshot[i], db.posts[snapshot[i]])
    {
      snapshot := [];
      if !queryFails {
        snapshot := QueryUserPosts(db.posts, userId);
        var posts: seq<Doc> := [];
        for i := 0 to |snapshot|
          invariant |posts| == i
          invariant forall k :: 0 <= k < i ==> posts[k] == WithId(snapshot[k], db.posts[snapshot[k]])
        {
          posts := posts + [WithId(snapshot[i], db.posts[snapshot[i]])];
        }
        userPosts := posts;
      }
      loading := false;
    }

    /** `handleLike` as written. The screen passes it to each post card as `onLike`, but the
        card never reads that prop, so nothing calls it. Were it called, it would reach
        `updateDoc`, which the file does not import: the call throws a ReferenceError
        before anything is sent, and the `Alert` in its `catch` is not imported either.
        `thrown` reports that; the database is left as it was. */
    method HandleLikeAsWritten(db: Db, postId: string, currentLikes: seq<Value>, currentUserId: string) returns (thrown: bool)
      modifies db
      ensures thrown
      ensures db.posts == old(db.posts) && db.users == old(db.users)
    {
      thrown := true;
    }

    /** `handleLike` as evidently intended (see `HandleLikeDiscrepancy`): one `updateDoc`
        of `likes`, which fails on a missing post. */
    method HandleLike(db: Db, postId: string, currentLikes: seq<Value>, currentUserId: string) returns (ok: bool)
      modifies db
      ensures ok == (postId in old(db.posts))
      ensures db.users == old(db.users)
      ensures ok ==> db.posts == old(db.posts)[postId := ApplyWrites(old(db.posts)[postId], HandleLikeWrites(currentLikes, currentUserId))]
      ensures !ok ==> db.posts == old(db.posts)
    {
      ok := db.UpdateDoc(Posts, postId, HandleLikeWrites(currentLikes, currentUserId));
    }
  }
}
