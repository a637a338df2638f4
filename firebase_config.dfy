/**
 * services/firebaseConfig.js: the `users` and `posts` collections and the exported
 * helpers that change them. The database `Db` holds the two collections as maps from
 * document id to document; its primitive methods are Firestore's `updateDoc`, `setDoc`,
 * `addDoc` and `deleteDoc`, and each helper is the sequence of those calls the source
 * makes. A call that throws leaves the writes made before it in place.
 */
module FirebaseConfig {
  import opened Wrappers
  import opened Documents

  datatype Collection = Users | Posts

  // ------------------------------------------------------------ documents written

  /** The profile document `createUserAndProfile` stores for a new account. */
  function NewProfile(uid: string, email: string, userData: Doc, now: int): Doc
    requires "name" in userData
  {
    map[
      "uid" := Str(uid),
      "name" := userData["name"],
      "email" := Str(email),
      "phone" := Or(Lookup(userData, "phone"), Str("")),
      "bio" := Str(""),
      "profileImage" := Str(""),
      "followers" := Arr([]),
      "following" := Arr([]),
      "postsCount" := Int(0),
      "createdAt" := Time(now),
      "updatedAt" := Time(now)]
  }

  /** The fields `createPost` writes after spreading the caller's post data. */
  function PostDefaults(now: int): Doc {
    map[
      "createdAt" := Time(now),
      "updatedAt" := Time(now),
      "likes" := Arr([]),
      "likesCount" := Int(0),
      "comments" := Arr([])]
  }

  /** `{...postData, createdAt, updatedAt, likes: [], likesCount: 0, comments: []}`. */
  function NewPost(postData: Doc, now: int): Doc {
    postData + PostDefaults(now)
  }

  /** A new account starts with no followers, follows nobody, has no posts, an empty bio
      and profile image, and an empty phone unless one was given. */
  lemma NewProfileFields(uid: string, email: string, userData: Doc, now: int)
    requires "name" in userData
    ensures var p := NewProfile(uid, email, userData, now);
      && ArrayField(p, "followers") == [] && ArrayField(p, "following") == []
      && p["postsCount"] == Int(0) && p["bio"] == Str("") && p["profileImage"] == Str("")
      && p["name"] == userData["name"] && p["email"] == Str(email)
      && (Truthy(Lookup(userData, "phone")) ==> p["phone"] == userData["phone"])
      && (!Truthy(Lookup(userData, "phone")) ==> p["phone"] == Str(""))
  {
  }

  /** The stored post has no likes and a zero like count even when the caller's data
      carried its own `likes` or `likesCount`; every other field the caller gave is kept. */
  lemma NewPostOverrides(postData: Doc, now: int)
    ensures var p := NewPost(postData, now);
      && p["likes"] == Arr([]) && p["likesCount"] == Int(0) && p["comments"] == Arr([])
      && p["createdAt"] == Time(now) && p["updatedAt"] == Time(now)
      && LikesConsistent(p)
      && p.Keys == postData.Keys + PostDefaults(now).Keys
      && forall f :: f in postData && f !in PostDefaults(now) ==> p[f] == postData[f]
  {
  }

  // ------------------------------------------------------------ likes

  function Likes(post: Doc): seq<Value> {
    ArrayField(post, "likes")
  }

  /** The post's like list is free of duplicates and its counter equals its length. */
  predicate LikesConsistent(post: Doc) {
    "likesCount" in post && post["likesCount"] == Int(|Likes(post)|) && Distinct(Likes(post))
  }

  /** The writes `toggleLikePost` sends for a post it has read. */
  function LikeToggleWrites(post: Doc, userId: string): Writes {
    if Str(userId) in Likes(post) then
      map["likes" := ArrayRemove(Str(userId)), "likesCount" := Increment(-1)]
    else
      map["likes" := ArrayUnion(Str(userId)), "likesCount" := Increment(1)]
  }

  /** The post after `toggleLikePost(postId, userId)` found it. */
  function LikeToggled(post: Doc, userId: string): Doc {
    ApplyWrites(post, LikeToggleWrites(post, userId))
  }

  /** Toggling flips the user's membership, moves the counter by one in the matching
      direction, leaves every other user's membership and every other field alone. */
  lemma LikeToggledFlips(post: Doc, userId: string)
    ensures var after, u := LikeToggled(post, userId), Str(userId);
      && (u in Likes(after) <==> u !in Likes(post))
      && Counter(after, "likesCount") == Counter(post, "likesCount") + (if u in Likes(post) then -1 else 1)
      && (forall v :: v != u ==> (v in Likes(after) <==> v in Likes(post)))
      && after.Keys == post.Keys + {"likes", "likesCount"}
      && (forall f :: f in post && f != "likes" && f != "likesCount" ==> after[f] == post[f])
  {
    var u := Str(userId);
    if u !in Likes(post) {
      forall v ensures v in Likes(LikeToggled(post, userId)) <==> v == u || v in Likes(post) {
        UnionMembers(Lookup(post, "likes"), u, v);
      }
    }
  }

  /** A consistent post stays consistent. */
  lemma LikeToggledConsistent(post: Doc, userId: string)
    requires LikesConsistent(post)
    ensures LikesConsistent(LikeToggled(post, userId))
  {
    var u := Str(userId);
    var xs := Likes(post);
    WithoutDistinct(xs, u);
    if u !in xs {
      AppendDistinct(xs, u);
    }
  }

  /** Two toggles by the same user give back the same likes (the same list when the user
      had not liked the post, the same multiset otherwise) and the same counter. */
  lemma LikeToggledTwice(post: Doc, userId: string)
    requires LikesConsistent(post)
    ensures var twice, u := LikeToggled(LikeToggled(post, userId), userId), Str(userId);
      && multiset(Likes(twice)) == multiset(Likes(post))
      && (u !in Likes(post) ==> Likes(twice) == Likes(post))
      && twice["likesCount"] == post["likesCount"]
      && LikesConsistent(twice)
  {
    var u := Str(userId);
    var xs := Likes(post);
    var once := LikeToggled(post, userId);
    LikeToggledConsistent(post, userId);
    LikeToggledConsistent(once, userId);
    WithoutDistinct(xs, u);
    if u in xs {
      WithoutMultiset(xs, u);
      assert Likes(once) == Without(xs, u);
      assert u !in Likes(once);
      assert Likes(LikeToggled(once, userId)) == Without(xs, u) + [u];
    } else {
      assert Likes(once) == xs + [u];
      WithoutAppended(xs, u);
    }
  }

  // ------------------------------------------------------------ follows

  function Following(user: Doc): seq<Value> {
    ArrayField(user, "following")
  }

  function Followers(user: Doc): seq<Value> {
    ArrayField(user, "followers")
  }

  /** For every pair of stored users, B is in A's `following` exactly when A is in B's `followers`. */
  ghost predicate Symmetric(users: map<string, Doc>) {
    forall a, b :: a in users && b in users ==>
      (Str(b) in Following(users[a]) <==> Str(a) in Followers(users[b]))
  }

  /** Whether `toggleFollowUser` sees the current user as following the target:
      `currentUserDoc.data()?.following || []` includes the target. */
  predicate IsFollowing(users: map<string, Doc>, current: string, target: string) {
    current in users && Str(target) in Following(users[current])
  }

  /** `updateDoc` on a user document, or no change when it does not exist. */
  function UpdateUser(users: map<string, Doc>, id: string, w: Writes): map<string, Doc> {
    if id in users then users[id := ApplyWrites(users[id], w)] else users
  }

  /** The two follow writes in the direction `isFollowing` says: the current user's
      `following` first, then the target's `followers`, each applied when its document
      exists. */
  function FollowWrites(users: map<string, Doc>, current: string, target: string, isFollowing: bool): map<string, Doc> {
    var op1 := if isFollowing then ArrayRemove(Str(target)) else ArrayUnion(Str(target));
    var op2 := if isFollowing then ArrayRemove(Str(current)) else ArrayUnion(Str(current));
    UpdateUser(UpdateUser(users, current, map["following" := op1]), target, map["followers" := op2])
  }

  /** The users after `toggleFollowUser(current, target)`: a missing current user reads as
      following nobody, and its failing first write stops the call; otherwise both writes
      go in the direction the stored list says, and a missing target only makes the
      second write fail. */
  function FollowToggled(users: map<string, Doc>, current: string, target: string): map<string, Doc> {
    if current !in users then users
    else FollowWrites(users, current, target, IsFollowing(users, current, target))
  }

  /** `toggleFollowUser` completes without throwing exactly when both documents exist. */
  predicate FollowSucceeds(users: map<string, Doc>, current: string, target: string) {
    current in users && target in users
  }

  /** A user's `following` after the two writes: only the target's membership in the
      current user's list can change, and it becomes the opposite of the flag. */
  lemma FollowWritesFollowing(users: map<string, Doc>, current: string, target: string, isFollowing: bool, a: string, b: string)
    requires a in users
    ensures var after := FollowWrites(users, current, target, isFollowing);
      && a in after && after.Keys == users.Keys
      && (Str(b) in Following(after[a]) <==>
          if a == current && b == target then !isFollowing else Str(b) in Following(users[a]))
  {
    var op1 := if isFollowing then ArrayRemove(Str(target)) else ArrayUnion(Str(target));
    var op2 := if isFollowing then ArrayRemove(Str(current)) else ArrayUnion(Str(current));
    var step := UpdateUser(users, current, map["following" := op1]);
    var after := UpdateUser(step, target, map["followers" := op2]);
    assert after == FollowWrites(users, current, target, isFollowing);
    assert Following(after[a]) == Following(step[a]);
    if a == current {
      assert Following(step[a]) == ApplyOp(Lookup(users[a], "following"), op1).elems;
      UnionMembers(Lookup(users[a], "following"), Str(target), Str(b));
      RemoveMembers(Lookup(users[a], "following"), Str(target), Str(b));
    } else {
      assert Following(step[a]) == Following(users[a]);
    }
  }

  /** A user's `followers` after the two writes: only the current user's membership in the
      target's list can change, and it becomes the opposite of the flag. */
  lemma FollowWritesFollowers(users: map<string, Doc>, current: string, target: string, isFollowing: bool, a: string, b: string)
    requires b in users
    ensures var after := FollowWrites(users, current, target, isFollowing);
      && b in after
      && (Str(a) in Followers(after[b]) <==>
          if a == current && b == target then !isFollowing else Str(a) in Followers(users[b]))
  {
    var op1 := if isFollowing then ArrayRemove(Str(target)) else ArrayUnion(Str(target));
    var op2 := if isFollowing then ArrayRemove(Str(current)) else ArrayUnion(Str(current));
    var step := UpdateUser(users, current, map["following" := op1]);
    var after := UpdateUser(step, target, map["followers" := op2]);
    assert after == FollowWrites(users, current, target, isFollowing);
    assert Followers(step[b]) == Followers(users[b]);
    if b == target {
      assert Followers(after[b]) == ApplyOp(Lookup(step[b], "followers"), op2).elems;
      UnionMembers(Lookup(step[b], "followers"), Str(current), Str(a));
      RemoveMembers(Lookup(step[b], "followers"), Str(current), Str(a));
    } else {
      assert Followers(after[b]) == Followers(step[b]);
    }
  }

  /** The two writes keep following/followers symmetric whatever the flag says, even a
      flag that disagrees with the stored lists, for any pair of ids (a self-follow
      included) and whichever documents exist. */
  lemma FollowWritesSymmetric(users: map<string, Doc>, current: string, target: string, isFollowing: bool)
    requires Symmetric(users)
    ensures Symmetric(FollowWrites(users, current, target, isFollowing))
  {
    var after := FollowWrites(users, current, target, isFollowing);
    forall a, b | a in after && b in after
      ensures Str(b) in Following(after[a]) <==> Str(a) in Followers(after[b])
    {
      FollowWritesFollowing(users, current, target, isFollowing, a, b);
      FollowWritesFollowers(users, current, target, isFollowing, a, b);
    }
  }

  /** `toggleFollowUser` keeps following/followers symmetric, for any pair of ids
      (a self-follow included) and whether or not the documents exist. */
  lemma FollowToggledSymmetric(users: map<string, Doc>, current: string, target: string)
    requires Symmetric(users)
    ensures Symmetric(FollowToggled(users, current, target))
  {
    if current in users {
      FollowWritesSymmetric(users, current, target, IsFollowing(users, current, target));
    }
  }

  /** The toggle flips whether the current user follows the target and touches no other user. */
  lemma FollowToggledFlips(users: map<string, Doc>, current: string, target: string)
    requires FollowSucceeds(users, current, target)
    ensures var after := FollowToggled(users, current, target);
      && after.Keys == users.Keys
      && (IsFollowing(after, current, target) <==> !IsFollowing(users, current, target))
      && forall id :: id in users && id != current && id != target ==> after[id] == users[id]
  {
    FollowWritesFollowing(users, current, target, IsFollowing(users, current, target), current, target);
  }

  /** The lists a toggle leaves behind, field by field. */
  lemma FollowToggledLists(users: map<string, Doc>, current: string, target: string)
    requires FollowSucceeds(users, current, target)
    ensures var after, t, c := FollowToggled(users, current, target), Str(target), Str(current);
      var fo, fr := Following(users[current]), Followers(users[target]);
      && (IsFollowing(users, current, target) ==>
            Following(after[current]) == Without(fo, t)
            && Followers(after[target]) == Without(fr, c))
      && (!IsFollowing(users, current, target) ==>
            Following(after[current]) == fo + [t]
            && Followers(after[target]) == (if c in fr then fr else fr + [c]))
  {
    var t, c := Str(target), Str(current);
    var follows := IsFollowing(users, current, target);
    var op1 := if follows then ArrayRemove(t) else ArrayUnion(t);
    var op2 := if follows then ArrayRemove(c) else ArrayUnion(c);
    var step := UpdateUser(users, current, map["following" := op1]);
    var after := UpdateUser(step, target, map["followers" := op2]);
    assert after == FollowWrites(users, current, target, follows) == FollowToggled(users, current, target);
    assert Following(after[current]) == Following(step[current]);
    assert Followers(step[target]) == Followers(users[target]);
  }

  /** From a symmetric state, two toggles by the same pair give back the current user's
      `following` and the target's `followers` as sets, and as the very same lists when
      the current user was not following the target. */
  lemma FollowToggledTwice(users: map<string, Doc>, current: string, target: string)
    requires Symmetric(users) && FollowSucceeds(users, current, target)
    ensures var twice := FollowToggled(FollowToggled(users, current, target), current, target);
      && (forall v :: v in Following(twice[current]) <==> v in Following(users[current]))
      && (forall v :: v in Followers(twice[target]) <==> v in Followers(users[target]))
      && (!IsFollowing(users, current, target) ==>
            Following(twice[current]) == Following(users[current])
            && Followers(twice[target]) == Followers(users[target]))
  {
    var t, c := Str(target), Str(current);
    var once := FollowToggled(users, current, target);
    var fo, fr := Following(users[current]), Followers(users[target]);
    FollowToggledLists(users, current, target);
    FollowToggledFlips(users, current, target);
    assert FollowSucceeds(once, current, target);
    FollowToggledLists(once, current, target);
    assert (t in fo) == (c in fr);
    if t in fo {
      assert Following(once[current]) == Without(fo, t);
      assert Followers(once[target]) == Without(fr, c);
    } else {
      WithoutAppended(fo, t);
      WithoutAppended(fr, c);
    }
  }

  // ------------------------------------------------------------ post counters

  /** `updateDoc` of `postsCount: increment(n)`: the user's counter moves by exactly `n`,
      every other field and every other user stays as it was, and a missing user stays
      missing. */
  lemma PostsCountStep(users: map<string, Doc>, id: string, n: int)
    ensures var after := UpdateUser(users, id, map["postsCount" := Increment(n)]);
      && after.Keys == users.Keys
      && (forall other :: other in users && other != id ==> after[other] == users[other])
      && (id in users ==>
            && Counter(after[id], "postsCount") == Counter(users[id], "postsCount") + n
            && forall f :: f in users[id] && f != "postsCount" ==> after[id][f] == users[id][f])
  {
  }

  /** The increment of `createPost` and the decrement of `deletePost`, for the same
      author, give the author's counter back. */
  lemma PostsCountRoundTrip(users: map<string, Doc>, id: string)
    ensures var once := UpdateUser(users, id, map["postsCount" := Increment(1)]);
      var twice := UpdateUser(once, id, map["postsCount" := Increment(-1)]);
      && twice.Keys == users.Keys
      && (id in users ==> Counter(twice[id], "postsCount") == Counter(users[id], "postsCount"))
  {
    var once := UpdateUser(users, id, map["postsCount" := Increment(1)]);
    PostsCountStep(users, id, 1);
    PostsCountStep(once, id, -1);
  }

  // ------------------------------------------------------------ the database

  class Db {
    var users: map<string, Doc>
    var posts: map<string, Doc>

    constructor (users0: map<string, Doc>, posts0: map<string, Doc>)
      ensures users == users0 && posts == posts0
    {
      users := users0;
      posts := posts0;
    }

    function Docs(c: Collection): map<string, Doc>
      reads this
    {
      if c == Users then users else posts
    }

    /** `updateDoc(doc(db, c, id), writes)`: fails on a missing document. */
    method UpdateDoc(c: Collection, id: string, w: Writes) returns (ok: bool)
      modifies this
      ensures ok == (id in old(Docs(c)))
      ensures c == Users ==> posts == old(posts) && users == UpdateUser(old(users), id, w)
      ensures c == Posts ==> (users == old(users)
        && posts == if ok then old(posts)[id := ApplyWrites(old(posts)[id], w)] else old(posts))
    {
      ok := id in Docs(c);
      if ok {
        if c == Users {
          users := users[id := ApplyWrites(users[id], w)];
        } else {
          posts := posts[id := ApplyWrites(posts[id], w)];
        }
      }
    }

    /** `setDoc(doc(db, c, id), fields, {merge})`: creates the document, or replaces it,
        or with `merge` overwrites only the given keys. */
    method SetDoc(c: Collection, id: string, fields: Doc, merge: bool)
      modifies this
      ensures Docs(c) == old(Docs(c))[id := if merge && id in old(Docs(c)) then old(Docs(c))[id] + fields else fields]
      ensures c == Users ==> posts == old(posts)
      ensures c == Posts ==> users == old(users)
    {
      var d := if merge && id in Docs(c) then Docs(c)[id] + fields else fields;
      if c == Users {
        users := users[id := d];
      } else {
        posts := posts[id := d];
      }
    }

    /** `addDoc(collection(db, 'posts'), fields)`; `newId` is the fresh id Firestore generates. */
    method AddPost(newId: string, fields: Doc)
      requires newId !in posts
      modifies this
      ensures posts == old(posts)[newId := fields] && users == old(users)
    {
      posts := posts[newId := fields];
    }

    /** `deleteDoc(doc(db, 'posts', id))`: succeeds whether or not the post exists. */
    method DeletePostDoc(id: string)
      modifies this
      ensures posts == old(posts) - {id} && users == old(users)
    {
      posts := posts - {id};
    }

    // ---------------------------------------------------------- exported helpers

    /** `createUserAndProfile`: the account `uid` has been created by the auth provider;
        the profile document is then written. A missing `name` is `undefined`, which
        Firestore refuses, so nothing is written. */
    method CreateUserAndProfile(uid: string, email: string, userData: Doc, now: int) returns (ok: bool)
      modifies this
      ensures ok == ("name" in userData)
      ensures posts == old(posts)
      ensures ok ==> users == old(users)[uid := NewProfile(uid, email, userData, now)]
      ensures !ok ==> users == old(users)
    {
      ok := "name" in userData;
      if ok {
        SetDoc(Users, uid, NewProfile(uid, email, userData, now), false);
      }
    }

    /** `createPost`: adds the post, then increments the author's `postsCount`. A
        `userId` that is not a string, or an author without a document, throws after the
        post has been added. Returns the new post's id when nothing threw. */
    method CreatePost(postData: Doc, newId: string, now: int) returns (r: Option<string>)
      requires newId !in posts
      modifies this
      ensures posts == old(posts)[newId := NewPost(postData, now)]
      ensures "userId" in postData && postData["userId"].Str? ==>
        users == UpdateUser(old(users), postData["userId"].s, map["postsCount" := Increment(1)])
      ensures !("userId" in postData && postData["userId"].Str?) ==> users == old(users)
      ensures r.Some? <==> "userId" in postData && postData["userId"].Str? && postData["userId"].s in old(users)
      ensures r.Some? ==> r.value == newId
    {
      AddPost(newId, NewPost(postData, now));
      r := None;
      if "userId" in postData && postData["userId"].Str? {
        var ok := UpdateDoc(Users, postData["userId"].s, map["postsCount" := Increment(1)]);
        if ok {
          r := Some(newId);
        }
      }
    }

    /** `toggleLikePost`: reads the post and flips the user's like; a missing post is left alone. */
    method ToggleLikePost(postId: string, userId: string)
      modifies this
      ensures users == old(users)
      ensures postId in old(posts) ==> posts == old(posts)[postId := LikeToggled(old(posts)[postId], userId)]
      ensures postId !in old(posts) ==> posts == old(posts)
    {
      if postId in posts {
        var post := posts[postId];
        var likes := Likes(post);
        var ok;
        if Str(userId) in likes {
          ok := UpdateDoc(Posts, postId, map["likes" := ArrayRemove(Str(userId)), "likesCount" := Increment(-1)]);
        } else {
          ok := UpdateDoc(Posts, postId, map["likes" := ArrayUnion(Str(userId)), "likesCount" := Increment(1)]);
        }
      }
    }

    /** `deletePost(postId, userId)`: deletes the post, then decrements the `postsCount` of
        whichever user is named, with no ownership check and no floor at zero; a missing
        user document throws after the post is gone. */
    method DeletePost(postId: string, userId: string) returns (ok: bool)
      modifies this
      ensures posts == old(posts) - {postId}
      ensures users == UpdateUser(old(users), userId, map["postsCount" := Increment(-1)])
      ensures ok == (userId in old(users))
    {
      DeletePostDoc(postId);
      ok := UpdateDoc(Users, userId, map["postsCount" := Increment(-1)]);
    }

    /** `updateUserProfile`: merges the given fields and a fresh `updatedAt` into an
        existing profile; a missing profile throws and nothing changes. */
    method UpdateUserProfile(userId: string, updateData: Doc, now: int) returns (ok: bool)
      modifies this
      ensures posts == old(posts)
      ensures ok == (userId in old(users))
      ensures ok ==> users == old(users)[userId := old(users)[userId] + (updateData + map["updatedAt" := Time(now)])]
      ensures !ok ==> users == old(users)
    {
      var fields := updateData + map["updatedAt" := Time(now)];
      if userId in users {
        PutsMerge(users[userId], fields);
      }
      ok := UpdateDoc(Users, userId, Puts(fields));
    }

    /** `getUserData`: the stored document with its id, or `null` when there is none. */
    function GetUserData(userId: string): (r: Option<Doc>)
      reads this
      ensures r.Some? <==> userId in users
      ensures r.Some? ==> r.value.Keys == users[userId].Keys + {"id"}
      ensures r.Some? ==> forall f :: f in users[userId] ==> r.value[f] == users[userId][f]
      ensures r.Some? && "id" !in users[userId] ==> r.value["id"] == Str(userId)
    {
      if userId in users then Some(WithId(userId, users[userId])) else None
    }

    /** `toggleFollowUser`: reads the current user's `following` and writes both sides. */
    method ToggleFollowUser(current: string, target: string) returns (ok: bool)
      modifies this
      ensures posts == old(posts)
      ensures users == FollowToggled(old(users), current, target)
      ensures ok == FollowSucceeds(old(users), current, target)
      ensures Symmetric(old(users)) ==> Symmetric(users)
    {
      var following := if current in users then Following(users[current]) else [];
      var ok1, ok2;
      if Str(target) in following {
        ok1 := UpdateDoc(Users, current, map["following" := ArrayRemove(Str(target))]);
        ok2 := UpdateDoc(Users, target, map["followers" := ArrayRemove(Str(current))]);
      } else {
        ok1 := UpdateDoc(Users, current, map["following" := ArrayUnion(Str(target))]);
        if ok1 {
          ok2 := UpdateDoc(Users, target, map["followers" := ArrayUnion(Str(current))]);
        } else {
          ok2 := false;
        }
      }
      ok := ok1 && ok2;
      if Symmetric(old(users)) {
        FollowToggledSymmetric(old(users), current, target);
      }
    }
  }
}
