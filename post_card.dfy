/**
 * components/PostCard.js: one post in a feed. The card keeps its own `isLiked` flag and
 * like counter, taken from the post snapshot it was rendered with; liking writes only the
 * post's `likes` array, and the owner may delete the post document.
 */
module PostCardView {
  import opened Wrappers
  import opened Documents
  import opened Text
  import opened FirebaseConfig

  /** `post.likes?.includes(currentUserId) || false`. */
  predicate LikedIn(post: Doc, userId: string) {
    Str(userId) in Likes(post)
  }

  /** The single write the card's like button sends. Unlike `toggleLikePost`, it never
      touches `likesCount`. */
  function CardLikeWrites(isLiked: bool, userId: string): (w: Writes)
    ensures w.Keys == {"likes"}
    ensures "likesCount" !in w
  {
    if isLiked then map["likes" := ArrayRemove(Str(userId))]
    else map["likes" := ArrayUnion(Str(userId))]
  }

  /** The card's local state after a like that reached the database. */
  function LikeStep(isLiked: bool, likesCount: int): (r: (bool, int))
    ensures r.0 == !isLiked
    ensures r.1 == if isLiked then likesCount - 1 else likesCount + 1
  {
    if isLiked then (false, likesCount - 1) else (true, likesCount + 1)
  }

  /** Two presses give the card back its state. */
  lemma LikeStepTwice(isLiked: bool, likesCount: int)
    ensures LikeStep(LikeStep(isLiked, likesCount).0, LikeStep(isLiked, likesCount).1) == (isLiked, likesCount)
  {
  }

  /** The card agrees with a stored post: its flag is the user's membership in `likes`,
      its counter the length of `likes`, and `likes` has no duplicates. */
  predicate Mirrors(post: Doc, userId: string, isLiked: bool, likesCount: int) {
    && isLiked == LikedIn(post, userId)
    && likesCount == |Likes(post)|
    && Distinct(Likes(post))
  }

  /** A card that agrees with the stored post still agrees after a like that went through:
      the write and the local update move in the same direction by the same amount. */
  lemma CardLikeKeepsMirror(post: Doc, userId: string, isLiked: bool, likesCount: int)
    requires Mirrors(post, userId, isLiked, likesCount)
    ensures var after, s := ApplyWrites(post, CardLikeWrites(isLiked, userId)), LikeStep(isLiked, likesCount);
      Mirrors(after, userId, s.0, s.1)
  {
    var u := Str(userId);
    var xs := Likes(post);
    WithoutDistinct(xs, u);
    if !isLiked {
      AppendDistinct(xs, u);
    }
  }

  /** The card's like leaves the stored `likesCount` as it was, so a post whose counter
      agreed with its list no longer does after a like from a card that agreed with it. */
  lemma CardLikeStalesCounter(post: Doc, userId: string, isLiked: bool, likesCount: int)
    requires Mirrors(post, userId, isLiked, likesCount) && LikesConsistent(post)
    ensures var after := ApplyWrites(post, CardLikeWrites(isLiked, userId));
      && after["likesCount"] == post["likesCount"]
      && !LikesConsistent(after)
  {
    CardLikeKeepsMirror(post, userId, isLiked, likesCount);
  }

  /** `post.userId === currentUserId`: only the author sees the delete button. */
  predicate ShowsDelete(post: Doc, currentUserId: string) {
    "userId" in post && post["userId"] == Str(currentUserId)
  }

  /** The delete button is shown to the user whose id is stored as the post's string
      `userId`, and to nobody else: a post without one shows it to no one. */
  lemma ShowsDeleteOnlyToAuthor(post: Doc, u: string, v: string)
    ensures ShowsDelete(post, u) <==> StrField(post, "userId") == Some(u)
    ensures ShowsDelete(post, u) && ShowsDelete(post, v) ==> u == v
  {
  }

  const DeletedMessage := "Post excluído com sucesso!"
  const DeleteFailedMessage := "Não foi possível excluir o post"

  /** `if (post.imageUri)`: only a post with an image path makes `deletePost` go to the
      file system first. */
  predicate TouchesFile(post: Doc) {
    Truthy(Lookup(post, "imageUri"))
  }

  /** The text under the like button: the counter, then 'curtida' for exactly one like
      and 'curtidas' for any other count (zero and negative counts included). */
  function LikesLabel(likesCount: int): (r: string)
    ensures |r| > |IntText(likesCount)| + 1
    ensures r[..|IntText(likesCount)|] == IntText(likesCount)
    ensures r[|IntText(likesCount)|] == ' '
    ensures r[|IntText(likesCount)| + 1..] in {"curtida", "curtidas"}
    ensures r[|r| - 1] == 's' <==> likesCount != 1
  {
    IntText(likesCount) + " " + (if likesCount == 1 then "curtida" else "curtidas")
  }

  class PostCard {
    const postId: string
    const post: Doc
    const currentUserId: string
    var isLiked: bool
    var likesCount: int

    /** The initial state comes from the snapshot the card is rendered with. */
    constructor (postId: string, post: Doc, currentUserId: string)
      ensures this.postId == postId && this.post == post && this.currentUserId == currentUserId
      ensures isLiked == LikedIn(post, currentUserId)
      ensures likesCount == |Likes(post)|
    {
      this.postId := postId;
      this.post := post;
      this.currentUserId := currentUserId;
      isLiked := LikedIn(post, currentUserId);
      likesCount := |Likes(post)|;
    }

    /** `handleLike`: one `updateDoc` of `likes`; the local flag and counter change only
        after it succeeds, and a missing post leaves everything as it was. */
    method HandleLike(db: Db) returns (ok: bool)
      modifies this, db
      ensures ok == (postId in old(db.posts))
      ensures db.users == old(db.users)
      ensures ok ==> db.posts == old(db.posts)[postId := ApplyWrites(old(db.posts)[postId], CardLikeWrites(old(isLiked), currentUserId))]
      ensures !ok ==> db.posts == old(db.posts)
      ensures ok ==> (isLiked, likesCount) == LikeStep(old(isLiked), old(likesCount))
      ensures !ok ==> isLiked == old(isLiked) && likesCount == old(likesCount)
      ensures ok && Mirrors(old(db.posts)[postId], currentUserId, old(isLiked), old(likesCount)) ==>
        Mirrors(db.posts[postId], currentUserId, isLiked, likesCount)
    {
      if postId in db.posts && Mirrors(db.posts[postId], currentUserId, isLiked, likesCount) {
        CardLikeKeepsMirror(db.posts[postId], currentUserId, isLiked, likesCount);
      }
      ok := db.UpdateDoc(Posts, postId, CardLikeWrites(isLiked, currentUserId));
      if ok {
        if isLiked {
          isLiked := false;
          likesCount := likesCount - 1;
        } else {
          isLiked := true;
          likesCount := likesCount + 1;
        }
      }
    }

    /** `deletePost` after the confirmation, reachable only through the author's delete
        button. When the post has an image path, the file is looked up and deleted first;
        `fileSystemFails` says that one of those calls throws, which skips `deleteDoc`.
        Otherwise the post document is removed, whether or not it still exists; unlike the
        service's `deletePost`, no author's `postsCount` changes. The alert shown is
        returned. */
    method DeletePost(db: Db, fileSystemFails: bool) returns (alert: string)
      requires ShowsDelete(post, currentUserId)
      modifies db
      ensures db.users == old(db.users)
      ensures TouchesFile(post) && fileSystemFails ==>
        alert == DeleteFailedMessage && db.posts == old(db.posts)
      ensures !(TouchesFile(post) && fileSystemFails) ==>
        alert == DeletedMessage && db.posts == old(db.posts) - {postId}
    {
      if TouchesFile(post) && fileSystemFails {
        return DeleteFailedMessage;
      }
      db.DeletePostDoc(postId);
      alert := DeletedMessage;
    }
  }
}
