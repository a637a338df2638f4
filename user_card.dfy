/**
 * components/UserCard.js: a user in a list, with the user's initials, a follower count
 * and an optional follow button. Following writes both users' lists in one `Promise.all`,
 * so both writes are attempted whatever becomes of the other.
 */
module UserCardView {
  import opened Wrappers
  import opened Documents
  import opened Text
  import opened FirebaseConfig

  // ------------------------------------------------------------ initials

  /** `getInitials(name)`: 'U' for a missing or empty name; otherwise the first character
      of every piece of `split(' ')`, upper-cased, at most two of them. */
  function GetInitials(name: Option<string>): (r: string)
    ensures !(name.Some? && name.value != "") ==> r == "U"
    ensures name.Some? && name.value != "" ==> |r| <= 2
  {
    if name.Some? && name.value != "" then Prefix(Upper(FirstChars(Split(name.value, ' '))), 2)
    else "U"
  }

  /** The name the avatar is drawn from: `user.displayName || user.name`. */
  function AvatarName(user: Doc): Option<string> {
    OrElse(StrField(user, "displayName"), StrField(user, "name"))
  }

  /** The name shown on the card: `user.displayName || user.name || 'Usuário'`. */
  function ShownName(user: Doc): (r: string)
    ensures r != ""
    ensures AvatarName(user).Some? && AvatarName(user).value != "" ==> r == AvatarName(user).value
    ensures !(AvatarName(user).Some? && AvatarName(user).value != "") ==> r == "Usuário"
  {
    StrOr(AvatarName(user), "Usuário")
  }

  /** For a non-empty name the initials are the upper-cased starts of its first two words
      (a word being a maximal run of non-spaces), never a space, and empty exactly when
      the name is all spaces. */
  lemma InitialsAreWordStarts(name: string)
    requires name != ""
    ensures var r := GetInitials(Some(name));
      && r == Prefix(Upper(WordStarts(name, true)), 2)
      && ' ' !in r
      && (r == "" <==> forall i :: 0 <= i < |name| ==> name[i] == ' ')
  {
    FirstCharsOfSplit(name);
    WordStartsNoSpace(name, true);
    WordStartsEmptyIff(name);
    var w := WordStarts(name, true);
    var r := GetInitials(Some(name));
    assert r == Prefix(Upper(w), 2);
    forall i | 0 <= i < |r| ensures r[i] != ' ' {
      assert r[i] == Upper(w)[i] == UpperChar(w[i]);
      assert w[i] in w;
    }
  }

  // ------------------------------------------------------------ follower count

  /** `formatFollowersCount(count)`: millions get an 'M' suffix, thousands a 'K' suffix,
      and smaller counts are written out. */
  datatype FollowersLabel = Millions(count: nat) | Thousands(count: nat) | Plain(text: string)

  function FormatFollowersCount(count: nat): (r: FollowersLabel)
    ensures r.Millions? <==> count >= 1000000
    ensures r.Thousands? <==> 1000 <= count < 1000000
    ensures r.Plain? <==> count < 1000
    ensures !r.Plain? ==> r.count == count
  {
    if count >= 1000000 then Millions(count)
    else if count >= 1000 then Thousands(count)
    else Plain(Decimal(count))
  }

  /** A count below a thousand is shown as at most three digits that read back as the
      count, with no leading zero. */
  lemma PlainCountRoundTrip(count: nat)
    requires count < 1000
    ensures var t := FormatFollowersCount(count).text;
      && DecimalValue(t) == count
      && 1 <= |t| <= 3
      && (t[0] == '0' ==> count == 0)
  {
    DecimalRoundTrip(count);
    if count >= 10 {
      assert |Decimal(count / 10)| <= 2 by {
        if count / 10 >= 10 { assert |Decimal(count / 100)| == 1; }
      }
    }
  }

  // ------------------------------------------------------------ following

  /** `handleFollow` returns at once when nobody is signed in or the card shows the
      signed-in user. */
  predicate FollowGuard(currentUid: Option<string>, targetId: string) {
    currentUid.Some? && currentUid.value != targetId
  }

  /** `showFollowButton && currentUser && currentUser.uid !== user.id`. */
  predicate ShowFollowButton(showFollowButton: bool, currentUid: Option<string>, targetId: string) {
    showFollowButton && currentUid.Some? && currentUid.value != targetId
  }

  /** A visible button always leads past the guard. */
  lemma ButtonPassesGuard(showFollowButton: bool, currentUid: Option<string>, targetId: string)
    ensures ShowFollowButton(showFollowButton, currentUid, targetId) <==>
      showFollowButton && FollowGuard(currentUid, targetId)
  {
  }

  /** When both documents exist, the current user ends up following the target exactly
      when the card's flag said otherwise; with a flag that agrees with the database the
      card's writes are the service's `toggleFollowUser`. */
  lemma CardFollowFlips(users: map<string, Doc>, current: string, target: string, isFollowing: bool)
    requires FollowSucceeds(users, current, target)
    ensures var after := FollowWrites(users, current, target, isFollowing);
      && IsFollowing(after, current, target) == !isFollowing
      && (isFollowing == IsFollowing(users, current, target) ==> after == FollowToggled(users, current, target))
  {
    FollowWritesFollowing(users, current, target, isFollowing, current, target);
  }

  class UserCard {
    const targetId: string
    const currentUid: Option<string>
    var isFollowing: bool
    var isLoading: bool

    /** `isFollowing` starts as whether the signed-in user's following list, handed in by
        the parent, holds the card's user. */
    constructor (targetId: string, currentUid: Option<string>, currentUserFollowing: seq<string>)
      ensures this.targetId == targetId && this.currentUid == currentUid
      ensures isFollowing == (targetId in currentUserFollowing)
      ensures !isLoading
    {
      this.targetId := targetId;
      this.currentUid := currentUid;
      isFollowing := targetId in currentUserFollowing;
      isLoading := false;
    }

    /** `handleFollow`: past the guard, both writes are issued; the flag flips only when
        both succeeded (the promise rejects when either document is missing), and loading
        ends either way. */
    method HandleFollow(db: Db) returns (ok: bool)
      modifies this, db
      ensures db.posts == old(db.posts)
      ensures !FollowGuard(currentUid, targetId) ==>
        !ok && db.users == old(db.users) && isFollowing == old(isFollowing) && isLoading == old(isLoading)
      ensures FollowGuard(currentUid, targetId) ==>
        && db.users == FollowWrites(old(db.users), currentUid.value, targetId, old(isFollowing))
        && ok == FollowSucceeds(old(db.users), currentUid.value, targetId)
        && isFollowing == (if ok then !old(isFollowing) else old(isFollowing))
        && !isLoading
      ensures ok ==> isFollowing == IsFollowing(db.users, currentUid.value, targetId)
      ensures Symmetric(old(db.users)) ==> Symmetric(db.users)
    {
      ok := false;
      if currentUid.None? || currentUid.value == targetId {
        return;
      }
      var current := currentUid.value;
      ghost var before, wasFollowing := db.users, isFollowing;
      isLoading := true;
      // Promise.all: both writes are sent, whichever of them fails.
      var op1 := if isFollowing then ArrayRemove(Str(targetId)) else ArrayUnion(Str(targetId));
      var op2 := if isFollowing then ArrayRemove(Str(current)) else ArrayUnion(Str(current));
      var ok1 := db.UpdateDoc(Users, current, map["following" := op1]);
      var ok2 := db.UpdateDoc(Users, targetId, map["followers" := op2]);
      if ok1 && ok2 {
        isFollowing := !isFollowing;
      }
      assert db.users == FollowWrites(before, current, targetId, wasFollowing);
      if Symmetric(before) {
        FollowWritesSymmetric(before, current, targetId, wasFollowing);
      }
      if ok1 && ok2 {
        CardFollowFlips(before, current, targetId, wasFollowing);
      }
      ok := ok1 && ok2;
      isLoading := false;
    }
  }
}
