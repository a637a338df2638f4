# rede-social — a Dafny model of the app's data and screen logic

rede-social is a React Native fitness social network backed by Firebase. Users register,
log in, post workout photos with a description and a location, like posts and follow
each other. This project models the parts of it that decide what gets written to
Firestore and what the screens show:

- the `users` and `posts` collections and the exported helpers of
  `services/firebaseConfig.js` (`createUserAndProfile`, `createPost`, `toggleLikePost`,
  `deletePost`, `updateUserProfile`, `getUserData`, `toggleFollowUser`). The database is
  the class `FirebaseConfig.Db`. Its methods are Firestore's `updateDoc` (with
  `arrayUnion`, `arrayRemove` and `increment`), `setDoc` with and without `merge`,
  `addDoc` and `deleteDoc`;
- the two list components, `PostCard` (like and delete) and `UserCard` (initials,
  follower count, follow/unfollow);
- the screens `CreatePostScreen`, `EditProfile`, `UserProfileScreen`, `LoginScreen`,
  `RegisterScreen` and `ForgotPasswordScreen`: their validation, the documents they write,
  and the state they keep.

Each screen or component with state is a class. Its fields are the `useState` variables,
and its methods are the handlers. Pure helpers (`getInitials`, `formatFollowersCount`,
the regular expressions, `trim`, `split`) are functions. Four of them are proved equal to
an independent definition:
- `getInitials` equals the word starts, defined character by character;
- the e-mail and password checks accept exactly the languages of their regular
  expressions;
- `trim` equals the middle slice between two whitespace runs.

`split` is pinned down by its round trip with `join`, and `formatFollowersCount` by its
ranges and the read-back of its digits.

Modules:

| file | module | source |
|---|---|---|
| wrappers.dfy | `Wrappers` | `Option` |
| text.dfy | `Text` | JavaScript `\|\|` on strings, `trim`, `split`, `join`, `toUpperCase`, `substring`, number to string |
| documents.dfy | `Documents` | Firestore values, documents and field writes |
| auth_session.dfy | `AuthSession` | the signed-in user, and the outcome of an auth call |
| firebase_config.dfy | `FirebaseConfig` | services/firebaseConfig.js |
| post_card.dfy | `PostCardView` | components/PostCard.js |
| user_card.dfy | `UserCardView` | components/UserCard.js |
| user_profile.dfy | `UserProfileView` | screens/UserProfileScreen.js |
| create_post.dfy | `CreatePostView` | screens/CreatePostScreen.js |
| edit_profile.dfy | `EditProfileView` | screens/EditProfile.js |
| credential_patterns.dfy | `CredentialPatterns` | `regexEmail` and `regexPassword` of the three auth screens |
| login_screen.dfy | `LoginView` | screens/LoginScreen.js |
| register_screen.dfy | `RegisterView` | screens/RegisterScreen.js |
| forgot_password_screen.dfy | `ForgotPasswordView` | screens/ForgotPasswordScreen.js |

Conventions:

- A document is a map from field name to value. A value is null, a boolean, an integer,
  a string, a timestamp or an array.
- A call that throws in the middle of a helper keeps the writes made before it. Helpers
  with a `try`/`catch` report the failure as a result.
- Things the app receives from outside are parameters:
  - the outcome of a Firebase Auth call;
  - whether a read fails;
  - the server or client time;
  - the id `addDoc` generates;
  - the app's document directory.

## Model

| member | source | states |
|---|---|---|
| Text.TrimStart | screens/CreatePostScreen.js:162 | the result is no longer than the input and does not start with whitespace |
| Text.TrimStartSplit | screens/CreatePostScreen.js:162 | the left trim is a suffix of the input, and what it drops is all whitespace |
| Text.TrimEnd | screens/CreatePostScreen.js:162 | the result is no longer than the input and does not end with whitespace |
| Text.TrimEndSplit | screens/CreatePostScreen.js:162 | the right trim is a prefix of the input, and what it drops is all whitespace |
| Text.TrimShape | screens/CreatePostScreen.js:176 | `trim` cuts the input into leading whitespace, the result, and trailing whitespace |
| Text.TrimEnds | screens/CreatePostScreen.js:176 | a non-empty trim result neither starts nor ends with whitespace |
| Text.Trim | screens/CreatePostScreen.js:176 | `String.prototype.trim`; its meaning is stated by TrimShape, TrimEnds and TrimEmptyIff |
| Text.AllSpaceIfTrimEmpty | screens/CreatePostScreen.js:162 | an empty trim means the input was all whitespace |
| Text.TrimEmptyIfAllSpace | screens/CreatePostScreen.js:162 | an all-whitespace input trims to empty |
| Text.TrimEmptyIff | screens/CreatePostScreen.js:162 | `!s.trim()` holds exactly when every character of `s` is whitespace |
| Text.TrimUntouched | screens/CreatePostScreen.js:131 | a string with non-whitespace at both ends is its own trim |
| Text.TrimKeeps | screens/CreatePostScreen.js:131 | every non-whitespace character survives `trim` |
| Text.TrimIdempotent | screens/CreatePostScreen.js:176 | trimming twice is trimming once |
| Text.Split | components/UserCard.js:26 | `split` always yields at least one piece |
| Text.SplitJoin | components/UserCard.js:26 | joining the pieces gives back the input, and no piece holds the separator |
| Text.FirstCharsAppend | components/UserCard.js:27-28 | the first characters of concatenated piece lists concatenate |
| Text.FirstChars | components/UserCard.js:27-28 | `map(word => word[0]).join('')`; FirstCharsOfSplit equates it, over `split(' ')`, with the word starts |
| Text.FirstCharsOfSplit | components/UserCard.js:25-28 | the first characters of the pieces of `split(' ')` are exactly the word starts (non-spaces after a space or at the start) |
| Text.WordStartsNoSpace | components/UserCard.js:25-28 | word starts never contain a space and are no longer than the input |
| Text.WordStartsEmptyIff | components/UserCard.js:25-28 | there are no word starts exactly when the string is all spaces |
| Text.Upper | components/UserCard.js:29 | `toUpperCase`: same length, no lower-case ASCII letter left, every other character kept in place |
| Text.UpperIdempotent | components/UserCard.js:29 | upper-casing twice is upper-casing once |
| Text.Prefix | components/UserCard.js:30 | `substring(0, n)`: a prefix of length `min(n, \|s\|)` |
| Text.DigitValue | components/UserCard.js:78 | a digit denotes a number below ten |
| Text.DigitChar | components/UserCard.js:78 | the digit for `d` is a digit, and it denotes `d` |
| Text.Decimal | components/UserCard.js:78 | `toString` of a natural number is non-empty, all digits, and has no leading zero |
| Text.DecimalRoundTrip | components/UserCard.js:78 | reading back the decimal rendering gives the number |
| Text.DecimalInjective | screens/CreatePostScreen.js:97 | distinct numbers have distinct renderings |
| Text.IntText | components/PostCard.js:146 | `String(i)`: a minus sign exactly for a negative number, then digits |
| Text.IntTextRoundTrip | components/PostCard.js:146 | the digits after the optional sign read back as the absolute value, so the text gives back the number |
| Text.IntTextInjective | components/PostCard.js:146 | different counters are written differently |
| Documents.StrField | components/UserCard.js:95 | a string field reads as its string; a missing or non-string field reads as absent |
| Documents.WithId | services/firebaseConfig.js:180 | `{id, ...data}` has the data's keys plus `id`, keeps every data field, and takes the document id unless the data holds an `id` |
| Documents.Without | services/firebaseConfig.js:130 | `arrayRemove` removes exactly the given element and keeps the others |
| Documents.ApplyWrites | services/firebaseConfig.js:127-137 | `updateDoc` rewrites the named fields with their operations and keeps every other field |
| Documents.ApplyOp | services/firebaseConfig.js:127-137 | one field operation: a plain value, `arrayUnion`, `arrayRemove` or `increment`; stated by UnionMembers, RemoveMembers and PostsCountStep |
| Documents.Puts | services/firebaseConfig.js:161-164 | plain values as writes, with the same keys |
| Documents.PutsMerge | services/firebaseConfig.js:161-164 | writing plain values is the merge of the two objects |
| Documents.UnionMembers | services/firebaseConfig.js:135 | after `arrayUnion(x)` the field is an array that holds `x` and exactly the earlier members (the membership fact the like and follow lemmas use) |
| Documents.RemoveMembers | services/firebaseConfig.js:130 | after `arrayRemove(x)` the field is an array without `x` that holds exactly the other earlier members (the membership fact the like and follow lemmas use) |
| Documents.WithoutDistinct | services/firebaseConfig.js:130-131 | removal from a duplicate-free array keeps it duplicate-free and shortens it by one exactly when the element was present |
| Documents.WithoutMultiset | services/firebaseConfig.js:130 | removal takes out exactly one copy of a present element |
| Documents.AppendDistinct | services/firebaseConfig.js:135-136 | appending an absent element keeps the array duplicate-free |
| Documents.WithoutAppended | services/firebaseConfig.js:130-135 | removing the element just appended gives back the array |
| FirebaseConfig.NewProfileFields | services/firebaseConfig.js:76-88 | a new profile has the uid, e-mail and given name, empty follow lists, zero posts, an empty bio and equal creation and update times |
| FirebaseConfig.NewProfile | services/firebaseConfig.js:76-88 | the profile document `createUserAndProfile` writes; stated by NewProfileFields |
| FirebaseConfig.NewPostOverrides | services/firebaseConfig.js:98-105 | a new post has no likes, a zero like count and no comments, whatever the caller's data holds |
| FirebaseConfig.NewPost | services/firebaseConfig.js:98-105 | the post document `createPost` adds; stated by NewPostOverrides |
| FirebaseConfig.LikeToggledFlips | services/firebaseConfig.js:118-138 | toggling flips the user's membership in `likes`, moves `likesCount` by one in the matching direction, and touches no other field |
| FirebaseConfig.LikeToggleWrites | services/firebaseConfig.js:127-137 | the writes `toggleLikePost` sends; their effect is stated by LikeToggledFlips |
| FirebaseConfig.LikeToggled | services/firebaseConfig.js:118-143 | the post after `toggleLikePost`; stated by LikeToggledFlips, LikeToggledConsistent and LikeToggledTwice |
| FirebaseConfig.LikeToggledConsistent | services/firebaseConfig.js:125-138 | a post whose likes are duplicate-free and counted stays so |
| FirebaseConfig.LikeToggledTwice | services/firebaseConfig.js:125-138 | two toggles by the same user restore the likes and the counter |
| FirebaseConfig.FollowWritesFollowing | services/firebaseConfig.js:197-210 | after the two follow writes, only the current user's `following` changes, and only in the target's membership |
| FirebaseConfig.IsFollowing | services/firebaseConfig.js:190-196 | `following.includes(target)` on the current user's stored document |
| FirebaseConfig.UpdateUser | services/firebaseConfig.js:107-110 | `updateDoc` on a user document, no change when it is missing; stated by PostsCountStep |
| FirebaseConfig.FollowWrites | services/firebaseConfig.js:197-210 | the two follow writes in the direction the flag says; stated by FollowWritesFollowing, FollowWritesFollowers and FollowWritesSymmetric |
| FirebaseConfig.FollowToggled | services/firebaseConfig.js:188-211 | the users after `toggleFollowUser`; stated by FollowToggledFlips, FollowToggledLists and FollowToggledTwice |
| FirebaseConfig.FollowSucceeds | services/firebaseConfig.js:188-211 | both documents exist, so neither read nor write throws |
| FirebaseConfig.FollowWritesFollowers | services/firebaseConfig.js:197-210 | after the two follow writes, only the target's `followers` changes, and only in the current user's membership |
| FirebaseConfig.FollowWritesSymmetric | services/firebaseConfig.js:197-210 | the two writes keep "B follows A iff A is among B's followers" for every pair, whatever the flag says |
| FirebaseConfig.FollowToggledSymmetric | services/firebaseConfig.js:188-211 | `toggleFollowUser` keeps following and followers symmetric, even when it throws halfway |
| FirebaseConfig.FollowToggledFlips | services/firebaseConfig.js:188-211 | when both users exist, whether the current user follows the target is flipped, and no other user changes |
| FirebaseConfig.FollowToggledLists | services/firebaseConfig.js:197-210 | the two lists after a toggle, element by element |
| FirebaseConfig.FollowToggledTwice | services/firebaseConfig.js:188-211 | from a symmetric state, two toggles give back both users' membership |
| FirebaseConfig.PostsCountStep | services/firebaseConfig.js:107-110 | `increment(n)` on `postsCount` moves that user's counter by exactly `n` and changes nothing else |
| FirebaseConfig.PostsCountRoundTrip | services/firebaseConfig.js:107-152 | the increment of `createPost` and the decrement of `deletePost` restore the counter |
| FirebaseConfig.Db.constructor | services/firebaseConfig.js:64 | the database starts with the given collections |
| FirebaseConfig.Db.UpdateDoc | services/firebaseConfig.js:107-110 | `updateDoc` fails on a missing document and otherwise applies the writes to that document only |
| FirebaseConfig.Db.SetDoc | services/firebaseConfig.js:76-90 | `setDoc` creates or replaces the document, or merges into an existing one with `merge` |
| FirebaseConfig.Db.AddPost | services/firebaseConfig.js:98-105 | `addDoc` stores the fields under a fresh id |
| FirebaseConfig.Db.DeletePostDoc | services/firebaseConfig.js:147 | `deleteDoc` removes the post, present or not |
| FirebaseConfig.Db.CreateUserAndProfile | services/firebaseConfig.js:67-94 | the new profile is stored exactly when the user data has a name; nothing else changes |
| FirebaseConfig.Db.CreatePost | services/firebaseConfig.js:96-116 | the post is added with its defaults; the author's `postsCount` is incremented when the author exists; the id is returned exactly then |
| FirebaseConfig.Db.ToggleLikePost | services/firebaseConfig.js:118-143 | an existing post becomes `LikeToggled`; a missing post and all users are left alone |
| FirebaseConfig.Db.DeletePost | services/firebaseConfig.js:145-156 | the post is removed, and the author's counter drops by one when the author exists |
| FirebaseConfig.Db.UpdateUserProfile | services/firebaseConfig.js:158-174 | an existing user document gets the given fields and a new `updatedAt` merged in; a missing one fails |
| FirebaseConfig.Db.GetUserData | services/firebaseConfig.js:176-186 | the stored document with its id, or null exactly when there is none |
| FirebaseConfig.Db.ToggleFollowUser | services/firebaseConfig.js:188-211 | the users become `FollowToggled`; success exactly when both documents exist; symmetry is kept |
| PostCardView.CardLikeWrites | components/PostCard.js:38-52 | the card writes only `likes`, never `likesCount` |
| PostCardView.LikedIn | components/PostCard.js:19 | `post.likes?.includes(currentUserId) \|\| false`; used by the card's constructor |
| PostCardView.LikeStep | components/PostCard.js:43-51 | after a like that went through, the flag flips and the counter moves by one in the matching direction |
| PostCardView.LikeStepTwice | components/PostCard.js:34-57 | two presses give the card back its state |
| PostCardView.CardLikeKeepsMirror | components/PostCard.js:34-57 | a card that agrees with the stored likes still agrees after its like |
| PostCardView.CardLikeStalesCounter | components/PostCard.js:38-52 | the card's like leaves the stored `likesCount` unchanged, so a post whose counter matched its likes no longer matches |
| PostCardView.LikesLabel | components/PostCard.js:146 | the label is the counter's text, a space, then 'curtida' or 'curtidas', ending in 's' exactly when the count is not 1 |
| PostCardView.ShowsDeleteOnlyToAuthor | components/PostCard.js:111 | the delete button shows exactly for the user whose id is the post's string `userId`, so for at most one user |
| PostCardView.ShowsDelete | components/PostCard.js:111 | `post.userId === currentUserId`; stated by ShowsDeleteOnlyToAuthor |
| PostCardView.TouchesFile | components/PostCard.js:73 | `if (post.imageUri)`: the delete goes to the file system first |
| PostCardView.PostCard.constructor | components/PostCard.js:17-20 | the card keeps the post it was rendered with; the flag is the user's membership in the post's likes, and the counter is their number |
| PostCardView.PostCard.HandleLike | components/PostCard.js:34-57 | one write of `likes`; the local state moves only when the post exists; a mirroring card keeps mirroring |
| PostCardView.PostCard.DeletePost | components/PostCard.js:70-87 | only the author can reach it; when the post has an image path and the file system throws, nothing is deleted and the error alert is shown; otherwise the post document is removed and users, so `postsCount`, are untouched |
| UserCardView.GetInitials | components/UserCard.js:23-31 | 'U' for a missing or empty name; otherwise at most two characters |
| UserCardView.AvatarName | components/UserCard.js:95 | `user.displayName \|\| user.name`, the name the initials are drawn from |
| UserCardView.ShownName | components/UserCard.js:107 | the avatar name when it is non-empty, otherwise 'Usuário'; never empty |
| UserCardView.InitialsAreWordStarts | components/UserCard.js:23-31 | the initials are the upper-cased first two word starts, contain no space, and are empty exactly for an all-space name |
| UserCardView.FormatFollowersCount | components/UserCard.js:72-79 | 'M' from a million, 'K' from a thousand, and plain digits below a thousand |
| UserCardView.PlainCountRoundTrip | components/UserCard.js:78 | a count below a thousand is one to three digits that read back as the count |
| UserCardView.FollowGuard | components/UserCard.js:34 | `handleFollow` goes on only with a signed-in user other than the card's user |
| UserCardView.ShowFollowButton | components/UserCard.js:146 | the condition for showing the button; ButtonPassesGuard relates it to the guard |
| UserCardView.ButtonPassesGuard | components/UserCard.js:146 | the button is shown exactly when it is enabled and `handleFollow`'s guard passes |
| UserCardView.CardFollowFlips | components/UserCard.js:43-61 | the card's writes flip whether the current user follows the target, and equal `toggleFollowUser` when the card's flag is accurate |
| UserCardView.UserCard.constructor | components/UserCard.js:18-20 | the flag is whether the current user's following list holds the card's user |
| UserCardView.UserCard.HandleFollow | components/UserCard.js:33-70 | past the guard both writes are sent; the flag flips only when both succeed and then matches the database; symmetry is kept |
| UserProfileView.FallbackUser | screens/UserProfileScreen.js:44-51 | the fallback record: the route's name or 'Usuário', empty e-mail and phone, no picture |
| UserProfileView.LoadedUserData | screens/UserProfileScreen.js:37-61 | the stored document, or the fallback record; stated by FallbackHeader and the screen's LoadUserData |
| UserProfileView.AvatarLetter | screens/UserProfileScreen.js:134 | one character: the upper-cased first letter of a non-empty name, 'U' otherwise |
| UserProfileView.ProfileName | screens/UserProfileScreen.js:139 | the stored name when it is a non-empty string, otherwise 'Nome não informado' |
| UserProfileView.FallbackHeader | screens/UserProfileScreen.js:37-61 | without a stored profile the header shows the fallback name and no picture |
| UserProfileView.Listed | screens/UserProfileScreen.js:66-70 | the post's `userId` is the profile's user and it has a timestamp; QueryUserPosts returns exactly these posts |
| UserProfileView.InsertByTime | screens/UserProfileScreen.js:66-85 | one longer, holding exactly the old ids and the new one |
| UserProfileView.InsertKeepsOrder | screens/UserProfileScreen.js:69 | insertion keeps the list newest first |
| UserProfileView.InsertKeepsUnique | screens/UserProfileScreen.js:72-85 | inserting an unlisted id keeps every id listed once |
| UserProfileView.UniqueCount | screens/UserProfileScreen.js:146 | a duplicate-free list is as long as its set of ids |
| UserProfileView.QueryUserPosts | screens/UserProfileScreen.js:66-70 | exactly the user's timestamped posts, each once, newest first |
| UserProfileView.HandleLikeWrites | screens/UserProfileScreen.js:100-110 | the intended write is the post card's write for the membership read from the handed-in list |
| UserProfileView.HandleLikeDiscrepancy | screens/UserProfileScreen.js:94-115 | the intended write flips the user's membership and no one else's; on a post nobody liked it gives `["u"]`, where the handler as written leaves the post unchanged |
| UserProfileView.HandleLikeTwice | screens/UserProfileScreen.js:94-115 | two intended likes with refreshed lists restore the likes |
| UserProfileView.UserProfileScreen.constructor | screens/UserProfileScreen.js:16-18 | empty state, loading |
| UserProfileView.UserProfileScreen.LoadUserData | screens/UserProfileScreen.js:37-61 | the stored profile, or the fallback record when it is missing or the read fails |
| UserProfileView.UserProfileScreen.LoadUserPosts | screens/UserProfileScreen.js:63-92 | the user's posts, each with its id, newest first; a failed query keeps the list; loading ends |
| UserProfileView.UserProfileScreen.HandleLikeAsWritten | screens/UserProfileScreen.js:94-115 | as written, the handler throws before any write, so the database is unchanged |
| UserProfileView.UserProfileScreen.HandleLike | screens/UserProfileScreen.js:94-115 | the intended single `likes` write to an existing post; nothing else changes |
| CreatePostView.ValidatePost | screens/CreatePostScreen.js:156-165 | the message is one of the two validation messages |
| CreatePostView.ValidatePostIff | screens/CreatePostScreen.js:156-165 | the form passes exactly with an image and a non-blank description; the image is checked first |
| CreatePostView.StoredLocation | screens/CreatePostScreen.js:177 | the stored location is never empty |
| CreatePostView.PostDoc | screens/CreatePostScreen.js:171-180 | the post literal from its normalised fields; stated by PostDocFields |
| CreatePostView.PostData | screens/CreatePostScreen.js:171-180 | the `postData` the screen adds; stated by PostDataFields and PostDataText |
| CreatePostView.StoredLocationIff | screens/CreatePostScreen.js:177 | the default exactly for a blank input, the trimmed input otherwise |
| CreatePostView.PostDocFields | screens/CreatePostScreen.js:171-180 | the eight fields of a post document, without `likesCount` or `imageUri` |
| CreatePostView.PostDataFields | screens/CreatePostScreen.js:171-180 | the author's id, display name or 'Usuário', no likes; no `likesCount`, so its likes are not counted |
| CreatePostView.PostDataText | screens/CreatePostScreen.js:176-177 | the stored description is trimmed and stays so under another trim |
| CreatePostView.PostDataDeleteGate | screens/CreatePostScreen.js:171-180 | a post stored by this screen offers deletion to its author alone, and deleting it never touches the file system because the image is under `image` |
| CreatePostView.AddressNeverBlank | screens/CreatePostScreen.js:131 | the address always keeps its comma |
| CreatePostView.AddressString | screens/CreatePostScreen.js:131 | the trimmed address template; stated by AddressNeverBlank and AddressUntrimmed |
| CreatePostView.AddressAllMissing | screens/CreatePostScreen.js:131 | (example) with no part known the address is ",  -" |
| CreatePostView.AddressUntrimmed | screens/CreatePostScreen.js:131 | with non-space outer ends, the address is the template unchanged |
| CreatePostView.PostImagePathInjective | screens/CreatePostScreen.js:97-98 | different timestamps give different image paths |
| CreatePostView.PostImagePath | screens/CreatePostScreen.js:97-98 | `documentDirectory + post_<ms>.jpg`; stated by PostImagePathInjective and SaveImagePathPost |
| CreatePostView.CreatePostScreen.constructor | screens/CreatePostScreen.js:22-25 | an empty form, not loading |
| CreatePostView.CreatePostScreen.CreatePost | screens/CreatePostScreen.js:156-195 | a failed check writes nothing; otherwise exactly one post is added, no `postsCount` changes, and the alert matches |
| EditProfileView.Stored | screens/EditProfile.js:41-47 | the stored document exactly when it exists |
| EditProfileView.LoadedEditData | screens/EditProfile.js:34-63 | without a document, the display name and an empty phone; a loaded picture is never empty |
| EditProfileView.LoadedFromDocument | screens/EditProfile.js:41-47 | a stored non-empty name wins over the display name; a non-empty phone and picture are taken |
| EditProfileView.HasChanges | screens/EditProfile.js:209-213 | `handleGoBack`'s change test; stated by HasChangesAfterLoad |
| EditProfileView.HasChangesAfterLoad | screens/EditProfile.js:209-213 | right after loading, the form counts as changed exactly when the document has a phone, a picture, or a name other than the display name |
| EditProfileView.ValidateForm | screens/EditProfile.js:151-168 | the message is one of the three validation messages |
| EditProfileView.CheckTrimmed | screens/EditProfile.js:151-168 | the three checks on the trimmed name and phone; stated by ValidateFormIff |
| EditProfileView.ValidateFormIff | screens/EditProfile.js:151-168 | passes exactly with a trimmed name of two or more characters and a phone that is blank or has ten or more; message order |
| EditProfileView.SavedFields | screens/EditProfile.js:185-192 | the five merged fields: trimmed name and phone, e-mail, picture, and the update time |
| EditProfileView.SavedUsers | screens/EditProfile.js:185-192 | the users after the merging `setDoc`; stated by SaveKeepsOtherFields and SavedDocument |
| EditProfileView.SaveKeepsOtherFields | screens/EditProfile.js:185-192 | the merge keeps the follow lists and every other stored field, and every other user |
| EditProfileView.MergedLoadsBack | screens/EditProfile.js:34-63 | a valid form saved and loaded again reads back trimmed |
| EditProfileView.TrimmedFormValid | screens/EditProfile.js:151-168 | the trimmed form of a valid form is valid |
| EditProfileView.SavedDocument | screens/EditProfile.js:185-192 | the saved document is the old one merged with the fields, or the fields alone |
| EditProfileView.SaveThenLoad | screens/EditProfile.js:170-207 | saving then loading gives back the trimmed form, which validates again |
| EditProfileView.SaveImagePath | screens/EditProfile.js:134-149 | the path lies under the document directory and ends in ".jpg" |
| EditProfileView.SaveImagePathPost | screens/EditProfile.js:136-137 | with the prefix "post" it is the create-post screen's path |
| EditProfileView.ProfileAndPostPathsDiffer | screens/EditProfile.js:136-137 | a profile picture never lands on a post picture's path |
| EditProfileView.SaveImagePathInjective | screens/EditProfile.js:136-137 | with one prefix, different timestamps give different paths |
| EditProfileView.EditProfileScreen.constructor | screens/EditProfile.js:22-28 | an empty form with no picture, loading |
| EditProfileView.EditProfileScreen.LoadUserData | screens/EditProfile.js:34-63 | with nobody signed in nothing changes; a failed read alerts; otherwise the form is `LoadedEditData`; loading ends |
| EditProfileView.EditProfileScreen.SaveProfile | screens/EditProfile.js:170-207 | an invalid form writes nothing; a failed auth update writes nothing; otherwise the merge is stored and the success alert shown |
| CredentialPatterns.IndexOf | screens/RegisterScreen.js:22 | the first occurrence of a character, or none when it is absent |
| CredentialPatterns.IndexOfFirst | screens/RegisterScreen.js:22 | an occurrence with none before it is the one found |
| CredentialPatterns.MatchSplitIsValid | screens/RegisterScreen.js:22 | every split the expression accepts passes the check |
| CredentialPatterns.ValidIsMatch | screens/RegisterScreen.js:22 | every string the check accepts matches the expression |
| CredentialPatterns.EmailPatternIff | screens/RegisterScreen.js:22 | the e-mail check accepts exactly the language of `regexEmail` |
| CredentialPatterns.ValidEmailNonEmpty | screens/RegisterScreen.js:22 | a valid e-mail has at least five characters |
| CredentialPatterns.IsValidEmail | screens/RegisterScreen.js:22 | `regexEmail.test`, computed by cutting at the first '@'; EmailPatternIff equates it with the expression's language |
| CredentialPatterns.ClassesPresent | screens/RegisterScreen.js:23 | a character class is gathered exactly when some character belongs to it |
| CredentialPatterns.PasswordPatternIff | screens/RegisterScreen.js:23 | the password check accepts exactly the language of `regexPassword` |
| CredentialPatterns.IsStrongPassword | screens/RegisterScreen.js:23 | `regexPassword.test`, computed in one pass over the characters; PasswordPatternIff equates it with the expression's language |
| LoginView.LoginCheck | screens/LoginScreen.js:29-47 | the message is one of the three login messages |
| LoginView.LoginCheckIff | screens/LoginScreen.js:29-47 | sign-in is attempted exactly with a valid e-mail and a strong password; message order |
| LoginView.LoginCheckMatchesRegexes | screens/LoginScreen.js:21-22 | the same, on the languages of the two expressions |
| LoginView.LoginScreen.constructor | screens/LoginScreen.js:24-27 | empty fields and no error |
| LoginView.LoginScreen.SetEmail | screens/LoginScreen.js:57-59 | the e-mail changes; the error clears when the value changed |
| LoginView.LoginScreen.SetPassword | screens/LoginScreen.js:57-59 | the password changes; the error clears when the value changed |
| LoginView.LoginScreen.Login | screens/LoginScreen.js:29-55 | a failed check shows its message; otherwise the error line is the sign-in error's message, or empty |
| RegisterView.RegisterCheck | screens/RegisterScreen.js:31-45 | the message is one of the three register messages |
| RegisterView.RegisterCheckIff | screens/RegisterScreen.js:31-45 | an account is attempted exactly with a non-empty name and phone, a valid e-mail and a strong password |
| RegisterView.RegisterAgreesWithLogin | screens/RegisterScreen.js:37-45 | with all four fields given, registering reports exactly what logging in reports |
| RegisterView.RegisteredDoc | screens/RegisterScreen.js:54-58 | the document holds exactly the name, phone and e-mail as typed |
| RegisterView.RegisteredDocLacksProfile | screens/RegisterScreen.js:54-58 | the registered document has no follow lists, no `postsCount`, no bio or times, so it is not the service's profile |
| RegisterView.RegisterKeepsSymmetric | screens/RegisterScreen.js:54-58 | storing a new, unreferenced user keeps follow symmetry |
| RegisterView.RegisterScreen.constructor | screens/RegisterScreen.js:25-29 | empty fields and no error |
| RegisterView.RegisterScreen.SetName | screens/RegisterScreen.js:68-70 | the name changes; the error clears when the value changed |
| RegisterView.RegisterScreen.SetPhone | screens/RegisterScreen.js:68-70 | the phone changes; the error clears when the value changed |
| RegisterView.RegisterScreen.SetEmail | screens/RegisterScreen.js:68-70 | the e-mail changes; the error clears when the value changed |
| RegisterView.RegisterScreen.SetPassword | screens/RegisterScreen.js:68-70 | the password changes; the error clears when the value changed |
| RegisterView.RegisterScreen.Register | screens/RegisterScreen.js:31-66 | a failed check writes nothing; a rejected sign-up shows its message; an accepted one replaces the user document with the registered one |
| ForgotPasswordView.ResetCheck | screens/ForgotPasswordScreen.js:26-35 | the message is one of the two reset messages |
| ForgotPasswordView.ResetCheckIff | screens/ForgotPasswordScreen.js:26-35 | a reset is requested exactly for an e-mail that matches `regexEmail` |
| ForgotPasswordView.ResetAgreesWithLogin | screens/ForgotPasswordScreen.js:32-35 | the reset screen refuses an e-mail exactly where the login screen would |
| ForgotPasswordView.ResetErrorMessage | screens/ForgotPasswordScreen.js:44-49 | the not-found message exactly for `auth/user-not-found`, the generic message otherwise |
| ForgotPasswordView.ForgotPasswordScreen.constructor | screens/ForgotPasswordScreen.js:23-24 | an empty e-mail and no error |
| ForgotPasswordView.ForgotPasswordScreen.SetEmail | screens/ForgotPasswordScreen.js:53-55 | the e-mail changes; the error clears when the value changed |
| ForgotPasswordView.ForgotPasswordScreen.ResetPassword | screens/ForgotPasswordScreen.js:26-51 | a failed check shows its message; a sent request alerts; a failed one shows the matching error |

## Left out

- Firebase Auth calls are not modelled. Their outcomes are parameters: a uid or an error for sign-up, an optional error for sign-in and for the password reset, and a flag for `updateProfile`.
- `serverTimestamp()` and `new Date()` are a `now` parameter. `Date.now()` is a `timestamp` parameter.
- `addDoc`'s generated id is a parameter that must be fresh.
- Real-time listening (`onSnapshot`, the home feed) is left out. `loadUserPosts` is modelled as one query result.
- Concurrency is left out. The two writes of `Promise.all` in `handleFollow` are applied in order; both are attempted, and the order does not change the result. (`toggleFollowUser` awaits its two writes one after the other, and the model stops after a failing first write.)
- `Alert.alert`, its buttons, `navigation.goBack` and `navigation.navigate` are left out. A method returns the alert text it would show.
- The file system is left out: `FileSystem.copyAsync`, `deleteAsync` and `getInfoAsync`. Only the destination path is modelled, and for the post card's delete, a flag saying that a file-system call throws.
- The image picker, the camera, location permissions and `reverseGeocodeAsync` are left out. Their results are the screen's fields.
- Rendering, styles and date formatting (`formatDate`) are left out.
- Firestore security rules and read failures are left out. A failing read or query is a `readFails`/`queryFails` parameter.
- The modules `config/firebase` and `contexts/AuthContext` imported by components/UserCard.js are not part of this model. The signed-in user is a parameter.
- UserCardView.FormatFollowersCount: the 'M' and 'K' labels keep the count, not the `toFixed(1)` text, because floating-point formatting is not modelled.
- Text.UpperChar: maps only the ASCII letters, because `toUpperCase` on the rest of Unicode is not modelled.
- Text.Split: `split` and `length` work on Unicode scalar values, not on UTF-16 code units. The four lines below name the members where this shows.
- EditProfileView.ValidateForm: lengths count scalar values, not UTF-16 code units. A name made of one character outside the Basic Multilingual Plane (an emoji) has length 2 in the source and passes the two-character check, but fails it here.
- CredentialPatterns.PasswordPatternIff: `.{8,}` counts UTF-16 code units in the source and scalar values here. "aA1!" followed by two emoji passes the source's check but fails the model's (CredentialPatterns.IsStrongPassword has the same gap).
- UserProfileView.AvatarLetter: `charAt(0)` takes one UTF-16 code unit. For a name starting with an emoji, the source shows a lone surrogate and the model shows the whole emoji.
- UserCardView.GetInitials: `word[0]` and `substring(0, 2)` work on UTF-16 code units in the source and on scalar values here. The same emoji-first name differs.
- Documents.StrField: a field that is present but not a string reads as absent. In the source, `||` passes such a value on, and a later string method may throw (`getInitials(5)` throws a TypeError in `split`). Documents.ArrayField likewise reads a non-array `likes` or `following` as empty, where `includes` on a string would do a substring test.
- UserProfileView.QueryUserPosts: posts with equal `createdAt` may come out in any order, because Firestore's tie order is not modelled. Posts without a timestamp are not listed.
- Documents.ApplyWrites: `increment` on a missing or non-numeric field starts from 0, and numbers are integers, because floating-point counters are not modelled.

## Findings

| source | as written | input that shows it | evidently intended | confidence | as-written member | corrected member |
|---|---|---|---|---|---|---|
| screens/UserProfileScreen.js:94-115 | `handleLike` calls `updateDoc`, `arrayUnion`, `arrayRemove` and `Alert`, none of which the file imports (lines 10-11). It is passed to each card as `onLike` (line 120), but PostCard never reads that prop (components/PostCard.js:18), so nothing calls it: likes on this screen go through the card's own handler. Were it called, it would throw a ReferenceError before any write, and its `catch` would throw again on `Alert` | calling it on a post with no likes, as user "u": the post stays without likes | one `updateDoc` that adds the user to `likes` or removes them, as in components/PostCard.js | not executed | UserProfileView.UserProfileScreen.HandleLikeAsWritten (with UserProfileView.HandleLikeDiscrepancy) | UserProfileView.UserProfileScreen.HandleLike (with UserProfileView.HandleLikeTwice) |
