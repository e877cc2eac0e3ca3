# Social-network client: post-list and input logic

This project models the client-side data logic of a mobile social-network
app and proves properties of it in Dafny. Five parts are covered:

- **Post card** (`Cards`). Once an edit, delete, like or unlike request
  succeeds, the card rewrites the in-memory list of posts. Edits and likes
  map over the list by post id, and deletes filter it. When the request
  fails, the list is left unchanged.
- **Recent-posts feed** (`Feed`). The feed takes the current user's id from
  the stored user record. It loads the posts and flattens each post's server
  `likes` entries (objects or raw ids) into a list of ids. It sets `isLiked`
  by comparing the string forms of those ids with the user's id.
- **Followed-users feed** (`Followed`). This feed normalises likes the same
  way. It also records on each post whether the user follows the post's
  author.
- **Sign-up screen** (`Signup`). Four checks run in a fixed order: every
  field filled, user name length, email pattern, password length. Only when
  all pass does the screen set its loading state and the progress counter
  "0 of 12".
- **Profile placeholder** (`Avatar`). The badge shows the upper-cased first
  character of a name. Its colour comes from a 26-entry table keyed by char
  codes 65 to 90.

The like normalisation is written twice in the source, once in each feed
screen. It is defined once here, in `PostData`. JavaScript values and the
built-ins the screens use live in `Js`: truthiness, `||`, property access,
`String(…)`, `trim()`, the white-space class `\s`, `map` and `filter`. The
white-space set is that of ECMAScript's WhiteSpace and LineTerminator
productions (ECMA-262, sections 12.2 and 12.3).

A server call is not run. Each one becomes an input: a success flag for
the card's handlers, or a `Completion` (a normal result or a throw) for
fetches and for the stored user record. The follow check `isUserFollowed`
is passed in as a function.

## Model

| member | source | states |
|---|---|---|
| `PostData.LikeId` | src/screens/FeedScreen.js:43-54 | a like entry stands for its truthy `user_id` if it is an object that has one, else its truthy `id`, else the entry itself; a `null` entry (whose `typeof` is `'object'`) throws, and nothing else does |
| `PostData.NormaliseLikes` | src/screens/FeedScreen.js:40-55 | a `likes` value that is not an array normalises to the empty list; an array normalises to a list of the same length whose i-th id is that of the i-th entry, and throws exactly when it holds `null` |
| `PostData.IsLikedBy` | src/screens/FeedScreen.js:57 | `isLiked` holds iff some normalised id has the same `String(…)` form as the current user id |
| `PostData.WithLikeStatus` | src/screens/FeedScreen.js:61-65 | a post's enriched form keeps its id, content and other properties, takes the normalised likes and an `isLiked` that agrees with them; it throws iff normalisation does |
| `PostData.CurrentUserId` | src/screens/FeedScreen.js:19 | the current user id is `id` if truthy, else `user_id` if truthy, else whatever `userId` holds; with no user record it is undefined (the same line is src/screens/FollowedScreen.js:29) |
| `PostData.SameStringSameKind` | src/screens/components/PostCard.js:79 | for two numbers or two strings, equal string forms mean `===`-equal ids, so the strict filter and string comparison agree |
| `PostData.NumberAndStringIdsCollide` | src/screens/FeedScreen.js:57 | the number 5 and the string "5" have the same string form but are not `===` |
| `Feed.EnrichFeed` | src/screens/FeedScreen.js:38-66 | mapping the fetched posts succeeds iff every post's likes normalise |
| `Feed.EnrichFeedKeepsPosts` | src/screens/FeedScreen.js:38-66 | the loaded list has the fetched length and order; each post keeps its id, content and other properties, gets its normalised likes, and has `isLiked` consistent with them |
| `Feed.FeedScreen.constructor` | src/screens/FeedScreen.js:8-10 | the screen starts with no posts, not loading, and a null user id |
| `Feed.FeedScreen.LoadUserId` | src/screens/FeedScreen.js:16-25 | the user id becomes the first truthy of `id`, `user_id`, `userId` of the stored record; if reading the record throws, the id is kept |
| `Feed.FeedScreen.LoadPosts` | src/screens/FeedScreen.js:27-74 | with a falsy user id nothing changes and no request is made; otherwise `loading` ends false, and the posts are replaced by the enriched list only when both fetching and normalising succeed |
| `Followed.WithFollowStatus` | src/screens/FollowedScreen.js:49-82 | a post is enriched as in the recent feed, with `isFollowed` set to the follow answer for its own `user_id`; it throws iff normalisation or the follow check throws |
| `Followed.EnrichFollowed` | src/screens/FollowedScreen.js:48-83 | `Promise.all` over the posts succeeds iff every post's likes normalise and every follow check answers |
| `Followed.EnrichFollowedKeepsPosts` | src/screens/FollowedScreen.js:48-85 | the loaded list has the fetched length and order; each post keeps id and content, gets its normalised likes with a consistent `isLiked`, and its properties gain exactly `isFollowed = isUserFollowed(post.user_id)` |
| `Followed.FollowedScreen.constructor` | src/screens/FollowedScreen.js:18-20 | the screen starts with no posts, not loading, and a null user id |
| `Followed.FollowedScreen.LoadUserId` | src/screens/FollowedScreen.js:26-35 | the user id becomes the first truthy of `id`, `user_id`, `userId`; if reading the record throws, it is kept |
| `Followed.FollowedScreen.LoadPosts` | src/screens/FollowedScreen.js:37-91 | with a falsy user id nothing changes and no request is made; otherwise `loading` ends false, and the posts are replaced only when every step succeeds |
| `Js.Trim` | src/screens/components/PostCard.js:28 | `trim()` is empty iff the text is all white space; otherwise it starts and ends with a non-space character |
| `Js.TrimCutsOnlySpace` | src/screens/components/PostCard.js:28-34 | the trimmed text is a slice of the original with only white space cut off either end |
| `Js.TrimIdempotent` | src/screens/components/PostCard.js:28-34 | trimming the trimmed text changes nothing, so the text sent and the text saved into the list are already trimmed |
| `Cards.EditPosts` | src/screens/components/PostCard.js:32-37 | the edited list has the same length; posts with the edited id get the new content, and every other post is unchanged |
| `Cards.EditKeepsEverythingButContent` | src/screens/components/PostCard.js:32-37 | an edit keeps the ids in order and every post's likes, `isLiked` and other properties, so like status stays consistent |
| `Cards.EditIdempotent` | src/screens/components/PostCard.js:32-37 | saving the same edit twice gives the same list as saving it once |
| `Cards.DeletePosts` | src/screens/components/PostCard.js:58 | a post remains after a delete iff it was in the list and its id differs from the deleted one |
| `Cards.DeleteKeepsOrder` | src/screens/components/PostCard.js:58 | deleting distributes over concatenation, so the remaining posts keep their relative order |
| `Cards.DeleteCount` | src/screens/components/PostCard.js:58 | the list shrinks by exactly the number of posts that have the deleted id |
| `Cards.DeleteAbsentId` | src/screens/components/PostCard.js:58 | deleting an id that no post has leaves the list unchanged |
| `Cards.DeleteIdempotent` | src/screens/components/PostCard.js:58 | deleting the same id twice is deleting it once |
| `Cards.AddLike` | src/screens/components/PostCard.js:88-92 | liking sets `isLiked` and appends the user id at the end of `likes`, which grows by exactly one; id, content and other properties are kept |
| `Cards.RemoveLike` | src/screens/components/PostCard.js:76-80 | unliking clears `isLiked` and keeps exactly the likes whose string form differs from the user's, so no occurrence of the user id is left (the corrected filter; see Findings) |
| `Cards.RemoveLikeAsWritten` | src/screens/components/PostCard.js:79 | the source's filter keeps exactly the likes that are `!==` the user id, each once and in their order, and clears `isLiked`; id, content and other properties are kept |
| `Cards.LikePosts` | src/screens/components/PostCard.js:86-95 | after a like the list keeps its length and ids in order; other posts are unchanged; each matching post becomes its `AddLike` form: liked, with the user id appended and its id, content and other properties kept |
| `Cards.UnlikePosts` | src/screens/components/PostCard.js:74-83 | after an unlike the list keeps its length and ids in order; other posts are unchanged; each matching post becomes its `RemoveLike` form: unliked, losing the user's likes, with id, content and other properties kept |
| `Cards.UnlikePostsAsWritten` | src/screens/components/PostCard.js:74-83 | the source's unlike keeps the list's length and ids; posts with other ids are unchanged; each matching post has `isLiked` cleared and keeps exactly the likes `!==` the user id, in order and each once, so the shown count (line 120) is that list's length |
| `Cards.LikeAndUnlikeKeepConsistency` | src/screens/components/PostCard.js:70-96 | if every post's `isLiked` agrees with its likes, that still holds after a like or an unlike |
| `Cards.LikeThenUnlikeRestores` | src/screens/components/PostCard.js:74-95 | liking a post the user had not liked and then unliking it restores the list exactly, `likes` included |
| `Cards.LikeThenUnlikeAsWrittenRestores` | src/screens/components/PostCard.js:74-95 | with the card's own strict filter, liking a post whose likes do not hold the user id and then unliking it restores the list exactly, other likes kept in order |
| `Cards.AsWrittenUnlikeAgreesForSameKindIds` | src/screens/components/PostCard.js:79 | when the likes and the user id are all numbers or all strings, the source's strict filter equals the corrected one |
| `Cards.AsWrittenUnlikeLeavesStaleLike` | src/screens/components/PostCard.js:79 | with like 5 and user "5", the source's unlike clears `isLiked` but keeps the like, breaking consistency |
| `Cards.PostCard.constructor` | src/screens/components/PostCard.js:9-11 | a card starts with its props, an empty edit text and the edit dialog closed |
| `Cards.PostCard.HandleEdit` | src/screens/components/PostCard.js:22-25 | opening the editor copies the post's content into the edit text and shows the dialog |
| `Cards.PostCard.CloseEditModal` | src/screens/components/PostCard.js:146 | cancelling hides the edit dialog |
| `Cards.PostCard.SaveEdit` | src/screens/components/PostCard.js:27-46 | blank or all-space text sends nothing and changes nothing; otherwise the trimmed text is sent, and only on success is the list edited and the dialog closed |
| `Cards.PostCard.HandleDelete` | src/screens/components/PostCard.js:48-68 | a delete request is sent only after confirmation, and only a successful one filters the post out of the list |
| `Cards.PostCard.HandleLike` | src/screens/components/PostCard.js:70-101 | a liked post sends an unlike, any other post a like; the list changes only on success, and like-status consistency of the list is preserved (with the corrected unlike filter; see Findings and Left out) |
| `Signup.ValidateEmailMatchesPattern` | src/screens/SignupScreen.js:42-43 | the email pattern matches iff the text has no white space, exactly one `@` with something before it, and after it a `.` with at least one character on each side |
| `Signup.CheckSignup` | src/screens/SignupScreen.js:45-64 | the first failing check decides the error: missing field, then user name under 3, then invalid email, then password under 8; it accepts iff all pass |
| `Signup.PasswordRulesShownButNotChecked` | src/screens/SignupScreen.js:61-64 | every password of at least 8 characters passes, whatever its characters, even with no upper-case letter or symbol, although the form lists both (lines 158-163); its first 7 characters alone fail as too short |
| `Signup.SignupScreen.constructor` | src/screens/SignupScreen.js:20-24 | the form starts empty, not loading and with no progress |
| `Signup.SignupScreen.HandleSignup` | src/screens/SignupScreen.js:45-67 | the result is the checks' verdict; on failure `loading` and `progress` keep their values; on acceptance `loading` is true and progress is 0 of 12 |
| `Signup.SignupScreen.ReportProgress` | src/screens/SignupScreen.js:70-72 | a progress report updates the counter only while the screen is mounted |
| `Signup.SignupScreen.FinishSignup` | src/screens/SignupScreen.js:84-89 | when the request settles, a mounted screen leaves loading and drops the counter; an unmounted one is untouched |
| `Avatar.ToUpper` | src/screens/components/ProfilePlaceholder.js:4 | an ASCII lower-case letter maps to its upper-case letter (code minus 32); every other character is unchanged |
| `Avatar.ColorFor` | src/screens/components/ProfilePlaceholder.js:7-17 | the table gives a colour exactly for codes 65..90, the entry for that letter |
| `Avatar.Placeholder` | src/screens/components/ProfilePlaceholder.js:3-24 | an empty name throws; otherwise the badge shows the upper-cased first character |
| `Avatar.LetterGetsItsColor` | src/screens/components/ProfilePlaceholder.js:21 | a name starting with an ASCII letter, in either case, gets the table colour of the upper-case letter |
| `Avatar.NonLetterGetsNoColor` | src/screens/components/ProfilePlaceholder.js:5 | a name starting with anything other than an ASCII letter gets an undefined background colour (under ASCII case mapping; see Left out) |
| `Avatar.CaseDoesNotMatter` | src/screens/components/ProfilePlaceholder.js:4-5 | a name starting with a lower-case letter gets the same badge as the name with that letter upper-cased |
| `Followed.FollowCheckAsImportedRejectsFeed` | src/screens/FollowedScreen.js:66-85 | with the follow check as imported (a call that always throws), any non-empty followed feed is rejected |
| `Avatar.ColorsDistinct` | src/screens/components/ProfilePlaceholder.js:7-17 | the table has 26 entries and no two letters share a colour |

## Findings

| source | as written | input that shows it | evidently intended | confidence | as-written member | corrected member |
|---|---|---|---|---|---|---|
| src/screens/components/PostCard.js:79 | unlike keeps the likes `!==` the current user id, while both feeds set `isLiked` by comparing `String(…)` forms | a post whose likes hold the number 5, seen by the current user id "5" (a string): it loads as liked; after unlike, `isLiked` is false but the like stays, so the count does not drop until the list is fetched again, and a second tap sees `isLiked` false and likes it again, appending "5" beside 5. Whether ids ever come in mixed kinds depends on src/utils/auth, which is not part of this model | remove every like whose string form equals the current user's, so `isLiked` and `likes` keep agreeing | medium, not executed | `Cards.UnlikePostsAsWritten`, `Cards.AsWrittenUnlikeLeavesStaleLike` | `Cards.UnlikePosts`, `Cards.LikeAndUnlikeKeepConsistency` |
| src/screens/FollowedScreen.js:15-70 | imports `isUserFollowed` from src/utils/users.js, which exports only `getUserProfile`, `getUserPosts`, `followUser` and `unfollowUser`, so line 70 calls `undefined`, which throws | any followed feed with one post: every callback throws, `Promise.all` rejects, and the posts are never set | a follow check that answers whether the current user follows the post's author | medium, not executed | `Followed.FollowCheckAsImportedRejectsFeed` | `Followed.EnrichFollowedKeepsPosts` |

`Cards.PostCard.HandleLike` uses the corrected `Cards.UnlikePosts`. Where
the like ids and the user id are all numbers or all strings, the two
filters agree (`Cards.AsWrittenUnlikeAgreesForSameKindIds`).

## Left out

- The session client (`authService`: `login`, `signUp`, `checkServerStatus`, `authenticatedRequest`, `getToken`, `getUserData` and its retry loop) lives in src/utils/auth, which is not part of this model. Its results enter as parameters, and the only trace kept is the sign-up progress "0 of 12".
- The log-in screen: its only logic is a two-field emptiness check around the unseen `login` call.
- The create-post and profile screens, both navigators, the bottom bar and the logo: they only render and navigate.
- Rendering, `Alert` dialogs and console logging: no state of the model depends on them.
- `formatDate`: it depends on `Date` and locale formatting.
- The badge's `fontSize: props.size / 2`: it is floating point.
- Asynchrony: `await`, `useEffect`, focus listeners and `Promise.all` scheduling are not modelled. Each handler runs to completion with its request outcome given.
- The `mountedRef` guard of the server probe on mount is left out with the probe. The sign-up progress and `finally` steps take "mounted" as a parameter.
- Stale closures are not modelled. The card in the source rewrites the `posts` it captured at render time, while the model rewrites the current list.
- The `Array.isArray(response) ? response : []` fallback in src/utils/posts.js is not modelled. A fetch yields a list of posts, and the id, content, likes and other properties of each post are given.
- A response element that is not an object, and post content that is not a string, are not modelled.
- JavaScript numbers are modelled as integers, so NaN, fractions and exponent notation are missing. `String(n)` is decimal.
- `===` on objects and arrays compares identity in JavaScript, but here it compares structure. Post and user ids are numbers or strings in practice.
- Strings are sequences of code points, not of UTF-16 code units. `length` and `name[0]` differ from the source for characters outside the Basic Multilingual Plane.
- Cards.PostCard.HandleLike: uses the corrected `Cards.UnlikePosts`, so where number and string ids are mixed it drops a like that the strict filter at src/screens/components/PostCard.js:79 keeps (the as-written filter is `Cards.UnlikePostsAsWritten`).
- Avatar.ToUpper, Avatar.Placeholder and Avatar.NonLetterGetsNoColor: cover ASCII letters only. JavaScript's full case mapping would also give some non-ASCII first characters a colour ('ß' becomes "SS", 'ı' becomes "I"), and this model gives them none.
- A post's other properties (`fields`) are assumed never to hold the keys `id`, `content`, `likes` or `isLiked`. The server sends those as the post's own fields, and the spread `{...post, likes, isLiked}` would overwrite any duplicate, while the model would keep both.
- The text-field setters (`onChangeText`) are left out: each one only assigns its field.
