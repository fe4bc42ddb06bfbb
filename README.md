# MiniSocial client core in Dafny

This project models the small amount of deterministic logic in a React client
for a social network on a hosted Postgres backend. The client has a post feed,
likes, comments, a user directory with follow buttons, and profile pages.
The model covers six components:

- **PostCard** (`post_card.dfy`):
  - the relative-time label, which scans a table of units from years down to seconds and pluralises the unit;
  - the like toggle, guarded by an `isLiking` flag;
  - the owner-only, confirmed post delete.
- **Comments** (`comments.dfy`):
  - the short relative-time label (`5m ago`, `3h ago`, `2d ago`);
  - the comment submit, which trims and rejects blank input and clears the box only on success;
  - the delete;
  - the rule that only a comment's author sees the delete control (`Comments.CommentsView.DeleteControls`, built on `Comments.OwnsComment`).
- **CreatePost** (`create_post.dfy`): the post form, with its trim and blank guards, the field reset on success and the image-field toggle.
- **Explore** (`explore.dfy`): the case-insensitive user search, which hides the signed-in user, and the follow buttons backed by a local set of followed ids.
- **Profile** (`profile.dfy`):
  - which profile a page shows and whether it is the viewer's own;
  - loading the profile with its posts enriched by like and comment counts;
  - the follow button with its optimistic follower counter.
- **App** (`app.dfy`): the navigation state (`currentView`, `viewingUsername`) and the choice of screen.

Shared modules:

- **Backend** (`backend.dfy`) describes the tables as the components see them:
  - `profiles`, `posts` and `comments` are sequences in creation order, so a query ordered by `created_at` is a filter (ascending) or its reverse (descending);
  - `likes` and `follows` are sets of pairs.

  Every write takes the backend's answer as an input `Reply`:
  - `Applied`: the row changed;
  - `Refused`: the client returned an `{ error }` object;
  - `Threw`: the awaited promise rejected.

  The follow handlers of the directory and of the profile page never look at the returned error object. So under `Refused` the store is unchanged while their local state still flips. The like button keeps no local like state: it only clears `isLiking`, and the liked flag comes from the reloaded post. `Explore.RefusedWriteDiverges` and `Profile.RefusedWriteDiverges` state this divergence. The model makes no claim that local state mirrors the store in general. It proves they stay in step only when the write is applied (`Explore.ToggledTracksAppliedWrite`, `Profile.FlipTracksAppliedWrite`).
- **Text** (`text.dfy`) holds `trim` over the ECMAScript whitespace set, ASCII `toLowerCase`, `includes`, and the string-ending facts the label proofs use.
- **Decimal** (`decimal.dfy`) prints a count as a template literal does and reads it back.
- **Seqs** (`seqs.dfy`) holds filter and reverse.
- **Optional** (`option.dfy`) holds the option type.

Labels are tied to their meaning by round trips: each printed label parses back to the age it came from, so different ages never print the same text.

## Model

| member | source | states |
|---|---|---|
| PostCard.ElapsedSeconds | src/components/PostCard.tsx:57 | the elapsed whole seconds `s` satisfy `s*1000 <= now-created < (s+1)*1000` (floor, also for future timestamps) |
| PostCard.FloorDiv | src/components/PostCard.tsx:68-69 | `Math.floor(x/d)` for a positive unit: `q*d <= x < (q+1)*d`, and the count is at least 1 exactly when `x >= d` |
| PostCard.FirstFitting | src/components/PostCard.tsx:67-69 | the loop stops at the first unit whose floored count is at least 1; every unit before it gives a count below 1 |
| PostCard.TimeAgo | src/components/PostCard.tsx:56-74 | "just now" exactly when fewer than 1 second elapsed, negatives included; otherwise the count is at least 1, `count*unit <= s < (count+1)*unit`, and every larger unit exceeds `s` |
| PostCard.UnitLabel | src/components/PostCard.tsx:58-65 | no unit name is empty or ends in "s" |
| PostCard.TailEnding | src/components/PostCard.tsx:70 | the text after the count ends in " ago", preceded by "s" when the count is not 1 and by the unit name's last letter when it is 1 |
| PostCard.LabelEnding | src/components/PostCard.tsx:70 | the same holds for the whole label |
| PostCard.PluralExactlyWhenNotOne | src/components/PostCard.tsx:70 | the label ends in "s ago" exactly when the count is not 1 |
| PostCard.TailsDiffer | src/components/PostCard.tsx:58-70 | two different units never print the same text after the count |
| PostCard.UnitOfTail | src/components/PostCard.tsx:58-70 | finds the unit whose printed tail is the given text, or reports that none has it |
| PostCard.Label | src/components/PostCard.tsx:70-73 | the label is "just now" exactly for `JustNow`; any other label starts with a decimal digit and ends in " ago" |
| PostCard.ParseLabelInverts | src/components/PostCard.tsx:67-73 | every label the card prints reads back as the age it was printed from |
| PostCard.LabelInjective | src/components/PostCard.tsx:67-73 | two ages that print the same label are equal |
| PostCard.LikeRequest | src/components/PostCard.tsx:19-34 | no write without a profile or while a like is in flight; otherwise one write on the pair (post, viewer), a delete exactly when the card shows the post as liked |
| PostCard.LikeToggles | src/components/PostCard.tsx:22-34 | with the card in step with the store and the write applied, the viewer's like flips, no other like changes, and a second click on the reloaded card restores the likes |
| PostCard.LikeButton.constructor | src/components/PostCard.tsx:16 | a card starts with no like in flight |
| PostCard.LikeButton.HandleLike | src/components/PostCard.tsx:18-41 | sends exactly the `LikeRequest` write and the store changes by it alone; `isLiking` is false after any handled click whatever the reply, and untouched by an ignored one |
| PostCard.OwnsPost | src/components/PostCard.tsx:44 | defines ownership: a signed-in viewer whose id is the post's author; `PostCard.HandleDelete` sends a delete only for an owned, confirmed post |
| PostCard.HandleDelete | src/components/PostCard.tsx:43-54 | a delete goes out exactly when the viewer owns the post and confirmed; when applied, every row with that id is gone and no row was added |
| Comments.TimeAgo | src/components/Comments.tsx:74-83 | "just now" iff `s < 60`; minutes iff `60 <= s < 3600`, with `m = s/60` in 1..59; hours iff `3600 <= s < 86400`, with `h` in 1..23; days iff `s >= 86400`, with `d = s/86400 >= 1` |
| Comments.AgreesWithPostCard | src/components/Comments.tsx:74-83 | where both labels count minutes, hours or days they count the same number; the short label says "just now" exactly where the card's label says "just now" or counts seconds |
| Comments.ShortLabel | src/components/Comments.tsx:76-82 | the label is "just now" exactly under a minute; any other label starts with a decimal digit and ends in "m ago", "h ago" or "d ago" for its unit |
| Comments.ParseShortLabelInverts | src/components/Comments.tsx:76-82 | every short label reads back as the age it was printed from |
| Comments.CommentsOf | src/components/Comments.tsx:21-33 | the thread holds exactly the store's comments on this post, in store order, each as many times as the store holds it |
| Comments.NewCommentShowsLast | src/components/Comments.tsx:45-54 | a comment inserted into the store appears last in its post's reloaded thread, after the earlier ones |
| Comments.CommentRequest | src/components/Comments.tsx:41-49 | a row is sent iff a profile is signed in and the input is not blank after trimming; it carries this post, the viewer, and the trimmed input, which is non-empty |
| Comments.CommentsView.constructor | src/components/Comments.tsx:13-15 | empty thread, empty input, not loading |
| Comments.CommentsView.SubmitDisabled | src/components/Comments.tsx:99 | the send button is disabled iff loading or the input is all whitespace |
| Comments.CommentsView.LoadComments | src/components/Comments.tsx:21-37 | the thread becomes the post's comments, oldest first |
| Comments.CommentsView.DeleteControls | src/components/Comments.tsx:131-138 | the comments shown with a delete control are exactly those of the thread the signed-in viewer wrote, in thread order; a signed-out viewer sees none |
| Comments.CommentsView.HandleSubmit | src/components/Comments.tsx:39-61 | sends the `CommentRequest` row; only an applied insert clears the input and reloads the thread; `loading` is false after every submit that was sent |
| Comments.CommentsView.HandleDelete | src/components/Comments.tsx:63-72 | an applied delete removes every comment with that id from the store, and the reloaded thread no longer shows it; on an error nothing changes |
| Comments.OwnsComment | src/components/Comments.tsx:131 | defines the test for one comment: a signed-in viewer whose id is the comment's author |
| CreatePost.PostRequest | src/components/CreatePost.tsx:19-27 | a row is sent iff a profile is signed in and the text is not blank after trimming; the content is non-empty and trimmed, the image address is trimmed, both are the trims of the inputs |
| CreatePost.PostForm.constructor | src/components/CreatePost.tsx:12-15 | empty text and address, address field hidden, not loading |
| CreatePost.PostForm.SubmitDisabled | src/components/CreatePost.tsx:76 | the post button is disabled iff loading or the text is all whitespace |
| CreatePost.PostForm.ToggleImageInput | src/components/CreatePost.tsx:67 | the image button flips whether the address field is shown |
| CreatePost.PostForm.HandleSubmit | src/components/CreatePost.tsx:17-40 | sends the `PostRequest` row; an applied insert appends it and clears text, address and the field's visibility; on an error every field keeps its value; `loading` is false after every sent submit |
| Explore.Matches | src/components/Explore.tsx:85-88 | defines the filter test for one profile: not the viewer, and the lower-cased query is included in the lower-cased username or display name; `Explore.ListedIffQueryOccurs` restates it by occurrence |
| Explore.FilteredUsers | src/components/Explore.tsx:84-89 | a user is listed iff loaded, not the signed-in user, and matched by the lower-cased query; the signed-in user is never listed; the list is a subsequence of the loaded users, keeping every matching user as many times as it was loaded |
| Explore.ListedIffQueryOccurs | src/components/Explore.tsx:84-89 | a user is listed iff the lower-cased query occurs at some position of the lower-cased username or display name, and the user is not the viewer |
| Explore.EmptyQueryListsEveryoneElse | src/components/Explore.tsx:87-88 | with an empty query every loaded user except the viewer is listed |
| Explore.FollowedBy | src/components/Explore.tsx:45-51 | an id is in the loaded set iff the viewer follows it in the store |
| Explore.Toggled | src/components/Explore.tsx:67-77 | the clicked id is removed when present and added when absent; every other id is unchanged |
| Explore.ToggledTwice | src/components/Explore.tsx:61-77 | two clicks on the same id restore the set |
| Explore.ToggledTracksAppliedWrite | src/components/Explore.tsx:61-77 | when the set is the store's and the write is applied, the toggled set is the store's again |
| Explore.RefusedWriteDiverges | src/components/Explore.tsx:62-77 | when the backend refuses the write, the toggled set differs from the store's |
| Explore.ExploreView.constructor | src/components/Explore.tsx:12-15 | no users, nothing followed, loading, empty query |
| Explore.ExploreView.Listed | src/components/Explore.tsx:84-89 | the page lists exactly the loaded users that match the current query, in loaded order |
| Explore.ExploreView.LoadUsers | src/components/Explore.tsx:24-39 | the users are every profile, newest first, and loading is over |
| Explore.ExploreView.LoadFollowing | src/components/Explore.tsx:41-55 | without a viewer nothing changes; otherwise the set is exactly the ids the viewer follows |
| Explore.ExploreView.HandleFollow | src/components/Explore.tsx:57-82 | no write without a viewer; otherwise one toggle write on (viewer, id); the set is toggled unless the request threw, whatever the backend made of it |
| Profile.IsOwnProfile | src/components/Profile.tsx:22 | defines the own-page test: no name, an empty name, or the signed-in profile's name; `Profile.OwnIffTargetIsMine` ties it to the name the page loads |
| Profile.TargetUsername | src/components/Profile.tsx:31-33 | the given non-empty name wins; without one, the viewer's non-empty name is loaded; nothing to load exactly when neither is a non-empty name |
| Profile.OwnIffTargetIsMine | src/components/Profile.tsx:22-31 | for a viewer with a name, the page is their own iff the name it loads is theirs |
| Profile.FindProfile | src/components/Profile.tsx:35-42 | a profile is found iff exactly one row has that username, and it is that row; no matching row gives none |
| Profile.Lookup | src/components/Profile.tsx:31-44 | the profile shown, if any, is in the table and carries the target username; there is none iff there is no name to load or that name does not pick out exactly one row |
| Profile.CountOrZero | src/components/Profile.tsx:83-84 | a missing count reads as 0; a present count is kept |
| Profile.Enrich | src/components/Profile.tsx:57-74 | same length and order as the fetched posts; missing counts are 0; liked iff a like row came back |
| Profile.AllAnswers | src/components/Profile.tsx:59-65 | one store answer per post, in order |
| Profile.PostsBy | src/components/Profile.tsx:46-53 | exactly the author's posts; read backwards they are a subsequence of the store's creation order, so the list is newest first |
| Profile.PagePosts | src/components/Profile.tsx:46-74 | defines the listed posts as the author's posts, newest first, enriched from the store; `Profile.PagePostsAgreeWithStore` and `Profile.PagePostsAreTheAuthors` state what they hold |
| Profile.PagePostsAgreeWithStore | src/components/Profile.tsx:46-74 | for every position i, the i-th listed post is the i-th of `PostsBy`; it is in the store and by the author, carries the store's like and comment counts, and is marked liked iff the signed-in viewer's like is stored |
| Profile.PagePostsAreTheAuthors | src/components/Profile.tsx:46-53 | every post of the author appears on the page (with `PagePostsAgreeWithStore`, which shows every listed post is the author's, the page lists exactly the author's posts) |
| Profile.LoadedPage | src/components/Profile.tsx:31-95 | a page is found iff the target username has exactly one profile; then it holds that profile, its enriched posts, its follower and following counts from the store, and the follow flag iff a viewer is signed in and the page is not theirs, true iff the store holds that follow |
| Profile.Flip | src/components/Profile.tsx:107-122 | the flag flips; the counter drops by one on unfollow and rises by one on follow |
| Profile.FlipTwice | src/components/Profile.tsx:107-122 | two clicks restore both the flag and the counter |
| Profile.FlipTracksAppliedWrite | src/components/Profile.tsx:107-122 | with the badge in step with the store and the write applied, the flipped badge is in step with the new store |
| Profile.RefusedWriteDiverges | src/components/Profile.tsx:108-121 | when the backend refuses the write, the flipped badge is out of step with the store |
| Profile.ProfileView.constructor | src/components/Profile.tsx:14-19 | no profile, no posts, loading, not following, both counts 0 |
| Profile.ProfileView.LoadProfile | src/components/Profile.tsx:28-101 | loading ends; with no profile found nothing else changes; otherwise the page shows the `LoadedPage` answers, and the follow flag keeps its value when it was not asked |
| Profile.ProfileView.ShowPage | src/components/Profile.tsx:44-94 | profile, posts and both counts take the fetched values; the follow flag changes only when it was asked |
| Profile.ProfileView.HandleFollow | src/components/Profile.tsx:103-126 | no write without a viewer or a loaded profile; otherwise the toggle write on (viewer, profile) goes out, and the badge flips unless the request threw |
| App.MainApp.constructor | src/App.tsx:11-12 | the feed, with no profile selected |
| App.MainApp.HandleViewProfile | src/App.tsx:14-17 | the profile view, showing the given username |
| App.MainApp.HandleNavigate | src/App.tsx:19-24 | the chosen view; choosing the profile view clears the selected name, the other views keep it; after choosing the profile view a signed-in, loaded app shows the profile screen; that screen is the viewer's own page whoever the viewer is, and for a viewer with a name it loads that name |
| App.MainApp.Render | src/App.tsx:26-44 | a spinner iff the session is loading; otherwise the sign-in screen iff no user; otherwise exactly the screen `currentView` names, and the profile screen gets the selected name |
| Backend.ApplyWrite | src/components/Explore.tsx:62-76 | an unapplied write changes nothing; an applied insert adds the row, an applied delete removes it, and no other row changes |
| Backend.ToggleWrite | src/components/PostCard.tsx:23-34 | the write is on the given row and is a delete exactly when the row is shown as present |
| Backend.ToggleFlips | src/components/PostCard.tsx:23-34 | when the view is right, an applied toggle flips that row's presence and no other row's |
| Backend.ToggleTwiceRestores | src/components/Profile.tsx:107-122 | a toggle followed by the toggle from the updated view, both applied, restores the relation |
| Backend.Store.WriteLike | src/components/PostCard.tsx:24-33 | the likes become the write applied under the reply |
| Backend.Store.WriteFollow | src/components/Explore.tsx:62-76 | the follows become the write applied under the reply |
| Backend.Store.InsertPost | src/components/CreatePost.tsx:23-27 | an applied insert appends the row; otherwise nothing changes |
| Backend.Store.DeletePost | src/components/PostCard.tsx:48 | an applied delete removes every post with that id |
| Backend.Store.InsertComment | src/components/Comments.tsx:45-49 | an applied insert appends the row; otherwise nothing changes |
| Backend.Store.DeleteComment | src/components/Comments.tsx:65 | an applied delete removes every comment with that id |
| Seqs.Filter | src/components/Explore.tsx:84 | `Array.filter`: keeps exactly the elements that pass the test, in their order (a subsequence), each passing element as many times as it occurs and no failing one |
| Seqs.FilterAppend | src/components/Comments.tsx:30 | filtering a sequence with one more element at the end adds that element at the end exactly when it passes |
| Seqs.Reverse | src/components/Explore.tsx:30 | a descending order over a creation-ordered table: same elements, position i holds the element at position n-1-i |
| Seqs.ReverseTwice | src/components/Profile.tsx:53 | reversing twice gives the sequence back |
| Text.Trim | src/components/CreatePost.tsx:25-26 | the result is the slice of the input between its leading and trailing whitespace; only whitespace is cut; neither end of the result is whitespace |
| Text.BlankIffAllWhitespace | src/components/CreatePost.tsx:19 | `!s.trim()` holds iff every character is whitespace |
| Text.TrimmedIsFixed | src/components/Comments.tsx:48 | a string with no whitespace at either end is left alone by trim |
| Text.TrimIdempotent | src/components/Comments.tsx:48 | trimming twice is trimming once |
| Text.Lower | src/components/Explore.tsx:87-88 | same length; each character is lower-cased on its own |
| Text.IncludesIffOccurs | src/components/Explore.tsx:87-88 | `includes` holds iff the query occurs at some index |
| Decimal.Digits | src/components/PostCard.tsx:70 | a count prints as a non-empty string of digits without a leading zero |
| Decimal.ValueOfDigits | src/components/Comments.tsx:78 | reading the printed digits gives the count back |

## Left out

- The backend client library is not part of this model. Each write's outcome is an input `Reply`. Reads are modelled as always succeeding, so the `catch` branches of the loaders are not modelled.
- Generated ids and `created_at` stamps are supplied by the backend. New ids are parameters, and creation order is the order of the sequences.
- Markup, CSS classes, icons and the `useEffect` triggers are UI only. The model keeps only the state the handlers change and the conditions that show or disable controls.
- The `onUpdate` and `onPostCreated` callbacks reload a parent list; the parent is not part of this model. `showComments` only shows or hides the thread. `isEditing` and the profile editor (`EditProfile`, which is not part of this model) are left out too.
- `src/components/Feed.tsx` does the same per-post enrichment as the profile page (`Profile.Enrich`). `src/components/Header.tsx` only toggles a menu. Neither is modelled.
- `Promise.all` fan-out and async interleaving are treated as sequential. A second click racing the first is not modelled.
- The wall clock and `Date` parsing are inputs: the elapsed milliseconds, or the elapsed seconds.
- Text.Lower: lower-cases ASCII letters only, not the full Unicode mapping of `toLowerCase`.
- Decimal.Digits: prints every count in plain digits. JavaScript switches to exponent form from 10^21 up, which no real elapsed time reaches.
- `confirm()` is a boolean input to `PostCard.HandleDelete`.
- The session (`useAuth`) is an input: the signed-in profile, and whether the session is still loading.
- The comment delete handler checks no ownership, as in the source. Only the control is hidden from non-authors, as `Comments.CommentsView.DeleteControls` states.
