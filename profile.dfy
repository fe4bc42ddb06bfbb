/** A profile page: whose profile it is, loading it with its posts and
    follow counts, and the follow button with its optimistic counter. */
module Profile {
  import opened Optional
  import opened Seqs
  import opened Backend

  /** `!username || username === currentUserProfile?.username`: an absent or
      empty name means the viewer's own page. */
  function IsOwnProfile(username: Option<string>, me: Option<ProfileRow>): bool
  {
    username.None? || username.value == [] || (me.Some? && username.value == me.value.username)
  }

  /** `username || currentUserProfile?.username`, with an empty result read as
      "nothing to load". */
  function TargetUsername(username: Option<string>, me: Option<ProfileRow>): (t: Option<string>)
    ensures t.Some? ==> t.value != []
    ensures username.Some? && username.value != [] ==> t == username
    ensures (username.None? || username.value == []) && me.Some? && me.value.username != [] ==> t == Some(me.value.username)
    ensures t.None? <==> (username.None? || username.value == []) && (me.None? || me.value.username == [])
  {
    if username.Some? && username.value != [] then username
    else if me.Some? && me.value.username != [] then Some(me.value.username)
    else None
  }

  /** For a signed-in viewer with a username, the page is their own exactly
      when the name it loads is theirs. */
  lemma OwnIffTargetIsMine(username: Option<string>, me: ProfileRow)
    requires me.username != []
    ensures IsOwnProfile(username, Some(me)) <==> TargetUsername(username, Some(me)) == Some(me.username)
  {
  }

  /** The rows of the profiles table whose username is `username`. */
  function WithUsername(profiles: seq<ProfileRow>, username: string): (m: seq<ProfileRow>)
    ensures forall p :: p in m <==> p in profiles && p.username == username
  {
    Filter(profiles, (p: ProfileRow) => p.username == username)
  }

  /** `.eq('username', t).maybeSingle()`: the profile when exactly one row has
      that username; no row gives no data and several rows an error, and the
      page stops loading in both cases. */
  function FindProfile(profiles: seq<ProfileRow>, username: string): (r: Option<ProfileRow>)
    ensures r.Some? <==> |WithUsername(profiles, username)| == 1
    ensures r.Some? ==> r.value in profiles && r.value.username == username
    ensures (forall p :: p in profiles ==> p.username != username) ==> r.None?
  {
    var m := WithUsername(profiles, username);
    if |m| == 1 then Some(m[0]) else None
  }

  /** The profile the page shows after loading, if any: nothing when there is
      no name to load or the name does not pick out exactly one row. */
  function Lookup(username: Option<string>, me: Option<ProfileRow>, profiles: seq<ProfileRow>): (r: Option<ProfileRow>)
    ensures r.Some? ==> r.value in profiles && Some(r.value.username) == TargetUsername(username, me)
    ensures r.None? <==> TargetUsername(username, me).None?
                         || |WithUsername(profiles, TargetUsername(username, me).value)| != 1
  {
    match TargetUsername(username, me)
    case None => None
    case Some(t) => FindProfile(profiles, t)
  }

  /** `count || 0`: a missing count reads as zero. */
  function CountOrZero(count: Option<nat>): (n: nat)
    ensures count.Some? ==> n == count.value
    ensures count.None? ==> n == 0
  {
    if count.Some? then count.value else 0
  }

  /** The three answers fetched for each post: its like count, its comment
      count and the viewer's like row. */
  datatype PostAnswers = PostAnswers(likes: Option<nat>, comments: Option<nat>, viewerLike: Option<Like>)

  /** The per-post enrichment: each post keeps its place; missing counts are
      zero; the post is marked liked exactly when a like row came back. */
  function Enrich(posts: seq<PostRow>, answers: seq<PostAnswers>): (r: seq<PostView>)
    requires |answers| == |posts|
    ensures |r| == |posts|
    ensures forall i :: 0 <= i < |r| ==> r[i].row == posts[i]
    ensures forall i :: 0 <= i < |r| ==> r[i].likesCount == CountOrZero(answers[i].likes)
    ensures forall i :: 0 <= i < |r| ==> r[i].commentsCount == CountOrZero(answers[i].comments)
    ensures forall i :: 0 <= i < |r| ==> (r[i].userHasLiked <==> answers[i].viewerLike.Some?)
  {
    seq(|posts|, i requires 0 <= i < |posts| =>
      PostView(posts[i], CountOrZero(answers[i].likes), CountOrZero(answers[i].comments), answers[i].viewerLike.Some?))
  }

  /** The users who like a post. */
  function LikesOf(likes: set<Like>, postId: PostId): set<Like>
  {
    set l | l in likes && l.post == postId
  }

  /** What the store answers for one post; the viewer's like is only asked for
      when someone is signed in. */
  function AnswersFor(p: PostRow, likes: set<Like>, comments: seq<CommentRow>, me: Option<ProfileRow>): PostAnswers
  {
    PostAnswers(
      Some(|LikesOf(likes, p.id)|),
      Some(|Filter(comments, (c: CommentRow) => c.postId == p.id)|),
      if me.Some? && Like(p.id, me.value.id) in likes then Some(Like(p.id, me.value.id)) else None)
  }

  function AllAnswers(posts: seq<PostRow>, likes: set<Like>, comments: seq<CommentRow>, me: Option<ProfileRow>): (r: seq<PostAnswers>)
    ensures |r| == |posts|
    ensures forall i :: 0 <= i < |posts| ==> r[i] == AnswersFor(posts[i], likes, comments, me)
  {
    seq(|posts|, i requires 0 <= i < |posts| => AnswersFor(posts[i], likes, comments, me))
  }

  /** The author's posts, newest first. */
  function PostsBy(posts: seq<PostRow>, userId: UserId): (r: seq<PostRow>)
    ensures |r| <= |posts|
    ensures forall p :: p in r <==> p in posts && p.userId == userId
    ensures IsSubsequence(Reverse(r), posts)
  {
    var mine := Filter(posts, (p: PostRow) => p.userId == userId);
    ReverseTwice(mine);
    Reverse(mine)
  }

  /** The posts a profile page lists for the author `userId`: newest first,
      each with the store's counts and the viewer's like. */
  function PagePosts(userId: UserId, me: Option<ProfileRow>, posts: seq<PostRow>, likes: set<Like>, comments: seq<CommentRow>): seq<PostView>
  {
    var own := PostsBy(posts, userId);
    Enrich(own, AllAnswers(own, likes, comments, me))
  }

  /** Posts enriched from the store agree with it: each post the page lists
      is one of the author's, carries the store's like and comment counts, and
      is marked liked exactly when the signed-in viewer's like is stored. */
  lemma PagePostsAgreeWithStore(userId: UserId, me: Option<ProfileRow>, posts: seq<PostRow>, likes: set<Like>, comments: seq<CommentRow>)
    ensures var page := PagePosts(userId, me, posts, likes, comments);
      forall i :: 0 <= i < |page| ==>
        && page[i].row == PostsBy(posts, userId)[i]
        && page[i].row in posts && page[i].row.userId == userId
        && page[i].likesCount == |LikesOf(likes, page[i].row.id)|
        && page[i].commentsCount == |Filter(comments, (c: CommentRow) => c.postId == page[i].row.id)|
        && (page[i].userHasLiked <==> me.Some? && Like(page[i].row.id, me.value.id) in likes)
  {
    var own := PostsBy(posts, userId);
    assert forall i :: 0 <= i < |own| ==> own[i] in own;
  }

  /** No post of the author is missing from the page. */
  lemma PagePostsAreTheAuthors(userId: UserId, me: Option<ProfileRow>, posts: seq<PostRow>, likes: set<Like>, comments: seq<CommentRow>)
    ensures var page := PagePosts(userId, me, posts, likes, comments);
      forall p :: p in posts && p.userId == userId ==> exists i :: 0 <= i < |page| && page[i].row == p
  {
    var own := PostsBy(posts, userId);
    var page := PagePosts(userId, me, posts, likes, comments);
    assert |page| == |own|;
    PagePostsAgreeWithStore(userId, me, posts, likes, comments);
    forall p | p in own
      ensures exists i :: 0 <= i < |page| && page[i].row == p
    {
      var k :| 0 <= k < |own| && own[k] == p;
      assert page[k].row == p;
    }
  }

  /** The rows of `follows` that point at `userId` (its followers). */
  function FollowerRows(follows: set<Follow>, userId: UserId): set<Follow>
  {
    set f | f in follows && f.following == userId
  }

  /** The rows of `follows` that start at `userId` (whom it follows). */
  function FollowingRows(follows: set<Follow>, userId: UserId): set<Follow>
  {
    set f | f in follows && f.follower == userId
  }

  /** The follow button and the follower counter next to it. */
  datatype FollowBadge = FollowBadge(isFollowing: bool, followers: int)

  /** The local update of `handleFollow`: the flag flips and the counter
      moves by one in the matching direction. */
  function Flip(b: FollowBadge): (r: FollowBadge)
    ensures r.isFollowing == !b.isFollowing
    ensures r.followers == if b.isFollowing then b.followers - 1 else b.followers + 1
  {
    if b.isFollowing then FollowBadge(false, b.followers - 1) else FollowBadge(true, b.followers + 1)
  }

  /** Two clicks give back both the flag and the counter. */
  lemma FlipTwice(b: FollowBadge)
    ensures Flip(Flip(b)) == b
  {
  }

  /** The badge agrees with the store for the pair (viewer, profile). */
  ghost predicate BadgeAgrees(b: FollowBadge, follows: set<Follow>, me: UserId, them: UserId)
  {
    (b.isFollowing <==> Follow(me, them) in follows) && b.followers == |FollowerRows(follows, them)|
  }

  /** When the badge agrees with the store and the backend applies the write
      a click sends, the flipped badge agrees with the new store. */
  lemma FlipTracksAppliedWrite(b: FollowBadge, follows: set<Follow>, me: UserId, them: UserId)
    requires BadgeAgrees(b, follows, me, them)
    ensures BadgeAgrees(Flip(b), ApplyWrite(follows, ToggleWrite(b.isFollowing, Follow(me, them)), Applied), me, them)
  {
    var e := Follow(me, them);
    var after := ApplyWrite(follows, ToggleWrite(b.isFollowing, e), Applied);
    if b.isFollowing {
      assert FollowerRows(after, them) == FollowerRows(follows, them) - {e};
    } else {
      assert FollowerRows(after, them) == FollowerRows(follows, them) + {e};
    }
  }

  /** The error object is not inspected: when the backend refuses the write,
      the badge still flips and no longer agrees with the store. */
  lemma RefusedWriteDiverges(b: FollowBadge, follows: set<Follow>, me: UserId, them: UserId)
    requires BadgeAgrees(b, follows, me, them)
    ensures !BadgeAgrees(Flip(b), ApplyWrite(follows, ToggleWrite(b.isFollowing, Follow(me, them)), Refused), me, them)
  {
  }

  /** What one load of a page fetches: the profile, its posts, its two
      follow counts, and whether the viewer follows it when that is asked. */
  datatype Page = Page(profile: ProfileRow, posts: seq<PostView>, followers: nat, following: nat, viewerFollows: Option<bool>)

  /** The answers a load gets from the store; none when no profile is found.
      The follow flag is asked only for a signed-in viewer on another's page. */
  function LoadedPage(username: Option<string>, me: Option<ProfileRow>, store: Store): (r: Option<Page>)
    reads store
    ensures r.Some? <==> Lookup(username, me, store.profiles).Some?
    ensures r.Some? ==> var page := r.value;
      && page.profile == Lookup(username, me, store.profiles).value
      && page.posts == PagePosts(page.profile.id, me, store.posts, store.likes, store.comments)
      && page.followers == |FollowerRows(store.follows, page.profile.id)|
      && page.following == |FollowingRows(store.follows, page.profile.id)|
      && (page.viewerFollows.Some? <==> me.Some? && !IsOwnProfile(username, me))
      && (page.viewerFollows.Some? ==> (page.viewerFollows.value <==> Follow(me.value.id, page.profile.id) in store.follows))
  {
    match Lookup(username, me, store.profiles)
    case None => None
    case Some(p) =>
      Some(Page(p, PagePosts(p.id, me, store.posts, store.likes, store.comments),
        CountOrZero(Some(|FollowerRows(store.follows, p.id)|)),
        CountOrZero(Some(|FollowingRows(store.follows, p.id)|)),
        if me.Some? && !IsOwnProfile(username, me) then Some(Follow(me.value.id, p.id) in store.follows) else None))
  }

  /** The state of one profile page. */
  class ProfileView {
    var profile: Option<ProfileRow>
    var posts: seq<PostView>
    var loading: bool
    var isFollowing: bool
    var followersCount: int
    var followingCount: int

    constructor ()
      ensures profile.None? && posts == [] && loading
      ensures !isFollowing && followersCount == 0 && followingCount == 0
    {
      profile, posts, loading := None, [], true;
      isFollowing, followersCount, followingCount := false, 0, 0;
    }

    /** `loadProfile`: when no profile is found nothing but `loading`
        changes. Otherwise the page shows what `LoadedPage` fetched: the
        profile, its posts newest first with their counts, its follower and
        following counts, and, only when it was asked, whether the viewer
        follows it. */
    method LoadProfile(username: Option<string>, me: Option<ProfileRow>, store: Store)
      modifies this
      ensures !loading
      ensures LoadedPage(username, me, store).None? ==>
        profile == old(profile) && posts == old(posts) && isFollowing == old(isFollowing)
        && followersCount == old(followersCount) && followingCount == old(followingCount)
      ensures LoadedPage(username, me, store).Some? ==>
        var page := LoadedPage(username, me, store).value;
        && profile == Some(page.profile)
        && posts == page.posts
        && followersCount == page.followers
        && followingCount == page.following
        && isFollowing == if page.viewerFollows.Some? then page.viewerFollows.value else old(isFollowing)
    {
      loading := true;
      var found := LoadedPage(username, me, store);
      if found.Some? {
        ShowPage(found.value);
      }
      loading := false;
    }

    /** The state updates of a load that found its profile: profile, posts
        and both counts are replaced, and the follow flag only when it was
        asked for. */
    method ShowPage(page: Page)
      modifies this`profile, this`posts, this`followersCount, this`followingCount, this`isFollowing
      ensures profile == Some(page.profile) && posts == page.posts
      ensures followersCount == page.followers && followingCount == page.following
      ensures isFollowing == if page.viewerFollows.Some? then page.viewerFollows.value else old(isFollowing)
    {
      profile := Some(page.profile);
      posts := page.posts;
      followersCount := page.followers;
      followingCount := page.following;
      if page.viewerFollows.Some? {
        isFollowing := page.viewerFollows.value;
      }
    }

    /** `handleFollow`: nothing without a signed-in viewer or a loaded
        profile; otherwise the write chosen by the flag goes out and, unless
        the request threw, the badge flips whatever the backend made of it. */
    method HandleFollow(me: Option<ProfileRow>, store: Store, reply: Reply)
      returns (sent: Option<Write<Follow>>)
      modifies this`isFollowing, this`followersCount, store`follows
      ensures sent == if me.None? || profile.None? then None
                      else Some(ToggleWrite(old(isFollowing), Follow(me.value.id, profile.value.id)))
      ensures store.follows == if sent.Some? then ApplyWrite(old(store.follows), sent.value, reply) else old(store.follows)
      ensures FollowBadge(isFollowing, followersCount) ==
        if sent.Some? && reply != Threw then Flip(FollowBadge(old(isFollowing), old(followersCount)))
        else FollowBadge(old(isFollowing), old(followersCount))
    {
      if me.None? || profile.None? {
        return None;
      }
      var w := ToggleWrite(isFollowing, Follow(me.value.id, profile.value.id));
      sent := Some(w);
      store.WriteFollow(w, reply);
      if reply != Threw {
        if isFollowing {
          isFollowing := false;
          followersCount := followersCount - 1;
        } else {
          isFollowing := true;
          followersCount := followersCount + 1;
        }
      }
    }
  }
}
