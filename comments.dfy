/** The comment thread under a post: its short relative-time label, the
    submit form and the delete control shown to a comment's author. */
module Comments {
  import opened Optional
  import opened Seqs
  import opened Text
  import opened Decimal
  import opened Backend
  import PostCard

  /** What the short label says. */
  datatype ShortAge = JustNow | Minutes(m: nat) | Hours(h: nat) | Days(d: nat)

  /** `timeAgo`: "just now" below a minute, then whole minutes below an hour,
      whole hours below a day, and whole days from then on. */
  function TimeAgo(seconds: int): (a: ShortAge)
    ensures a.JustNow? <==> seconds < 60
    ensures a.Minutes? <==> 60 <= seconds < 3600
    ensures a.Minutes? ==> 1 <= a.m <= 59 && a.m == seconds / 60
    ensures a.Hours? <==> 3600 <= seconds < 86400
    ensures a.Hours? ==> 1 <= a.h <= 23 && a.h == seconds / 3600
    ensures a.Days? <==> 86400 <= seconds
    ensures a.Days? ==> a.d >= 1 && a.d == seconds / 86400
  {
    if seconds < 60 then JustNow
    else
      var minutes := seconds / 60;
      if minutes < 60 then Minutes(minutes)
      else
        var hours := minutes / 60;
        if hours < 24 then Hours(hours)
        else Days(hours / 24)
  }

  /** Where both labels use minutes, hours or days they show the same count;
      the comment label says "just now" exactly where the card's label is
      "just now" or counts seconds. */
  lemma AgreesWithPostCard(seconds: int)
    ensures var p := PostCard.TimeAgo(seconds);
      && (TimeAgo(seconds).JustNow? <==> p.JustNow? || p.unit == PostCard.Second)
      && (p.Ago? && p.unit == PostCard.Minute ==> TimeAgo(seconds) == Minutes(p.count))
      && (p.Ago? && p.unit == PostCard.Hour ==> TimeAgo(seconds) == Hours(p.count))
      && (p.Ago? && p.unit == PostCard.Day ==> TimeAgo(seconds) == Days(p.count))
  {
    var p := PostCard.TimeAgo(seconds);
    if p.Ago? {
      assert seconds < 60 ==> PostCard.UnitSeconds(PostCard.Minute) > PostCard.UnitSeconds(p.unit);
      match p.unit
      case Minute =>
        assert seconds < PostCard.UnitSeconds(PostCard.Hour);
      case Hour =>
        assert seconds < PostCard.UnitSeconds(PostCard.Day);
      case Day =>
        assert seconds < PostCard.UnitSeconds(PostCard.Month);
      case _ =>
    }
  }

  /** The text after the count. */
  function ShortTail(a: ShortAge): string
  {
    match a
    case JustNow => ""
    case Minutes(_) => "m ago"
    case Hours(_) => "h ago"
    case Days(_) => "d ago"
  }

  /** The text a comment prints for an age: "just now" under a minute,
      otherwise a count in decimal digits followed by "m ago", "h ago" or
      "d ago". */
  function ShortLabel(a: ShortAge): (s: string)
    ensures !a.JustNow? ==> s != [] && IsDigit(s[0]) && EndsWith(s, ShortTail(a))
    ensures s == "just now" <==> a.JustNow?
  {
    match a
    case JustNow => "just now"
    case Minutes(m) => Digits(m) + ShortTail(a)
    case Hours(h) => Digits(h) + ShortTail(a)
    case Days(d) => Digits(d) + ShortTail(a)
  }

  /** Reading a short label back. */
  function ParseShortLabel(s: string): Option<ShortAge>
  {
    if s == "just now" then Some(JustNow)
    else
      var k := DigitRun(s);
      if k == 0 then None
      else
        var n := Value(s[..k]);
        var rest := s[k..];
        if rest == "m ago" then Some(Minutes(n))
        else if rest == "h ago" then Some(Hours(n))
        else if rest == "d ago" then Some(Days(n))
        else None
  }

  /** Every short label reads back as the age it was printed from. */
  lemma ParseShortLabelInverts(a: ShortAge)
    ensures ParseShortLabel(ShortLabel(a)) == Some(a)
  {
    if !a.JustNow? {
      var n := match a case Minutes(m) => m case Hours(h) => h case Days(d) => d;
      var d, rest := Digits(n), ShortTail(a);
      var s := d + rest;
      assert s == ShortLabel(a);
      DigitRunOfPrefix(d, rest);
      assert s[..|d|] == d && s[|d|..] == rest;
      ValueOfDigits(n);
    }
  }

  /** The comments of one post, oldest first. */
  function CommentsOf(rows: seq<CommentRow>, postId: PostId): (r: seq<CommentRow>)
    ensures forall c :: c in r <==> c in rows && c.postId == postId
    ensures IsSubsequence(r, rows)
    ensures forall c :: multiset(r)[c] == if c.postId == postId then multiset(rows)[c] else 0
  {
    Filter(rows, (c: CommentRow) => c.postId == postId)
  }

  /** A comment added to the store shows up last in its post's thread. */
  lemma NewCommentShowsLast(rows: seq<CommentRow>, c: CommentRow)
    ensures CommentsOf(rows + [c], c.postId) == CommentsOf(rows, c.postId) + [c]
  {
    FilterAppend(rows, c, (r: CommentRow) => r.postId == c.postId);
  }

  /** The row `handleSubmit` inserts: none without a signed-in profile or when
      the input is blank once trimmed; otherwise the trimmed input, by the
      viewer, under this post. */
  function CommentRequest(viewer: Option<UserId>, postId: PostId, input: string, newId: CommentId): (r: Option<CommentRow>)
    ensures r.Some? <==> viewer.Some? && !IsBlank(input)
    ensures r.Some? ==> r.value.postId == postId && r.value.userId == viewer.value
    ensures r.Some? ==> r.value.content != [] && IsTrimmed(r.value.content)
    ensures r.Some? ==> r.value.content == Trim(input)
  {
    if viewer.None? || IsBlank(input) then None
    else
      Some(CommentRow(newId, postId, viewer.value, Trim(input)))
  }

  /** Only the author of a comment sees its delete control. */
  predicate OwnsComment(viewer: Option<UserId>, c: CommentRow)
  {
    viewer.Some? && viewer.value == c.userId
  }

  /** The state of the thread under one post. */
  class CommentsView {
    const postId: PostId
    var comments: seq<CommentRow>
    var newComment: string
    var loading: bool

    constructor (postId: PostId)
      ensures this.postId == postId
      ensures comments == [] && newComment == [] && !loading
    {
      this.postId := postId;
      comments, newComment, loading := [], [], false;
    }

    /** The send button is disabled while a submit is running or the input
        is blank. */
    function SubmitDisabled(): (r: bool)
      reads this
      ensures r <==> loading || AllWhitespace(newComment)
    {
      BlankIffAllWhitespace(newComment);
      loading || IsBlank(newComment)
    }

    /** The comments rendered with a delete control, in thread order: those
        the signed-in viewer wrote, and none for a signed-out viewer. */
    function DeleteControls(viewer: Option<UserId>): (r: seq<CommentRow>)
      reads this
      ensures viewer.None? ==> r == []
      ensures viewer.Some? ==> forall c :: c in r <==> c in comments && c.userId == viewer.value
      ensures IsSubsequence(r, comments)
    {
      var r := Filter(comments, (c: CommentRow) => OwnsComment(viewer, c));
      assert viewer.None? ==> r == [] by {
        assert r != [] ==> r[0] in r;
      }
      r
    }

    /** `loadComments`: the post's comments, oldest first. */
    method LoadComments(store: Store)
      modifies this`comments
      ensures comments == CommentsOf(store.comments, postId)
    {
      comments := CommentsOf(store.comments, postId);
    }

    /** `handleSubmit`: sends `CommentRequest`; only when the backend applies
        it is the input cleared and the thread reloaded. `loading` is false
        afterwards on the success and the error path alike. */
    method HandleSubmit(viewer: Option<UserId>, store: Store, newId: CommentId, reply: Reply)
      returns (sent: Option<CommentRow>)
      modifies this`comments, this`newComment, this`loading, store`comments
      ensures sent == CommentRequest(viewer, postId, old(newComment), newId)
      ensures store.comments == if sent.Some? && reply == Applied then old(store.comments) + [sent.value]
                                else old(store.comments)
      ensures newComment == if sent.Some? && reply == Applied then [] else old(newComment)
      ensures comments == if sent.Some? && reply == Applied then CommentsOf(store.comments, postId)
                          else old(comments)
      ensures loading == if sent.Some? then false else old(loading)
    {
      sent := CommentRequest(viewer, postId, newComment, newId);
      if sent.None? {
        return;
      }
      loading := true;
      store.InsertComment(sent.value, reply);
      if reply == Applied {
        newComment := [];
        LoadComments(store);
      }
      loading := false;
    }

    /** `handleDelete`: the handler itself checks no ownership (only the
        control is hidden from others); the thread is reloaded when the
        backend applies the delete. */
    method HandleDelete(commentId: CommentId, store: Store, reply: Reply)
      modifies this`comments, store`comments
      ensures store.comments == if reply == Applied then Filter(old(store.comments), (c: CommentRow) => c.id != commentId)
                                else old(store.comments)
      ensures comments == if reply == Applied then CommentsOf(store.comments, postId) else old(comments)
      ensures reply == Applied ==> forall c :: c in comments ==> c.id != commentId
    {
      store.DeleteComment(commentId, reply);
      if reply == Applied {
        LoadComments(store);
      }
    }
  }
}
