/** One post in a list: its relative-time label, the like toggle guarded
    against a second click while a request is in flight, and the owner-only
    delete. */
module PostCard {
  import opened Optional
  import opened Seqs
  import opened Text
  import opened Decimal
  import opened Backend

  datatype Unit = Year | Month | Day | Hour | Minute | Second

  /** The length of each unit in seconds: 365-day years and 30-day months. */
  function UnitSeconds(u: Unit): (n: nat)
    ensures n >= 1
  {
    match u
    case Year => 31536000
    case Month => 2592000
    case Day => 86400
    case Hour => 3600
    case Minute => 60
    case Second => 1
  }

  /** The unit's name; none of them ends in "s", so the plural ending is
      never confused with the name. */
  function UnitLabel(u: Unit): (n: string)
    ensures n != [] && n[|n| - 1] != 's'
  {
    match u
    case Year => "year"
    case Month => "month"
    case Day => "day"
    case Hour => "hour"
    case Minute => "minute"
    case Second => "second"
  }

  /** The table the label is chosen from, largest unit first. */
  const Intervals: seq<Unit> := [Year, Month, Day, Hour, Minute, Second]

  /** The position of a unit in `Intervals`. */
  function Rank(u: Unit): (k: nat)
    ensures k < |Intervals| && Intervals[k] == u
  {
    match u
    case Year => 0
    case Month => 1
    case Day => 2
    case Hour => 3
    case Minute => 4
    case Second => 5
  }

  /** `Math.floor(x / d)` and the two facts the labels rest on. */
  lemma FloorDiv(x: int, d: int)
    requires d >= 1
    ensures (x / d) * d <= x < (x / d + 1) * d
    ensures x / d >= 1 <==> x >= d
  {
    var q, r := x / d, x % d;
    assert x == q * d + r && 0 <= r < d;
    if q >= 1 {
      assert q * d >= d by {
        assert (q - 1) * d >= 0;
      }
    } else {
      assert q * d <= 0 by {
        assert (-q) * d >= 0;
      }
    }
  }

  /** `Math.floor((now - created) / 1000)`: whole seconds, rounded down even
      when the creation time lies in the future. */
  function ElapsedSeconds(nowMs: int, createdMs: int): (s: int)
    ensures s * 1000 <= nowMs - createdMs < (s + 1) * 1000
  {
    FloorDiv(nowMs - createdMs, 1000);
    (nowMs - createdMs) / 1000
  }

  /** The scan of the `for` loop: the position of the first unit whose floored
      quotient is at least 1, or `|units|` when there is none. */
  function FirstFitting(seconds: int, units: seq<Unit>): (k: nat)
    ensures k <= |units|
    ensures forall j :: 0 <= j < k ==> seconds / UnitSeconds(units[j]) < 1
    ensures k < |units| ==> seconds / UnitSeconds(units[k]) >= 1
  {
    if units == [] then 0
    else if seconds / UnitSeconds(units[0]) >= 1 then 0
    else 1 + FirstFitting(seconds, units[1..])
  }

  /** What the label says: "just now", or a positive count of one unit. */
  datatype Age = JustNow | Ago(count: nat, unit: Unit)

  /** `timeAgo`: "just now" exactly when less than a second has passed
      (negative spans included); otherwise the largest unit that fits at least
      once, and how many whole times it fits. */
  function TimeAgo(seconds: int): (a: Age)
    ensures a.JustNow? <==> seconds < 1
    ensures a.Ago? ==> a.count >= 1
    ensures a.Ago? ==> a.count * UnitSeconds(a.unit) <= seconds < (a.count + 1) * UnitSeconds(a.unit)
    ensures a.Ago? ==> forall u :: UnitSeconds(u) > UnitSeconds(a.unit) ==> seconds < UnitSeconds(u)
  {
    var k := FirstFitting(seconds, Intervals);
    if k == |Intervals| then
      assert Intervals[5] == Second;
      FloorDiv(seconds, UnitSeconds(Second));
      JustNow
    else
      var u := Intervals[k];
      FloorDiv(seconds, UnitSeconds(u));
      assert forall u' :: UnitSeconds(u') > UnitSeconds(u) ==> seconds < UnitSeconds(u') by {
        forall u' | UnitSeconds(u') > UnitSeconds(u) ensures seconds < UnitSeconds(u') {
          assert Rank(u') < k;
          FloorDiv(seconds, UnitSeconds(u'));
        }
      }
      Ago(seconds / UnitSeconds(u), u)
  }

  /** The plural ending `${count !== 1 ? 's' : ''}`. */
  function Plural(count: nat): string
  {
    if count != 1 then "s" else ""
  }

  /** What follows the count in a label. */
  function Tail(u: Unit, count: nat): string
  {
    " " + UnitLabel(u) + Plural(count) + " ago"
  }

  /** The text the card prints for an age: "just now" for the first
      second, otherwise a count in decimal digits followed by " ago". */
  function Label(a: Age): (s: string)
    ensures a.Ago? ==> s != [] && IsDigit(s[0]) && EndsWith(s, " ago")
    ensures s == "just now" <==> a.JustNow?
  {
    match a
    case JustNow => "just now"
    case Ago(c, u) => Digits(c) + Tail(u, c)
  }

  /** A tail ends with " ago", and the character before that is the plural
      "s" or, for a count of 1, the last letter of the unit's name. */
  lemma TailEnding(u: Unit, c: nat)
    ensures var t := Tail(u, c);
      && EndsWith(t, " ago") && |t| > 5
      && t[|t| - 5] == if c != 1 then 's' else UnitLabel(u)[|UnitLabel(u)| - 1]
  {
    var x := " " + UnitLabel(u) + Plural(c);
    assert Tail(u, c) == x + " ago";
    assert (x + " ago")[|x|..] == " ago";
  }

  /** The same holds for the whole label. */
  lemma LabelEnding(c: nat, u: Unit)
    ensures var s := Label(Ago(c, u));
      && EndsWith(s, " ago") && |s| > 5
      && s[|s| - 5] == if c != 1 then 's' else UnitLabel(u)[|UnitLabel(u)| - 1]
  {
    var t := Tail(u, c);
    TailEnding(u, c);
    EndsWithAppend(Digits(c), t, " ago");
    var s := Digits(c) + t;
    assert s[|s| - 5] == t[|t| - 5];
  }

  /** The unit name gets its "s" exactly when the count is not 1. */
  lemma PluralExactlyWhenNotOne(c: nat, u: Unit)
    ensures EndsWith(Label(Ago(c, u)), "s ago") <==> c != 1
  {
    LabelEnding(c, u);
    EndsWithOneMore(Label(Ago(c, u)), 's', " ago");
    assert ['s'] + " ago" == "s ago";
  }

  /** The first unit of `units` whose tail is `rest`. */
  function UnitOfTail(rest: string, count: nat, units: seq<Unit>): (r: Option<Unit>)
    ensures r.Some? ==> r.value in units && rest == Tail(r.value, count)
    ensures r.None? ==> forall u :: u in units ==> rest != Tail(u, count)
  {
    if units == [] then None
    else if rest == Tail(units[0], count) then Some(units[0])
    else UnitOfTail(rest, count, units[1..])
  }

  /** The second of four concatenated pieces can be sliced back out. */
  lemma SecondPiece(a: string, x: string, b: string, c: string)
    ensures (a + x + b + c)[|a|..|a| + |x|] == x
  {
    assert (a + x + b + c)[|a|..|a| + |x|] == (a + x)[|a|..];
  }

  /** Different units have different tails. */
  lemma TailsDiffer(u: Unit, v: Unit, count: nat)
    requires u != v
    ensures Tail(u, count) != Tail(v, count)
  {
    var lu, lv := UnitLabel(u), UnitLabel(v);
    SecondPiece(" ", lu, Plural(count), " ago");
    SecondPiece(" ", lv, Plural(count), " ago");
  }

  /** Reading a label back: the count, then the tail of one unit. */
  function ParseLabel(s: string): Option<Age>
  {
    if s == "just now" then Some(JustNow)
    else
      var k := DigitRun(s);
      if k == 0 then None
      else
        var c := Value(s[..k]);
        match UnitOfTail(s[k..], c, Intervals)
        case None => None
        case Some(u) => Some(Ago(c, u))
  }

  /** Every label reads back as the age it was printed from, so two different
      ages never print the same text. */
  lemma ParseLabelInverts(a: Age)
    ensures ParseLabel(Label(a)) == Some(a)
  {
    if a.Ago? {
      var c, u := a.count, a.unit;
      var d, rest := Digits(c), Tail(u, c);
      var s := d + rest;
      assert s == Label(a);
      assert s[0] == d[0] && IsDigit(s[0]);
      assert s != "just now" by { assert "just now"[0] == 'j'; }
      DigitRunOfPrefix(d, rest);
      assert s[..|d|] == d && s[|d|..] == rest;
      ValueOfDigits(c);
      forall v | v != u ensures rest != Tail(v, c) {
        TailsDiffer(u, v, c);
      }
      assert u in Intervals by { assert Intervals[Rank(u)] == u; }
    }
  }

  lemma LabelInjective(a: Age, b: Age)
    requires Label(a) == Label(b)
    ensures a == b
  {
    ParseLabelInverts(a);
    ParseLabelInverts(b);
  }

  /** The write a click on the heart sends: none without a signed-in profile
      or while a previous click is in flight; otherwise a delete of the
      viewer's like when the card shows the post as liked, an insert if not. */
  function LikeRequest(viewer: Option<UserId>, isLiking: bool, post: PostView): (r: Option<Write<Like>>)
    ensures r.Some? <==> viewer.Some? && !isLiking
    ensures r.Some? ==> r.value.row == Like(post.row.id, viewer.value)
    ensures r.Some? ==> (r.value.Delete? <==> post.userHasLiked)
  {
    if viewer.None? || isLiking then None
    else Some(ToggleWrite(post.userHasLiked, Like(post.row.id, viewer.value)))
  }

  /** When the card reflects the store and the backend applies the write, a
      click flips whether the viewer likes the post and touches no other like;
      a second click on the reloaded card restores the likes as they were. */
  lemma LikeToggles(likes: set<Like>, post: PostView, viewer: UserId)
    requires post.userHasLiked <==> Like(post.row.id, viewer) in likes
    ensures var first := LikeRequest(Some(viewer), false, post).value;
      var after := ApplyWrite(likes, first, Applied);
      var reloaded := post.(userHasLiked := Like(post.row.id, viewer) in after);
      && (Like(post.row.id, viewer) in after <==> !post.userHasLiked)
      && (forall l :: l != Like(post.row.id, viewer) ==> (l in after <==> l in likes))
      && ApplyWrite(after, LikeRequest(Some(viewer), false, reloaded).value, Applied) == likes
  {
    var l := Like(post.row.id, viewer);
    ToggleFlips(likes, l, post.userHasLiked);
    ToggleTwiceRestores(likes, l, post.userHasLiked);
  }

  /** The signed-in profile owns the post: the trash button is shown and a
      delete may go out. */
  predicate OwnsPost(viewer: Option<UserId>, post: PostRow)
  {
    viewer.Some? && viewer.value == post.userId
  }

  /** The `isLiking` state of one card. */
  class LikeButton {
    var isLiking: bool

    constructor ()
      ensures !isLiking
    {
      isLiking := false;
    }

    /** `handleLike`: at most one write, chosen by `LikeRequest`; `isLiking`
        is set for the duration of the request and cleared in the `finally`
        whatever the reply. The reply's error is not inspected. */
    method HandleLike(viewer: Option<UserId>, post: PostView, store: Store, reply: Reply)
      returns (sent: Option<Write<Like>>)
      modifies this, store`likes
      ensures sent == LikeRequest(viewer, old(isLiking), post)
      ensures store.likes == if sent.Some? then ApplyWrite(old(store.likes), sent.value, reply) else old(store.likes)
      ensures sent.Some? ==> !isLiking
      ensures sent.None? ==> isLiking == old(isLiking)
    {
      sent := LikeRequest(viewer, isLiking, post);
      if sent.None? {
        return;
      }
      isLiking := true;
      store.WriteLike(sent.value, reply);
      isLiking := false;
    }
  }

  /** `handleDelete`: nothing happens unless the signed-in profile owns the post
      and the confirmation dialog returned true; then every row with the
      post's id is deleted if the backend applies the request. */
  method HandleDelete(viewer: Option<UserId>, post: PostRow, confirmed: bool, store: Store, reply: Reply)
    returns (sent: bool)
    modifies store`posts
    ensures sent <==> OwnsPost(viewer, post) && confirmed
    ensures store.posts == if sent && reply == Applied then Filter(old(store.posts), (p: PostRow) => p.id != post.id)
                           else old(store.posts)
    ensures forall p :: p in store.posts ==> p in old(store.posts)
    ensures sent && reply == Applied ==> forall p :: p in store.posts ==> p.id != post.id
  {
    sent := OwnsPost(viewer, post) && confirmed;
    if sent {
      store.DeletePost(post.id, reply);
    }
  }
}
