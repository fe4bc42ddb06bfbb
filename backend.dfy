/** The hosted backend as the components see it: five tables, the rows they
    hold, and the writes the components issue. The backend's own client
    library is not part of this model; a write's outcome is an input. */
module Backend {
  import opened Seqs

  type UserId = string
  type PostId = string
  type CommentId = string

  datatype ProfileRow = ProfileRow(id: UserId, username: string, displayName: string)
  datatype PostRow = PostRow(id: PostId, userId: UserId, content: string, imageUrl: string)
  datatype CommentRow = CommentRow(id: CommentId, postId: PostId, userId: UserId, content: string)
  /** A post as a list shows it: the row joined with the counts and the
      viewer's like that the list fetched for it (the `Post` record). */
  datatype PostView = PostView(row: PostRow, likesCount: nat, commentsCount: nat, userHasLiked: bool)

  /** A row of `likes`: `post_id`, `user_id`. */
  datatype Like = Like(post: PostId, user: UserId)
  /** A row of `follows`: `follower_id`, `following_id`. */
  datatype Follow = Follow(follower: UserId, following: UserId)

  /** What a write request comes back with: the row change was made, the
      client returned an `{ error }` object, or the awaited promise rejected. */
  datatype Reply = Applied | Refused | Threw

  /** An insert or a delete of one row of a relation. */
  datatype Write<T> = Insert(row: T) | Delete(row: T)

  /** The relation after a write: changed only when the backend applied it. */
  function ApplyWrite<T(!new)>(rel: set<T>, w: Write<T>, reply: Reply): (r: set<T>)
    ensures reply != Applied ==> r == rel
    ensures reply == Applied && w.Insert? ==> w.row in r
    ensures reply == Applied && w.Delete? ==> w.row !in r
    ensures forall x :: x != w.row ==> (x in r <==> x in rel)
  {
    if reply != Applied then rel
    else match w
      case Insert(x) => rel + {x}
      case Delete(x) => rel - {x}
  }

  /** The write a toggle sends: delete the row when the view shows it as
      present, insert it otherwise. */
  function ToggleWrite<T>(present: bool, row: T): (w: Write<T>)
    ensures w.row == row
    ensures w.Delete? <==> present
  {
    if present then Delete(row) else Insert(row)
  }

  /** When the view is right about the row and the backend applies the write,
      the toggle flips that row's presence and leaves every other row alone. */
  lemma ToggleFlips<T(!new)>(rel: set<T>, row: T, present: bool)
    requires present <==> row in rel
    ensures row in ApplyWrite(rel, ToggleWrite(present, row), Applied) <==> !present
    ensures forall x :: x != row ==> (x in ApplyWrite(rel, ToggleWrite(present, row), Applied) <==> x in rel)
  {
  }

  /** Toggling once and then once more from the updated view, both writes
      applied, gives back the relation as it was. */
  lemma ToggleTwiceRestores<T(!new)>(rel: set<T>, row: T, present: bool)
    requires present <==> row in rel
    ensures ApplyWrite(ApplyWrite(rel, ToggleWrite(present, row), Applied), ToggleWrite(!present, row), Applied) == rel
  {
    if present {
      assert rel - {row} + {row} == rel;
    } else {
      assert rel + {row} - {row} == rel;
    }
  }

  /** The rows of the tables. The sequences are kept in creation order, so a
      query ordered by `created_at` is a filter (ascending) or its reverse
      (descending). */
  class Store {
    var profiles: seq<ProfileRow>
    var posts: seq<PostRow>
    var comments: seq<CommentRow>
    var likes: set<Like>
    var follows: set<Follow>

    constructor ()
      ensures profiles == [] && posts == [] && comments == []
      ensures likes == {} && follows == {}
    {
      profiles, posts, comments := [], [], [];
      likes, follows := {}, {};
    }

    method WriteLike(w: Write<Like>, reply: Reply)
      modifies this`likes
      ensures likes == ApplyWrite(old(likes), w, reply)
    {
      likes := ApplyWrite(likes, w, reply);
    }

    method WriteFollow(w: Write<Follow>, reply: Reply)
      modifies this`follows
      ensures follows == ApplyWrite(old(follows), w, reply)
    {
      follows := ApplyWrite(follows, w, reply);
    }

    /** `insert` into `posts`; a new row goes last. */
    method InsertPost(row: PostRow, reply: Reply)
      modifies this`posts
      ensures posts == if reply == Applied then old(posts) + [row] else old(posts)
    {
      if reply == Applied {
        posts := posts + [row];
      }
    }

    /** `delete().eq('id', id)` on `posts`: every row with that id goes. */
    method DeletePost(id: PostId, reply: Reply)
      modifies this`posts
      ensures posts == if reply == Applied then Filter(old(posts), (p: PostRow) => p.id != id) else old(posts)
    {
      if reply == Applied {
        posts := Filter(posts, (p: PostRow) => p.id != id);
      }
    }

    method InsertComment(row: CommentRow, reply: Reply)
      modifies this`comments
      ensures comments == if reply == Applied then old(comments) + [row] else old(comments)
    {
      if reply == Applied {
        comments := comments + [row];
      }
    }

    method DeleteComment(id: CommentId, reply: Reply)
      modifies this`comments
      ensures comments == if reply == Applied then Filter(old(comments), (c: CommentRow) => c.id != id) else old(comments)
    {
      if reply == Applied {
        comments := Filter(comments, (c: CommentRow) => c.id != id);
      }
    }
  }
}
