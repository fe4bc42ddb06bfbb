/** The user directory: a case-insensitive search over profiles that hides
    the signed-in user, and follow buttons backed by a local set of followed
    ids. */
module Explore {
  import opened Optional
  import opened Seqs
  import opened Text
  import opened Backend

  /** The test `filteredUsers` applies to one profile: not the signed-in user,
      and the lower-cased query is part of the lower-cased username or display
      name. */
  predicate Matches(u: ProfileRow, me: Option<ProfileRow>, query: string)
  {
    (me.None? || u.id != me.value.id)
    && (Includes(Lower(u.username), Lower(query)) || Includes(Lower(u.displayName), Lower(query)))
  }

  /** `filteredUsers`: the matching profiles, in the order they were loaded. */
  function FilteredUsers(users: seq<ProfileRow>, me: Option<ProfileRow>, query: string): (r: seq<ProfileRow>)
    ensures me.Some? ==> forall u :: u in r ==> u.id != me.value.id
    ensures forall u :: u in r <==> u in users && Matches(u, me, query)
    ensures IsSubsequence(r, users)
    ensures forall u :: multiset(r)[u] == if Matches(u, me, query) then multiset(users)[u] else 0
  {
    Filter(users, (u: ProfileRow) => Matches(u, me, query))
  }

  /** A profile is listed exactly when it was loaded, is not the signed-in
      user, and the lower-cased query occurs at some position of its
      lower-cased username or display name. */
  lemma ListedIffQueryOccurs(users: seq<ProfileRow>, me: Option<ProfileRow>, query: string, u: ProfileRow)
    ensures u in FilteredUsers(users, me, query) <==>
      && u in users
      && (me.None? || u.id != me.value.id)
      && ((exists i :: OccursAt(Lower(u.username), Lower(query), i))
          || (exists i :: OccursAt(Lower(u.displayName), Lower(query), i)))
  {
    IncludesIffOccurs(Lower(u.username), Lower(query));
    IncludesIffOccurs(Lower(u.displayName), Lower(query));
  }

  /** With an empty search box every loaded profile but the signed-in user's
      is listed. */
  lemma EmptyQueryListsEveryoneElse(users: seq<ProfileRow>, me: Option<ProfileRow>)
    ensures forall u :: u in FilteredUsers(users, me, []) <==> u in users && (me.None? || u.id != me.value.id)
  {
    forall u | u in users
      ensures Matches(u, me, []) <==> (me.None? || u.id != me.value.id)
    {
      assert Lower([]) == [];
      assert Includes(Lower(u.username), []);
    }
  }

  /** The ids `id` such that `me` follows `id`: what `loadFollowing` collects
      from the `following_id` column. */
  function FollowedBy(follows: set<Follow>, me: UserId): (r: set<UserId>)
    ensures forall id :: id in r <==> Follow(me, id) in follows
  {
    set f | f in follows && f.follower == me :: f.following
  }

  /** `new Set(prev)` with `userId` deleted when present and added when absent. */
  function Toggled(following: set<UserId>, userId: UserId): (r: set<UserId>)
    ensures userId in r <==> userId !in following
    ensures forall id :: id != userId ==> (id in r <==> id in following)
  {
    if userId in following then following - {userId} else following + {userId}
  }

  /** Two clicks on the same button give back the original set. */
  lemma ToggledTwice(following: set<UserId>, userId: UserId)
    ensures Toggled(Toggled(following, userId), userId) == following
  {
  }

  /** When the local set matches the store and the backend applies the write
      a click sends, the two still match afterwards. */
  lemma ToggledTracksAppliedWrite(follows: set<Follow>, me: UserId, userId: UserId)
    ensures var following := FollowedBy(follows, me);
      var w := ToggleWrite(userId in following, Follow(me, userId));
      Toggled(following, userId) == FollowedBy(ApplyWrite(follows, w, Applied), me)
  {
    var following := FollowedBy(follows, me);
    var w := ToggleWrite(userId in following, Follow(me, userId));
    var after := FollowedBy(ApplyWrite(follows, w, Applied), me);
    forall id ensures id in Toggled(following, userId) <==> id in after {
      if id != userId {
        assert Follow(me, id) != w.row;
      }
    }
  }

  /** The error object the backend returns is not inspected: when it refuses
      the write, the button still flips although the store is unchanged. */
  lemma RefusedWriteDiverges(follows: set<Follow>, me: UserId, userId: UserId)
    ensures var following := FollowedBy(follows, me);
      var w := ToggleWrite(userId in following, Follow(me, userId));
      Toggled(following, userId) != FollowedBy(ApplyWrite(follows, w, Refused), me)
  {
    var following := FollowedBy(follows, me);
    assert userId in Toggled(following, userId) <==> userId !in following;
  }

  /** The state of the directory page. */
  class ExploreView {
    var users: seq<ProfileRow>
    var following: set<UserId>
    var loading: bool
    var searchQuery: string

    constructor ()
      ensures users == [] && following == {} && loading && searchQuery == []
    {
      users, following, loading, searchQuery := [], {}, true, [];
    }

    /** The profiles the page lists for the signed-in user `me`. */
    function Listed(me: Option<ProfileRow>): (r: seq<ProfileRow>)
      reads this
      ensures IsSubsequence(r, users)
      ensures forall u :: u in r <==> u in users && Matches(u, me, searchQuery)
    {
      FilteredUsers(users, me, searchQuery)
    }

    /** `loadUsers`: every profile, newest first. */
    method LoadUsers(store: Store)
      modifies this`users, this`loading
      ensures users == Reverse(store.profiles)
      ensures !loading
    {
      loading := true;
      users := Reverse(store.profiles);
      loading := false;
    }

    /** `loadFollowing`: nothing without a signed-in user; otherwise exactly
        the ids the user follows. */
    method LoadFollowing(me: Option<ProfileRow>, store: Store)
      modifies this`following
      ensures following == if me.None? then old(following) else FollowedBy(store.follows, me.value.id)
    {
      if me.None? {
        return;
      }
      following := FollowedBy(store.follows, me.value.id);
    }

    /** `handleFollow`: nothing without a signed-in user; otherwise a delete of
        the follow when `userId` is in the local set and an insert when not.
        The local set is toggled unless the request threw, whatever the
        backend made of it. */
    method HandleFollow(me: Option<ProfileRow>, userId: UserId, store: Store, reply: Reply)
      returns (sent: Option<Write<Follow>>)
      modifies this`following, store`follows
      ensures sent == if me.None? then None else Some(ToggleWrite(userId in old(following), Follow(me.value.id, userId)))
      ensures store.follows == if sent.Some? then ApplyWrite(old(store.follows), sent.value, reply) else old(store.follows)
      ensures following == if sent.Some? && reply != Threw then Toggled(old(following), userId) else old(following)
    {
      if me.None? {
        return None;
      }
      var w := ToggleWrite(userId in following, Follow(me.value.id, userId));
      sent := Some(w);
      store.WriteFollow(w, reply);
      if reply != Threw {
        if w.Delete? {
          following := following - {userId};
        } else {
          following := following + {userId};
        }
      }
    }
  }
}
