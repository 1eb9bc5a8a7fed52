/** The mutual-likes page (src/pages/Mutuals.tsx). */
module MutualsPage {
  import opened Wrappers
  import opened Types

  /** Liked by the demo user, and likes the demo user back; never the demo user itself. */
  predicate IsMutual(u: User, me: User, demoId: string) {
    u.id != demoId && Includes(u.likedBy, demoId) && Includes(me.likedBy, u.id)
  }

  /** The filter in `fetchMutuals`. */
  function Mutuals(users: seq<User>, me: User, demoId: string): (r: seq<User>)
    ensures |r| <= |users|
    ensures forall i :: 0 <= i < |r| ==> r[i] in users && IsMutual(r[i], me, demoId) && r[i].id != demoId
    ensures forall i :: 0 <= i < |users| && IsMutual(users[i], me, demoId) ==> users[i] in r
  {
    if users == [] then []
    else (if IsMutual(users[0], me, demoId) then [users[0]] else []) + Mutuals(users[1..], me, demoId)
  }

  /** The filter keeps the fetched order: it distributes over concatenation. */
  lemma {:induction false} MutualsKeepOrder(a: seq<User>, b: seq<User>, me: User, demoId: string)
    ensures Mutuals(a + b, me, demoId) == Mutuals(a, me, demoId) + Mutuals(b, me, demoId)
  {
    if a != [] {
      assert (a + b)[1..] == a[1..] + b;
      MutualsKeepOrder(a[1..], b, me, demoId);
    } else {
      assert a + b == b;
    }
  }

  /** The page state `fetchMutuals` leaves: the current user if its fetch succeeded, and the
      mutuals if the user list's fetch succeeded too. */
  datatype MutualsState = MutualsState(currentUser: Option<User>, mutuals: seq<User>, loading: bool)

  function FetchMutuals(me: Option<User>, users: Option<seq<User>>, demoId: string): (s: MutualsState)
    ensures !s.loading && s.currentUser == me
    ensures s.mutuals != [] ==> me.Some? && users.Some? && s.mutuals == Mutuals(users.value, me.value, demoId)
    ensures me.Some? && users.Some? ==> s.mutuals == Mutuals(users.value, me.value, demoId)
    ensures me.None? || users.None? ==> s.mutuals == []
  {
    if me.None? then MutualsState(None, [], false)
    else if users.None? then MutualsState(me, [], false)
    else MutualsState(me, Mutuals(users.value, me.value, demoId), false)
  }

  /** `getSharedInterests`: the other user's interests the current user shares, in the other
      user's order; none before the current user is known. */
  function SharedInterests(me: Option<User>, u: User): (r: seq<string>)
    ensures me.None? ==> r == []
    ensures forall i :: 0 <= i < |r| ==> r[i] in u.interests && me.Some? && r[i] in me.value.interests
    ensures me.Some? ==> forall i :: 0 <= i < |u.interests| && u.interests[i] in me.value.interests ==> u.interests[i] in r
    ensures |r| <= |u.interests|
  {
    if me.None? then [] else Shared(u.interests, me.value.interests)
  }

  /** The entries of `xs`, in order, that `keep` also holds. */
  function Shared(xs: seq<string>, keep: seq<string>): (r: seq<string>)
    ensures forall i :: 0 <= i < |r| ==> r[i] in xs && r[i] in keep
    ensures forall i :: 0 <= i < |xs| && xs[i] in keep ==> xs[i] in r
    ensures |r| <= |xs|
  {
    if xs == [] then []
    else (if xs[0] in keep then [xs[0]] else []) + Shared(xs[1..], keep)
  }

  /** The shared interests keep the order of the card user's list. */
  lemma {:induction false} SharedKeepOrder(a: seq<string>, b: seq<string>, keep: seq<string>)
    ensures Shared(a + b, keep) == Shared(a, keep) + Shared(b, keep)
  {
    if a == [] {
      assert a + b == b;
    } else {
      assert (a + b)[1..] == a[1..] + b;
      SharedKeepOrder(a[1..], b, keep);
    }
  }

  /** The interest badges on a card: the first three shared interests, then a "+n" badge
      counting the rest when there are more than three. */
  datatype Badges = Badges(shown: seq<string>, more: Option<nat>)

  function InterestBadges(shared: seq<string>): (b: Badges)
    ensures b.shown <= shared && |b.shown| <= 3
    ensures b.more.Some? <==> |shared| > 3
    ensures |b.shown| + (if b.more.Some? then b.more.value else 0) == |shared|
    ensures b.shown == shared[..if |shared| < 3 then |shared| else 3]
    ensures b.more.Some? ==> b.more.value == |shared| - 3
  {
    if |shared| > 3 then Badges(shared[..3], Some(|shared| - 3)) else Badges(shared, None)
  }
}
