/**
 * The user endpoints (app/api/v1/endpoints/users.py): create, list, read,
 * like, like count and unlike, as transitions of the store. Each failure is
 * the `detail` of the HTTP error the endpoint raises.
 */
module UsersEndpoint {
  import opened Wrappers
  import opened PyList
  import opened Storage
  import opened Models

  /** The `liked_by` list after `actor` likes the user: added once, at the end. */
  function Like(likedBy: seq<string>, actor: string): (r: seq<string>)
    ensures actor in r
    ensures actor in likedBy ==> r == likedBy
    ensures actor !in likedBy ==> |r| == |likedBy| + 1 && r[..|likedBy|] == likedBy && r[|likedBy|] == actor
  {
    if actor in likedBy then likedBy else likedBy + [actor]
  }

  /** The `liked_by` list after `actor` withdraws a like: removed if present. */
  function Unlike(likedBy: seq<string>, actor: string): (r: seq<string>)
    ensures actor !in likedBy ==> r == likedBy
    ensures actor in likedBy ==> |r| == |likedBy| - 1
  {
    if actor in likedBy then RemoveFirst(likedBy, actor) else likedBy
  }

  /** Liking twice is liking once. */
  lemma LikeIdempotent(likedBy: seq<string>, actor: string)
    ensures Like(Like(likedBy, actor), actor) == Like(likedBy, actor)
  {
  }

  /** Likes keep `liked_by` duplicate-free, and a user who never liked itself still has not. */
  lemma LikeKeepsDistinct(likedBy: seq<string>, actor: string, self: string)
    requires Distinct(likedBy) && self !in likedBy && actor != self
    ensures Distinct(Like(likedBy, actor)) && self !in Like(likedBy, actor)
  {
  }

  /** Unliking from a duplicate-free list removes the actor entirely and keeps the rest in order. */
  lemma {:induction false} UnlikeRemovesActor(likedBy: seq<string>, actor: string)
    requires Distinct(likedBy)
    ensures var r := Unlike(likedBy, actor);
      actor !in r && Distinct(r) && r == Without(likedBy, actor)
  {
    if actor in likedBy {
      RemoveFirstDistinct(likedBy, actor);
    } else {
      WithoutAbsent(likedBy, actor);
    }
  }

  /** A like followed by an unlike restores `liked_by` when the actor had not liked before. */
  lemma {:induction false} LikeThenUnlike(likedBy: seq<string>, actor: string)
    requires actor !in likedBy
    ensures Unlike(Like(likedBy, actor), actor) == likedBy
  {
    RemoveFirstAfterAppend(likedBy, actor);
  }

  /** Whether some stored user already has the email. */
  predicate EmailTaken(users: seq<Record>, email: string)
    requires UsersSound(users)
  {
    exists j :: 0 <= j < |users| && Email(users[j]) == email
  }

  /** `read_user_by_id` and the existence checks of the other endpoints. */
  function NotFound(userId: string): string {
    "User '" + userId + "' not found"
  }

  /** `create_user`: a taken email is refused first; then a supplied, non-empty id that is
      already stored returns that user unchanged; otherwise one new user is appended. */
  method CreateUser(db: Db, u: UserCreate, freshId: string) returns (r: Result<Record>)
    requires Consistent(db)
    modifies db
    ensures Consistent(db)
    ensures var users := old(db.Items("users"));
      && (EmailTaken(users, u.email) ==>
            r == Err("The user with this email already exists in the system.")
            && db.collections == old(db.collections))
      && (!EmailTaken(users, u.email) && u.id.Some? && u.id.value != "" && Find(users, u.id.value).Some? ==>
            r == Ok(Find(users, u.id.value).value) && db.collections == old(db.collections))
      && (!EmailTaken(users, u.email) && !(u.id.Some? && u.id.value != "" && Find(users, u.id.value).Some?) ==>
            var id := if u.id.Some? then u.id.value else freshId;
            r == Ok(NewUserRecord(u, id))
            && db.collections == old(db.collections)["users" := users + [r.value]])
  {
    var users := db.GetAll("users");
    var i := 0;
    while i < |users|
      invariant 0 <= i <= |users|
      invariant forall j :: 0 <= j < i ==> Email(users[j]) != u.email
    {
      if Email(users[i]) == u.email {
        return Err("The user with this email already exists in the system.");
      }
      i := i + 1;
    }
    if u.id.Some? && u.id.value != "" {
      var existing := db.GetItemById("users", u.id.value);
      if existing.Some? {
        return Ok(existing.value);
      }
    }
    var id := if u.id.Some? then u.id.value else freshId;
    var user := NewUserRecord(u, id);
    db.AddItem("users", user);
    UsersSoundUpdate(users + [user], |users|, user);
    return Ok(user);
  }

  /** `read_users`: one page of the stored users. */
  method ReadUsers(db: Db, skip: int, limit: int) returns (r: seq<Record>)
    ensures r == Slice(db.Items("users"), skip, skip + limit)
  {
    var users := db.GetAll("users");
    r := Slice(users, skip, skip + limit);
  }

  /** `read_user_by_id`: the first user with the id, or a not-found error. */
  method ReadUserById(db: Db, userId: string) returns (r: Result<Record>)
    ensures r.Err? <==> forall j :: 0 <= j < |db.Items("users")| ==> !HasId(db.Items("users")[j], userId)
    ensures r.Err? ==> r.msg == NotFound(userId)
    ensures r.Ok? ==> r.value in db.Items("users") && HasId(r.value, userId)
    ensures r.Ok? ==> Some(r.value) == Find(db.Items("users"), userId)
  {
    var user := db.GetItemById("users", userId);
    if user.None? {
      return Err(NotFound(userId));
    }
    return Ok(user.value);
  }

  /** `get_user_likes`: how many users like this one; a missing `liked_by` counts as none. */
  method GetUserLikes(db: Db, userId: string) returns (r: Result<int>)
    requires Consistent(db)
    ensures var user := Find(db.Items("users"), userId);
      && (user.None? ==> r == Err(NotFound(userId)))
      && (user.Some? ==> r == Ok(|LikedBy(user.value)|))
      && (user.Some? && "liked_by" !in user.value ==> r == Ok(0))
  {
    var user := db.GetItemById("users", userId);
    if user.None? {
      return Err(NotFound(userId));
    }
    FindSound(db.Items("users"), userId);
    return Ok(|LikedBy(user.value)|);
  }

  /** A user found in a sound collection is sound. */
  lemma FindSound(users: seq<Record>, userId: string)
    requires UsersSound(users)
    ensures Find(users, userId).Some? ==> SoundUser(Find(users, userId).value)
  {
  }

  /** Replacing the likers of a user by a duplicate-free list without the user keeps it sound. */
  lemma LikersSound(t: Record, likers: seq<string>)
    requires IsUserRecord(t) && Distinct(likers) && Id(t) !in likers
    ensures var u := Merge(t, map["liked_by" := StrList(likers)]);
      SoundUser(u) && LikedBy(u) == likers && SameExcept(t, u, "liked_by")
  {
  }

  /** What `like_user` answers: target, then actor, then self-like are checked; the target
      with the actor added to its likers. */
  function LikeUserResult(users: seq<Record>, userId: string, actorId: string): (r: Result<Record>)
    requires UsersSound(users)
    ensures r.Ok? ==> FirstIndex(users, userId) < |users| && SoundUser(r.value)
  {
    var k := FirstIndex(users, userId);
    if k == |users| then Err(NotFound(userId))
    else if Find(users, actorId).None? then Err("Actor user not found")
    else if userId == actorId then Err("Cannot like yourself")
    else
      var t := users[k];
      LikeKeepsDistinct(LikedBy(t), actorId, userId);
      if actorId in LikedBy(t) then Ok(t)
      else Ok(Merge(t, map["liked_by" := StrList(Like(LikedBy(t), actorId))]))
  }
  /** The answer of `like_user` in terms of the lookups: target, actor and self-like are checked in that order; otherwise the target gains the actor in `liked_by` and nothing else. */
  lemma LikeUserOutcome(users: seq<Record>, userId: string, actorId: string)
    requires UsersSound(users)
    ensures var r := LikeUserResult(users, userId, actorId);
      && (Find(users, userId).None? ==> r == Err(NotFound(userId)))
      && (Find(users, userId).Some? && Find(users, actorId).None? ==> r == Err("Actor user not found"))
      && (Find(users, userId).Some? && Find(users, actorId).Some? && userId == actorId ==>
          r == Err("Cannot like yourself"))
      && (Find(users, userId).Some? && Find(users, actorId).Some? && userId != actorId ==>
          var t := Find(users, userId).value;
          && r.Ok? && IsUserRecord(t)
          && LikedBy(r.value) == Like(LikedBy(t), actorId)
          && SameExcept(t, r.value, "liked_by"))
  {
    if Find(users, userId).Some? {
      assert Find(users, userId).value == users[FirstIndex(users, userId)];
    }
  }

  /** What `unlike_user` answers: target, then actor, are checked; the target without the actor. */
  function UnlikeUserResult(users: seq<Record>, userId: string, actorId: string): (r: Result<Record>)
    requires UsersSound(users)
    ensures r.Ok? ==> FirstIndex(users, userId) < |users| && SoundUser(r.value)
  {
    var k := FirstIndex(users, userId);
    if k == |users| then Err(NotFound(userId))
    else if Find(users, actorId).None? then Err("Actor user not found")
    else
      var t := users[k];
      var likers := Unlike(LikedBy(t), actorId);
      UnlikeRemovesActor(LikedBy(t), actorId);
      assert Id(t) !in likers;
      LikersSound(t, likers);
      if actorId in LikedBy(t) then Ok(Merge(t, map["liked_by" := StrList(likers)]))
      else Ok(t)
  }
  /** The answer of `unlike_user` in terms of the lookups: target and actor are checked in that order; otherwise the actor leaves `liked_by` and nothing else changes. */
  lemma UnlikeUserOutcome(users: seq<Record>, userId: string, actorId: string)
    requires UsersSound(users)
    ensures var r := UnlikeUserResult(users, userId, actorId);
      && (Find(users, userId).None? ==> r == Err(NotFound(userId)))
      && (Find(users, userId).Some? && Find(users, actorId).None? ==> r == Err("Actor user not found"))
      && (Find(users, userId).Some? && Find(users, actorId).Some? ==>
          var t := Find(users, userId).value;
          && r.Ok? && IsUserRecord(t)
          && LikedBy(r.value) == Without(LikedBy(t), actorId)
          && actorId !in LikedBy(r.value)
          && SameExcept(t, r.value, "liked_by"))
  {
    if Find(users, userId).Some? {
      var t := users[FirstIndex(users, userId)];
      assert Find(users, userId).value == t;
      var likers := Unlike(LikedBy(t), actorId);
      UnlikeRemovesActor(LikedBy(t), actorId);
      assert Id(t) !in likers;
      LikersSound(t, likers);
      if Find(users, actorId).Some? {
        assert UnlikeUserResult(users, userId, actorId) ==
          if actorId in LikedBy(t) then Ok(Merge(t, map["liked_by" := StrList(likers)])) else Ok(t);
      }
    }
  }

  /** `like_user` on the store: the answer above; the target is written back only when it changed. */
  method LikeUser(db: Db, userId: string, actorId: string) returns (r: Result<Record>)
    requires Consistent(db)
    modifies db
    ensures Consistent(db)
    ensures r == LikeUserResult(old(db.Items("users")), userId, actorId)
    ensures db.collections ==
      if r.Err? || r.value == old(db.Items("users"))[FirstIndex(old(db.Items("users")), userId)] then old(db.collections)
      else old(db.collections)["users" := old(db.Items("users"))[FirstIndex(old(db.Items("users")), userId) := r.value]]
  {
    ghost var users := db.Items("users");
    var target := db.GetItemById("users", userId);
    if target.None? {
      return Err(NotFound(userId));
    }
    var actor := db.GetItemById("users", actorId);
    if actor.None? {
      return Err("Actor user not found");
    }
    if userId == actorId {
      return Err("Cannot like yourself");
    }
    var t := target.value;
    assert t == users[FirstIndex(users, userId)];
    var likedBy := LikedBy(t);
    if actorId !in likedBy {
      likedBy := likedBy + [actorId];
      var _ := db.UpdateItem("users", userId, map["liked_by" := StrList(likedBy)]);
      r := Ok(Merge(t, map["liked_by" := StrList(likedBy)]));
      assert r == LikeUserResult(users, userId, actorId);
      assert r.value != t by { assert r.value["liked_by"] != StrList(LikedBy(t)); }
      UsersSoundUpdate(users, FirstIndex(users, userId), r.value);
    } else {
      r := Ok(t);
    }
  }

  /** `unlike_user` on the store: the answer above; the target is written back only when it changed. */
  method UnlikeUser(db: Db, userId: string, actorId: string) returns (r: Result<Record>)
    requires Consistent(db)
    modifies db
    ensures Consistent(db)
    ensures r == UnlikeUserResult(old(db.Items("users")), userId, actorId)
    ensures db.collections ==
      if r.Err? || r.value == old(db.Items("users"))[FirstIndex(old(db.Items("users")), userId)] then old(db.collections)
      else old(db.collections)["users" := old(db.Items("users"))[FirstIndex(old(db.Items("users")), userId) := r.value]]
  {
    ghost var users := db.Items("users");
    var target := db.GetItemById("users", userId);
    if target.None? {
      return Err(NotFound(userId));
    }
    var actor := db.GetItemById("users", actorId);
    if actor.None? {
      return Err("Actor user not found");
    }
    var t := target.value;
    assert t == users[FirstIndex(users, userId)];
    if "liked_by" in t && actorId in t["liked_by"].list {
      var likedBy := RemoveFirst(t["liked_by"].list, actorId);
      var _ := db.UpdateItem("users", userId, map["liked_by" := StrList(likedBy)]);
      r := Ok(Merge(t, map["liked_by" := StrList(likedBy)]));
      assert r == UnlikeUserResult(users, userId, actorId);
      assert r.value != t by { assert |r.value["liked_by"].list| != |LikedBy(t)|; }
      UsersSoundUpdate(users, FirstIndex(users, userId), r.value);
    } else {
      r := Ok(t);
    }
  }
}
