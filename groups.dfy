/**
 * The group endpoints (app/api/v1/endpoints/groups.py): create, list, join,
 * leave and the "looking for members" listing, as transitions of the store.
 * Each failure is the `detail` of the HTTP error the endpoint raises.
 */
module GroupsEndpoint {
  import opened Wrappers
  import opened PyList
  import opened Storage
  import opened Models

  /** The membership decision of `join_group` once group and user are known to exist. */
  function Join(members: seq<string>, maxMembers: int, user: string): (r: Result<seq<string>>)
    ensures r.Ok? <==> user !in members && |members| < maxMembers
    ensures user in members ==> r == Err("User already in group")
    ensures user !in members && |members| >= maxMembers ==> r == Err("Group is full")
    ensures r.Ok? ==> |r.value| == |members| + 1 && r.value[..|members|] == members && r.value[|members|] == user
  {
    if user in members then Err("User already in group")
    else if |members| >= maxMembers then Err("Group is full")
    else Ok(members + [user])
  }

  /** The membership decision of `leave_group` once group and user are known to exist. */
  function Leave(members: seq<string>, admin: string, user: string): (r: Result<seq<string>>)
    ensures r.Ok? <==> user in members && user != admin
    ensures user !in members ==> r == Err("User not in group")
    ensures user in members && user == admin ==> r == Err("Admin cannot leave group")
    ensures r.Ok? ==> |r.value| == |members| - 1
  {
    if user !in members then Err("User not in group")
    else if admin == user then Err("Admin cannot leave group")
    else Ok(RemoveFirst(members, user))
  }

  /** A join keeps the member list duplicate-free and the admin in it, and never pushes a
      group that was within capacity beyond it. */
  lemma JoinKeepsInvariants(members: seq<string>, maxMembers: int, admin: string, user: string)
    requires Distinct(members) && admin in members
    requires Join(members, maxMembers, user).Ok?
    ensures var m := Join(members, maxMembers, user).value;
      Distinct(m) && admin in m && |m| <= maxMembers && user in m
  {
  }

  /** A leave keeps the member list duplicate-free, removes the user entirely, keeps the
      others in order, and keeps the admin a member. */
  lemma {:induction false} LeaveKeepsInvariants(members: seq<string>, admin: string, user: string)
    requires Distinct(members) && admin in members
    requires Leave(members, admin, user).Ok?
    ensures var m := Leave(members, admin, user).value;
      && Distinct(m) && admin in m && user !in m
      && m == Without(members, user)
  {
    RemoveFirstDistinct(members, user);
  }

  /** Joining and then leaving gives back the original member list. */
  lemma {:induction false} JoinThenLeave(members: seq<string>, maxMembers: int, admin: string, user: string)
    requires Join(members, maxMembers, user).Ok? && user != admin
    ensures Leave(Join(members, maxMembers, user).value, admin, user) == Ok(members)
  {
    RemoveFirstAfterAppend(members, user);
  }

  /** A group still has room. */
  predicate IsOpen(g: Record)
    requires IsGroupRecord(g)
  {
    |Members(g)| < MaxMembers(g)
  }

  /** The open groups of `gs`, in their order. */
  function OpenGroups(gs: seq<Record>): (r: seq<Record>)
    requires GroupsSound(gs)
    ensures forall i :: 0 <= i < |r| ==> r[i] in gs && IsGroupRecord(r[i]) && IsOpen(r[i])
    ensures forall i :: 0 <= i < |gs| && IsOpen(gs[i]) ==> gs[i] in r
    ensures |r| <= |gs|
  {
    if gs == [] then []
    else
      var last := gs[|gs| - 1];
      OpenGroups(gs[..|gs| - 1]) + (if IsOpen(last) then [last] else [])
  }

  /** The filter keeps the input order: filtering a concatenation filters each part in turn. */
  lemma {:induction false} OpenGroupsKeepOrder(a: seq<Record>, b: seq<Record>)
    requires GroupsSound(a) && GroupsSound(b)
    ensures GroupsSound(a + b) && OpenGroups(a + b) == OpenGroups(a) + OpenGroups(b)
  {
    assert forall i :: 0 <= i < |a + b| ==> (a + b)[i] == if i < |a| then a[i] else b[i - |a|];
    if b == [] {
      assert a + b == a;
    } else {
      var front := b[..|b| - 1];
      assert (a + b)[..|a + b| - 1] == a + front;
      OpenGroupsKeepOrder(a, front);
    }
  }

  /** `create_group`: the X-User-ID user becomes admin and sole member of a new group. */
  method CreateGroup(db: Db, g: GroupCreate, userId: string, freshId: string) returns (r: Result<Record>)
    requires Consistent(db)
    modifies db
    ensures Consistent(db)
    ensures Find(old(db.Items("users")), userId).None? ==>
      r == Err("Admin user not found") && db.collections == old(db.collections)
    ensures Find(old(db.Items("users")), userId).Some? ==>
      && r == Ok(NewGroupRecord(g, freshId, userId))
      && db.collections == old(db.collections)["groups" := old(db.Items("groups")) + [r.value]]
  {
    var user := db.GetItemById("users", userId);
    if user.None? {
      return Err("Admin user not found");
    }
    var group := NewGroupRecord(g, freshId, userId);
    db.AddItem("groups", group);
    return Ok(group);
  }

  /** `read_groups`: one page of the stored groups. */
  method ReadGroups(db: Db, skip: int, limit: int) returns (r: seq<Record>)
    ensures r == Slice(db.Items("groups"), skip, skip + limit)
  {
    var groups := db.GetAll("groups");
    r := Slice(groups, skip, skip + limit);
  }

  /** What `join_group` answers for the given collections: errors are checked in the order
      group, user, membership, capacity; on success the group with the user appended. */
  function JoinGroupResult(groups: seq<Record>, users: seq<Record>, groupId: string, userId: string): (r: Result<Record>)
    requires GroupsSound(groups)
    ensures r.Ok? ==> FirstIndex(groups, groupId) < |groups| && SoundGroup(r.value)
  {
    var k := FirstIndex(groups, groupId);
    if k == |groups| then Err("Group not found")
    else if Find(users, userId).None? then Err("User not found")
    else
      var g := groups[k];
      match Join(Members(g), MaxMembers(g), userId)
      case Err(m) => Err(m)
      case Ok(ms) =>
        JoinKeepsInvariants(Members(g), MaxMembers(g), AdminId(g), userId);
        Ok(Merge(g, map["members" := StrList(ms)]))
  }
  /** The answer of `join_group` in terms of the lookups: the first failing check decides the error; a success appends the user and changes nothing but the member list. */
  lemma JoinGroupOutcome(groups: seq<Record>, users: seq<Record>, groupId: string, userId: string)
    requires GroupsSound(groups)
    ensures var r := JoinGroupResult(groups, users, groupId, userId);
      && (Find(groups, groupId).None? ==> r == Err("Group not found"))
      && (Find(groups, groupId).Some? && Find(users, userId).None? ==> r == Err("User not found"))
      && (Find(groups, groupId).Some? && Find(users, userId).Some? ==>
          var g := Find(groups, groupId).value;
          && IsGroupRecord(g)
          && (r.Ok? <==> userId !in Members(g) && |Members(g)| < MaxMembers(g))
          && (r.Err? ==> r == Err(Join(Members(g), MaxMembers(g), userId).msg))
          && (r.Ok? ==> Members(r.value) == Members(g) + [userId] && |Members(r.value)| <= MaxMembers(g)
                        && SameExcept(g, r.value, "members")))
  {
    if Find(groups, groupId).Some? {
      assert Find(groups, groupId).value == groups[FirstIndex(groups, groupId)];
    }
  }

  /** What `leave_group` answers for the given collections: errors are checked in the order
      group, user, membership, admin; on success the group without the user. */
  function LeaveGroupResult(groups: seq<Record>, users: seq<Record>, groupId: string, userId: string): (r: Result<Record>)
    requires GroupsSound(groups)
    ensures r.Ok? ==> FirstIndex(groups, groupId) < |groups| && SoundGroup(r.value)
  {
    var k := FirstIndex(groups, groupId);
    if k == |groups| then Err("Group not found")
    else if Find(users, userId).None? then Err("User not found")
    else
      var g := groups[k];
      match Leave(Members(g), AdminId(g), userId)
      case Err(m) => Err(m)
      case Ok(ms) =>
        LeaveKeepsInvariants(Members(g), AdminId(g), userId);
        Ok(Merge(g, map["members" := StrList(ms)]))
  }
  /** The answer of `leave_group` in terms of the lookups: the first failing check decides the error; a success drops the user and changes nothing but the member list. */
  lemma LeaveGroupOutcome(groups: seq<Record>, users: seq<Record>, groupId: string, userId: string)
    requires GroupsSound(groups)
    ensures var r := LeaveGroupResult(groups, users, groupId, userId);
      && (Find(groups, groupId).None? ==> r == Err("Group not found"))
      && (Find(groups, groupId).Some? && Find(users, userId).None? ==> r == Err("User not found"))
      && (Find(groups, groupId).Some? && Find(users, userId).Some? ==>
          var g := Find(groups, groupId).value;
          && IsGroupRecord(g)
          && (r.Ok? <==> userId in Members(g) && userId != AdminId(g))
          && (r.Err? ==> r == Err(Leave(Members(g), AdminId(g), userId).msg))
          && (r.Ok? ==> Members(r.value) == Without(Members(g), userId) && AdminId(r.value) == AdminId(g)
                        && SameExcept(g, r.value, "members")))
  {
    if Find(groups, groupId).Some? {
      var g := groups[FirstIndex(groups, groupId)];
      assert Find(groups, groupId).value == g;
      if Find(users, userId).Some? && userId in Members(g) && userId != AdminId(g) {
        LeaveKeepsInvariants(Members(g), AdminId(g), userId);
      }
    }
  }

  /** `join_group` on the store: the answer above, and on success the group is written back. */
  method JoinGroup(db: Db, groupId: string, userId: string) returns (r: Result<Record>)
    requires Consistent(db)
    modifies db
    ensures Consistent(db)
    ensures r == JoinGroupResult(old(db.Items("groups")), old(db.Items("users")), groupId, userId)
    ensures db.collections == if r.Err? then old(db.collections)
      else old(db.collections)["groups" := old(db.Items("groups"))[FirstIndex(old(db.Items("groups")), groupId) := r.value]]
  {
    ghost var groups := db.Items("groups");
    var group := db.GetItemById("groups", groupId);
    if group.None? {
      return Err("Group not found");
    }
    var g := group.value;
    var user := db.GetItemById("users", userId);
    if user.None? {
      return Err("User not found");
    }
    var members := Members(g);
    if userId in members {
      return Err("User already in group");
    }
    if |members| >= MaxMembers(g) {
      return Err("Group is full");
    }
    members := members + [userId];
    assert g == groups[FirstIndex(groups, groupId)];
    assert Join(Members(g), MaxMembers(g), userId) == Ok(members);
    var _ := db.UpdateItem("groups", groupId, map["members" := StrList(members)]);
    r := Ok(Merge(g, map["members" := StrList(members)]));
    assert r == JoinGroupResult(groups, old(db.Items("users")), groupId, userId);
    GroupsSoundUpdate(groups, FirstIndex(groups, groupId), r.value);
  }

  /** `leave_group` on the store: the answer above, and on success the group is written back. */
  method LeaveGroup(db: Db, groupId: string, userId: string) returns (r: Result<Record>)
    requires Consistent(db)
    modifies db
    ensures Consistent(db)
    ensures r == LeaveGroupResult(old(db.Items("groups")), old(db.Items("users")), groupId, userId)
    ensures db.collections == if r.Err? then old(db.collections)
      else old(db.collections)["groups" := old(db.Items("groups"))[FirstIndex(old(db.Items("groups")), groupId) := r.value]]
  {
    ghost var groups := db.Items("groups");
    var group := db.GetItemById("groups", groupId);
    if group.None? {
      return Err("Group not found");
    }
    var g := group.value;
    var user := db.GetItemById("users", userId);
    if user.None? {
      return Err("User not found");
    }
    var members := Members(g);
    if userId !in members {
      return Err("User not in group");
    }
    if AdminId(g) == userId {
      return Err("Admin cannot leave group");
    }
    members := RemoveFirst(members, userId);
    assert g == groups[FirstIndex(groups, groupId)];
    assert Leave(Members(g), AdminId(g), userId) == Ok(members);
    var _ := db.UpdateItem("groups", groupId, map["members" := StrList(members)]);
    r := Ok(Merge(g, map["members" := StrList(members)]));
    assert r == LeaveGroupResult(groups, old(db.Items("users")), groupId, userId);
    GroupsSoundUpdate(groups, FirstIndex(groups, groupId), r.value);
  }

  /** `read_groups_lf`: the page is cut first, then filtered down to the open groups.
      (The X-User-ID header it requires is not used.) */
  method ReadGroupsLf(db: Db, skip: int, limit: int) returns (r: seq<Record>)
    requires Consistent(db)
    ensures r == OpenGroups(Slice(db.Items("groups"), skip, skip + limit))
  {
    var all := db.GetAll("groups");
    var groups := Slice(all, skip, skip + limit);
    assert GroupsSound(groups);
    r := [];
    var i := 0;
    while i < |groups|
      invariant 0 <= i <= |groups|
      invariant r == OpenGroups(groups[..i])
    {
      assert groups[..i + 1][..i] == groups[..i];
      if |Members(groups[i])| < MaxMembers(groups[i]) {
        r := r + [groups[i]];
      }
      i := i + 1;
    }
    assert groups[..i] == groups;
  }
}
