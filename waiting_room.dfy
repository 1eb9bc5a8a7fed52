/** The waiting room of one group (src/pages/WaitingRoom.tsx). */
module WaitingRoom {
  import opened Wrappers
  import opened Types

  /** `groups.find(g => g.id === groupId)`. */
  function FindGroup(groups: seq<Group>, id: string): (r: Option<Group>)
    ensures r.None? <==> forall i :: 0 <= i < |groups| ==> groups[i].id != id
    ensures r.Some? ==> exists i :: (0 <= i < |groups| && groups[i] == r.value && r.value.id == id
      && forall j :: 0 <= j < i ==> groups[j].id != id)
  {
    if groups == [] then None
    else if groups[0].id == id then Some(groups[0])
    else FindGroup(groups[1..], id)
  }

  /** The members shown: users in the fetched order whose id is a member id; member ids
      without a user record show nothing. */
  function Roster(users: seq<User>, g: Group): (r: seq<User>)
    ensures |r| <= |users|
    ensures forall i :: 0 <= i < |r| ==> r[i] in users && r[i].id in g.members
    ensures forall i :: 0 <= i < |users| && users[i].id in g.members ==> users[i] in r
  {
    if users == [] then []
    else (if users[0].id in g.members then [users[0]] else []) + Roster(users[1..], g)
  }

  /** The roster keeps the order of the fetched user list. */
  lemma {:induction false} RosterKeepOrder(a: seq<User>, b: seq<User>, g: Group)
    ensures Roster(a + b, g) == Roster(a, g) + Roster(b, g)
  {
    if a == [] {
      assert a + b == b;
    } else {
      assert (a + b)[1..] == a[1..] + b;
      RosterKeepOrder(a[1..], b, g);
    }
  }

  /** The empty slots: `Array.from({length: max_members - members.length})`, none when negative. */
  function OpenSlots(g: Group, shown: seq<User>): (n: nat)
    ensures n + |shown| >= g.maxMembers
    ensures n > 0 ==> n + |shown| == g.maxMembers
  {
    if g.maxMembers - |shown| > 0 then g.maxMembers - |shown| else 0
  }

  /** The admin badge is on the member whose id is the group's admin id. */
  predicate HasAdminBadge(member: User, g: Group) {
    member.id == g.adminId
  }

  /** No two users share an id. The backend does not guarantee this (a user created with the
      id "" keeps it, and several may be), so `AdminBadgeOnce` takes it as a precondition. */
  predicate DistinctIds(us: seq<User>) {
    forall a, b :: 0 <= a < b < |us| ==> us[a].id != us[b].id
  }

  /** The roster of a list without repeated ids has no repeated ids. */
  lemma {:induction false} RosterDistinctIds(users: seq<User>, g: Group)
    requires DistinctIds(users)
    ensures DistinctIds(Roster(users, g))
  {
    if users != [] {
      RosterDistinctIds(users[1..], g);
      var tail := Roster(users[1..], g);
      forall k | 0 <= k < |tail|
        ensures tail[k].id != users[0].id
      {
        var m :| 0 <= m < |users[1..]| && users[1..][m] == tail[k];
        assert users[m + 1] == tail[k];
      }
    }
  }

  /** The admin badge appears on the roster exactly once when the admin is a member whose user
      record was fetched, and never twice. */
  lemma AdminBadgeOnce(users: seq<User>, g: Group)
    requires DistinctIds(users)
    ensures var r := Roster(users, g);
      && (forall i, j :: 0 <= i < |r| && 0 <= j < |r| && HasAdminBadge(r[i], g) && HasAdminBadge(r[j], g) ==> i == j)
      && ((exists k :: 0 <= k < |users| && users[k].id == g.adminId) && g.adminId in g.members <==>
          exists i :: 0 <= i < |r| && HasAdminBadge(r[i], g))
  {
    var r := Roster(users, g);
    RosterDistinctIds(users, g);
    if exists k :: 0 <= k < |users| && users[k].id == g.adminId {
      var k :| 0 <= k < |users| && users[k].id == g.adminId;
      if g.adminId in g.members {
        var i :| 0 <= i < |r| && r[i] == users[k];
        assert HasAdminBadge(r[i], g);
      }
    }
    if exists i :: 0 <= i < |r| && HasAdminBadge(r[i], g) {
      var i :| 0 <= i < |r| && HasAdminBadge(r[i], g);
      var k :| 0 <= k < |users| && users[k] == r[i];
      assert users[k].id == g.adminId;
    }
  }

  /** The page state: the loading spinner, the group, the members shown, and a redirect. */
  datatype PageState = PageState(loading: bool, group: Option<Group>, members: seq<User>, redirect: Option<string>)

  const Initial: PageState := PageState(true, None, [], None)

  datatype Fetch<T> = Failed | Fetched(data: T)

  /** `fetchGroupDetails`: without a route id nothing happens and the spinner stays; otherwise
      the spinner clears whatever the fetches do. An unknown id sends the page to "/groups". */
  function FetchGroupDetails(groupId: Option<string>, groups: Fetch<seq<Group>>, users: Fetch<seq<User>>): (s: PageState)
    ensures groupId.None? || groupId == Some("") ==> s == Initial
    ensures groupId.Some? && groupId.value != "" ==> !s.loading
    ensures s.redirect.Some? <==>
      groupId.Some? && groupId.value != "" && groups.Fetched? && FindGroup(groups.data, groupId.value).None?
    ensures s.redirect.Some? ==> s.redirect.value == "/groups" && s.group.None?
    ensures s.group.Some? ==> groups.Fetched? && s.group == FindGroup(groups.data, groupId.value)
    ensures s.group.Some? && users.Fetched? ==> s.members == Roster(users.data, s.group.value)
    ensures s.members != [] ==> s.group.Some? && users.Fetched?
    ensures groupId.Some? && groupId.value != "" && groups.Failed? ==> s == PageState(false, None, [], None)
    ensures groupId.Some? && groupId.value != "" && groups.Fetched? ==> s.group == FindGroup(groups.data, groupId.value)
    ensures s.group.Some? && users.Failed? ==> s.members == []
  {
    if groupId.None? || groupId.value == "" then Initial
    else
      match groups
      case Failed => PageState(false, None, [], None)
      case Fetched(gs) =>
        match FindGroup(gs, groupId.value)
        case None => PageState(false, None, [], Some("/groups"))
        case Some(g) =>
          match users
          case Failed => PageState(false, Some(g), [], None)
          case Fetched(us) => PageState(false, Some(g), Roster(us, g), None)
  }
}
