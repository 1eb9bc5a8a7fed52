/**
 * The shapes of the stored user and group documents (app/models/user.py,
 * app/models/group.py) and the consistency the endpoints keep between them.
 */
module Models {
  import opened Wrappers
  import opened Storage
  import opened PyList

  /** The body of a user creation request; `id` is optional. */
  datatype UserCreate = UserCreate(
    name: string, email: string, age: int, interests: seq<string>, location: string, id: Option<string>)

  /** The body of a group creation request. `activity` is a single string here (see README). */
  datatype GroupCreate = GroupCreate(
    name: string, description: string, activity: string, location: string, maxMembers: int, ageGroup: string)

  predicate IsUserRecord(r: Record) {
    && "id" in r && r["id"].Str?
    && "email" in r && r["email"].Str?
    && ("liked_by" in r ==> r["liked_by"].StrList?)
  }

  predicate IsGroupRecord(r: Record) {
    && "id" in r && r["id"].Str?
    && "members" in r && r["members"].StrList?
    && "max_members" in r && r["max_members"].Int?
    && "admin_id" in r && r["admin_id"].Str?
  }

  function Id(r: Record): string
    requires "id" in r && r["id"].Str?
  {
    r["id"].str
  }

  function Email(r: Record): string
    requires IsUserRecord(r)
  {
    r["email"].str
  }

  /** `user.get("liked_by", [])`: the ids of the users who liked this one. */
  function LikedBy(r: Record): seq<string>
    requires IsUserRecord(r)
  {
    if "liked_by" in r then r["liked_by"].list else []
  }

  function Members(g: Record): seq<string>
    requires IsGroupRecord(g)
  {
    g["members"].list
  }

  function MaxMembers(g: Record): int
    requires IsGroupRecord(g)
  {
    g["max_members"].num
  }

  function AdminId(g: Record): string
    requires IsGroupRecord(g)
  {
    g["admin_id"].str
  }

  /** `User(**user_in.dict()).dict()`: the request fields, the id and an empty `liked_by`. */
  function NewUserRecord(u: UserCreate, id: string): (r: Record)
    ensures IsUserRecord(r) && Id(r) == id && Email(r) == u.email && LikedBy(r) == []
  {
    map["name" := Str(u.name), "email" := Str(u.email), "age" := Int(u.age),
        "interests" := StrList(u.interests), "location" := Str(u.location),
        "id" := Str(id), "liked_by" := StrList([])]
  }

  /** `Group(**group_in.dict(), admin_id=admin, members=[admin]).dict()`. */
  function NewGroupRecord(g: GroupCreate, id: string, admin: string): (r: Record)
    ensures IsGroupRecord(r) && Id(r) == id && AdminId(r) == admin && Members(r) == [admin]
    ensures MaxMembers(r) == g.maxMembers
  {
    map["name" := Str(g.name), "description" := Str(g.description), "activity" := Str(g.activity),
        "location" := Str(g.location), "max_members" := Int(g.maxMembers), "age_group" := Str(g.ageGroup),
        "id" := Str(id), "members" := StrList([admin]), "admin_id" := Str(admin)]
  }

  /** A user document whose likers are listed once each, never the user itself. */
  predicate SoundUser(r: Record) {
    IsUserRecord(r) && Distinct(LikedBy(r)) && Id(r) !in LikedBy(r)
  }

  /** A group document whose members are listed once each and include the admin. */
  predicate SoundGroup(g: Record) {
    IsGroupRecord(g) && Distinct(Members(g)) && AdminId(g) in Members(g)
  }

  predicate UsersSound(us: seq<Record>) {
    forall i :: 0 <= i < |us| ==> SoundUser(us[i])
  }

  predicate GroupsSound(gs: seq<Record>) {
    forall i :: 0 <= i < |gs| ==> SoundGroup(gs[i])
  }

  /** `b` is `a` with at most the value under `key` changed. */
  ghost predicate SameExcept(a: Record, b: Record, key: string) {
    forall k :: k != key ==> (k in a <==> k in b) && (k in a && k in b ==> a[k] == b[k])
  }

  /** What every endpoint keeps true of the whole store. */
  ghost predicate Consistent(db: Db)
    reads db
  {
    UsersSound(db.Items("users")) && GroupsSound(db.Items("groups"))
  }

  /** Replacing or appending a sound document keeps a collection sound. */
  lemma GroupsSoundUpdate(gs: seq<Record>, k: nat, g: Record)
    requires GroupsSound(gs) && SoundGroup(g) && k < |gs|
    ensures GroupsSound(gs[k := g]) && GroupsSound(gs + [g])
  {
  }

  lemma UsersSoundUpdate(us: seq<Record>, k: nat, u: Record)
    requires UsersSound(us) && SoundUser(u) && k < |us|
    ensures UsersSound(us[k := u]) && UsersSound(us + [u])
  {
  }

}
