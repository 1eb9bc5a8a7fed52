/** The front-end's view of the backend's documents (src/types.ts). */
module Types {
  import opened Wrappers

  /** `liked_by` is optional on the wire. */
  datatype User = User(
    id: string, name: string, email: string, age: int, interests: seq<string>, location: string,
    likedBy: Option<seq<string>>)

  datatype Group = Group(
    id: string, name: string, description: string, activity: seq<string>, location: string,
    maxMembers: int, ageGroup: string, members: seq<string>, adminId: string)

  /** `xs?.includes(x)`: false when the list is absent. */
  predicate Includes(xs: Option<seq<string>>, x: string) {
    xs.Some? && x in xs.value
  }
}
