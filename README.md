# Matchmaking core, modelled in Dafny

This project models the core of a small social matchmaking application. A
FastAPI backend keeps users and groups in a JSON document store. It lets users
create, join and leave groups, like and unlike each other, and get group
recommendations. A React front end derives what it shows from that data:
- a globe of live groups;
- the group list with its creation form;
- the mutual-likes page;
- the profile sidebar;
- a group's waiting room.

The modules follow the program's files:

| module | file | what it holds |
|---|---|---|
| `Storage` | `storage.dfy` | the store (`app/data/storage.py`), as the class `Db` whose field `collections` maps a collection name to its records. Records are maps from keys to JSON values. |
| `Models` | `models.dfy` | the request bodies and stored documents (`app/models/*.py`), and the store invariant `Consistent` that every endpoint keeps: likers listed once and never the user itself; members listed once and including the admin. |
| `GroupsEndpoint` | `groups.dfy` | `create_group`, `read_groups`, `join_group`, `leave_group`, `read_groups_lf`, each a method on the store. Each state-changing endpoint is specified by a pure function giving its answer, `Ok(record)` or `Err(detail)`. |
| `UsersEndpoint` | `users.dfy` | `create_user`, `read_users`, `read_user_by_id`, `like_user`, `get_user_likes`, `unlike_user`, in the same style. |
| `Recommendation` | `recommendation.dfy` | `calculate_relevance_score`, and `get_recommended_groups` as a loop, a stable descending sort and a truncation. |
| `PyList` | `pylist.dfy` | the Python list and string operations the backend relies on: slicing with negative and out-of-range bounds, `list.remove`, filtering and `str.lower`. |
| `Types` | `types.dfy` | the front end's `User` and `Group` types. |
| `Globe` | `globe.dfy` | `src/components/Globe.tsx`: the live-group filter, the cyclic node-to-group lookup, the pair enumeration, the dot colour, the load fallback, and the pointer and hover state as the class `Interaction`. |
| `GroupsPage` | `groups_page.dfy` | `src/pages/Groups.tsx`: the activity-tag editor, the form reset and the card button. |
| `MutualsPage` | `mutuals.dfy` | `src/pages/Mutuals.tsx`: the mutual filter, shared interests and badges. |
| `SidebarLeft` | `sidebar_left.dfy` | `src/components/SidebarLeft.tsx`: the interest toggle, the joined-group count and the likes count. |
| `WaitingRoom` | `waiting_room.dfy` | `src/pages/WaitingRoom.tsx`: the group lookup, the roster, the open slots, the admin badge and the page state after the fetches. |

Where the source files disagree with each other, or a behaviour needs pinning down, the model takes these readings:
- **Group `activity`.** `app/models/group.py:8` declares it a list of strings, while `app/services/recommendation.py:16` calls `.lower()` on the stored value, which only a string has. The backend model stores a single string (`Models.GroupCreate`), the reading under which scoring works; the pydantic check of that field is left out (see `GroupsEndpoint.CreateGroup` below). The front end's form keeps it as a list of tags, as `src/pages/Groups.tsx:27` does.
- **Hover.** Leaving any node's hit area clears the hover unconditionally (`src/components/Globe.tsx:154-157`). It is not first checked against the node being left.
- **Dot colour.** A dot has one of two colours (`src/components/Globe.tsx:140-142`). There is no colour gradient by score and no click selection.

## Model

| member | source | states |
|---|---|---|
| Storage.Find | app/data/storage.py:40-46 | None exactly when no record has the id; otherwise a stored record carrying the id (the first, through `FirstIndex`) |
| Storage.FirstIndex | app/data/storage.py:43-45 | the position of the first record with the id: every earlier record lacks it, and it is the length when no record has it |
| Storage.Merge | app/data/storage.py:55 | `dict.update`: the keys of the update are overwritten, every other key keeps its value, the key set is the union |
| Storage.Db.constructor | app/data/storage.py:9-13 | a fresh store has empty "users" and "groups" collections |
| Storage.Db.GetAll | app/data/storage.py:26-29 | the collection's records, or the empty sequence when the collection is absent |
| Storage.Db.AddItem | app/data/storage.py:31-38 | the item is appended at the end of its collection, which is created when missing; other collections are unchanged |
| Storage.Db.GetItemById | app/data/storage.py:40-46 | the loop returns the first record with the id, or None |
| Storage.Db.UpdateItem | app/data/storage.py:48-60 | true and the first matching record merged with the updates, every other record and collection unchanged; false and no change when the id is absent |
| Storage.Db.DeleteItem | app/data/storage.py:62-74 | true and exactly the first matching record removed, the rest in order and the length one less; false and no change when absent |
| PyList.Slice | app/api/v1/endpoints/groups.py:35 | Python slicing: at most the list's length, element i of the result is element `start+i` of the list after normalising negative and oversized bounds |
| PyList.SliceWindow | app/api/v1/endpoints/groups.py:35 | for non-negative skip and limit, `s[skip:skip+limit]` has length `min(limit, max(0, len-skip))` and starts at `skip` |
| PyList.SlicePrefix | app/services/recommendation.py:52 | `s[:limit]` is a prefix of `s`, of length at most `limit` for a non-negative limit and `len+limit` (floored at 0) for a negative one |
| PyList.RemoveFirst | app/api/v1/endpoints/groups.py:90 | `list.remove`: one occurrence fewer when present (the multiset loses exactly one copy), unchanged when absent |
| PyList.IndexOf | app/api/v1/endpoints/groups.py:90 | the position of the first occurrence: it holds the element and nothing before it does |
| PyList.RemoveFirstAt | app/api/v1/endpoints/groups.py:90 | `list.remove` deletes exactly the first occurrence: what remains is the part before it followed by the part after it, in order |
| PyList.RemoveFirstAtIndex | app/api/v1/endpoints/users.py:122 | the same, at the position of the first occurrence |
| PyList.RemoveFirstDistinct | app/api/v1/endpoints/users.py:122 | on a duplicate-free list, removing the first occurrence removes every occurrence and keeps the rest in order and duplicate-free |
| PyList.Without | src/components/SidebarLeft.tsx:48 | the filter `t !== x`: x is gone, every other element is kept, nothing new appears |
| PyList.WithoutAppend | src/pages/Groups.tsx:81 | filtering distributes over an appended element |
| PyList.Lower | app/services/recommendation.py:15-16 | `str.lower` keeps the length and lowers each character |
| PyList.LowerIdempotent | app/services/recommendation.py:15-16 | lowering twice is lowering once |
| Models.NewUserRecord | app/api/v1/endpoints/users.py:29-34 | the stored user carries the request's fields, the chosen id and an empty `liked_by` |
| Models.NewGroupRecord | app/api/v1/endpoints/groups.py:21-26 | the stored group has `admin_id` equal to the creator and `members` exactly `[creator]` |
| GroupsEndpoint.Join | app/api/v1/endpoints/groups.py:53-61 | succeeds exactly for a non-member of a group below capacity; "User already in group" is checked before "Group is full"; success appends the user at the end |
| GroupsEndpoint.Leave | app/api/v1/endpoints/groups.py:82-90 | succeeds exactly for a member who is not the admin; "User not in group" is checked before "Admin cannot leave group"; success shortens the list by one |
| GroupsEndpoint.JoinKeepsInvariants | app/api/v1/endpoints/groups.py:54-61 | after a join the members are still duplicate-free, still include the admin and the user, and do not exceed `max_members` |
| GroupsEndpoint.LeaveKeepsInvariants | app/api/v1/endpoints/groups.py:83-90 | after a leave the members are duplicate-free, still include the admin, no longer include the user, and keep the others in order |
| GroupsEndpoint.JoinThenLeave | app/api/v1/endpoints/groups.py:54-91 | a non-admin's join followed by a leave gives back the original member list |
| GroupsEndpoint.OpenGroups | app/api/v1/endpoints/groups.py:106-108 | the groups kept are exactly those with fewer members than `max_members` |
| GroupsEndpoint.OpenGroupsKeepOrder | app/api/v1/endpoints/groups.py:106-108 | the filter keeps input order (it distributes over concatenation) |
| GroupsEndpoint.CreateGroup | app/api/v1/endpoints/groups.py:17-27 | "Admin user not found" and no change for an unknown creator; otherwise the new group, appended to the groups, with the creator as admin and only member |
| GroupsEndpoint.ReadGroups | app/api/v1/endpoints/groups.py:34-35 | the page `groups[skip:skip+limit]` |
| GroupsEndpoint.JoinGroupResult | app/api/v1/endpoints/groups.py:45-64 | a successful join yields a sound group: members distinct and including the admin |
| GroupsEndpoint.JoinGroupOutcome | app/api/v1/endpoints/groups.py:45-64 | the errors in order (group missing, user missing, already a member, full); success iff non-member and below capacity, the user appended, every other key unchanged |
| GroupsEndpoint.LeaveGroupResult | app/api/v1/endpoints/groups.py:74-93 | a successful leave yields a sound group |
| GroupsEndpoint.LeaveGroupOutcome | app/api/v1/endpoints/groups.py:74-93 | the errors in order (group missing, user missing, not a member, admin); success iff non-admin member, the user filtered out, admin and every other key unchanged |
| GroupsEndpoint.JoinGroup | app/api/v1/endpoints/groups.py:45-64 | answers as `JoinGroupResult` on the old store; the store is unchanged on error and otherwise has only the matched group replaced; the store invariant is kept |
| GroupsEndpoint.LeaveGroup | app/api/v1/endpoints/groups.py:74-93 | answers as `LeaveGroupResult` on the old store; unchanged on error, else only the matched group replaced; the invariant is kept |
| GroupsEndpoint.ReadGroupsLf | app/api/v1/endpoints/groups.py:104-110 | the loop returns, in order, exactly the groups below capacity within `groups[skip:skip+limit]`: the slice is taken before the filter |
| UsersEndpoint.Like | app/api/v1/endpoints/users.py:81-87 | the actor is then a liker; a new actor is added once, at the end; an existing one changes nothing |
| UsersEndpoint.Unlike | app/api/v1/endpoints/users.py:121-122 | a liker is removed (one fewer); a non-liker changes nothing |
| UsersEndpoint.LikeIdempotent | app/api/v1/endpoints/users.py:81 | liking twice is liking once |
| UsersEndpoint.LikeKeepsDistinct | app/api/v1/endpoints/users.py:77-87 | likes keep `liked_by` duplicate-free and never add the user itself |
| UsersEndpoint.UnlikeRemovesActor | app/api/v1/endpoints/users.py:121-122 | on a duplicate-free list unlike removes the actor entirely, keeping the rest in order |
| UsersEndpoint.LikeThenUnlike | app/api/v1/endpoints/users.py:81-123 | like then unlike restores `liked_by` when the actor was not in it |
| UsersEndpoint.CreateUser | app/api/v1/endpoints/users.py:14-35 | a taken email is refused first with no change; then a supplied non-empty id already stored returns that user with no change; otherwise exactly one new user is appended; the invariant is kept |
| UsersEndpoint.ReadUsers | app/api/v1/endpoints/users.py:42-43 | the page `users[skip:skip+limit]` |
| UsersEndpoint.ReadUserById | app/api/v1/endpoints/users.py:50-56 | "User '<id>' not found" exactly when no user has the id; otherwise the first stored user with the id, which matters because ids can repeat |
| UsersEndpoint.GetUserLikes | app/api/v1/endpoints/users.py:96-100 | not-found for an unknown user; otherwise the length of `liked_by`, 0 when it is missing |
| UsersEndpoint.LikeUserResult | app/api/v1/endpoints/users.py:67-89 | a successful like yields a sound user |
| UsersEndpoint.LikeUserOutcome | app/api/v1/endpoints/users.py:67-89 | the errors in order (target missing, actor missing, self-like); otherwise `liked_by` becomes `Like(liked_by, actor)` and nothing else changes |
| UsersEndpoint.UnlikeUserResult | app/api/v1/endpoints/users.py:111-125 | a successful unlike yields a sound user |
| UsersEndpoint.UnlikeUserOutcome | app/api/v1/endpoints/users.py:111-125 | the errors in order (target missing, actor missing); otherwise the actor is filtered out of `liked_by` and nothing else changes |
| UsersEndpoint.LikeUser | app/api/v1/endpoints/users.py:67-89 | answers as `LikeUserResult`; the store changes only when the target changed, and then only that user; the invariant is kept |
| UsersEndpoint.UnlikeUser | app/api/v1/endpoints/users.py:111-125 | answers as `UnlikeUserResult`; the store changes only when the target changed, and then only that user; the invariant is kept |
| Recommendation.RelevanceScore | app/services/recommendation.py:12-29 | the score lies in [0, 6]; it is positive iff some criterion matches, 6 iff all three match; an interest match weighs 3, a location match 2 and an age match 1, so each match can be read back from the score |
| Recommendation.InterestMatchIff | app/services/recommendation.py:15-19 | the 3 points are awarded iff some interest lowercases to the lowercased activity |
| Recommendation.Candidates | app/services/recommendation.py:39-46 | each entry is a group of the input the user is not in, paired with its score, which is positive |
| Recommendation.CandidatesKeepOrder | app/services/recommendation.py:39-46 | the loop keeps input order (it distributes over concatenation) |
| Recommendation.CandidatesComplete | app/services/recommendation.py:39-46 | every group the user is not in whose score is positive is a candidate |
| Recommendation.InsertPermutation | app/services/recommendation.py:49 | inserting keeps every entry: the multiset gains exactly the inserted one |
| Recommendation.InsertSorted | app/services/recommendation.py:49 | inserting into a list sorted by non-increasing score keeps it sorted |
| Recommendation.SortDesc | app/services/recommendation.py:49 | the sort yields a permutation of its input, sorted by non-increasing score |
| Recommendation.SortDescStable | app/services/recommendation.py:49 | the sort is stable: the entries of each score keep their input order |
| Recommendation.GetRecommendedGroups | app/services/recommendation.py:31-52 | the loop and sort return the first `limit` groups of the stably sorted candidates |
| Recommendation.RankedSound | app/services/recommendation.py:39-49 | the ranking is sorted and holds only non-member groups with their positive scores |
| Recommendation.RankedComplete | app/services/recommendation.py:39-49 | every eligible group is ranked |
| Recommendation.RecommendedProperties | app/services/recommendation.py:40-52 | the result is a prefix of the ranking, at most `limit` long, holds no group the user is in, only positive scores, in non-increasing order |
| Globe.LiveGroups | src/components/Globe.tsx:50-53 | exactly the groups with fewer members than `max_members` |
| Globe.LiveGroupsKeepOrder | src/components/Globe.tsx:51 | the filter keeps input order (it distributes over concatenation) |
| Globe.GroupPerNode | src/components/Globe.tsx:54-58 | null iff the shuffled list is empty; otherwise a group of that list |
| Globe.NodeAssignment | src/components/Globe.tsx:54-58 | for any permutation of the live groups: every node is null iff nothing is live, otherwise every node shows a live group of the input |
| Globe.NodePeriodic | src/components/Globe.tsx:57-58 | nodes i and i+L show the same group; the first L nodes show the shuffled list in order |
| Globe.EveryLiveGroupShown | src/components/Globe.tsx:54-58 | with at most 60 live groups, every live group is on some node |
| Globe.Connections | src/components/Globe.tsx:37-47 | the nested loops list exactly the pairs i < j that pass the distance test, in strictly increasing lexicographic order |
| Globe.IncreasingPairsDistinct | src/components/Globe.tsx:39-45 | pairs in that order are listed once each |
| Globe.DotColor | src/components/Globe.tsx:140-142 | orange iff the node has a group whose id is recommended, cyan otherwise |
| Globe.Ids | src/components/Globe.tsx:216-221 | the recommended set holds exactly the ids of the fetched recommendations |
| Globe.Load | src/components/Globe.tsx:207-227 | a rejected fetch gives no groups and no recommendations; otherwise the fetched groups (or none) and the recommended ids (or none) |
| Globe.FailedLoadIsNeutral | src/components/Globe.tsx:223-226 | after a failed load every node is empty and cyan |
| Globe.Interaction.constructor | src/components/Globe.tsx:61-67 | not dragging, no rotation, pointer at the origin, no node hovered |
| Globe.Interaction.PointerDown | src/components/Globe.tsx:103-107 | dragging starts at the pointer position; rotation and hover are unchanged |
| Globe.Interaction.PointerMove | src/components/Globe.tsx:70-82 | only while dragging and mounted: yaw and pitch turn by the pointer delta times 0.004, the pitch clamped, and the last pointer moves; otherwise nothing changes |
| Globe.Interaction.PointerUp | src/components/Globe.tsx:83-88 | dragging stops (pointer-up and pointer-leave); nothing else changes |
| Globe.Interaction.HoverOver | src/components/Globe.tsx:149-153 | the hovered node becomes i |
| Globe.Interaction.HoverOut | src/components/Globe.tsx:154-157 | the hover is cleared, whichever node held it |
| GroupsPage.TrimStart | src/pages/Groups.tsx:69 | leading JavaScript white space is dropped: what remains is a suffix starting with a non-space |
| GroupsPage.TrimEnd | src/pages/Groups.tsx:69 | trailing white space is dropped: what remains is a prefix ending with a non-space |
| GroupsPage.Trim | src/pages/Groups.tsx:69 | `trim()` is empty iff the input is all white space, and otherwise neither starts nor ends with white space |
| GroupsPage.TrimWithin | src/pages/Groups.tsx:69 | the trimmed text is a slice of the input with only white space before and after it |
| GroupsPage.KeyDown | src/pages/Groups.tsx:66-78 | space or enter adds a non-blank new trimmed tag and clears the input, else changes nothing; backspace on an empty input drops exactly the last tag, else changes nothing; other form fields are untouched |
| GroupsPage.KeyDownKeepsDistinct | src/pages/Groups.tsx:66-77 | the tags stay duplicate-free |
| GroupsPage.KeyDownAddsTrimmed | src/pages/Groups.tsx:67-71 | a key press adds at most one tag, and that tag is the trimmed input: non-empty and neither starting nor ending with white space |
| GroupsPage.AddThenBackspace | src/pages/Groups.tsx:66-77 | a tag just added is removed again by backspace on the now empty input |
| GroupsPage.RemoveTag | src/pages/Groups.tsx:80-82 | every occurrence of the tag goes, every other tag stays |
| GroupsPage.AddThenRemove | src/pages/Groups.tsx:66-82 | removing a tag just added restores the form |
| GroupsPage.AfterCreate | src/pages/Groups.tsx:57-58 | after a successful create the form has its default values and the input is empty; after a failure nothing changes |
| GroupsPage.Button | src/pages/Groups.tsx:220-287 | an admin member gets delete, another member leave, a non-member join, disabled and labelled "Group Full" exactly when the group is full |
| MutualsPage.Mutuals | src/pages/Mutuals.tsx:30-34 | exactly the fetched users who are mutual; never the demo user |
| MutualsPage.MutualsKeepOrder | src/pages/Mutuals.tsx:30 | the filter keeps fetched order (it distributes over concatenation) |
| MutualsPage.FetchMutuals | src/pages/Mutuals.tsx:20-43 | loading ends; the current user is what its fetch returned; when both fetches succeed the mutuals are exactly the mutual filter of the fetched users, otherwise there are none |
| MutualsPage.SharedInterests | src/pages/Mutuals.tsx:48-53 | empty without a current user; otherwise the other user's interests that the current user also has |
| MutualsPage.Shared | src/pages/Mutuals.tsx:50-52 | exactly the entries of the first list that the second list holds |
| MutualsPage.SharedKeepOrder | src/pages/Mutuals.tsx:50-52 | the filter keeps the other user's order (it distributes over concatenation) |
| MutualsPage.InterestBadges | src/pages/Mutuals.tsx:140-156 | exactly the first three shared interests (all of them when fewer), and a "+n" badge iff there are more than three, with n the number beyond three |
| SidebarLeft.Toggle | src/components/SidebarLeft.tsx:46-49 | a selected tag is removed everywhere, an unselected one appended |
| SidebarLeft.ToggleKeepsDistinct | src/components/SidebarLeft.tsx:48 | the selection stays duplicate-free |
| SidebarLeft.ToggleTwice | src/components/SidebarLeft.tsx:48 | toggling twice gives back the same set: the same list for an unselected tag, the tag moved to the end for a selected one |
| SidebarLeft.JoinedCount | src/components/SidebarLeft.tsx:35-37 | the joined count is at most the number of groups |
| SidebarLeft.JoinedCountIsCardinality | src/components/SidebarLeft.tsx:35-37 | the joined count is the number of groups whose member list includes the demo user |
| SidebarLeft.LikesReceived | src/components/SidebarLeft.tsx:149 | the length of `liked_by`, 0 when it is absent |
| WaitingRoom.FindGroup | src/pages/WaitingRoom.tsx:26 | None iff no group has the id; otherwise the first group with it |
| WaitingRoom.Roster | src/pages/WaitingRoom.tsx:38-40 | exactly the fetched users whose id is a member id; ids without a user show nothing |
| WaitingRoom.RosterKeepOrder | src/pages/WaitingRoom.tsx:38-40 | the roster keeps fetched order (it distributes over concatenation) |
| WaitingRoom.RosterDistinctIds | src/pages/WaitingRoom.tsx:38-40 | a roster drawn from users with distinct ids has distinct ids |
| WaitingRoom.AdminBadgeOnce | src/pages/WaitingRoom.tsx:139-141 | at most one roster card carries the admin badge, and one does iff the admin is a member whose user record was fetched |
| WaitingRoom.OpenSlots | src/pages/WaitingRoom.tsx:148 | `max(0, max_members - shown members)` |
| WaitingRoom.FetchGroupDetails | src/pages/WaitingRoom.tsx:19-51 | without a route id the page stays loading; otherwise loading ends; a failed group fetch shows nothing; an unknown id redirects to "/groups" with no group; a found group is the first group with the id and shows its roster once users are fetched, no members when the user fetch fails |

## Left out

- JSON file persistence (`load_db`, `save_db`) is file I/O. The store is a value held by `Storage.Db`, as the test suite's in-memory store is.
- FastAPI routing, headers, status codes and pydantic validation and serialisation are left out. An endpoint answers `Ok(record)` or `Err(detail)`, and the status code is dropped.
- `read_groups_lf` requires an `X-User-ID` header that it never uses. The model takes no such parameter.
- GroupsEndpoint.CreateGroup: stores `activity` as the single string the scoring reads; the pydantic validation against `List[str]` declared at `app/models/group.py:8`, which would reject such a string, is not modelled.
- UUID generation is replaced by the `freshId` parameter of the create methods.
- Groups, Mutuals and SidebarLeft read the demo user's id from a constant. The model takes that id as a parameter.
- Read-modify-write races between concurrent requests are left out, and so are the parallel and asynchronous fetches of the front end. Only the combined outcome of the fetches is modelled.
- `Math.random` in the globe's shuffle: any permutation of the live groups is allowed (`multiset(shuffled) == multiset(LiveGroups(groups))`).
- Globe floating-point geometry is left out:
  - the Fibonacci sphere points and `distanceTo` are the abstract predicate `near` over node indices;
  - rotation uses `real`, not IEEE doubles;
  - the pitch limit pi/2 - 0.1 is the parameter `pitchLimit`.
- Rendering, JSX, CSS, toasts and navigation side effects are UI. Only the derived values and the redirect target are kept.
- `PyList.Lower` covers ASCII letters only. Python lowers all of Unicode.
- `Globe.Interaction` does not model the scene-mounted ref `groupRef`. It is the `mounted` argument of `PointerMove`.
- `GroupsPage.KeyDown` does not model typing into the input (that is the input's change handler) or `preventDefault`.
- `handleCreateGroup` posts the form with `parseInt` on `max_members`; the request itself is not modelled, only the form reset (`GroupsPage.AfterCreate`).
- `SidebarLeft`'s initial selection from the fetched user's interests is a plain assignment and has no member.
- Aliasing between the dictionary returned by `get_item_by_id` and the stored one is not modelled. Records are values, and the write-back is explicit in `Db.UpdateItem`. In the source, each request reloads the file anyway.
