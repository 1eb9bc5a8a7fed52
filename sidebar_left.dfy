/** The profile sidebar (src/components/SidebarLeft.tsx): interest toggling and the stats. */
module SidebarLeft {
  import opened Wrappers
  import opened PyList
  import opened Types

  /** `toggleInterest`: removes every occurrence of a selected tag, appends an unselected one. */
  function Toggle(selected: seq<string>, tag: string): (r: seq<string>)
    ensures tag in selected ==> tag !in r && r == Without(selected, tag)
    ensures tag !in selected ==> r == selected + [tag]
  {
    if tag in selected then Without(selected, tag) else selected + [tag]
  }

  /** Toggling keeps the selection duplicate-free. */
  lemma ToggleKeepsDistinct(selected: seq<string>, tag: string)
    requires Distinct(selected)
    ensures Distinct(Toggle(selected, tag))
  {
    if tag in selected {
      WithoutDistinct(selected, tag);
    }
  }

  /** Toggling twice gives the same set back: the same list for an unselected tag, and for a
      selected one the list with that tag moved to the end. */
  lemma {:induction false} ToggleTwice(selected: seq<string>, tag: string)
    ensures forall x :: x in Toggle(Toggle(selected, tag), tag) <==> x in selected
    ensures tag !in selected ==> Toggle(Toggle(selected, tag), tag) == selected
    ensures tag in selected ==> Toggle(Toggle(selected, tag), tag) == Without(selected, tag) + [tag]
  {
    if tag !in selected {
      WithoutAppend(selected, tag, tag);
      WithoutAbsent(selected, tag);
    } else {
      var once := Without(selected, tag);
      forall x | x in selected && x != tag
        ensures x in once
      {
        var i :| 0 <= i < |selected| && selected[i] == x;
      }
    }
  }

  /** `groupsJoined`: groups whose member list (if any) includes the demo user. */
  function JoinedCount(memberLists: seq<Option<seq<string>>>, demoId: string): (n: nat)
    ensures n <= |memberLists|
  {
    if memberLists == [] then 0
    else
      var last := |memberLists| - 1;
      JoinedCount(memberLists[..last], demoId) + (if Includes(memberLists[last], demoId) then 1 else 0)
  }

  /** The positions of the groups the demo user is in. */
  function JoinedIndices(memberLists: seq<Option<seq<string>>>, demoId: string): set<nat>
  {
    set i: nat | i < |memberLists| && Includes(memberLists[i], demoId)
  }

  /** The count is the number of joined groups. */
  lemma {:induction false} JoinedCountIsCardinality(memberLists: seq<Option<seq<string>>>, demoId: string)
    ensures JoinedCount(memberLists, demoId) == |JoinedIndices(memberLists, demoId)|
  {
    if memberLists != [] {
      var last := |memberLists| - 1;
      var front := memberLists[..last];
      JoinedCountIsCardinality(front, demoId);
      var before := JoinedIndices(front, demoId);
      assert last !in before;
      if Includes(memberLists[last], demoId) {
        assert JoinedIndices(memberLists, demoId) == before + {last};
      } else {
        assert JoinedIndices(memberLists, demoId) == before;
      }
    } else {
      assert JoinedIndices(memberLists, demoId) == {};
    }
  }

  /** "Likes received": the length of `liked_by`, 0 when it is absent. */
  function LikesReceived(u: User): (n: nat)
    ensures u.likedBy.None? ==> n == 0
    ensures u.likedBy.Some? ==> n == |u.likedBy.value|
  {
    if u.likedBy.Some? then |u.likedBy.value| else 0
  }
}
