/**
 * The derived state of the interactive globe (src/components/Globe.tsx):
 * which groups are live, which group each node shows, which node pairs are
 * joined by a line, each dot's colour, and the drag and hover state the
 * pointer handlers keep. Geometry is abstracted to a proximity test on node
 * indices.
 */
module Globe {
  import opened Wrappers
  import opened Types

  /** NODE_COUNT. */
  const NodeCount: nat := 60

  /** DRAG_SENSITIVITY. */
  const DragSensitivity: real := 0.004

  /** A group that still has room is shown on the globe. */
  predicate IsLive(g: Group) {
    |g.members| < g.maxMembers
  }

  /** `groups.filter(g => g.members.length < g.max_members)`. */
  function LiveGroups(groups: seq<Group>): (r: seq<Group>)
    ensures |r| <= |groups|
    ensures forall i :: 0 <= i < |r| ==> r[i] in groups && IsLive(r[i])
    ensures forall i :: 0 <= i < |groups| && IsLive(groups[i]) ==> groups[i] in r
  {
    if groups == [] then []
    else if IsLive(groups[0]) then [groups[0]] + LiveGroups(groups[1..])
    else LiveGroups(groups[1..])
  }

  /** The filter keeps input order: it distributes over concatenation. */
  lemma {:induction false} LiveGroupsKeepOrder(a: seq<Group>, b: seq<Group>)
    ensures LiveGroups(a + b) == LiveGroups(a) + LiveGroups(b)
  {
    if a == [] {
      assert a + b == b;
    } else {
      assert (a + b)[1..] == a[1..] + b;
      LiveGroupsKeepOrder(a[1..], b);
    }
  }

  /** `groupPerNode(i)`: null when nothing is live, else the shuffled list read cyclically. */
  function GroupPerNode(shuffled: seq<Group>, node: nat): (r: Option<Group>)
    ensures r.None? <==> |shuffled| == 0
    ensures r.Some? ==> r.value in shuffled
  {
    if |shuffled| == 0 then None else Some(shuffled[node % |shuffled|])
  }

  /** An element of a permutation of the live groups is a live group of the input. */
  lemma PermutedLive(groups: seq<Group>, shuffled: seq<Group>, j: nat)
    requires multiset(shuffled) == multiset(LiveGroups(groups))
    requires j < |shuffled|
    ensures |shuffled| == |LiveGroups(groups)|
    ensures shuffled[j] in groups && IsLive(shuffled[j])
  {
    var live := LiveGroups(groups);
    assert |shuffled| == |multiset(shuffled)| == |multiset(live)| == |live|;
    assert shuffled[j] in multiset(live);
    var k :| 0 <= k < |live| && live[k] == shuffled[j];
  }

  /** With `shuffled` any permutation of the live groups: no live group means no node has a
      group; otherwise every node has a live group of the input. */
  lemma NodeAssignment(groups: seq<Group>, shuffled: seq<Group>, node: nat)
    requires multiset(shuffled) == multiset(LiveGroups(groups))
    ensures LiveGroups(groups) == [] <==> GroupPerNode(shuffled, node) == None
    ensures LiveGroups(groups) != [] ==>
      && GroupPerNode(shuffled, node).Some?
      && GroupPerNode(shuffled, node).value in groups
      && IsLive(GroupPerNode(shuffled, node).value)
  {
    var live := LiveGroups(groups);
    assert |shuffled| == |multiset(shuffled)| == |multiset(live)| == |live|;
    if live != [] {
      var k := node % |shuffled|;
      assert GroupPerNode(shuffled, node) == Some(shuffled[k]);
      PermutedLive(groups, shuffled, k);
    }
  }

  /** The assignment repeats with period L, and the first L nodes show the shuffled list in order. */
  lemma NodePeriodic(shuffled: seq<Group>, node: nat)
    ensures GroupPerNode(shuffled, node + |shuffled|) == GroupPerNode(shuffled, node)
    ensures node < |shuffled| ==> GroupPerNode(shuffled, node) == Some(shuffled[node])
  {
    if |shuffled| > 0 {
      ModPeriod(node, |shuffled|);
    }
  }

  lemma MulMono(a: int, b: int, m: int)
    requires a <= b && 0 < m
    ensures a * m <= b * m
  {
    assert b * m - a * m == (b - a) * m;
  }

  /** The remainder is determined by any quotient-remainder decomposition. */
  lemma ModUnique(x: int, m: int, q: int, r: int)
    requires 0 < m && 0 <= r < m && x == q * m + r
    ensures x % m == r
  {
    var q' := x / m;
    if q' > q {
      MulMono(q + 1, q', m);
    } else if q' < q {
      MulMono(q' + 1, q, m);
    }
  }

  /** Node indices L apart share a group; the first L nodes index the list directly. */
  lemma ModPeriod(a: nat, m: nat)
    requires 0 < m
    ensures (a + m) % m == a % m
    ensures a < m ==> a % m == a
  {
    var q := a / m;
    assert (q + 1) * m == q * m + m;
    ModUnique(a + m, m, q + 1, a % m);
    if a < m {
      ModUnique(a, m, 0, a);
    }
  }

  /** When there are at least as many nodes as live groups, every live group is on some node. */
  lemma EveryLiveGroupShown(groups: seq<Group>, shuffled: seq<Group>, g: Group)
    requires multiset(shuffled) == multiset(LiveGroups(groups))
    requires |LiveGroups(groups)| <= NodeCount
    requires g in groups && IsLive(g)
    ensures exists node :: 0 <= node < NodeCount && GroupPerNode(shuffled, node) == Some(g)
  {
    var live := LiveGroups(groups);
    assert g in live;
    assert g in multiset(shuffled);
    var j :| 0 <= j < |shuffled| && shuffled[j] == g;
    assert |shuffled| == |multiset(shuffled)| == |multiset(live)| == |live|;
    ModPeriod(j, |shuffled|);
    assert GroupPerNode(shuffled, j) == Some(g);
  }

  /** Lexicographic order on index pairs. */
  predicate LexLess(p: (nat, nat), q: (nat, nat)) {
    p.0 < q.0 || (p.0 == q.0 && p.1 < q.1)
  }

  /** The `connections` loops: every pair i < j of the n nodes that passes the distance test,
      once, in lexicographic order. */
  method Connections(n: nat, near: (nat, nat) -> bool) returns (pairs: seq<(nat, nat)>)
    ensures forall k :: 0 <= k < |pairs| ==> pairs[k].0 < pairs[k].1 < n && near(pairs[k].0, pairs[k].1)
    ensures forall i: nat, j: nat :: i < j < n && near(i, j) ==> (i, j) in pairs
    ensures forall k :: 0 < k < |pairs| ==> LexLess(pairs[k - 1], pairs[k])
  {
    pairs := [];
    var i := 0;
    while i < n
      invariant 0 <= i <= n
      invariant forall k :: 0 <= k < |pairs| ==> pairs[k].0 < i && pairs[k].0 < pairs[k].1 < n && near(pairs[k].0, pairs[k].1)
      invariant forall a: nat, b: nat :: a < i && a < b < n && near(a, b) ==> (a, b) in pairs
      invariant forall k :: 0 < k < |pairs| ==> LexLess(pairs[k - 1], pairs[k])
    {
      var j := i + 1;
      while j < n
        invariant i + 1 <= j <= n
        invariant forall k :: 0 <= k < |pairs| ==>
          (pairs[k].0 < i || (pairs[k].0 == i && pairs[k].1 < j)) && pairs[k].0 < pairs[k].1 < n && near(pairs[k].0, pairs[k].1)
        invariant forall a: nat, b: nat :: a < i && a < b < n && near(a, b) ==> (a, b) in pairs
        invariant forall b: nat :: i < b < j && near(i, b) ==> (i, b) in pairs
        invariant forall k :: 0 < k < |pairs| ==> LexLess(pairs[k - 1], pairs[k])
      {
        if near(i, j) {
          pairs := pairs + [(i, j)];
        }
        j := j + 1;
      }
      i := i + 1;
    }
  }

  /** Pairs listed in strictly increasing order are listed once each. */
  lemma {:induction false} IncreasingPairsDistinct(pairs: seq<(nat, nat)>)
    requires forall k :: 0 < k < |pairs| ==> LexLess(pairs[k - 1], pairs[k])
    ensures forall k, l :: 0 <= k < l < |pairs| ==> LexLess(pairs[k], pairs[l])
  {
    if |pairs| > 1 {
      var front := pairs[..|pairs| - 1];
      IncreasingPairsDistinct(front);
      forall k, l | 0 <= k < l < |pairs|
        ensures LexLess(pairs[k], pairs[l])
      {
        if l < |pairs| - 1 {
          assert front[k] == pairs[k] && front[l] == pairs[l];
        } else if k < l - 1 {
          assert front[k] == pairs[k] && front[l - 1] == pairs[l - 1];
        }
      }
    }
  }

  datatype Color = Orange | Cyan

  /** `'#FF8800'` for a node whose group is recommended, `'#00CCFF'` otherwise. */
  function DotColor(node: Option<Group>, recommended: set<string>): (c: Color)
    ensures c == Orange <==> node.Some? && node.value.id in recommended
  {
    if node.Some? && node.value.id in recommended then Orange else Cyan
  }

  /** What the `Promise.all` of the two fetches produced: one of them rejected, or both resolved
      (each body possibly null). Only the ids of the recommended groups are kept: their sort by
      relevance is forgotten once they become a set. */
  datatype LoadOutcome = Rejected | Resolved(groups: Option<seq<Group>>, recommended: Option<seq<Group>>)

  datatype GlobeData = GlobeData(groups: seq<Group>, recommended: set<string>)

  function Ids(gs: seq<Group>): (r: set<string>)
    ensures forall i :: 0 <= i < |gs| ==> gs[i].id in r
    ensures forall id :: id in r ==> exists i :: 0 <= i < |gs| && gs[i].id == id
  {
    set i | 0 <= i < |gs| :: gs[i].id
  }

  /** `load`: a rejected fetch falls back to no groups and no recommendations. */
  function Load(o: LoadOutcome): (d: GlobeData)
    ensures o.Rejected? ==> d == GlobeData([], {})
    ensures o.Resolved? && o.groups.None? ==> d.groups == []
    ensures o.Resolved? && o.groups.Some? ==> d.groups == o.groups.value
    ensures o.Resolved? && o.recommended.Some? ==>
      forall id :: id in d.recommended <==> exists i :: 0 <= i < |o.recommended.value| && o.recommended.value[i].id == id
    ensures o.Resolved? && o.recommended.None? ==> d.recommended == {}
  {
    match o
    case Rejected => GlobeData([], {})
    case Resolved(gs, rs) =>
      GlobeData(if gs.Some? then gs.value else [], if rs.Some? then Ids(rs.value) else {})
  }

  /** After a failed load every node is empty and cyan. */
  lemma FailedLoadIsNeutral(shuffled: seq<Group>, node: nat)
    requires multiset(shuffled) == multiset(LiveGroups(Load(Rejected).groups))
    ensures GroupPerNode(shuffled, node) == None
    ensures DotColor(GroupPerNode(shuffled, node), Load(Rejected).recommended) == Cyan
  {
    assert |shuffled| == |multiset(shuffled)| == 0;
  }

  /** `THREE.MathUtils.clamp`. */
  function Clamp(v: real, lo: real, hi: real): real {
    if v < lo then lo else if v > hi then hi else v
  }

  /**
   * The pointer and hover state of the nodes component: the refs `pointerDownRef`,
   * `rotationX`, `rotationY` and `lastPointer`, and the `hoveredNodeIndex` state.
   * `pitchLimit` stands for pi/2 - 0.1, which the model does not compute.
   */
  class Interaction {
    var pointerDown: bool
    var rotationX: real
    var rotationY: real
    var lastPointer: (real, real)
    var hovered: Option<nat>
    const pitchLimit: real

    /** The pitch never leaves the clamp range. */
    ghost predicate Valid()
      reads this
    {
      0.0 < pitchLimit && -pitchLimit <= rotationX <= pitchLimit
    }

    constructor (pitchLimit: real)
      requires 0.0 < pitchLimit
      ensures Valid() && this.pitchLimit == pitchLimit
      ensures !pointerDown && rotationX == 0.0 && rotationY == 0.0 && lastPointer == (0.0, 0.0) && hovered == None
    {
      this.pitchLimit := pitchLimit;
      pointerDown := false;
      rotationX, rotationY := 0.0, 0.0;
      lastPointer := (0.0, 0.0);
      hovered := None;
    }

    /** `handlePointerDown` on the drag surface: start dragging from here. */
    method PointerDown(x: real, y: real)
      requires Valid()
      modifies this
      ensures Valid() && pointerDown && lastPointer == (x, y)
      ensures rotationX == old(rotationX) && rotationY == old(rotationY) && hovered == old(hovered)
    {
      pointerDown := true;
      lastPointer := (x, y);
    }

    /** `onPointerMove` on the window: rotates only while dragging and once the scene is
        mounted; the pitch is clamped. */
    method PointerMove(x: real, y: real, mounted: bool)
      requires Valid()
      modifies this
      ensures Valid() && pointerDown == old(pointerDown) && hovered == old(hovered)
      ensures !(old(pointerDown) && mounted) ==>
        rotationX == old(rotationX) && rotationY == old(rotationY) && lastPointer == old(lastPointer)
      ensures old(pointerDown) && mounted ==>
        && rotationY == old(rotationY) + (x - old(lastPointer).0) * DragSensitivity
        && rotationX == Clamp(old(rotationX) + (y - old(lastPointer).1) * DragSensitivity, -pitchLimit, pitchLimit)
        && lastPointer == (x, y)
    {
      if !pointerDown || !mounted {
        return;
      }
      var dx := x - lastPointer.0;
      var dy := y - lastPointer.1;
      rotationY := rotationY + dx * DragSensitivity;
      rotationX := rotationX + dy * DragSensitivity;
      rotationX := Clamp(rotationX, -pitchLimit, pitchLimit);
      lastPointer := (x, y);
    }

    /** `onPointerUp`, also bound to `pointerleave`: dragging stops. */
    method PointerUp()
      requires Valid()
      modifies this
      ensures Valid() && !pointerDown
      ensures rotationX == old(rotationX) && rotationY == old(rotationY)
      ensures lastPointer == old(lastPointer) && hovered == old(hovered)
    {
      pointerDown := false;
    }

    /** `onPointerOver` of node i's hit area. */
    method HoverOver(i: nat)
      requires Valid()
      modifies this
      ensures Valid() && hovered == Some(i)
      ensures pointerDown == old(pointerDown) && rotationX == old(rotationX) && rotationY == old(rotationY)
      ensures lastPointer == old(lastPointer)
    {
      hovered := Some(i);
    }

    /** `onPointerOut` of any node's hit area: clears the hover whichever node holds it. */
    method HoverOut()
      requires Valid()
      modifies this
      ensures Valid() && hovered == None
      ensures pointerDown == old(pointerDown) && rotationX == old(rotationX) && rotationY == old(rotationY)
      ensures lastPointer == old(lastPointer)
    {
      hovered := None;
    }
  }
}
