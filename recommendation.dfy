/**
 * The group recommendation service (app/services/recommendation.py): an
 * integer relevance score of 3/2/1 points, then filter, a stable sort by
 * descending score, and truncation.
 */
module Recommendation {
  import opened PyList
  import opened Storage

  /** The fields the scorer reads have the JSON types it operates on (when present). */
  predicate ScorableUser(u: Record) {
    && ("id" in u ==> u["id"].Str?)
    && ("interests" in u ==> u["interests"].StrList?)
    && ("location" in u ==> u["location"].Str?)
  }

  /** `activity` is read as one string (see README); `members` as a list of user ids. */
  predicate ScorableGroup(g: Record) {
    && ("activity" in g ==> g["activity"].Str?)
    && ("location" in g ==> g["location"].Str?)
    && ("members" in g ==> g["members"].StrList?)
  }

  predicate AllScorable(gs: seq<Record>) {
    forall i :: 0 <= i < |gs| ==> ScorableGroup(gs[i])
  }

  /** `r.get(key, "")` for a string field. */
  function StrOr(r: Record, key: string): string
    requires key in r ==> r[key].Str?
  {
    if key in r then r[key].str else ""
  }

  /** `r.get(key, [])` for a list field. */
  function ListOr(r: Record, key: string): seq<string>
    requires key in r ==> r[key].StrList?
  {
    if key in r then r[key].list else []
  }

  /** The group's activity occurs among the user's interests, ignoring case. */
  predicate InterestMatch(u: Record, g: Record)
    requires ScorableUser(u) && ScorableGroup(g)
  {
    Lower(StrOr(g, "activity")) in LowerAll(ListOr(u, "interests"))
  }

  /** The two locations agree ignoring case; a missing location reads as "". */
  predicate LocationMatch(u: Record, g: Record)
    requires ScorableUser(u) && ScorableGroup(g)
  {
    Lower(StrOr(u, "location")) == Lower(StrOr(g, "location"))
  }

  /** `group.get("age_group") == "All Ages"`, case-sensitive; a missing field never matches. */
  predicate AgeMatch(g: Record) {
    "age_group" in g && g["age_group"] == Str("All Ages")
  }

  /** `calculate_relevance_score`. */
  function RelevanceScore(u: Record, g: Record): (s: int)
    requires ScorableUser(u) && ScorableGroup(g)
    ensures 0 <= s <= 6
    ensures s > 0 <==> InterestMatch(u, g) || LocationMatch(u, g) || AgeMatch(g)
    ensures s == 6 <==> InterestMatch(u, g) && LocationMatch(u, g) && AgeMatch(g)
    ensures InterestMatch(u, g) <==> s >= 4 || (s == 3 && !(LocationMatch(u, g) && AgeMatch(g)))
    ensures var rest := s - (if InterestMatch(u, g) then 3 else 0);
      && (LocationMatch(u, g) <==> rest >= 2)
      && (AgeMatch(g) <==> rest % 2 == 1)
  {
    var interest := if InterestMatch(u, g) then 3 else 0;
    var location := if LocationMatch(u, g) then 2 else 0;
    var age := if AgeMatch(g) then 1 else 0;
    interest + location + age
  }

  /** The interest rule as a search: some interest equals the activity ignoring case. */
  lemma InterestMatchIff(u: Record, g: Record)
    requires ScorableUser(u) && ScorableGroup(g)
    ensures InterestMatch(u, g) <==>
      exists i :: 0 <= i < |ListOr(u, "interests")| && Lower(ListOr(u, "interests")[i]) == Lower(StrOr(g, "activity"))
  {
    var lowered := LowerAll(ListOr(u, "interests"));
    if InterestMatch(u, g) {
      var i :| 0 <= i < |lowered| && lowered[i] == Lower(StrOr(g, "activity"));
      assert Lower(ListOr(u, "interests")[i]) == Lower(StrOr(g, "activity"));
    }
  }

  /** `user_id in group.get("members", [])`; a user without an id is in no group. */
  predicate IsMember(u: Record, g: Record)
    requires ScorableUser(u) && ScorableGroup(g)
  {
    "id" in u && u["id"].str in ListOr(g, "members")
  }

  datatype Scored = Scored(score: int, group: Record)

  /** The `scored_groups` list the loop builds: groups the user is not in, scoring above 0,
      each with its score, in input order. */
  function Candidates(u: Record, gs: seq<Record>): (r: seq<Scored>)
    requires ScorableUser(u) && AllScorable(gs)
    ensures |r| <= |gs|
    ensures forall i :: 0 <= i < |r| ==>
      && r[i].group in gs && ScorableGroup(r[i].group)
      && !IsMember(u, r[i].group)
      && r[i].score == RelevanceScore(u, r[i].group) > 0
  {
    if gs == [] then []
    else
      var last := gs[|gs| - 1];
      var prefix := Candidates(u, gs[..|gs| - 1]);
      if IsMember(u, last) || RelevanceScore(u, last) <= 0 then prefix
      else prefix + [Scored(RelevanceScore(u, last), last)]
  }

  /** The candidate list keeps the input order: a concatenation yields the candidates of
      each part in turn. */
  lemma {:induction false} CandidatesKeepOrder(u: Record, a: seq<Record>, b: seq<Record>)
    requires ScorableUser(u) && AllScorable(a) && AllScorable(b)
    ensures AllScorable(a + b) && Candidates(u, a + b) == Candidates(u, a) + Candidates(u, b)
  {
    assert forall i :: 0 <= i < |a + b| ==> (a + b)[i] == if i < |a| then a[i] else b[i - |a|];
    if b == [] {
      assert a + b == a;
    } else {
      var front := b[..|b| - 1];
      assert (a + b)[..|a + b| - 1] == a + front;
      CandidatesKeepOrder(u, a, front);
    }
  }

  /** Every non-member group with a positive score is a candidate. */
  lemma {:induction false} CandidatesComplete(u: Record, gs: seq<Record>, k: nat)
    requires ScorableUser(u) && AllScorable(gs)
    requires k < |gs| && !IsMember(u, gs[k]) && RelevanceScore(u, gs[k]) > 0
    ensures Scored(RelevanceScore(u, gs[k]), gs[k]) in Candidates(u, gs)
  {
    if k < |gs| - 1 {
      CandidatesComplete(u, gs[..|gs| - 1], k);
    }
  }

  predicate SortedDesc(s: seq<Scored>) {
    forall i, j :: 0 <= i < j < |s| ==> s[i].score >= s[j].score
  }

  /** Inserts `x` before the first entry that does not outscore it. */
  function Insert(x: Scored, t: seq<Scored>): seq<Scored>
  {
    if t == [] || x.score >= t[0].score then [x] + t
    else [t[0]] + Insert(x, t[1..])
  }

  /** `list.sort(key=score, reverse=True)`: a stable sort by descending score. */
  function SortDesc(s: seq<Scored>): (r: seq<Scored>)
    ensures SortedDesc(r)
    ensures multiset(r) == multiset(s) && |r| == |s|
  {
    if s == [] then []
    else
      var t := SortDesc(s[1..]);
      InsertSorted(s[0], t);
      InsertPermutation(s[0], t);
      assert s == [s[0]] + s[1..];
      Insert(s[0], t)
  }

  predicate AllAtMost(s: seq<Scored>, b: int) {
    forall i :: 0 <= i < |s| ==> s[i].score <= b
  }

  lemma {:induction false} InsertPermutation(x: Scored, t: seq<Scored>)
    ensures multiset(Insert(x, t)) == multiset{x} + multiset(t)
    ensures |Insert(x, t)| == |t| + 1
  {
    if t != [] && x.score < t[0].score {
      InsertPermutation(x, t[1..]);
      assert t == [t[0]] + t[1..];
    }
  }

  lemma {:induction false} InsertAtMost(x: Scored, t: seq<Scored>, b: int)
    requires x.score <= b && AllAtMost(t, b)
    ensures AllAtMost(Insert(x, t), b)
  {
    if t != [] && x.score < t[0].score {
      InsertAtMost(x, t[1..], b);
    }
  }

  lemma {:induction false} InsertSorted(x: Scored, t: seq<Scored>)
    requires SortedDesc(t)
    ensures SortedDesc(Insert(x, t))
  {
    if t == [] || x.score >= t[0].score {
      assert AllAtMost(t, x.score);
    } else {
      InsertSorted(x, t[1..]);
      InsertAtMost(x, t[1..], t[0].score);
    }
  }

  /** The entries of `s` that have score `k`, in order. */
  function OfScore(s: seq<Scored>, k: int): seq<Scored>
  {
    if s == [] then []
    else (if s[0].score == k then [s[0]] else []) + OfScore(s[1..], k)
  }

  lemma {:induction false} InsertStable(x: Scored, t: seq<Scored>, k: int)
    requires SortedDesc(t)
    ensures OfScore(Insert(x, t), k) == OfScore([x] + t, k)
  {
    assert ([x] + t)[1..] == t;
    if t != [] && x.score < t[0].score {
      assert SortedDesc(t[1..]);
      InsertStable(x, t[1..], k);
      var r := Insert(x, t[1..]);
      assert ([t[0]] + r)[1..] == r;
      assert ([x] + t[1..])[1..] == t[1..];
    }
  }

  /** Stability: among entries of equal score, the sort keeps the input order. */
  lemma {:induction false} SortDescStable(s: seq<Scored>, k: int)
    ensures OfScore(SortDesc(s), k) == OfScore(s, k)
  {
    if s != [] {
      SortDescStable(s[1..], k);
      InsertStable(s[0], SortDesc(s[1..]), k);
      assert ([s[0]] + SortDesc(s[1..]))[1..] == SortDesc(s[1..]);
    }
  }

  /** `[g for s, g in scored_groups]`. */
  function GroupsOf(s: seq<Scored>): (r: seq<Record>)
    ensures |r| == |s|
    ensures forall i :: 0 <= i < |s| ==> r[i] == s[i].group
  {
    if s == [] then [] else [s[0].group] + GroupsOf(s[1..])
  }

  /** The full ranking before truncation. */
  function Ranked(u: Record, gs: seq<Record>): seq<Scored>
    requires ScorableUser(u) && AllScorable(gs)
  {
    SortDesc(Candidates(u, gs))
  }

  /** `get_recommended_groups`. */
  method GetRecommendedGroups(u: Record, gs: seq<Record>, limit: int) returns (r: seq<Record>)
    requires ScorableUser(u) && AllScorable(gs)
    ensures r == Slice(GroupsOf(Ranked(u, gs)), 0, limit)
  {
    var scored: seq<Scored> := [];
    var i := 0;
    while i < |gs|
      invariant 0 <= i <= |gs|
      invariant scored == Candidates(u, gs[..i])
    {
      assert gs[..i + 1][..i] == gs[..i];
      var group := gs[i];
      if !IsMember(u, group) {
        var score := RelevanceScore(u, group);
        if score > 0 {
          scored := scored + [Scored(score, group)];
        }
      }
      i := i + 1;
    }
    assert gs[..i] == gs;
    scored := SortDesc(scored);
    r := Slice(GroupsOf(scored), 0, limit);
  }

  /** Every ranked entry is an eligible group with its own score. */
  lemma RankedSound(u: Record, gs: seq<Record>)
    requires ScorableUser(u) && AllScorable(gs)
    ensures var ranked := Ranked(u, gs);
      && SortedDesc(ranked)
      && forall i :: 0 <= i < |ranked| ==>
           ranked[i].group in gs && ScorableGroup(ranked[i].group) && !IsMember(u, ranked[i].group)
           && ranked[i].score == RelevanceScore(u, ranked[i].group) > 0
  {
    var c := Candidates(u, gs);
    var ranked := Ranked(u, gs);
    forall i | 0 <= i < |ranked|
      ensures ranked[i] in c
    {
      assert ranked[i] in multiset(ranked);
    }
  }

  /** Every eligible group appears in the ranking. */
  lemma RankedComplete(u: Record, gs: seq<Record>, k: nat)
    requires ScorableUser(u) && AllScorable(gs)
    requires k < |gs| && !IsMember(u, gs[k]) && RelevanceScore(u, gs[k]) > 0
    ensures Scored(RelevanceScore(u, gs[k]), gs[k]) in Ranked(u, gs)
  {
    var c := Candidates(u, gs);
    CandidatesComplete(u, gs, k);
    assert Scored(RelevanceScore(u, gs[k]), gs[k]) in multiset(c);
  }

  /** What the recommendation promises: no group the user is in, only positive scores, in
      non-increasing score order, at most `limit` of them, and a prefix of the full ranking. */
  lemma RecommendedProperties(u: Record, gs: seq<Record>, limit: int)
    requires ScorableUser(u) && AllScorable(gs)
    ensures var ranked := Ranked(u, gs);
      var r := Slice(GroupsOf(ranked), 0, limit);
      && r <= GroupsOf(ranked)
      && (0 <= limit ==> |r| <= limit)
      && (forall i :: 0 <= i < |r| ==>
            r[i] in gs && !IsMember(u, r[i]) && ranked[i].score == RelevanceScore(u, r[i]) > 0)
      && (forall i, j :: 0 <= i < j < |r| ==> ranked[i].score >= ranked[j].score)
  {
    RankedSound(u, gs);
    SlicePrefix(GroupsOf(Ranked(u, gs)), limit);
  }
}
