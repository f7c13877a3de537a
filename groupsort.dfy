/** customSortGroups: a stable sort of the discovered API resource lists by
    group version, where the group versions of a priority list come first,
    in list order, and every other one follows in Go's string order.
    pkg/apidocs/groupsort.go puts "v1" and "apps/v1" first; main.go and
    pkg/apidocs/ui.go use a seven-entry list led by "apps/v1". */
module GroupSort {
  import opened Kube
  import opened GoStrings
  import opened GoSort

  const ApiDocsTopLevels: seq<string> := ["v1", "apps/v1"]

  const MainTopLevels: seq<string> := [
    "apps/v1",
    "v1",
    "batch/v1",
    "rbac.authorization.k8s.io/v1",
    "networking.k8s.io/v1",
    "gateway.networking.k8s.io/v1",
    "gateway.networking.k8s.io/v1beta1"
  ]

  /** The comparator's loop: the first priority entry equal to `x` makes
      `x` less, the first equal to `y` makes it not less; without either,
      Go's `<`. */
  function PriorityLess(top: seq<string>, x: string, y: string): bool
  {
    if |top| == 0 then LexLess(x, y)
    else if x == top[0] then true
    else if y == top[0] then false
    else PriorityLess(top[1..], x, y)
  }

  /** The position of `x` in the priority list, or the list's length when
      it is not there. */
  function Rank(top: seq<string>, x: string): (r: nat)
    ensures r <= |top|
    ensures r < |top| <==> x in top
    ensures r < |top| ==> top[r] == x && forall i :: 0 <= i < r ==> top[i] != x
  {
    if |top| == 0 then 0
    else if x == top[0] then 0
    else
      var r := Rank(top[1..], x);
      assert forall i :: 0 < i <= r ==> top[i] == top[1..][i - 1];
      assert x in top[1..] ==> x in top;
      1 + r
  }

  /** The intended order: by rank, and by Go's `<` among the values that
      are not in the list. */
  predicate RankLess(top: seq<string>, x: string, y: string)
  {
    Rank(top, x) < Rank(top, y) || (Rank(top, x) == |top| && Rank(top, y) == |top| && LexLess(x, y))
  }

  /** On two different group versions the comparator is the intended order. */
  lemma {:induction false} PriorityLessIsRankLess(top: seq<string>, x: string, y: string)
    requires x != y
    ensures PriorityLess(top, x, y) <==> RankLess(top, x, y)
    decreases |top|
  {
    if |top| > 0 && x != top[0] && y != top[0] {
      PriorityLessIsRankLess(top[1..], x, y);
    }
  }

  /** The comparator is not irreflexive: a listed group version is less
      than itself, an unlisted one is not. */
  lemma {:induction false} PriorityLessSelf(top: seq<string>, x: string)
    ensures PriorityLess(top, x, x) <==> x in top
    decreases |top|
  {
    if |top| == 0 {
      LexLessIrreflexive(x);
    } else if x != top[0] {
      PriorityLessSelf(top[1..], x);
    }
  }

  /** The head of the list is less than everything, and nothing else is
      less than it. */
  lemma PriorityLessHead(top: seq<string>, x: string, y: string)
    requires |top| > 0
    ensures PriorityLess(top, top[0], y)
    ensures x != top[0] ==> !PriorityLess(top, x, top[0])
  {
  }

  /** With neither value listed, the comparator is Go's `<`. */
  lemma {:induction false} PriorityLessUnlisted(top: seq<string>, x: string, y: string)
    requires x !in top && y !in top
    ensures PriorityLess(top, x, y) == LexLess(x, y)
    decreases |top|
  {
    if |top| > 0 {
      assert x !in top[1..] && y !in top[1..] by {
        assert forall z :: z in top[1..] ==> z in top;
      }
      PriorityLessUnlisted(top[1..], x, y);
    }
  }

  /** The rules of pkg/apidocs/groupsort.go: "v1" first, then "apps/v1",
      then Go's `<`. */
  lemma ApiDocsRules(x: string, y: string)
    ensures PriorityLess(ApiDocsTopLevels, "v1", y)
    ensures x != "v1" ==> !PriorityLess(ApiDocsTopLevels, x, "v1")
    ensures x != "v1" ==> PriorityLess(ApiDocsTopLevels, "apps/v1", x)
    ensures x != "v1" && x != "apps/v1" ==> !PriorityLess(ApiDocsTopLevels, x, "apps/v1")
    ensures x !in ApiDocsTopLevels && y !in ApiDocsTopLevels ==> PriorityLess(ApiDocsTopLevels, x, y) == LexLess(x, y)
  {
    PriorityLessHead(ApiDocsTopLevels, x, y);
    if x !in ApiDocsTopLevels && y !in ApiDocsTopLevels {
      PriorityLessUnlisted(ApiDocsTopLevels, x, y);
    }
  }

  /** The rules of main.go and pkg/apidocs/ui.go: "apps/v1" first, "v1"
      second, the other listed versions in list order, then Go's `<`. */
  lemma MainRules(x: string, y: string)
    ensures PriorityLess(MainTopLevels, "apps/v1", y)
    ensures x != "apps/v1" ==> !PriorityLess(MainTopLevels, x, "apps/v1")
    ensures x != y ==> (PriorityLess(MainTopLevels, x, y) <==> RankLess(MainTopLevels, x, y))
    ensures x !in MainTopLevels && y !in MainTopLevels ==> PriorityLess(MainTopLevels, x, y) == LexLess(x, y)
  {
    PriorityLessHead(MainTopLevels, x, y);
    if x != y {
      PriorityLessIsRankLess(MainTopLevels, x, y);
    }
    if x !in MainTopLevels && y !in MainTopLevels {
      PriorityLessUnlisted(MainTopLevels, x, y);
    }
  }

  function GroupLess(top: seq<string>): (APIResourceList, APIResourceList) -> bool
  {
    (a: APIResourceList, b: APIResourceList) => PriorityLess(top, a.groupVersion, b.groupVersion)
  }

  function GroupRankLess(top: seq<string>): (APIResourceList, APIResourceList) -> bool
  {
    (a: APIResourceList, b: APIResourceList) => RankLess(top, a.groupVersion, b.groupVersion)
  }

  /** customSortGroups(groups) with priority list `top`: sort.SliceStable
      with the comparator. */
  function CustomSortGroups(top: seq<string>, groups: seq<APIResourceList>): (r: seq<APIResourceList>)
    ensures multiset(r) == multiset(groups)
  {
    SortWith(groups, GroupLess(top))
  }

  predicate DistinctGroupVersions(groups: seq<APIResourceList>)
  {
    forall i, j :: 0 <= i < j < |groups| ==> groups[i].groupVersion != groups[j].groupVersion
  }

  /** The intended order is a strict weak order. */
  lemma GroupRankLessStrictWeak(top: seq<string>)
    ensures StrictWeak(GroupRankLess(top))
  {
    LexLessStrictTotalOrder();
    var lt := GroupRankLess(top);
    forall a, b, c | !lt(a, b) && !lt(b, c) ensures !lt(a, c) {
      var x, y, z := a.groupVersion, b.groupVersion, c.groupVersion;
      if Rank(top, x) == |top| && Rank(top, z) == |top| && Rank(top, y) == |top| && LexLess(x, z) {
        if x != y && y != z {
          LexLessTotal(x, y);
          LexLessTotal(y, z);
        }
      }
    }
  }

  /** With distinct group versions, the sorted lists come listed versions
      first, in list order, then the rest in ascending order; nothing is
      lost or duplicated. */
  lemma CustomSortGroupsOrder(top: seq<string>, groups: seq<APIResourceList>)
    requires DistinctGroupVersions(groups)
    ensures multiset(CustomSortGroups(top, groups)) == multiset(groups)
    ensures var r := CustomSortGroups(top, groups);
      forall i, j :: 0 <= i < j < |r| ==>
        Rank(top, r[i].groupVersion) < Rank(top, r[j].groupVersion)
        || (Rank(top, r[i].groupVersion) == |top| && Rank(top, r[j].groupVersion) == |top|
            && LexLess(r[i].groupVersion, r[j].groupVersion))
  {
    var r := CustomSortGroups(top, groups);
    assert Distinct(groups);
    forall a, b | a in groups && b in groups && a != b
      ensures GroupLess(top)(a, b) == GroupRankLess(top)(a, b)
    {
      PriorityLessIsRankLess(top, a.groupVersion, b.groupVersion);
    }
    SortWithAgree(groups, GroupLess(top), GroupRankLess(top));
    GroupRankLessStrictWeak(top);
    SortWithSorted(groups, GroupRankLess(top));
    forall i, j | 0 <= i < j < |r|
      ensures r[i].groupVersion != r[j].groupVersion
    {
      assert r[i] in multiset(groups) && r[j] in multiset(groups);
      var a :| 0 <= a < |groups| && groups[a] == r[i];
      var b :| 0 <= b < |groups| && groups[b] == r[j];
      DistinctPermutation(groups, r);
    }
    forall i, j | 0 <= i < j < |r|
      ensures RankLess(top, r[i].groupVersion, r[j].groupVersion)
    {
      var x, y := r[i].groupVersion, r[j].groupVersion;
      assert !RankLess(top, y, x);
      if Rank(top, x) == |top| && Rank(top, y) == |top| {
        LexLessTotal(x, y);
      }
    }
  }
}
