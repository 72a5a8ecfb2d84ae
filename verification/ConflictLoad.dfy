/** `_conflict_load` of agent_pool/merge_flow.py: whether merge conflicts concentrate on few
    paths. The greedy walk down the ranked counts finds the smallest set of paths that
    carries at least half of the attributed conflicts. */
module ConflictLoad {
  import opened Common

  type Counts = map<string, nat>

  /** Conflicts on a set of paths. */
  ghost function Sum(paths: Counts, s: set<string>): nat
    requires s <= paths.Keys
  {
    if s == {} then 0 else
      var k :| k in s;
      paths[k] + Sum(paths, s - {k})
  }

  lemma {:induction false} SumTakeOut(paths: Counts, s: set<string>, x: string)
    requires s <= paths.Keys && x in s
    ensures Sum(paths, s) == paths[x] + Sum(paths, s - {x})
    decreases s
  {
    var k :| k in s && Sum(paths, s) == paths[k] + Sum(paths, s - {k});
    if k != x {
      SumTakeOut(paths, s - {k}, x);
      SumTakeOut(paths, s - {x}, k);
      assert s - {k} - {x} == s - {x} - {k};
    }
  }

  lemma SumEmpty(paths: Counts)
    ensures Sum(paths, {}) == 0
  {
  }

  function Listed(order: seq<string>): set<string> {
    set k | k in order
  }

  ghost predicate Distinct(order: seq<string>) {
    forall i, j | 0 <= i < j < |order| :: order[i] != order[j]
  }

  /** All paths, each once, most conflicted first. */
  ghost predicate IsRanking(paths: Counts, order: seq<string>) {
    && Listed(order) == paths.Keys && Distinct(order)
    && forall i, j | 0 <= i < j < |order| && order[i] in paths && order[j] in paths ::
         paths[order[i]] >= paths[order[j]]
  }

  /** The first k ranked counts, added up. */
  function RankSum(paths: Counts, order: seq<string>, k: nat): nat
    requires k <= |order| && Listed(order) <= paths.Keys
  {
    if k == 0 then 0 else
      assert order[k - 1] in Listed(order);
      RankSum(paths, order, k - 1) + paths[order[k - 1]]
  }

  lemma {:induction false} ListedSize(order: seq<string>)
    requires Distinct(order)
    ensures |Listed(order)| == |order|
  {
    if order != [] {
      var front, last := order[..|order| - 1], order[|order| - 1];
      ListedSize(front);
      assert Listed(order) == Listed(front) + {last} && last !in Listed(front);
    }
  }

  lemma ListedTake(order: seq<string>, k: nat)
    requires Distinct(order) && 0 < k <= |order|
    ensures Listed(order[..k]) == Listed(order[..k - 1]) + {order[k - 1]}
    ensures order[k - 1] !in Listed(order[..k - 1]) && Listed(order[..k]) <= Listed(order)
  {
    assert order[..k] == order[..k - 1] + [order[k - 1]];
  }

  lemma NoneListed(paths: Counts, order: seq<string>)
    ensures Listed(order[..0]) == {} && Sum(paths, Listed(order[..0])) == 0
    ensures Listed(order) <= paths.Keys ==> RankSum(paths, order, 0) == 0
  {
  }

  lemma RankSumStep(paths: Counts, order: seq<string>, k: nat)
    requires 0 < k <= |order| && Listed(order) <= paths.Keys
    ensures order[k - 1] in paths && RankSum(paths, order, k) == RankSum(paths, order, k - 1) + paths[order[k - 1]]
  {
    assert order[k - 1] in Listed(order);
  }

  /** The first k ranked paths carry exactly the sum of the first k counts. */
  lemma {:induction false} PrefixSum(paths: Counts, order: seq<string>, k: nat)
    requires Listed(order) == paths.Keys && Distinct(order) && k <= |order|
    ensures Listed(order[..k]) <= paths.Keys && |Listed(order[..k])| == k
    ensures Sum(paths, Listed(order[..k])) == RankSum(paths, order, k)
    decreases k
  {
    hide *;
    if k == 0 {
      NoneListed(paths, order);
    } else {
      var top, last := Listed(order[..k]), order[k - 1];
      PrefixSum(paths, order, k - 1);
      ListedTake(order, k);
      RankSumStep(paths, order, k);
      assert top - {last} == Listed(order[..k - 1]);
      SumTakeOut(paths, top, last);
    }
  }

  lemma {:induction false} LastListed(order: seq<string>, s: set<string>) returns (i: nat)
    requires s != {} && s <= Listed(order)
    ensures i < |order| && order[i] in s && s <= Listed(order[..i + 1])
    decreases |order|
  {
    i := |order| - 1;
    if order[i] in s {
      assert order[..i + 1] == order;
    } else {
      var front := order[..i];
      assert s <= Listed(front);
      i := LastListed(front, s);
      assert front[..i + 1] == order[..i + 1];
    }
  }

  /** A set listed up to index i has at most i + 1 members. */
  lemma SizeByLast(order: seq<string>, s: set<string>, i: nat)
    requires Distinct(order) && i < |order| && s <= Listed(order[..i + 1])
    ensures |s| <= i + 1
  {
    ListedSize(order[..i + 1]);
    SubsetSize(s, Listed(order[..i + 1]));
  }

  lemma RankedBefore(paths: Counts, order: seq<string>, i: nat, j: nat)
    requires IsRanking(paths, order) && i <= j < |order|
    ensures order[i] in paths && order[j] in paths && paths[order[i]] >= paths[order[j]]
  {
    assert order[i] in Listed(order) && order[j] in Listed(order);
  }

  /** The exchange argument: no set of paths carries more than the ranked prefix of its size. */
  lemma {:induction false} PrefixIsBest(paths: Counts, order: seq<string>, s: set<string>)
    requires IsRanking(paths, order) && s <= paths.Keys
    ensures |s| <= |order| && Sum(paths, s) <= RankSum(paths, order, |s|)
    decreases |s|
  {
    hide Sum, Distinct;
    SumEmpty(paths);
    if s != {} {
      var i := LastListed(order, s);
      SizeByLast(order, s, i);
      RankedBefore(paths, order, |s| - 1, i);
      SumTakeOut(paths, s, order[i]);
      PrefixIsBest(paths, order, s - {order[i]});
    }
  }

  lemma {:induction false} RankSumGrows(paths: Counts, order: seq<string>, i: nat, j: nat)
    requires i <= j <= |order| && Listed(order) <= paths.Keys
    ensures RankSum(paths, order, i) <= RankSum(paths, order, j)
    decreases j
  {
    if i < j {
      RankSumGrows(paths, order, i, j - 1);
    }
  }

  /** The paths of s carry at least half of all conflicts. */
  ghost predicate Carries(paths: Counts, s: set<string>) {
    s <= paths.Keys && 2 * Sum(paths, s) >= Sum(paths, paths.Keys)
  }

  lemma TotalIsRankSum(paths: Counts, order: seq<string>)
    requires IsRanking(paths, order)
    ensures Sum(paths, paths.Keys) == RankSum(paths, order, |order|)
  {
    PrefixSum(paths, order, |order|);
    assert order[..|order|] == order;
  }

  /** If the first k ranked counts are the first to reach half, k is the least size of any
      set of paths that carries half. */
  lemma LeastCover(paths: Counts, order: seq<string>, k: nat)
    requires IsRanking(paths, order) && 0 < k <= |order|
    requires RankSum(paths, order, k) * 2 >= Sum(paths, paths.Keys) > RankSum(paths, order, k - 1) * 2
    ensures Carries(paths, Listed(order[..k])) && |Listed(order[..k])| == k
    ensures forall s | Carries(paths, s) :: k <= |s|
  {
    hide Sum, IsRanking, RankSum, Listed;
    PrefixCarries(paths, order, k);
    forall s | Carries(paths, s) ensures k <= |s| {
      CoverIsLarge(paths, order, k, s);
    }
  }

  lemma PrefixCarries(paths: Counts, order: seq<string>, k: nat)
    requires IsRanking(paths, order) && k <= |order| && RankSum(paths, order, k) * 2 >= Sum(paths, paths.Keys)
    ensures Carries(paths, Listed(order[..k])) && |Listed(order[..k])| == k
  {
    hide Sum, Distinct, RankSum, Listed;
    PrefixSum(paths, order, k);
  }

  lemma CoverIsLarge(paths: Counts, order: seq<string>, k: nat, s: set<string>)
    requires IsRanking(paths, order) && 0 < k <= |order|
    requires Sum(paths, paths.Keys) > RankSum(paths, order, k - 1) * 2 && Carries(paths, s)
    ensures k <= |s|
  {
    hide Sum, Distinct, RankSum, Listed;
    PrefixIsBest(paths, order, s);
    if |s| < k {
      RankSumGrows(paths, order, |s|, k - 1);
    }
  }

  // ----- The source's walk -----

  lemma {:induction false} GreatestExists(paths: Counts, s: set<string>) returns (k: string)
    requires s != {} && s <= paths.Keys
    ensures k in s && forall j | j in s :: paths[j] <= paths[k]
    decreases s
  {
    k :| k in s;
    if s != {k} {
      var r := GreatestExists(paths, s - {k});
      if paths[k] < paths[r] {
        k := r;
      }
    }
  }

  /** `sorted(paths.values(), reverse=True)`, with the path behind each count. */
  method Rank(paths: Counts) returns (order: seq<string>)
    ensures IsRanking(paths, order) && Listed(order) == paths.Keys
  {
    order := [];
    var rest := paths.Keys;
    while rest != {}
      invariant rest <= paths.Keys && Listed(order) == paths.Keys - rest && Distinct(order)
      invariant forall i, j | 0 <= i < j < |order| && order[i] in paths && order[j] in paths ::
                  paths[order[i]] >= paths[order[j]]
      invariant forall i, j | 0 <= i < |order| && order[i] in paths && j in rest :: paths[order[i]] >= paths[j]
      decreases rest
    {
      ghost var g := GreatestExists(paths, rest);
      var k :| k in rest && forall j | j in rest :: paths[j] <= paths[k];
      assert forall i | 0 <= i < |order| :: order[i] in Listed(order);
      assert Listed(order + [k]) == Listed(order) + {k};
      order := order + [k];
      rest := rest - {k};
    }
  }

  datatype Load = NoRepairs | Unattributed | Concentrated | Spread

  /** The verdict, and for an attributed window how many paths it took to cover half. */
  method Classify(repairs: nat, paths: Counts) returns (load: Load, covering: nat)
    ensures load == NoRepairs <==> repairs == 0
    ensures load == Unattributed <==> repairs > 0 && Sum(paths, paths.Keys) == 0
    ensures load == Concentrated || load == Spread ==>
              && (exists s :: Carries(paths, s) && |s| == covering)
              && (forall s | Carries(paths, s) :: covering <= |s|)
    ensures repairs > 0 && Sum(paths, paths.Keys) > 0 ==>
              (load == Concentrated <==> exists s :: Carries(paths, s) && |s| <= 2)
  {
    var order := Rank(paths);
    hide IsRanking, Distinct, Sum;
    TotalIsRankSum(paths, order);
    var attributed := RankSum(paths, order, |order|);
    covering := 0;
    if repairs == 0 { return NoRepairs, covering; }
    if attributed == 0 { return Unattributed, covering; }
    var running := 0;
    while running * 2 < attributed
      invariant covering <= |order| && running == RankSum(paths, order, covering)
      invariant covering > 0 ==> RankSum(paths, order, covering - 1) * 2 < attributed
      invariant running * 2 >= attributed ==> covering > 0
      decreases |order| - covering
    {
      assert order[covering] in Listed(order);
      running := running + paths[order[covering]];
      covering := covering + 1;
    }
    LeastCover(paths, order, covering);
    load := if covering <= 2 then Concentrated else Spread;
  }
}
