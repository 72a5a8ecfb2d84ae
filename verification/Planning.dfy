/** Dependency ordering of a proposal (agent_pool/planning.py) and the publication loop of
    the planner that relies on it (agent_pool/supervisor.py). */
module Planning {
  import opened Common

  /** A dependency on an existing issue number, or on a key of the same proposal. */
  datatype Dep = OnNumber(number: int) | OnKey(key: string)

  datatype Item = Item(key: string, deps: seq<Dep>)

  predicate DependsOn(item: Item, key: string) {
    OnKey(key) in item.deps
  }

  /** The item's keys are all among the resolved ones. */
  predicate Satisfied(item: Item, resolved: set<string>) {
    forall d | d in item.deps :: d.OnKey? ==> d.key in resolved
  }

  function KeysOf(items: seq<Item>): set<string> {
    set item | item in items :: item.key
  }

  /** What `validate` has checked before: distinct keys, and no unknown key dependency. */
  predicate Validated(items: seq<Item>) {
    && (forall i, j | 0 <= i < j < |items| :: items[i].key != items[j].key)
    && forall item | item in items :: Satisfied(item, KeysOf(items))
  }

  /** Every item comes after all the items it depends on. */
  ghost predicate Topological(items: seq<Item>) {
    forall i | 0 <= i < |items| :: Satisfied(items[i], KeysOf(items[..i]))
  }

  // ----- Cycles -----

  ghost predicate Edge(items: seq<Item>, a: string, b: string) {
    exists item | item in items :: item.key == a && DependsOn(item, b)
  }

  ghost predicate IsPath(items: seq<Item>, path: seq<string>) {
    forall i | 0 <= i < |path| - 1 :: Edge(items, path[i], path[i + 1])
  }

  /** A dependency path from a key back to itself. */
  ghost predicate IsCycle(items: seq<Item>, c: seq<string>) {
    |c| >= 2 && c[0] == c[|c| - 1] && IsPath(items, c)
  }

  /** The key has an edge to another key of the set. */
  ghost predicate WaitsIn(items: seq<Item>, keys: set<string>, k: string) {
    exists b | b in keys :: Edge(items, k, b)
  }

  function Unvisited(keys: set<string>, path: seq<string>): set<string> {
    keys - set k | k in path
  }

  /** Following unresolved dependencies inside a finite set must return to the path. */
  lemma {:induction false} CycleFrom(items: seq<Item>, keys: set<string>, path: seq<string>) returns (c: seq<string>)
    requires path != [] && IsPath(items, path) && forall k | k in path :: k in keys
    requires forall k {:trigger WaitsIn(items, keys, k)} | k in keys :: WaitsIn(items, keys, k)
    ensures IsCycle(items, c)
    decreases Unvisited(keys, path)
  {
    hide Edge;
    var last := path[|path| - 1];
    assert WaitsIn(items, keys, last);
    var b :| b in keys && Edge(items, last, b);
    if b in path {
      var i :| 0 <= i < |path| && path[i] == b;
      c := path[i..] + [b];
    } else {
      assert b in Unvisited(keys, path) && b in path + [b];
      assert Unvisited(keys, path + [b]) < Unvisited(keys, path);
      c := CycleFrom(items, keys, path + [b]);
    }
  }

  ghost predicate SameItems(a: seq<Item>, b: seq<Item>) {
    multiset(a) == multiset(b)
  }

  lemma SameItemsSameEdges(a: seq<Item>, b: seq<Item>, x: string, y: string)
    requires SameItems(a, b) && Edge(a, x, y)
    ensures Edge(b, x, y)
  {
    var item :| item in a && item.key == x && DependsOn(item, y);
    assert item in multiset(a);
    assert item in b;
  }

  /** In a topological order an edge leads strictly backwards. */
  lemma EdgeGoesBack(items: seq<Item>, a: string, j: nat, b: string) returns (i: nat)
    requires Topological(items) && j < |items| && items[j].key == a && Edge(items, a, b)
    requires forall k, l | 0 <= k < l < |items| :: items[k].key != items[l].key
    ensures i < j && items[i].key == b
  {
    var item :| item in items && item.key == a && DependsOn(item, b);
    var k :| 0 <= k < |items| && items[k] == item;
    assert k == j;
    assert OnKey(b) in items[j].deps;
    var dep :| dep in items[..j] && dep.key == b;
    i :| 0 <= i < j && items[i] == dep;
  }

  lemma {:induction false} PathGoesBack(items: seq<Item>, path: seq<string>, j: nat) returns (i: nat)
    requires Topological(items) && |path| >= 2 && IsPath(items, path) && j < |items| && items[j].key == path[0]
    requires forall k, l | 0 <= k < l < |items| :: items[k].key != items[l].key
    ensures i < j && items[i].key == path[|path| - 1]
    decreases |path|
  {
    assert Edge(items, path[0], path[1]);
    i := EdgeGoesBack(items, path[0], j, path[1]);
    if |path| > 2 {
      var rest := path[1..];
      assert IsPath(items, rest) by {
        forall k | 0 <= k < |rest| - 1 ensures Edge(items, rest[k], rest[k + 1]) {
          assert Edge(items, path[k + 1], path[k + 2]);
        }
      }
      i := PathGoesBack(items, rest, i);
    }
  }

  /** A topologically ordered proposal has no cycle. */
  lemma OrderedIsAcyclic(items: seq<Item>, c: seq<string>)
    requires Topological(items)
    requires forall k, l | 0 <= k < l < |items| :: items[k].key != items[l].key
    ensures !IsCycle(items, c)
  {
    if IsCycle(items, c) {
      assert Edge(items, c[0], c[1]);
      var item :| item in items && item.key == c[0];
      var j :| 0 <= j < |items| && items[j] == item;
      var i := PathGoesBack(items, c, j);
    }
  }

  // ----- ordered_issues -----

  function Ready(items: seq<Item>, resolved: set<string>): (r: seq<Item>)
    ensures forall item :: item in r <==> item in items && Satisfied(item, resolved)
    ensures multiset(r) <= multiset(items)
  {
    if items == [] then [] else
      assert items == [items[0]] + items[1..];
      if Satisfied(items[0], resolved) then [items[0]] + Ready(items[1..], resolved)
      else Ready(items[1..], resolved)
  }

  /** `list.remove`: drops the first occurrence. */
  function Remove(items: seq<Item>, item: Item): (r: seq<Item>)
    requires item in items
    ensures multiset(r) == multiset(items) - multiset{item} && |r| == |items| - 1
  {
    if items[0] == item then
      assert items == [items[0]] + items[1..];
      items[1..]
    else
      assert items == [items[0]] + items[1..];
      [items[0]] + Remove(items[1..], item)
  }

  lemma KeysSnoc(items: seq<Item>, item: Item)
    ensures KeysOf(items + [item]) == KeysOf(items) + {item.key}
  {
  }

  lemma TopologicalSnoc(items: seq<Item>, item: Item)
    requires Topological(items) && Satisfied(item, KeysOf(items))
    ensures Topological(items + [item])
  {
    var all := items + [item];
    forall i | 0 <= i < |all| ensures Satisfied(all[i], KeysOf(all[..i])) {
      if i < |items| {
        assert all[..i] == items[..i];
      } else {
        assert all[..i] == items;
      }
    }
  }

  lemma SatisfiedGrows(item: Item, a: set<string>, b: set<string>)
    requires Satisfied(item, a) && a <= b
    ensures Satisfied(item, b)
  {
  }

  /** One pass over the ready items: each is ordered, resolved and removed. */
  method EmitReady(ready: seq<Item>, remaining: seq<Item>, ordered: seq<Item>, resolved: set<string>)
    returns (remaining': seq<Item>, ordered': seq<Item>, resolved': set<string>)
    requires ready != [] && multiset(ready) <= multiset(remaining) && Topological(ordered) && resolved == KeysOf(ordered)
    requires forall item | item in ready :: Satisfied(item, resolved)
    ensures multiset(remaining') + multiset(ordered') == multiset(remaining) + multiset(ordered)
    ensures Topological(ordered') && resolved' == KeysOf(ordered') && |remaining'| < |remaining|
  {
    hide Satisfied, KeysOf, Topological;
    remaining', ordered', resolved' := remaining, ordered, resolved;
    for i := 0 to |ready|
      invariant multiset(remaining') + multiset(ordered') == multiset(remaining) + multiset(ordered)
      invariant multiset(ready[i..]) <= multiset(remaining')
      invariant Topological(ordered') && resolved' == KeysOf(ordered') && resolved <= resolved'
      invariant |remaining'| == |remaining| - i
    {
      var item := ready[i];
      assert ready[i..] == [item] + ready[i + 1..];
      assert item in multiset(ready[i..]) && item in multiset(remaining');
      assert item in ready;
      SatisfiedGrows(item, resolved, resolved');
      TopologicalSnoc(ordered', item);
      KeysSnoc(ordered', item);
      ordered' := ordered' + [item];
      resolved' := resolved' + {item.key};
      remaining' := Remove(remaining', item);
    }
  }

  /** When no remaining item is ready, each waits on another remaining one. */
  lemma StuckIsCyclic(issues: seq<Item>, remaining: seq<Item>, ordered: seq<Item>) returns (c: seq<string>)
    requires Validated(issues) && multiset(remaining) + multiset(ordered) == multiset(issues) && remaining != []
    requires forall item | item in remaining :: !Satisfied(item, KeysOf(ordered))
    ensures IsCycle(issues, c)
  {
    var keys := KeysOf(remaining);
    forall k | k in keys ensures WaitsIn(issues, keys, k) {
      var item :| item in remaining && item.key == k;
      StuckWaits(issues, remaining, ordered, item);
    }
    assert remaining[0].key in keys;
    c := CycleFrom(issues, keys, [remaining[0].key]);
  }

  lemma StuckWaits(issues: seq<Item>, remaining: seq<Item>, ordered: seq<Item>, item: Item)
    requires Validated(issues) && multiset(remaining) + multiset(ordered) == multiset(issues)
    requires item in remaining && !Satisfied(item, KeysOf(ordered))
    ensures WaitsIn(issues, KeysOf(remaining), item.key)
  {
    assert item in multiset(issues);
    var d :| d in item.deps && d.OnKey? && d.key !in KeysOf(ordered);
    assert d.key in KeysOf(issues) by { assert Satisfied(item, KeysOf(issues)); }
    KeyElsewhere(issues, remaining, ordered, d.key);
    assert Edge(issues, item.key, d.key) by { assert DependsOn(item, d.key) && item in issues; }
  }

  lemma KeyElsewhere(issues: seq<Item>, remaining: seq<Item>, ordered: seq<Item>, k: string)
    requires multiset(remaining) + multiset(ordered) == multiset(issues)
    requires k in KeysOf(issues) && k !in KeysOf(ordered)
    ensures k in KeysOf(remaining)
  {
    var other :| other in issues && other.key == k;
    assert other in multiset(issues) && other !in ordered;
    assert other in multiset(remaining);
  }

  lemma SameKeysDistinct(issues: seq<Item>, ordered: seq<Item>)
    requires Validated(issues) && SameItems(issues, ordered)
    ensures forall k, l | 0 <= k < l < |ordered| :: ordered[k].key != ordered[l].key
  {
    forall k, l | 0 <= k < l < |ordered| ensures ordered[k].key != ordered[l].key {
      if ordered[k].key == ordered[l].key {
        assert ordered[k] in multiset(issues) && ordered[l] in multiset(issues);
        var i :| 0 <= i < |issues| && issues[i] == ordered[k];
        var j :| 0 <= j < |issues| && issues[j] == ordered[l];
        assert i == j;
        TwiceInMultiset(ordered, k, l);
        OnceInMultiset(issues, i);
      }
    }
  }

  lemma TwiceInMultiset(items: seq<Item>, k: nat, l: nat)
    requires k < l < |items| && items[k] == items[l]
    ensures multiset(items)[items[k]] >= 2
  {
    assert items == items[..k] + [items[k]] + items[k + 1..l] + [items[l]] + items[l + 1..];
  }

  lemma OnceInMultiset(items: seq<Item>, i: nat)
    requires i < |items| && forall a, b | 0 <= a < b < |items| :: items[a].key != items[b].key
    ensures multiset(items)[items[i]] == 1
  {
    assert items == items[..i] + [items[i]] + items[i + 1..];
    assert items[i] !in items[..i] && items[i] !in items[i + 1..];
  }

  /** `ordered_issues`: None where the source raises. It terminates, returns a permutation with
      every dependency before its dependent, and raises exactly when there is a cycle. */
  method OrderedIssues(issues: seq<Item>) returns (r: Option<seq<Item>>)
    requires Validated(issues)
    ensures r.Some? ==> SameItems(issues, r.value) && Topological(r.value)
    ensures r.None? <==> exists c :: IsCycle(issues, c)
  {
    var remaining, ordered, resolved := issues, [], {};
    while remaining != []
      invariant multiset(remaining) + multiset(ordered) == multiset(issues)
      invariant Topological(ordered) && resolved == KeysOf(ordered)
      decreases |remaining|
    {
      var ready := Ready(remaining, resolved);
      if ready == [] {
        ghost var c := StuckIsCyclic(issues, remaining, ordered);
        return None;
      }
      remaining, ordered, resolved := EmitReady(ready, remaining, ordered, resolved);
    }
    assert SameItems(issues, ordered);
    NoCycleIn(issues, ordered);
    r := Some(ordered);
  }

  lemma NoCycleIn(issues: seq<Item>, ordered: seq<Item>)
    requires Validated(issues) && SameItems(issues, ordered) && Topological(ordered)
    ensures !exists c :: IsCycle(issues, c)
  {
    SameKeysDistinct(issues, ordered);
    forall c ensures !IsCycle(issues, c) {
      if IsCycle(issues, c) {
        forall i | 0 <= i < |c| - 1 ensures Edge(ordered, c[i], c[i + 1]) {
          SameItemsSameEdges(issues, ordered, c[i], c[i + 1]);
        }
        OrderedIsAcyclic(ordered, c);
      }
    }
  }
}
