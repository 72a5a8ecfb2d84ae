/** `process_tree` of agent_pool/runtime.py: the members of a process group and every recorded
    descendant of its leader, found by a worklist that keeps no visited check. */
module ProcessTree {

  datatype Stat = Stat(comm: string, ticks: int, pgrp: int, parent: int)

  /** What the tree records of a member. */
  datatype Member = Member(comm: string, ticks: int)

  type Stats = map<int, Stat>
  type Children = map<int, seq<int>>

  /** x reaches a by k steps to the recorded parent. */
  ghost predicate Reaches(stats: Stats, x: int, a: int, k: nat)
    decreases k
  {
    if k == 0 then x == a else x in stats && Reaches(stats, stats[x].parent, a, k - 1)
  }

  /** x is a or one of its recorded descendants. */
  ghost predicate Descends(stats: Stats, x: int, a: int) {
    exists k: nat :: Reaches(stats, x, a, k)
  }

  /** The process is recorded as its own proper ancestor. */
  ghost predicate OwnAncestor(stats: Stats, pid: int) {
    pid in stats && Descends(stats, stats[pid].parent, pid)
  }

  lemma ParentDescends(stats: Stats, x: int, a: int)
    requires x in stats && Descends(stats, stats[x].parent, a)
    ensures Descends(stats, x, a)
  {
    var k: nat :| Reaches(stats, stats[x].parent, a, k);
    assert Reaches(stats, x, a, k + 1);
  }

  /** The child lists hold each recorded process once, under its parent. */
  ghost predicate IsChildren(stats: Stats, children: Children) {
    && (forall p, m | p in children && m in children[p] :: m in stats && stats[m].parent == p)
    && (forall m | m in stats :: stats[m].parent in children && m in children[stats[m].parent])
    && (forall p, i, j | p in children && 0 <= i < j < |children[p]| :: children[p][i] != children[p][j])
  }

  function Kids(children: Children, p: int): seq<int> {
    if p in children then children[p] else []
  }

  /** The reading loop: statistics by pid, and each pid under its parent. */
  method Read(records: seq<(int, Stat)>) returns (stats: Stats, children: Children)
    requires forall i, j | 0 <= i < j < |records| :: records[i].0 != records[j].0
    ensures IsChildren(stats, children)
    ensures stats.Keys == set r | r in records :: r.0
    ensures forall r | r in records :: r.0 in stats && stats[r.0] == r.1
  {
    stats, children := map[], map[];
    for i := 0 to |records|
      invariant IsChildren(stats, children)
      invariant stats.Keys == set r | r in records[..i] :: r.0
      invariant forall j | 0 <= j < i :: records[j].0 in stats && stats[records[j].0] == records[j].1
    {
      var (pid, stat) := records[i];
      assert records[..i + 1] == records[..i] + [records[i]];
      assert pid !in stats;
      ghost var before, lists := stats, children;
      stats := stats[pid := stat];
      children := children[stat.parent := Kids(children, stat.parent) + [pid]];
      ChildAdded(before, lists, pid, stat);
    }
    assert records[..|records|] == records;
  }

  lemma ChildAdded(stats: Stats, children: Children, pid: int, stat: Stat)
    requires IsChildren(stats, children) && pid !in stats
    ensures IsChildren(stats[pid := stat], children[stat.parent := Kids(children, stat.parent) + [pid]])
  {
  }

  // ----- The worklist -----

  /** The worklist's books: what was popped and what is pending are different processes, all
      descend from pid, and a child is pushed exactly when its parent is popped. */
  ghost predicate Books(stats: Stats, pid: int, popped: set<int>, pending: seq<int>) {
    && (forall i, j | 0 <= i < j < |pending| :: pending[i] != pending[j])
    && (forall x | x in pending :: x !in popped)
    && (pid in popped || pid in pending)
    && (forall x | x in popped || x in pending :: x == pid || (x in stats && stats[x].parent in popped))
    && (forall x | x in popped || x in pending :: Descends(stats, x, pid))
    && (forall x | x in stats && stats[x].parent in popped :: x in popped || x in pending)
  }

  /** Unless pid is its own ancestor, the children of a popped process were never pushed. */
  lemma KidsAreNew(stats: Stats, children: Children, pid: int, popped: set<int>, pending: seq<int>, m: int, c: int)
    requires IsChildren(stats, children) && !OwnAncestor(stats, pid) && Books(stats, pid, popped, pending)
    requires m in pending && c in Kids(children, m)
    ensures c in stats && stats[c].parent == m && c !in popped && c !in pending
  {
    hide Descends, IsChildren;
    assert c in stats && stats[c].parent == m by { KidOf(stats, children, m, c); }
    assert m !in popped && Descends(stats, m, pid);
    assert c != pid;
  }

  lemma KidOf(stats: Stats, children: Children, m: int, c: int)
    requires IsChildren(stats, children)
    ensures c in Kids(children, m) <==> c in stats && stats[c].parent == m
  {
  }

  lemma Together(a: seq<int>, b: seq<int>)
    requires (forall i, j | 0 <= i < j < |a| :: a[i] != a[j]) && (forall i, j | 0 <= i < j < |b| :: b[i] != b[j])
    requires forall x | x in b :: x !in a
    ensures forall i, j | 0 <= i < j < |a + b| :: (a + b)[i] != (a + b)[j]
  {
    forall i, j | 0 <= i < j < |a + b| ensures (a + b)[i] != (a + b)[j] {
      if i < |a| <= j {
        assert a[i] in a && b[j - |a|] in b;
      }
    }
  }

  lemma KidsDistinct(stats: Stats, children: Children, m: int)
    requires IsChildren(stats, children)
    ensures forall i, j | 0 <= i < j < |Kids(children, m)| :: Kids(children, m)[i] != Kids(children, m)[j]
  {
  }

  lemma PopKeepsBooks(stats: Stats, children: Children, pid: int, popped: set<int>, pending: seq<int>)
    requires IsChildren(stats, children) && !OwnAncestor(stats, pid)
    requires pending != [] && Books(stats, pid, popped, pending)
    ensures var m, rest := pending[|pending| - 1], pending[..|pending| - 1];
            m !in popped && (m == pid || m in stats) && Books(stats, pid, popped + {m}, rest + Kids(children, m))
  {
    hide Descends, OwnAncestor, IsChildren, Kids;
    var m, rest := pending[|pending| - 1], pending[..|pending| - 1];
    var popped', pending' := popped + {m}, rest + Kids(children, m);
    assert pending == rest + [m] && m in pending;
    forall c | c in Kids(children, m)
      ensures c in stats && stats[c].parent == m && c !in popped' && c !in rest && Descends(stats, c, pid)
    {
      KidsAreNew(stats, children, pid, popped, pending, m, c);
      ParentDescends(stats, c, pid);
    }
    KidsDistinct(stats, children, m);
    Together(rest, Kids(children, m));
    forall x | x in stats && stats[x].parent in popped' ensures x in popped' || x in pending' {
      if stats[x].parent == m {
        KidOf(stats, children, m, x);
      }
    }
  }

  /** When nothing is pending, everything that descends from pid was popped. */
  lemma {:induction false} AllPopped(stats: Stats, pid: int, popped: set<int>, x: int, k: nat)
    requires Books(stats, pid, popped, []) && Reaches(stats, x, pid, k)
    ensures x in popped
    decreases k
  {
    if k > 0 {
      AllPopped(stats, pid, popped, stats[x].parent, k - 1);
    }
  }

  lemma PoppedAreDescendants(stats: Stats, pid: int, popped: set<int>)
    requires Books(stats, pid, popped, [])
    ensures forall x :: x in popped <==> Descends(stats, x, pid)
  {
    forall x | Descends(stats, x, pid) ensures x in popped {
      var k: nat :| Reaches(stats, x, pid, k);
      AllPopped(stats, pid, popped, x, k);
    }
  }

  /** The pending list after n pops. */
  function After(children: Children, pid: int, n: nat): seq<int> {
    if n == 0 then [pid] else
      var p := After(children, pid, n - 1);
      if p == [] then [] else p[..|p| - 1] + Kids(children, p[|p| - 1])
  }

  lemma AfterPop(children: Children, pid: int, n: nat)
    requires After(children, pid, n) != []
    ensures var p := After(children, pid, n);
            After(children, pid, n + 1) == p[..|p| - 1] + Kids(children, p[|p| - 1])
  {
  }

  lemma BooksStart(stats: Stats, children: Children, pid: int)
    ensures Books(stats, pid, {}, [pid]) && After(children, pid, 0) == [pid]
  {
    assert Reaches(stats, pid, pid, 0);
  }

  /** Terminates and returns exactly the group members and the recorded descendants-or-self
      of pid, whenever pid is not recorded as its own ancestor. */
  method ProcessTree(stats: Stats, children: Children, pid: int) returns (tree: map<int, Member>)
    requires IsChildren(stats, children) && !OwnAncestor(stats, pid)
    ensures forall m :: m in tree <==> m in stats && (stats[m].pgrp == pid || Descends(stats, m, pid))
    ensures forall m | m in tree :: tree[m] == Member(stats[m].comm, stats[m].ticks)
  {
    hide *;
    tree := map m | m in stats && stats[m].pgrp == pid :: Member(stats[m].comm, stats[m].ticks);
    var pending := [pid];
    ghost var pops := 0;
    ghost var popped: set<int> := {};
    BooksStart(stats, children, pid);
    while pending != []
      invariant Books(stats, pid, popped, pending) && pending == After(children, pid, pops)
      invariant forall m :: m in tree <==> m in stats && (stats[m].pgrp == pid || m in popped)
      invariant forall m | m in tree :: tree[m] == Member(stats[m].comm, stats[m].ticks)
      decreases stats.Keys + {pid} - popped
    {
      var member := pending[|pending| - 1];
      PopKeepsBooks(stats, children, pid, popped, pending);
      AfterPop(children, pid, pops);
      pending := pending[..|pending| - 1];
      if member in stats && member !in tree {
        tree := tree[member := Member(stats[member].comm, stats[member].ticks)];
      }
      pending := pending + Kids(children, member);
      popped := popped + {member};
      pops := pops + 1;
    }
    PoppedAreDescendants(stats, pid, popped);
  }

  // ----- Where the missing visited check matters -----

  /** The processes from x up to its k-th ancestor. */
  function Chain(stats: Stats, x: int, k: nat): seq<int>
    decreases k
  {
    if k == 0 || x !in stats then [x] else [x] + Chain(stats, stats[x].parent, k - 1)
  }

  lemma {:induction false} ChainLinks(stats: Stats, x: int, a: int, k: nat)
    requires Reaches(stats, x, a, k)
    ensures var c := Chain(stats, x, k);
            |c| == k + 1 && c[0] == x && c[k] == a
            && forall i | 0 <= i < k :: c[i] in stats && stats[c[i]].parent == c[i + 1]
    decreases k
  {
    if k > 0 {
      ChainLinks(stats, stats[x].parent, a, k - 1);
    }
  }

  ghost predicate HasChildIn(stats: Stats, ring: seq<int>, x: int) {
    exists c | c in ring :: c in stats && stats[c].parent == x
  }

  /** Every process of a ring has a child in the ring. */
  ghost predicate Ring(stats: Stats, ring: seq<int>) {
    forall x {:trigger HasChildIn(stats, ring, x)} | x in ring :: HasChildIn(stats, ring, x)
  }

  lemma RingOf(stats: Stats, pid: int) returns (ring: seq<int>)
    requires OwnAncestor(stats, pid)
    ensures pid in ring && Ring(stats, ring)
  {
    var k: nat :| Reaches(stats, stats[pid].parent, pid, k);
    assert Reaches(stats, pid, pid, k + 1);
    ring := Chain(stats, pid, k + 1);
    ChainLinks(stats, pid, pid, k + 1);
    hide Chain, Reaches;
    assert ring[0] in ring;
    forall x | x in ring ensures HasChildIn(stats, ring, x) {
      var i :| 0 <= i < |ring| && ring[i] == x;
      var j := if i == 0 then k + 1 else i;
      var c := ring[j - 1];
      assert ring[j] == x && c in ring && c in stats && stats[c].parent == x;
    }
  }

  lemma RingStays(stats: Stats, children: Children, ring: seq<int>, p: seq<int>, x: int) returns (y: int)
    requires IsChildren(stats, children) && Ring(stats, ring) && x in p && x in ring
    ensures y in ring && y in p[..|p| - 1] + Kids(children, p[|p| - 1])
  {
    var m := p[|p| - 1];
    assert p == p[..|p| - 1] + [m];
    y := x;
    if x == m {
      assert HasChildIn(stats, ring, m);
      var c :| c in ring && c in stats && stats[c].parent == m;
      KidOf(stats, children, m, c);
      y := c;
    }
  }

  /** A process recorded as its own ancestor keeps the worklist busy forever. */
  lemma {:induction false} OwnAncestorStaysPending(stats: Stats, children: Children, pid: int, ring: seq<int>, n: nat)
    returns (x: int)
    requires IsChildren(stats, children) && pid in ring && Ring(stats, ring)
    ensures x in After(children, pid, n) && x in ring
    decreases n
  {
    hide IsChildren, Ring, Kids;
    if n == 0 {
      x := pid;
    } else {
      x := OwnAncestorStaysPending(stats, children, pid, ring, n - 1);
      x := RingStays(stats, children, ring, After(children, pid, n - 1), x);
    }
  }

  lemma OwnAncestorNeverEnds(stats: Stats, children: Children, pid: int, n: nat)
    requires IsChildren(stats, children) && OwnAncestor(stats, pid)
    ensures After(children, pid, n) != []
  {
    hide IsChildren, OwnAncestor, Ring, After;
    var ring := RingOf(stats, pid);
    var x := OwnAncestorStaysPending(stats, children, pid, ring, n);
  }

  lemma {:induction false} OthersEnd(stats: Stats, children: Children, pid: int, popped: set<int>, n: nat) returns (e: nat)
    requires IsChildren(stats, children) && !OwnAncestor(stats, pid)
    requires Books(stats, pid, popped, After(children, pid, n)) && popped <= stats.Keys + {pid}
    ensures After(children, pid, e) == []
    decreases stats.Keys + {pid} - popped
  {
    hide *;
    var p := After(children, pid, n);
    if p == [] {
      e := n;
    } else {
      var m := p[|p| - 1];
      PopKeepsBooks(stats, children, pid, popped, p);
      AfterPop(children, pid, n);
      e := OthersEnd(stats, children, pid, popped + {m}, n + 1);
    }
  }

  /** The condition is exact: the worklist runs dry if and only if the process is not
      recorded as its own ancestor. */
  lemma WorklistEndsExactly(stats: Stats, children: Children, pid: int)
    requires IsChildren(stats, children)
    ensures (exists n: nat :: After(children, pid, n) == []) <==> !OwnAncestor(stats, pid)
  {
    if OwnAncestor(stats, pid) {
      forall n: nat ensures After(children, pid, n) != [] {
        OwnAncestorNeverEnds(stats, children, pid, n);
      }
    } else {
      BooksStart(stats, children, pid);
      var e := OthersEnd(stats, children, pid, {}, 0);
    }
  }

  /** A concrete tree that never ends: two processes recorded as each other's parent. */
  lemma RingNeverEnds(n: nat)
    ensures var stats := map[1 := Stat("a", 0, 1, 2), 2 := Stat("b", 0, 1, 1)];
            var children := map[2 := [1], 1 := [2]];
            IsChildren(stats, children) && OwnAncestor(stats, 1) && After(children, 1, n) != []
  {
    var stats := map[1 := Stat("a", 0, 1, 2), 2 := Stat("b", 0, 1, 1)];
    var children := map[2 := [1], 1 := [2]];
    hide After;
    assert IsChildren(stats, children) by {
      assert 1 in children[2] && 2 in children[1];
    }
    assert Reaches(stats, 1, 1, 0);
    assert Reaches(stats, 2, 1, 1);
    OwnAncestorNeverEnds(stats, children, 1, n);
  }
}
