/** The `stalled` check inside `refresh_improvements` of agent_pool/supervisor.py: a
    recursion over a dependency graph that may be cyclic, characterised as the complement
    of the least fixpoint of "can still progress". */
module Stalled {
  import opened Common

  datatype JobStatus = Working | PrOpen | Blocked | Done

  datatype IssueState = Open | Closed | OtherState

  /** An inventory issue; `deps` is None when its metadata cannot be read. */
  datatype Issue = Issue(state: IssueState, deps: Option<seq<int>>)

  /** The job table's statuses and the reconciled issue inventory. */
  datatype World = World(statuses: map<int, JobStatus>, issues: map<int, Issue>) {
    predicate IsClosed(n: int) { n in issues && issues[n].state == Closed }
  }

  /** The dependencies not already on the chain bound the recursion. */
  function Off(w: World, chain: seq<int>): set<int> {
    w.issues.Keys - set c | c in chain
  }

  /** True when issue n can never dispatch: a prerequisite failed. */
  predicate IsStalled(w: World, n: int, chain: seq<int>)
    decreases Off(w, chain)
  {
    if (n in w.statuses && w.statuses[n] in {Working, PrOpen}) || w.IsClosed(n) then false
    else if n in w.statuses then w.statuses[n] == Blocked
    else if n !in w.issues || w.issues[n].state != Open || n in chain then true
    else if w.issues[n].deps.None? then false
    else
      assert Off(w, chain + [n]) < Off(w, chain) by { assert n in Off(w, chain) && n in chain + [n]; }
      exists d | d in w.issues[n].deps.value :: !w.IsClosed(d) && IsStalled(w, d, chain + [n])
  }

  // ----- The least fixpoint -----

  /** Issues that progress on their own account. */
  predicate Moving(w: World, n: int) {
    || w.IsClosed(n)
    || (n in w.statuses && w.statuses[n] != Blocked)
    || (Pending(w, n) && w.issues[n].deps.None?)
  }

  /** Open issues without a job: only their dependencies decide. */
  predicate Pending(w: World, n: int) {
    n !in w.statuses && n in w.issues && w.issues[n].state == Open
  }

  predicate Waits(w: World, n: int) {
    Pending(w, n) && w.issues[n].deps.Some?
  }

  /** Given that S progresses, n does: it moves, or all its non-closed dependencies are in S. */
  ghost predicate Enabled(w: World, n: int, S: iset<int>) {
    Moving(w, n) || (Waits(w, n) && forall d | d in w.issues[n].deps.value :: w.IsClosed(d) || d in S)
  }

  ghost predicate ProgressClosed(w: World, S: iset<int>) {
    forall n :: Enabled(w, n, S) ==> n in S
  }

  /** n is in the least set closed under progress. */
  ghost predicate CanProgress(w: World, n: int) {
    forall S: iset<int> | ProgressClosed(w, S) :: n in S
  }

  /** n is shown to progress within k rounds of following dependencies. */
  ghost predicate Within(w: World, n: int, k: nat)
    decreases k
  {
    || Moving(w, n)
    || (k > 0 && Waits(w, n) && forall d | d in w.issues[n].deps.value :: w.IsClosed(d) || Within(w, d, k - 1))
  }

  ghost predicate Eventually(w: World, n: int) {
    exists k: nat :: Within(w, n, k)
  }

  lemma {:induction false} WithinGrows(w: World, n: int, j: nat, k: nat)
    requires j <= k && Within(w, n, j)
    ensures Within(w, n, k)
    decreases j
  {
    if !Moving(w, n) {
      forall d | d in w.issues[n].deps.value && !w.IsClosed(d) ensures Within(w, d, k - 1) {
        WithinGrows(w, d, j - 1, k - 1);
      }
    }
  }

  /** The rounds an issue needs, taken minimal. */
  lemma {:induction false} MinimalRounds(w: World, n: int, k: nat) returns (m: nat)
    requires Within(w, n, k)
    ensures m <= k && Within(w, n, m) && (m > 0 ==> !Within(w, n, m - 1))
    decreases k
  {
    if k > 0 && Within(w, n, k - 1) {
      m := MinimalRounds(w, n, k - 1);
    } else {
      m := k;
    }
  }

  /** Progress within minimally k rounds is never reported stalled while everything on the
      chain needs more rounds: following dependencies needs ever fewer, so the recursion
      does not meet its own chain. */
  lemma {:induction false} ProgressIsNotStalled(w: World, n: int, chain: seq<int>, k: nat)
    requires Within(w, n, k) && (k > 0 ==> !Within(w, n, k - 1))
    requires forall c | c in chain :: !Within(w, c, k)
    ensures !IsStalled(w, n, chain)
    decreases k
  {
    if !Moving(w, n) {
      forall d | d in w.issues[n].deps.value && !w.IsClosed(d) ensures !IsStalled(w, d, chain + [n]) {
        var m := MinimalRounds(w, d, k - 1);
        forall c | c in chain + [n] ensures !Within(w, c, m) {
          if Within(w, c, m) {
            WithinGrows(w, c, m, k - 1);
            WithinGrows(w, c, m, k);
          }
        }
        ProgressIsNotStalled(w, d, chain + [n], m);
      }
    }
  }

  /** What the recursion reports as not stalled is in every set closed under progress. */
  lemma {:induction false} NotStalledIsInClosed(w: World, n: int, chain: seq<int>, S: iset<int>)
    requires ProgressClosed(w, S) && !IsStalled(w, n, chain)
    ensures n in S
    decreases Off(w, chain)
  {
    if !Moving(w, n) {
      assert n in Off(w, chain) && n in chain + [n];
      assert Off(w, chain + [n]) < Off(w, chain);
      forall d | d in w.issues[n].deps.value && !w.IsClosed(d) ensures d in S {
        NotStalledIsInClosed(w, d, chain + [n], S);
      }
    }
  }

  /** Finitely many dependencies that each need finitely many rounds need a common number. */
  lemma {:induction false} CommonRounds(w: World, deps: seq<int>) returns (k: nat)
    requires forall d | d in deps :: w.IsClosed(d) || Eventually(w, d)
    ensures forall d | d in deps :: w.IsClosed(d) || Within(w, d, k)
  {
    if deps == [] {
      k := 0;
    } else {
      var rest := CommonRounds(w, deps[1..]);
      var j: nat := 0;
      if !w.IsClosed(deps[0]) {
        j :| Within(w, deps[0], j);
      }
      k := j + rest;
      forall d | d in deps && !w.IsClosed(d) ensures Within(w, d, k) {
        if d in deps[1..] {
          WithinGrows(w, d, rest, k);
        } else {
          WithinGrows(w, d, j, k);
        }
      }
    }
  }

  lemma EventuallyIsProgressClosed(w: World)
    ensures ProgressClosed(w, iset n | Eventually(w, n))
  {
    var S := iset n | Eventually(w, n);
    forall n | Enabled(w, n, S) ensures n in S {
      if Moving(w, n) {
        assert Within(w, n, 0);
      } else {
        var k := CommonRounds(w, w.issues[n].deps.value);
        assert Within(w, n, k + 1);
      }
    }
  }

  /** On every dependency graph, cyclic ones included, the check is false exactly on the
      least fixpoint of progress. */
  lemma StalledIsComplementOfLeastFixpoint(w: World, n: int)
    ensures !IsStalled(w, n, []) <==> CanProgress(w, n)
  {
    if !IsStalled(w, n, []) {
      forall S: iset<int> | ProgressClosed(w, S) ensures n in S {
        NotStalledIsInClosed(w, n, [], S);
      }
    }
    if CanProgress(w, n) {
      EventuallyIsProgressClosed(w);
      assert n in iset m | Eventually(w, m);
      var k: nat :| Within(w, n, k);
      var m := MinimalRounds(w, n, k);
      ProgressIsNotStalled(w, n, [], m);
    }
  }

  /** m waits on a non-closed issue of the set. */
  ghost predicate WaitsInside(w: World, m: int, knot: set<int>) {
    Waits(w, m) && exists d | d in w.issues[m].deps.value :: d in knot && !w.IsClosed(d)
  }

  lemma {:induction false} KnotNeverProgresses(w: World, knot: set<int>, n: int, k: nat)
    requires n in knot && forall m {:trigger WaitsInside(w, m, knot)} | m in knot :: WaitsInside(w, m, knot)
    ensures !Within(w, n, k)
    decreases k
  {
    assert WaitsInside(w, n, knot);
    var d :| d in w.issues[n].deps.value && d in knot && !w.IsClosed(d);
    if k > 0 {
      KnotNeverProgresses(w, knot, d, k - 1);
    }
  }

  /** Pending issues that each wait on a non-closed issue of the same set, such as a
      dependency cycle, are all stalled. */
  lemma WaitingOnEachOtherIsStalled(w: World, knot: set<int>, n: int)
    requires n in knot && forall m {:trigger WaitsInside(w, m, knot)} | m in knot :: WaitsInside(w, m, knot)
    ensures IsStalled(w, n, [])
  {
    forall k: nat ensures !Within(w, n, k) {
      KnotNeverProgresses(w, knot, n, k);
    }
    EventuallyIsProgressClosed(w);
    assert n !in iset m | Eventually(w, m);
    StalledIsComplementOfLeastFixpoint(w, n);
  }

  // ----- Releasing the active improvement -----

  /** One mapped issue counts as resolved for the improvement slot. */
  predicate Settled(w: World, n: int) {
    (n in w.statuses && w.statuses[n] in {Done, Blocked}) || w.IsClosed(n) || IsStalled(w, n, [])
  }

  /** `refresh_improvements`: whether the active-improvement slot is released. */
  method Resolved(w: World, numbers: seq<int>) returns (released: bool)
    ensures released <==>
            forall n | n in numbers ::
              w.IsClosed(n) || (n in w.statuses && w.statuses[n] == Done) || !CanProgress(w, n)
  {
    released := true;
    for i := 0 to |numbers|
      invariant released <==>
                forall n | n in numbers[..i] ::
                  w.IsClosed(n) || (n in w.statuses && w.statuses[n] == Done) || !CanProgress(w, n)
    {
      assert numbers[..i + 1] == numbers[..i] + [numbers[i]];
      StalledIsComplementOfLeastFixpoint(w, numbers[i]);
      released := released && Settled(w, numbers[i]);
    }
    assert numbers[..|numbers|] == numbers;
  }
}
