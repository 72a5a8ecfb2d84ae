/** The dispatch loop of agent_pool/supervisor.py with `Allocation` of agent_pool/areas.py and
    `classify` of agent_pool/scheduling.py: the candidate of least priority number, then least
    invested area, is launched first. */
module Dispatch {
  import opened Common

  datatype Area = Engineering | ControlRuntime | HighAvailability | FieldConnectivity | Operations
                | AlarmsDiagnostics | Library | DeploymentLifecycle | Verification | DeliveryPlatform

  function Weight(a: Area): (w: nat)
    ensures w > 0
  {
    match a
    case Engineering | ControlRuntime | HighAvailability => 15
    case FieldConnectivity | Operations | AlarmsDiagnostics | Library => 10
    case DeploymentLifecycle | Verification | DeliveryPlatform => 5
  }

  type Counter = map<Area, nat>

  function Count(c: Counter, a: Area): nat {
    if a in c then c[a] else 0
  }

  /** The readable metadata of an issue; the area is the recorded or the inferred one. */
  datatype Meta = Meta(priority: int, area: Option<Area>, dependencies: set<int>, improvement: Option<string>)

  datatype Issue = Issue(number: int, open: bool, ready: bool, meta: Option<Meta>)

  /** What becomes of an eligible candidate: no slot, free worker or lease is left and the pass
      returns; the reservation is refused; or the job is reserved and launched. */
  datatype Answer = Stop | Refused | Launched

  type Answers = int -> Answer

  datatype Pass = Pass(waiting: seq<Issue>, jobs: set<int>, lane: Option<string>, recent: Counter, active: Counter,
                       log: seq<Issue>, stopped: bool)
  {
    /** Recent and active work of an area. */
    function N(a: Area): nat { Count(recent, a) + Count(active, a) }
  }

  // ----- Rank -----

  function Score(n: nat, a: Area): real {
    n as real / Weight(a) as real
  }

  /** The key of a candidate; no score stands for infinity. */
  datatype Rank = Rank(priority: int, score: Option<real>, number: int)

  predicate Precedes(x: Rank, y: Rank) {
    if x.priority != y.priority then x.priority < y.priority
    else if x.score == y.score then x.number <= y.number
    else x.score.Some? && (y.score.Some? ==> x.score.value < y.score.value)
  }

  function RankOf(p: Pass, c: Issue): Rank {
    match c.meta
    case None => Rank(4, None, c.number)
    case Some(m) => Rank(m.priority, if m.area.Some? then Some(Score(p.N(m.area.value), m.area.value)) else None, c.number)
  }

  /** The position of the least candidate among the first k. */
  function LeastIndex(p: Pass, k: nat): (i: nat)
    requires 0 < k <= |p.waiting|
    ensures i < k && forall j | 0 <= j < k :: Precedes(RankOf(p, p.waiting[i]), RankOf(p, p.waiting[j]))
  {
    if k == 1 then 0 else
      var i := LeastIndex(p, k - 1);
      if Precedes(RankOf(p, p.waiting[i]), RankOf(p, p.waiting[k - 1])) then i else k - 1
  }

  // ----- One iteration -----

  /** Ready apart from the improvement lane. */
  predicate Open(jobs: set<int>, closed: set<int>, c: Issue) {
    c.open && c.number !in jobs && c.ready && c.meta.Some? && c.meta.value.area.Some? && c.meta.value.dependencies <= closed
  }

  predicate LaneFree(lane: Option<string>, c: Issue)
    requires c.meta.Some?
  {
    c.meta.value.improvement.None? || lane.None? || lane == c.meta.value.improvement
  }

  function Launch(p: Pass, c: Issue): Pass
    requires c.meta.Some? && c.meta.value.area.Some?
  {
    var a := c.meta.value.area.value;
    p.(jobs := p.jobs + {c.number}, lane := if p.lane.None? then c.meta.value.improvement else p.lane,
       active := p.active[a := Count(p.active, a) + 1], log := p.log + [c])
  }

  /** The fate of the candidate just removed. */
  function Consider(closed: set<int>, answers: Answers, p: Pass, c: Issue): Pass {
    if !(Open(p.jobs, closed, c) && LaneFree(p.lane, c)) then p else
      match answers(c.number)
      case Stop => p.(stopped := true)
      case Refused => p
      case Launched => Launch(p, c)
  }

  function Without(s: seq<Issue>, i: nat): seq<Issue>
    requires i < |s|
  {
    s[..i] + s[i + 1..]
  }

  function Next(closed: set<int>, answers: Answers, p: Pass): Pass {
    if p.waiting == [] || p.stopped then p else
      var i := LeastIndex(p, |p.waiting|);
      Consider(closed, answers, p.(waiting := Without(p.waiting, i)), p.waiting[i])
  }

  /** The pass after n iterations. */
  function After(closed: set<int>, answers: Answers, p: Pass, n: nat): Pass {
    if n == 0 then p else Next(closed, answers, After(closed, answers, p, n - 1))
  }

  predicate DistinctNumbers(s: seq<Issue>) {
    forall i, j | 0 <= i < j < |s| :: s[i].number != s[j].number
  }

  /** A pass begins with nothing launched. */
  predicate Begins(p: Pass) {
    p.log == [] && !p.stopped && DistinctNumbers(p.waiting)
  }

  lemma WithoutKeeps(s: seq<Issue>, i: nat)
    requires i < |s| && DistinctNumbers(s)
    ensures DistinctNumbers(Without(s, i))
    ensures forall c :: c in Without(s, i) <==> c in s && c != s[i]
    ensures forall c | c in Without(s, i) :: c.number != s[i].number
  {
    var r := Without(s, i);
    forall c | c in s && c != s[i] ensures c in r {
      var j :| 0 <= j < |s| && s[j] == c;
      assert r[if j < i then j else j - 1] == c;
    }
  }

  /** One iteration in terms of the candidate it removes. */
  lemma NextTakes(closed: set<int>, answers: Answers, p: Pass) returns (c: Issue, q: Pass)
    requires p.waiting != [] && !p.stopped && DistinctNumbers(p.waiting)
    ensures c in p.waiting && q == p.(waiting := q.waiting) && Next(closed, answers, p) == Consider(closed, answers, q, c)
    ensures DistinctNumbers(q.waiting) && forall b :: b in q.waiting <==> b in p.waiting && b != c
    ensures forall b | b in q.waiting :: b.number != c.number
    ensures forall b | b in p.waiting :: Precedes(RankOf(p, c), RankOf(p, b))
  {
    var i := LeastIndex(p, |p.waiting|);
    c, q := p.waiting[i], p.(waiting := Without(p.waiting, i));
    WithoutKeeps(p.waiting, i);
  }

  // ----- Priority -----

  function Priority(c: Issue): int {
    if c.meta.Some? then c.meta.value.priority else 4
  }

  ghost predicate InPriorityOrder(p: Pass) {
    && (forall i, j | 0 <= i < j < |p.log| :: Priority(p.log[i]) <= Priority(p.log[j]))
    && (forall l, b | l in p.log && b in p.waiting :: Priority(l) <= Priority(b))
  }

  // ----- Proportional fairness -----

  /** Area a is at most one launch ahead of its share against b. */
  ghost predicate Share(na: nat, a: Area, nb: nat, b: Area) {
    (na - 1) * Weight(b) <= nb * Weight(a)
  }

  lemma ScoresShare(na: nat, a: Area, nb: nat, b: Area)
    requires Score(na, a) <= Score(nb, b)
    ensures Share(na + 1, a, nb, b)
  {
    var u, v := Weight(a) as real, Weight(b) as real;
    var x, y := Score(na, a), Score(nb, b);
    assert x * u == na as real && y * v == nb as real;
    assert (x * u) * v <= (y * v) * u by {
      assert (y - x) * (u * v) >= 0.0;
    }
    assert (na * Weight(b)) as real <= (nb * Weight(a)) as real;
  }

  lemma ShareGrows(na: nat, a: Area, nb: nat, b: Area, more: nat)
    requires Share(na, a, nb, b) && nb <= more
    ensures Share(na, a, more, b)
  {
    assert nb * Weight(a) <= more * Weight(a);
  }

  /** Against a waiting candidate, every area launched at its priority keeps its share. */
  ghost predicate FairTo(p: Pass, l: Issue, b: Issue) {
    l.meta.Some? && l.meta.value.area.Some? && b.meta.Some? && b.meta.value.area.Some? && Priority(l) == Priority(b) ==>
      var x, y := l.meta.value.area.value, b.meta.value.area.value;
      Share(p.N(x), x, p.N(y), y)
  }

  ghost predicate Fair(p: Pass) {
    forall l, b | l in p.log && b in p.waiting :: FairTo(p, l, b)
  }

  lemma LaunchIsFairToRest(p: Pass, c: Issue, b: Issue)
    requires c.meta.Some? && c.meta.value.area.Some? && Precedes(RankOf(p, c), RankOf(p, b))
    ensures FairTo(Launch(p, c), c, b)
  {
    if b.meta.Some? && b.meta.value.area.Some? && Priority(c) == Priority(b) {
      var x, y := c.meta.value.area.value, b.meta.value.area.value;
      ScoresShare(p.N(x), x, p.N(y), y);
      ShareGrows(p.N(x) + 1, x, p.N(y), y, Launch(p, c).N(y));
    }
  }

  lemma LaunchKeepsFair(p: Pass, c: Issue, l: Issue, b: Issue)
    requires c.meta.Some? && c.meta.value.area.Some? && Precedes(RankOf(p, c), RankOf(p, b))
    requires FairTo(p, l, b) && Priority(l) <= Priority(c) <= Priority(b)
    ensures FairTo(Launch(p, c), l, b)
  {
    hide Precedes, RankOf, Share;
    if l.meta.Some? && l.meta.value.area.Some? && b.meta.Some? && b.meta.value.area.Some? && Priority(l) == Priority(b) {
      var x, y := l.meta.value.area.value, b.meta.value.area.value;
      if x == c.meta.value.area.value {
        LaunchIsFairToRest(p, c, b);
      } else {
        ShareGrows(p.N(x), x, p.N(y), y, Launch(p, c).N(y));
      }
    }
  }

  /** What holds of a pass at every point. */
  ghost predicate Ordered(p: Pass) {
    DistinctNumbers(p.waiting) && InPriorityOrder(p) && Fair(p)
  }

  lemma LaunchKeepsOrder(p: Pass, q: Pass, c: Issue)
    requires Ordered(p) && q == p.(waiting := q.waiting) && c in p.waiting && DistinctNumbers(q.waiting)
    requires c.meta.Some? && c.meta.value.area.Some?
    requires forall b | b in q.waiting :: b in p.waiting
    requires forall b | b in p.waiting :: Precedes(RankOf(p, c), RankOf(p, b))
    ensures Ordered(Launch(q, c))
  {
    hide FairTo;
    var r := Launch(q, c);
    forall l, b | l in r.log && b in r.waiting ensures FairTo(r, l, b) && Priority(l) <= Priority(b) {
      assert RankOf(q, c) == RankOf(p, c) && RankOf(q, b) == RankOf(p, b);
      if l in p.log {
        FairToSame(p, q, l, b);
        LaunchKeepsFair(q, c, l, b);
      } else {
        LaunchIsFairToRest(q, c, b);
      }
    }
    forall i, j | 0 <= i < j < |r.log| ensures Priority(r.log[i]) <= Priority(r.log[j]) {
      assert p.log[i] in p.log;
    }
  }

  lemma FairToSame(p: Pass, q: Pass, l: Issue, b: Issue)
    requires p.recent == q.recent && p.active == q.active
    ensures FairTo(p, l, b) == FairTo(q, l, b)
  {
  }

  lemma NextKeepsOrder(closed: set<int>, answers: Answers, p: Pass)
    requires Ordered(p)
    ensures Ordered(Next(closed, answers, p))
  {
    if p.waiting != [] && !p.stopped {
      hide FairTo, Precedes, RankOf, Next, DistinctNumbers, Launch;
      var c, q := NextTakes(closed, answers, p);
      if Open(q.jobs, closed, c) && LaneFree(q.lane, c) && answers(c.number) == Launched {
        LaunchKeepsOrder(p, q, c);
      } else {
        SkipKeepsOrder(p, q, c, Consider(closed, answers, q, c));
      }
    }
  }

  lemma SkipKeepsOrder(p: Pass, q: Pass, c: Issue, r: Pass)
    requires Ordered(p) && q == p.(waiting := q.waiting) && DistinctNumbers(q.waiting)
    requires forall b | b in q.waiting :: b in p.waiting
    requires r == q || r == q.(stopped := true)
    ensures Ordered(r)
  {
    hide FairTo;
    forall l, b | l in r.log && b in r.waiting ensures FairTo(r, l, b) {
      FairToSame(p, r, l, b);
    }
  }

  lemma {:induction false} AfterOrdered(closed: set<int>, answers: Answers, p: Pass, n: nat)
    requires Begins(p)
    ensures Ordered(After(closed, answers, p, n))
  {
    hide Ordered, Next;
    if n == 0 {
      BeginsOrdered(p);
    } else {
      AfterOrdered(closed, answers, p, n - 1);
      NextKeepsOrder(closed, answers, After(closed, answers, p, n - 1));
    }
  }

  lemma BeginsOrdered(p: Pass)
    requires Begins(p)
    ensures Ordered(p)
  {
    hide DistinctNumbers, FairTo;
  }

  /** At every point of every pass the launches so far are in nondecreasing priority number,
      and none of them has a greater one than a candidate still waiting. */
  lemma LaunchesInPriorityOrder(closed: set<int>, answers: Answers, p: Pass, n: nat, i: nat, j: nat)
    requires Begins(p) && i < j < |After(closed, answers, p, n).log|
    ensures var log := After(closed, answers, p, n).log; Priority(log[i]) <= Priority(log[j])
    ensures forall b | b in After(closed, answers, p, n).waiting :: Priority(After(closed, answers, p, n).log[j]) <= Priority(b)
  {
    hide After;
    AfterOrdered(closed, answers, p, n);
  }

  /** At every point of every pass, while a candidate of area b waits, an area a launched at
      the same priority has (n_a - 1) * w_b <= n_b * w_a. */
  lemma ProportionallyFair(closed: set<int>, answers: Answers, p: Pass, n: nat, l: Issue, b: Issue)
    requires Begins(p) && l in After(closed, answers, p, n).log && b in After(closed, answers, p, n).waiting
    requires l.meta.Some? && l.meta.value.area.Some? && b.meta.Some? && b.meta.value.area.Some?
    requires Priority(l) == Priority(b)
    ensures var r, x, y := After(closed, answers, p, n), l.meta.value.area.value, b.meta.value.area.value;
            var nx, ny := Count(r.recent, x) + Count(r.active, x), Count(r.recent, y) + Count(r.active, y);
            (nx - 1) * Weight(y) <= ny * Weight(x)
  {
    hide After, InPriorityOrder;
    AfterOrdered(closed, answers, p, n);
    assert FairTo(After(closed, answers, p, n), l, b);
  }

  // ----- Which candidates are launched -----

  /** The lane ends up with the candidate's improvement, if it has one. */
  predicate InLane(lane: Option<string>, c: Issue) {
    c.meta.Some? && (c.meta.value.improvement.None? || c.meta.value.improvement == lane)
  }

  /** Ready and granted a reservation. */
  predicate Granted(start: Pass, closed: set<int>, answers: Answers, c: Issue) {
    Open(start.jobs, closed, c) && answers(c.number) == Launched
  }

  /** A considered candidate was launched exactly when it was granted and the lane is its own;
      while the lane is free no granted improvement was considered. */
  ghost predicate Settled(start: Pass, closed: set<int>, answers: Answers, p: Pass, c: Issue) {
    && (c in p.log <==> Granted(start, closed, answers, c) && InLane(p.lane, c))
    && (p.lane.None? && Granted(start, closed, answers, c) ==> c.meta.value.improvement.None?)
  }

  predicate IsLogged(log: seq<Issue>, k: int) {
    exists c | c in log :: c.number == k
  }

  lemma LoggedNext(log: seq<Issue>, c: Issue, k: int)
    ensures IsLogged(log + [c], k) <==> IsLogged(log, k) || k == c.number
  {
    assert c in log + [c];
    assert forall d | d in log :: d in log + [c];
  }

  ghost predicate Accounted(start: Pass, closed: set<int>, answers: Answers, p: Pass) {
    && DistinctNumbers(start.waiting) && DistinctNumbers(p.waiting)
    && (forall c | c in p.waiting || c in p.log :: c in start.waiting)
    && (forall k {:trigger k in p.jobs} :: k in p.jobs <==> k in start.jobs || IsLogged(p.log, k))
    && (forall c | c in p.waiting :: c !in p.log)
    && (forall c | c in start.waiting && c !in p.waiting :: Settled(start, closed, answers, p, c))
  }

  lemma SameNumber(s: seq<Issue>, c: Issue, d: Issue)
    requires DistinctNumbers(s) && c in s && d in s && c.number == d.number
    ensures c == d
  {
  }

  lemma WaitingIsJobless(start: Pass, closed: set<int>, answers: Answers, p: Pass, c: Issue)
    requires Accounted(start, closed, answers, p) && c in p.waiting
    ensures c.number in p.jobs <==> c.number in start.jobs
  {
    hide DistinctNumbers, Settled;
    forall d | d in p.log && d.number == c.number ensures false {
      SameNumber(start.waiting, c, d);
    }
  }

  lemma ConsiderSettles(start: Pass, closed: set<int>, answers: Answers, q: Pass, c: Issue, d: Issue)
    requires c !in q.log && (c.number in q.jobs <==> c.number in start.jobs)
    requires d == c || Settled(start, closed, answers, q, d)
    ensures Settled(start, closed, answers, Consider(closed, answers, q, c), d)
  {
  }

  lemma NextKeepsAccount(start: Pass, closed: set<int>, answers: Answers, p: Pass)
    requires Accounted(start, closed, answers, p)
    ensures Accounted(start, closed, answers, Next(closed, answers, p))
  {
    if p.waiting != [] && !p.stopped {
      hide Precedes, RankOf, Next, DistinctNumbers, Settled, LeastIndex, Granted, IsLogged;
      var c, q := NextTakes(closed, answers, p);
      var r := Consider(closed, answers, q, c);
      WaitingIsJobless(start, closed, answers, p, c);
      assert r.log == q.log || (r.log == q.log + [c] && r.jobs == q.jobs + {c.number});
      forall k {:trigger k in r.jobs} ensures k in r.jobs <==> k in start.jobs || IsLogged(r.log, k) {
        LoggedNext(q.log, c, k);
      }
      forall d | d in start.waiting && d !in r.waiting ensures Settled(start, closed, answers, r, d) {
        if d != c {
          SettledSame(start, closed, answers, p, q, d);
        }
        ConsiderSettles(start, closed, answers, q, c, d);
      }
    }
  }

  lemma SettledSame(start: Pass, closed: set<int>, answers: Answers, p: Pass, q: Pass, d: Issue)
    requires Settled(start, closed, answers, p, d) && p.log == q.log && p.lane == q.lane
    ensures Settled(start, closed, answers, q, d)
  {
  }

  lemma {:induction false} AfterAccounted(closed: set<int>, answers: Answers, p: Pass, n: nat)
    requires Begins(p)
    ensures Accounted(p, closed, answers, After(closed, answers, p, n))
  {
    hide Accounted, Next;
    if n == 0 {
      BeginsAccounted(closed, answers, p);
    } else {
      AfterAccounted(closed, answers, p, n - 1);
      NextKeepsAccount(p, closed, answers, After(closed, answers, p, n - 1));
    }
  }

  lemma BeginsAccounted(closed: set<int>, answers: Answers, p: Pass)
    requires Begins(p)
    ensures Accounted(p, closed, answers, p)
  {
    hide DistinctNumbers, Settled;
  }

  /** At every point of every pass, a candidate no longer waiting was launched if and only if
      it is open, had no job, carries the ready label, has readable metadata with an area, all
      its dependencies are closed, its reservation was granted, and its improvement, if any, is
      the one in the lane: so at most one improvement is in flight. */
  lemma LaunchedExactly(closed: set<int>, answers: Answers, p: Pass, n: nat, c: Issue)
    requires Begins(p) && c in p.waiting && c !in After(closed, answers, p, n).waiting
    ensures c in After(closed, answers, p, n).log
       <==> && c.open && c.number !in p.jobs && c.ready
            && c.meta.Some? && c.meta.value.area.Some?
            && (forall d | d in c.meta.value.dependencies :: d in closed)
            && answers(c.number) == Launched
            && (c.meta.value.improvement.None? || c.meta.value.improvement == After(closed, answers, p, n).lane)
  {
    hide After, Open;
    AfterAccounted(closed, answers, p, n);
    assert Settled(p, closed, answers, After(closed, answers, p, n), c);
    OpenIs(p.jobs, closed, c);
  }

  // ----- What a launch counts, and when a pass stops -----

  /** How many of the launches belong to the area. */
  function LaunchedIn(log: seq<Issue>, a: Area): nat {
    if log == [] then 0 else
      var c := log[|log| - 1];
      LaunchedIn(log[..|log| - 1], a) + if c.meta.Some? && c.meta.value.area == Some(a) then 1 else 0
  }

  lemma LaunchedOne(log: seq<Issue>, c: Issue, a: Area)
    ensures LaunchedIn(log + [c], a) == LaunchedIn(log, a) + if c.meta.Some? && c.meta.value.area == Some(a) then 1 else 0
  {
    assert (log + [c])[..|log|] == log;
  }

  /** Against the start, each area's active count has grown by its launches, and every launched
      issue has its job. */
  ghost predicate Counted(start: Pass, p: Pass, a: Area) {
    && p.recent == start.recent && Count(p.active, a) == Count(start.active, a) + LaunchedIn(p.log, a)
    && forall c | c in p.log :: c.number in p.jobs
  }

  lemma LaunchCounts(start: Pass, p: Pass, c: Issue, a: Area)
    requires Counted(start, p, a) && c.meta.Some? && c.meta.value.area.Some?
    ensures Counted(start, Launch(p, c), a)
  {
    hide LaunchedIn;
    LaunchedOne(p.log, c, a);
  }

  lemma NextCounts(closed: set<int>, answers: Answers, start: Pass, p: Pass, a: Area)
    requires Counted(start, p, a)
    ensures Counted(start, Next(closed, answers, p), a)
  {
    hide LaunchedIn, Count, Launch, LaneFree, LeastIndex, Without;
    if p.waiting != [] && !p.stopped {
      var i := LeastIndex(p, |p.waiting|);
      var c, q := p.waiting[i], p.(waiting := Without(p.waiting, i));
      if Open(q.jobs, closed, c) {
        LaunchCounts(start, q, c, a);
      }
    }
  }

  /** So it is at every point of every pass. */
  lemma {:induction false} LaunchesCounted(closed: set<int>, answers: Answers, p: Pass, n: nat, a: Area)
    requires Begins(p)
    ensures var q := After(closed, answers, p, n);
            && q.recent == p.recent && Count(q.active, a) == Count(p.active, a) + LaunchedIn(q.log, a)
            && forall c | c in q.log :: c.number in q.jobs
    decreases n
  {
    hide Next, LaunchedIn, Count;
    if n > 0 {
      LaunchesCounted(closed, answers, p, n - 1, a);
      NextCounts(closed, answers, p, After(closed, answers, p, n - 1), a);
    } else {
      NoneLaunched(p.log, a);
    }
  }

  lemma NoneLaunched(log: seq<Issue>, a: Area)
    requires log == []
    ensures LaunchedIn(log, a) == 0
  {
  }

  /** A pass stops at a candidate exactly when that one is ready, its improvement, if any, fits
      the lane, and no slot, worker or lease is left for it. */
  lemma StopsExactly(closed: set<int>, answers: Answers, p: Pass, n: nat, c: Issue)
    requires Begins(p) && !After(closed, answers, p, n).stopped
    requires c in After(closed, answers, p, n).waiting && c !in After(closed, answers, p, n + 1).waiting
    ensures After(closed, answers, p, n + 1).stopped
       <==> && c.open && c.number !in p.jobs && c.ready
            && c.meta.Some? && c.meta.value.area.Some?
            && (forall d | d in c.meta.value.dependencies :: d in closed)
            && (var lane := After(closed, answers, p, n).lane;
                c.meta.value.improvement.None? || lane.None? || c.meta.value.improvement == lane)
            && answers(c.number) == Stop
  {
    hide Precedes, RankOf, LeastIndex, DistinctNumbers, Settled, Open, After;
    var q := After(closed, answers, p, n);
    AfterAccounted(closed, answers, p, n);
    WaitingIsJobless(p, closed, answers, q, c);
    var d, r := NextTakes(closed, answers, q);
    OneMoreIteration(closed, answers, p, n);
    OpenIs(q.jobs, closed, c);
    assert d == c;
  }

  lemma OneMoreIteration(closed: set<int>, answers: Answers, p: Pass, n: nat)
    ensures After(closed, answers, p, n + 1) == Next(closed, answers, After(closed, answers, p, n))
  {
  }

  lemma OpenIs(jobs: set<int>, closed: set<int>, c: Issue)
    ensures Open(jobs, closed, c)
       <==> && c.open && c.number !in jobs && c.ready
            && c.meta.Some? && c.meta.value.area.Some?
            && (forall d | d in c.meta.value.dependencies :: d in closed)
  {
    if c.meta.Some? {
      var deps := c.meta.value.dependencies;
      if forall d | d in deps :: d in closed {
        assert deps - closed == {};
      }
    }
  }

  // ----- Which candidate comes next -----

  predicate HasArea(c: Issue) {
    c.meta.Some? && c.meta.value.area.Some?
  }

  lemma ScoresExact(na: nat, a: Area, nb: nat, b: Area)
    ensures Score(na, a) <= Score(nb, b) <==> na * Weight(b) <= nb * Weight(a)
  {
    var u, v := Weight(a) as real, Weight(b) as real;
    var x, y := Score(na, a), Score(nb, b);
    assert x * u == na as real && y * v == nb as real;
    assert (x * u) * v == (na * Weight(b)) as real && (y * v) * u == (nb * Weight(a)) as real;
    CompareScaled(x, y, u * v);
  }

  lemma CompareScaled(x: real, y: real, w: real)
    requires w > 0.0
    ensures x <= y <==> x * w <= y * w
  {
    if x <= y {
      assert (y - x) * w >= 0.0;
    } else {
      assert (x - y) * w > 0.0;
    }
  }

  /** The candidate taken out next has the least priority number, unreadable metadata counting
      as 4; among those an area with the least invested share, an issue without an area coming
      last; and among those the least issue number. */
  lemma TakenIsLeast(closed: set<int>, answers: Answers, p: Pass, n: nat, c: Issue, b: Issue)
    requires Begins(p) && c in After(closed, answers, p, n).waiting && b in After(closed, answers, p, n).waiting
    requires c !in After(closed, answers, p, n + 1).waiting
    ensures (if c.meta.Some? then c.meta.value.priority else 4) <= (if b.meta.Some? then b.meta.value.priority else 4)
    ensures Priority(c) == Priority(b) && HasArea(b) ==> HasArea(c)
    ensures Priority(c) == Priority(b) && !HasArea(c) ==> c.number <= b.number
    ensures Priority(c) == Priority(b) && HasArea(b) && HasArea(c) ==>
              var q, x, y := After(closed, answers, p, n), c.meta.value.area.value, b.meta.value.area.value;
              var nx, ny := Count(q.recent, x) + Count(q.active, x), Count(q.recent, y) + Count(q.active, y);
              nx * Weight(y) <= ny * Weight(x) && (nx * Weight(y) == ny * Weight(x) ==> c.number <= b.number)
  {
    hide After, Precedes, RankOf, Weight, Ordered, Next;
    AfterOrdered(closed, answers, p, n);
    OrderedDistinct(After(closed, answers, p, n));
    OneMoreIteration(closed, answers, p, n);
    TakenPrecedes(closed, answers, After(closed, answers, p, n), c, b);
    PrecedesMeans(After(closed, answers, p, n), c, b);
  }

  lemma OrderedDistinct(p: Pass)
    requires Ordered(p)
    ensures DistinctNumbers(p.waiting)
  {
  }

  lemma PrecedesMeans(q: Pass, c: Issue, b: Issue)
    requires Precedes(RankOf(q, c), RankOf(q, b))
    ensures (if c.meta.Some? then c.meta.value.priority else 4) <= (if b.meta.Some? then b.meta.value.priority else 4)
    ensures Priority(c) == Priority(b) && HasArea(b) ==> HasArea(c)
    ensures Priority(c) == Priority(b) && !HasArea(c) ==> c.number <= b.number
    ensures Priority(c) == Priority(b) && HasArea(b) && HasArea(c) ==>
              var x, y := c.meta.value.area.value, b.meta.value.area.value;
              var nx, ny := Count(q.recent, x) + Count(q.active, x), Count(q.recent, y) + Count(q.active, y);
              nx * Weight(y) <= ny * Weight(x) && (nx * Weight(y) == ny * Weight(x) ==> c.number <= b.number)
  {
    hide Score, Weight, Count;
    if HasArea(b) && HasArea(c) {
      var x, y := c.meta.value.area.value, b.meta.value.area.value;
      ScoresExact(q.N(x), x, q.N(y), y);
      ScoresExact(q.N(y), y, q.N(x), x);
    }
  }

  lemma TakenPrecedes(closed: set<int>, answers: Answers, q: Pass, c: Issue, b: Issue)
    requires DistinctNumbers(q.waiting) && c in q.waiting && b in q.waiting && c !in Next(closed, answers, q).waiting
    ensures Precedes(RankOf(q, c), RankOf(q, b))
  {
    hide Precedes, RankOf, Next, DistinctNumbers, LeastIndex;
    if q.stopped {
      StoppedStays(closed, answers, q);
    } else {
      var d, r := NextTakes(closed, answers, q);
    }
  }

  lemma StoppedStays(closed: set<int>, answers: Answers, q: Pass)
    requires q.stopped
    ensures Next(closed, answers, q) == q
  {
  }

  /** The weights are the percentages of a whole. */
  lemma WeightsArePercentages()
    ensures Weight(Engineering) + Weight(ControlRuntime) + Weight(HighAvailability) + Weight(FieldConnectivity)
            + Weight(Operations) + Weight(AlarmsDiagnostics) + Weight(Library) + Weight(DeploymentLifecycle)
            + Weight(Verification) + Weight(DeliveryPlatform) == 100
  {
  }
}
