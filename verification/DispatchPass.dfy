/** The dispatch pass as it runs: the allocation counters, the job table and the lane are
    updated in place. */
module DispatchPass {
  import opened Common
  import opened Dispatch

  /** Rolling investment view: recent and active work by area. */
  class Allocation {
    var recent: Counter
    var active: Counter

    constructor (recent: Counter, active: Counter)
      ensures this.recent == recent && this.active == active
    {
      this.recent, this.active := recent, active;
    }

    method Note(area: Area)
      modifies this
      ensures recent == old(recent) && active == old(active)[area := Count(old(active), area) + 1]
    {
      active := active[area := Count(active, area) + 1];
    }
  }

  lemma {:induction false} AfterStays(closed: set<int>, answers: Answers, p: Pass, n: nat, m: nat)
    requires n <= m && (After(closed, answers, p, n).stopped || After(closed, answers, p, n).waiting == [])
    ensures After(closed, answers, p, m) == After(closed, answers, p, n)
    decreases m
  {
    if n < m {
      AfterStays(closed, answers, p, n, m - 1);
    }
  }

  lemma AfterNext(closed: set<int>, answers: Answers, p: Pass, n: nat)
    requires After(closed, answers, p, n).waiting != [] && !After(closed, answers, p, n).stopped
    ensures var q := After(closed, answers, p, n);
            var i := LeastIndex(q, |q.waiting|);
            After(closed, answers, p, n + 1)
            == Consider(closed, answers, q.(waiting := Without(q.waiting, i)), q.waiting[i])
  {
    hide LeastIndex, Consider;
  }

  lemma AfterNone(closed: set<int>, answers: Answers, p: Pass)
    ensures After(closed, answers, p, 0) == p
  {
  }

  lemma Launches(closed: set<int>, answers: Answers, p: Pass, n: nat)
    requires p.log == [] && !p.stopped
    ensures var q := After(closed, answers, p, n);
            DistinctNumbers(p.waiting) ==>
              forall c | c in p.waiting && c !in q.waiting ::
                (c in q.log <==>
                  && c.open && c.number !in p.jobs && c.ready && c.meta.Some? && c.meta.value.area.Some?
                  && (forall d | d in c.meta.value.dependencies :: d in closed)
                  && answers(c.number) == Launched
                  && (c.meta.value.improvement.None? || c.meta.value.improvement == q.lane))
  {
    hide After, DistinctNumbers;
    if DistinctNumbers(p.waiting) {
      forall c | c in p.waiting && c !in After(closed, answers, p, n).waiting {
        LaunchedExactly(closed, answers, p, n, c);
      }
    }
  }

  class Supervisor {
    /** Issue numbers that have a job. */
    var jobs: set<int>
    /** The active improvement. */
    var lane: Option<string>
    const allocation: Allocation

    constructor (jobs: set<int>, lane: Option<string>, allocation: Allocation)
      ensures this.jobs == jobs && this.lane == lane && this.allocation == allocation
    {
      this.jobs, this.lane, this.allocation := jobs, lane, allocation;
    }

    ghost function View(waiting: seq<Issue>, log: seq<Issue>, stopped: bool): Pass
      reads this, allocation
    {
      Pass(waiting, jobs, lane, allocation.recent, allocation.active, log, stopped)
    }

    /** The position of the candidate of least rank. */
    method Least(candidates: seq<Issue>, log: seq<Issue>) returns (i: nat)
      requires candidates != []
      ensures i < |candidates| && i == LeastIndex(View(candidates, log, false), |candidates|)
    {
      hide Precedes, RankOf;
      var p := Pass(candidates, jobs, lane, allocation.recent, allocation.active, log, false);
      i := 0;
      for k := 1 to |candidates|
        invariant i < k && i == LeastIndex(p, k)
      {
        if !Precedes(RankOf(p, candidates[i]), RankOf(p, candidates[k])) {
          i := k;
        }
      }
    }

    /** One pass over the candidates; returns the launches in order. Unless a candidate stops the
        pass, none is left over; of those not left over, exactly the open, jobless, ready ones
        with an area, closed dependencies, a granted reservation and a fitting improvement are
        launched. */
    method Run(issues: seq<Issue>, closed: set<int>, answers: Answers)
      returns (log: seq<Issue>, ghost rest: seq<Issue>, ghost stopped: bool)
      modifies this, allocation
      ensures (stopped || rest == [])
              && View(rest, log, stopped) == After(closed, answers, old(View(issues, [], false)), |issues|)
      ensures DistinctNumbers(issues) ==>
                forall c | c in issues && c !in rest ::
                  (c in log <==>
                    && c.open && c.number !in old(jobs) && c.ready && c.meta.Some? && c.meta.value.area.Some?
                    && (forall d | d in c.meta.value.dependencies :: d in closed)
                    && answers(c.number) == Launched
                    && (c.meta.value.improvement.None? || c.meta.value.improvement == lane))
    {
      hide After, LeastIndex, LaneFree;
      log := [];
      var candidates := issues;
      ghost var n := 0;
      ghost var start := View(issues, [], false);
      AfterNone(closed, answers, start);
      while candidates != []
        invariant n + |candidates| == |issues|
        invariant View(candidates, log, false) == After(closed, answers, start, n)
      {
        var i := Least(candidates, log);
        AfterNext(closed, answers, start, n);
        n := n + 1;
        var issue := candidates[i];
        candidates := Without(candidates, i);
        if Open(jobs, closed, issue) && LaneFree(lane, issue) {
          match answers(issue.number)
          case Stop =>
            AfterStays(closed, answers, start, n, |issues|);
            rest, stopped := candidates, true;
            Launches(closed, answers, start, |issues|);
            return;
          case Refused =>
          case Launched =>
            jobs := jobs + {issue.number};
            if lane.None? {
              lane := issue.meta.value.improvement;
            }
            allocation.Note(issue.meta.value.area.value);
            log := log + [issue];
        }
      }
      rest, stopped := [], false;
      Launches(closed, answers, start, |issues|);
    }
  }
}
