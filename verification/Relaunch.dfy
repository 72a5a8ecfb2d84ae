/** Automatic relaunches of one issue, outside factory mode: the bounded requeue, the
    quiet-window re-arm, the counters that survive a block, and the retry flag that a
    successful launch consumes (agent_pool/supervisor.py). */
module Relaunch {
  import opened Common
  import AdmissionLedger

  datatype Status = Working | PrOpen | Blocked | Done

  datatype Cause = QuotaRequeue | KillRequeue

  /** The `retry:<n>` key: unset, set by the operator, or armed by the supervisor. */
  datatype Flag = Unset | Operator | Armed(cause: Cause)

  datatype Category = Rate | Endpoint | Timeout | Stall | OtherFailure

  datatype Source = RetryAfter | Default | QuietWindow

  datatype Requeue = Requeue(notBefore: real, source: Source, seconds: real)

  /** The `recovery:<n>` record; `work` is the tri-state preserved-work verdict, `held` the
      groups of a spent congestion episode. */
  datatype Record = Record(work: Option<bool>, attempts: nat, quotaRequeues: nat, resets: nat,
                           held: Option<seq<string>>, requeue: Option<Requeue>, cause: Option<Cause>)

  const BLANK := Record(None, 0, 0, 0, None, None, None)

  /** One issue: its job status, retry flag and recovery record, and how many launches
      consumed an armed flag so far. */
  datatype Issue = Issue(status: Status, flag: Flag, rec: Option<Record>, launches: nat) {
    function Rec(): Record { if rec.Some? then rec.value else BLANK }
  }

  /** max_quota_requeues, max_quota_requeue_resets, quota_requeue_delay_seconds, quiet_seconds. */
  datatype Limits = Limits(budget: nat, resets: nat, delay: real, quiet: real)

  type Groups = map<string, AdmissionLedger.Group>

  // ----- Steps on the record and the flag -----

  predicate Requeueable(c: Category) { !c.OtherFailure? }

  predicate Congestion(c: Category) { c == Rate || c == Endpoint }

  /** `requeue_quota`: arms one bounded retry, or holds a spent budget while a covering group
      is congested, or leaves the park permanent. */
  function RequeueQuota(lim: Limits, s: Issue, category: Category, retryAfter: Option<real>,
                        congested: seq<string>, now: real): Issue
  {
    var rec := s.Rec();
    if rec.quotaRequeues >= lim.budget then
      if rec.resets >= lim.resets || congested == [] then s
      else s.(rec := Some(rec.(held := Some(congested))))
    else
      var cause := if Congestion(category) then QuotaRequeue else KillRequeue;
      var delay := if retryAfter.Some? then retryAfter.value else lim.delay;
      var requeue := Requeue(now + delay, if retryAfter.Some? then RetryAfter else Default, delay);
      s.(flag := Armed(cause),
         rec := Some(rec.(quotaRequeues := rec.quotaRequeues + 1, requeue := Some(requeue), cause := Some(cause))))
  }

  /** `capture_recovery`: a new survey verdict over the carried counters. */
  function Capture(s: Issue, work: Option<bool>): Issue {
    s.(rec := Some(s.Rec().(work := work)))
  }

  /** A held group is quiet once normal, not cooling, and its window is old enough. */
  predicate GroupQuiet(lim: Limits, groups: Groups, name: string, now: real) {
    name in groups ==>
      var g := groups[name];
      && g.mode == AdmissionLedger.Normal
      && !(g.cooldownUntil.Some? && now < g.cooldownUntil.value)
      && now - g.windowStart >= lim.quiet
  }

  predicate Rearms(lim: Limits, s: Issue, groups: Groups, now: real) {
    s.rec.Some? && s.rec.value.held.Some? &&
    forall name | name in s.rec.value.held.value :: GroupQuiet(lim, groups, name, now)
  }

  /** `quiet_episode_rearm`. */
  function Rearm(lim: Limits, s: Issue, groups: Groups, now: real): Issue {
    if !Rearms(lim, s, groups, now) then s else
      var rec := s.rec.value;
      s.(flag := Armed(if rec.cause.Some? then rec.cause.value else QuotaRequeue),
         rec := Some(rec.(held := None, quotaRequeues := 0, resets := rec.resets + 1,
                          requeue := Some(Requeue(now, QuietWindow, lim.quiet)))))
  }

  /** What the environment answers while `recover_job` works. */
  datatype Answer = NoSlot | RestoreFailed | RetryRefused | LaunchFailed | Launched

  /** `recover_job` on a blocked job with its record. */
  function Recover(s: Issue, answer: Answer): Issue
    requires s.rec.Some?
  {
    var rec := s.rec.value;
    if rec.work.None? then s else
      match answer
      case NoSlot | RetryRefused => s
      case RestoreFailed =>
        s.(rec := Some(rec.(attempts := rec.attempts + 1)), flag := if rec.attempts + 1 >= 3 then Unset else s.flag)
      case LaunchFailed => s.(status := Working)
      case Launched =>
        s.(status := Working, flag := Unset, rec := Some(rec.(requeue := None, cause := None, held := None)),
           launches := s.launches + if s.flag.Armed? then 1 else 0)
  }

  /** An armed retry waits for its scheduled time. */
  predicate TooEarly(s: Issue, now: real) {
    s.flag.Armed? && s.Rec().requeue.Some? && now < s.Rec().requeue.value.notBefore
  }

  /** `retries` for one blocked job. */
  function Retries(lim: Limits, s: Issue, groups: Groups, slotFree: bool, survey: Option<bool>, answer: Answer,
                   now: real): Issue
  {
    var armed := if s.flag.Unset? then Rearm(lim, s, groups, now) else s;
    if armed.flag.Unset? || !slotFree then armed else
      var known := if armed.rec.None? then Capture(armed, survey) else armed;
      if TooEarly(known, now) then known else Recover(known, answer)
  }

  // ----- Events -----

  datatype Event =
    | WorkerFailed(category: Category, retryAfter: Option<real>, congested: seq<string>, survey: Option<bool>, at: real)
    | Blocks(survey: Option<bool>)
    | OperatorRetry
    | RetryPass(groups: Groups, slotFree: bool, survey: Option<bool>, answer: Answer, at: real)
    | Published
    | Repaired
    | Completed

  /** One step of the supervisor on this issue; events its status rules out change nothing. */
  function Step(lim: Limits, s: Issue, e: Event): Issue {
    match e
    case WorkerFailed(category, retryAfter, congested, survey, at) =>
      if s.status != Working then s else
        var r := if Requeueable(category) then RequeueQuota(lim, s, category, retryAfter, congested, at) else s;
        Capture(r, survey).(status := Blocked)
    case Blocks(survey) => if s.status == Done then s else Capture(s, survey).(status := Blocked)
    case OperatorRetry => if s.status == Blocked then s.(flag := Operator) else s
    case RetryPass(groups, slotFree, survey, answer, at) =>
      if s.status == Blocked then Retries(lim, s, groups, slotFree, survey, answer, at) else s
    case Published => if s.status == Working then s.(status := PrOpen) else s
    case Repaired => if s.status == PrOpen then s.(status := Working) else s
    case Completed => if s.status == Done then s else s.(status := Done, flag := Unset, rec := None)
  }

  /** A freshly reserved issue. */
  const START := Issue(Working, Unset, None, 0)

  function Run(lim: Limits, s: Issue, es: seq<Event>): Issue
    decreases es
  {
    if es == [] then s else Run(lim, Step(lim, s, es[0]), es[1..])
  }

  // ----- The bound -----

  /** The most automatic relaunches an issue may ever see. */
  function Bound(lim: Limits): nat { (lim.resets + 1) * lim.budget + lim.resets }

  /** Budget already spent: every reset stands for a whole episode's budget and the re-arm. */
  function Spent(lim: Limits, rec: Record): nat {
    rec.resets * (lim.budget + 1) + rec.quotaRequeues
  }

  /** Launches plus the one armed never exceed the budget spent, the budget spent never exceeds
      the bound, and a hold always leaves a reset to spend. */
  ghost predicate Inv(lim: Limits, s: Issue) {
    var rec := s.Rec();
    if s.status == Done then s.launches <= Bound(lim)
    else
      && s.launches + (if s.flag.Armed? then 1 else 0) <= Spent(lim, rec)
      && rec.quotaRequeues <= lim.budget && rec.resets <= lim.resets
      && (rec.held.Some? ==> rec.resets < lim.resets)
  }

  lemma SpentWithinBound(lim: Limits, rec: Record)
    requires rec.quotaRequeues <= lim.budget && rec.resets <= lim.resets
    ensures Spent(lim, rec) <= Bound(lim)
  {
    assert rec.resets * (lim.budget + 1) <= lim.resets * (lim.budget + 1);
  }

  lemma ResetSpends(lim: Limits, rec: Record)
    requires rec.quotaRequeues <= lim.budget
    ensures (rec.resets + 1) * (lim.budget + 1) >= Spent(lim, rec) + 1
  {
  }

  lemma StepKeeps(lim: Limits, s: Issue, e: Event)
    requires Inv(lim, s)
    ensures Inv(lim, Step(lim, s, e))
  {
    hide Spent, Bound;
    if s.status != Done {
      SpentWithinBound(lim, s.Rec());
      if e.WorkerFailed? && s.status == Working {
        RequeueKeeps(lim, s, e.category, e.retryAfter, e.congested, e.at);
        CaptureKeeps(lim, if Requeueable(e.category) then RequeueQuota(lim, s, e.category, e.retryAfter, e.congested, e.at)
                          else s, e.survey);
      } else if e.Blocks? {
        CaptureKeeps(lim, s, e.survey);
      } else if e.RetryPass? && s.status == Blocked {
        RetriesKeeps(lim, s, e.groups, e.slotFree, e.survey, e.answer, e.at);
      }
    }
  }

  lemma RequeueKeeps(lim: Limits, s: Issue, category: Category, retryAfter: Option<real>, congested: seq<string>, now: real)
    requires Inv(lim, s) && s.status == Working
    ensures Inv(lim, RequeueQuota(lim, s, category, retryAfter, congested, now))
    ensures RequeueQuota(lim, s, category, retryAfter, congested, now).status == Working
  {
  }

  lemma CaptureKeeps(lim: Limits, s: Issue, work: Option<bool>)
    requires Inv(lim, s) && s.status != Done
    ensures Inv(lim, Capture(s, work)) && Inv(lim, Capture(s, work).(status := Blocked))
  {
  }

  lemma RetriesKeeps(lim: Limits, s: Issue, groups: Groups, slotFree: bool, survey: Option<bool>, answer: Answer, now: real)
    requires Inv(lim, s) && s.status == Blocked
    ensures Inv(lim, Retries(lim, s, groups, slotFree, survey, answer, now))
  {
    hide GroupQuiet, TooEarly;
    if s.rec.Some? {
      ResetSpends(lim, s.rec.value);
    }
  }

  lemma {:induction false} RunKeeps(lim: Limits, s: Issue, es: seq<Event>)
    requires Inv(lim, s)
    ensures Inv(lim, Run(lim, s, es))
    decreases es
  {
    if es != [] {
      StepKeeps(lim, s, es[0]);
      RunKeeps(lim, Step(lim, s, es[0]), es[1..]);
    }
  }

  /** Over its whole life an issue is relaunched automatically at most (R+1)*Q + R times. */
  lemma RelaunchesBounded(lim: Limits, es: seq<Event>)
    ensures Run(lim, START, es).launches <= Bound(lim)
  {
    var s := Run(lim, START, es);
    RunKeeps(lim, START, es);
    if s.status != Done {
      SpentWithinBound(lim, s.Rec());
    }
  }

  // ----- The bound is reached -----

  /** The clock reading of the steps that read one. */
  function ClockOf(e: Event): Option<real> {
    if e.WorkerFailed? || e.RetryPass? then Some(e.at) else None
  }

  /** The clock never runs backwards. */
  ghost predicate Clocked(es: seq<Event>) {
    forall i, j | 0 <= i < j < |es| && ClockOf(es[i]).Some? && ClockOf(es[j]).Some? ::
      ClockOf(es[i]).value <= ClockOf(es[j]).value
  }

  /** A group that went quiet: normal, not cooling, its window opened by the congestion. */
  function QuietGroup(since: real): AdmissionLedger.Group {
    AdmissionLedger.Group(1, AdmissionLedger.Normal, None, 1.0, since, None, 0, None)
  }

  /** The worker dies of a rate limit at time t, and once both the requeue delay and the quiet
      window have passed the next pass relaunches it. */
  function KillAndRelaunch(lim: Limits, t: real): seq<Event> {
    [WorkerFailed(Rate, None, ["g"], Some(false), t),
     RetryPass(map["g" := QuietGroup(t)], true, None, Launched, t + lim.delay + lim.quiet)]
  }

  /** n such cycles, one after the other. */
  function Cycles(lim: Limits, n: nat, t: real): seq<Event> {
    if n == 0 then [] else KillAndRelaunch(lim, t) + Cycles(lim, n - 1, t + lim.delay + lim.quiet)
  }

  lemma {:induction false} RunAppend(lim: Limits, s: Issue, a: seq<Event>, b: seq<Event>)
    ensures Run(lim, s, a + b) == Run(lim, Run(lim, s, a), b)
    decreases a
  {
    hide Step;
    if a == [] {
      assert a + b == b;
    } else {
      assert (a + b)[1..] == a[1..] + b;
      RunAppend(lim, Step(lim, s, a[0]), a[1..], b);
    }
  }

  ghost predicate Fresh(s: Issue, used: nat, resets: nat, launches: nat) {
    && s.status == Working && s.flag == Unset && s.launches == launches
    && s.Rec().quotaRequeues == used && s.Rec().resets == resets && s.Rec().held == None
  }

  lemma CycleWithBudget(lim: Limits, s: Issue, used: nat, resets: nat, launches: nat, t: real)
    requires Fresh(s, used, resets, launches) && used < lim.budget && lim.delay >= 0.0 && lim.quiet >= 0.0
    ensures Fresh(Run(lim, s, KillAndRelaunch(lim, t)), used + 1, resets, launches + 1)
  {
    RunTwo(lim, s, t);
  }

  lemma CycleWithReset(lim: Limits, s: Issue, resets: nat, launches: nat, t: real)
    requires Fresh(s, lim.budget, resets, launches) && resets < lim.resets && lim.delay >= 0.0 && lim.quiet >= 0.0
    ensures Fresh(Run(lim, s, KillAndRelaunch(lim, t)), 0, resets + 1, launches + 1)
  {
    RunTwo(lim, s, t);
  }

  lemma RunTwo(lim: Limits, s: Issue, t: real)
    ensures var es := KillAndRelaunch(lim, t); Run(lim, s, es) == Step(lim, Step(lim, s, es[0]), es[1])
  {
    hide Step;
    var es := KillAndRelaunch(lim, t);
    assert es[1..] == [es[1]] && es[1..][1..] == [];
    assert Run(lim, Step(lim, s, es[0]), es[1..]) == Run(lim, Step(lim, Step(lim, s, es[0]), es[1]), []);
  }

  /** While the bound is not spent, every cycle relaunches. */
  lemma {:induction false} CyclesRun(lim: Limits, s: Issue, n: nat, used: nat, resets: nat, launches: nat, t: real)
    requires Fresh(s, used, resets, launches) && used <= lim.budget && lim.delay >= 0.0 && lim.quiet >= 0.0
    requires resets * (lim.budget + 1) + used + n <= Bound(lim)
    ensures Run(lim, s, Cycles(lim, n, t)).launches == launches + n
    decreases n
  {
    hide Step, KillAndRelaunch, Bound;
    if n > 0 {
      var later := t + lim.delay + lim.quiet;
      var r := Run(lim, s, KillAndRelaunch(lim, t));
      RunAppend(lim, s, KillAndRelaunch(lim, t), Cycles(lim, n - 1, later));
      if used < lim.budget {
        CycleWithBudget(lim, s, used, resets, launches, t);
        CyclesRun(lim, r, n - 1, used + 1, resets, launches + 1, later);
      } else {
        ResetLeft(lim, resets);
        CycleWithReset(lim, s, resets, launches, t);
        assert (resets + 1) * (lim.budget + 1) == resets * (lim.budget + 1) + lim.budget + 1;
        CyclesRun(lim, r, n - 1, 0, resets + 1, launches + 1, later);
      }
    }
  }

  lemma ResetLeft(lim: Limits, resets: nat)
    requires resets * (lim.budget + 1) + lim.budget < Bound(lim)
    ensures resets < lim.resets
  {
    AtLeast(resets, lim.resets, lim.budget + 1);
  }

  lemma AtLeast(a: nat, b: nat, c: nat)
    ensures a >= b ==> a * c >= b * c
  {
  }

  lemma {:induction false} CyclesClocked(lim: Limits, n: nat, t: real)
    requires lim.delay >= 0.0 && lim.quiet >= 0.0
    ensures Clocked(Cycles(lim, n, t))
    ensures forall e | e in Cycles(lim, n, t) && ClockOf(e).Some? :: t <= ClockOf(e).value
    decreases n
  {
    if n > 0 {
      var later := t + lim.delay + lim.quiet;
      var es, rest := Cycles(lim, n, t), Cycles(lim, n - 1, later);
      CyclesClocked(lim, n - 1, later);
      assert es == KillAndRelaunch(lim, t) + rest;
      forall i, j | 0 <= i < j < |es| && ClockOf(es[i]).Some? && ClockOf(es[j]).Some?
        ensures ClockOf(es[i]).value <= ClockOf(es[j]).value
      {
        if j >= 2 {
          assert es[j] == rest[j - 2] && rest[j - 2] in rest;
          if i >= 2 {
            assert es[i] == rest[i - 2];
          }
        }
      }
    }
  }

  /** The bound is exact: for every budget and reset limit some run under a clock that never
      runs backwards reaches it. */
  lemma BoundIsReached(lim: Limits)
    requires lim.delay >= 0.0 && lim.quiet >= 0.0
    ensures Clocked(Cycles(lim, Bound(lim), 0.0))
    ensures Run(lim, START, Cycles(lim, Bound(lim), 0.0)).launches == Bound(lim)
  {
    hide Clocked, Cycles, Run, Bound;
    CyclesClocked(lim, Bound(lim), 0.0);
    CyclesRun(lim, START, Bound(lim), 0, 0, 0, 0.0);
  }

  // ----- Schedule -----

  /** The earliest relaunch time the step sets when it arms the retry: a requeued kill waits its
      delay, and a quiet-window re-arm is due at once. */
  function Arms(lim: Limits, s: Issue, e: Event): Option<real> {
    match e
    case WorkerFailed(category, retryAfter, _, _, at) =>
      if s.status == Working && Requeueable(category) && s.Rec().quotaRequeues < lim.budget
      then Some(at + if retryAfter.Some? then retryAfter.value else lim.delay) else None
    case RetryPass(groups, _, _, _, at) =>
      if s.status == Blocked && s.flag == Unset && Rearms(lim, s, groups, at) then Some(at) else None
    case _ => None
  }

  /** The earliest time set by the last step of the run that armed the retry. */
  function Due(lim: Limits, es: seq<Event>): Option<real> {
    if es == [] then None else
      var front, e := es[..|es| - 1], es[|es| - 1];
      var arms := Arms(lim, Run(lim, START, front), e);
      if arms.Some? then arms else Due(lim, front)
  }

  lemma RunLast(lim: Limits, es: seq<Event>)
    requires es != []
    ensures Run(lim, START, es) == Step(lim, Run(lim, START, es[..|es| - 1]), es[|es| - 1])
  {
    hide Step;
    var front, e := es[..|es| - 1], es[|es| - 1];
    assert es == front + [e];
    RunAppend(lim, START, front, [e]);
    assert Run(lim, Run(lim, START, front), [e]) == Run(lim, Step(lim, Run(lim, START, front), e), []);
  }

  /** An armed flag goes with the time the last arming step set. */
  ghost predicate Scheduled(s: Issue, due: Option<real>) {
    s.flag.Armed? ==> s.Rec().requeue.Some? && due == Some(s.Rec().requeue.value.notBefore)
  }

  lemma ScheduledStep(lim: Limits, s: Issue, e: Event, due: Option<real>)
    requires Scheduled(s, due)
    ensures Scheduled(Step(lim, s, e), if Arms(lim, s, e).Some? then Arms(lim, s, e) else due)
  {
    hide GroupQuiet, Rearms;
  }

  lemma {:induction false} RunScheduled(lim: Limits, es: seq<Event>)
    ensures Scheduled(Run(lim, START, es), Due(lim, es))
    decreases |es|
  {
    hide Scheduled, Arms, Step;
    if es == [] {
      StartScheduled(lim);
    } else {
      RunScheduled(lim, es[..|es| - 1]);
      RunLast(lim, es);
      ScheduledStep(lim, Run(lim, START, es[..|es| - 1]), es[|es| - 1], Due(lim, es[..|es| - 1]));
    }
  }

  lemma StartScheduled(lim: Limits)
    ensures Scheduled(Run(lim, START, []), Due(lim, []))
  {
  }

  lemma LaunchIsDue(lim: Limits, s: Issue, e: Event, due: Option<real>)
    requires Scheduled(s, due) && Step(lim, s, e).launches > s.launches
    ensures e.RetryPass? && s.status == Blocked && e.answer == Launched
    ensures var d := if Arms(lim, s, e).Some? then Arms(lim, s, e) else due; d.Some? && d.value <= e.at
  {
    hide GroupQuiet, Rearms;
  }

  /** Every automatic relaunch of a run is made by a retry pass on a blocked job, at or after
      the time set by the last step that armed the retry: a requeued kill waits for its delay,
      a held one for its groups to be quiet. */
  lemma AutomaticRelaunchWaits(lim: Limits, es: seq<Event>)
    requires es != [] && Run(lim, START, es).launches > Run(lim, START, es[..|es| - 1]).launches
    ensures var s, e := Run(lim, START, es[..|es| - 1]), es[|es| - 1];
            && e.RetryPass? && s.status == Blocked && e.answer == Launched
            && Due(lim, es).Some? && Due(lim, es).value <= e.at
  {
    hide Run, Step, Arms, Scheduled;
    RunScheduled(lim, es[..|es| - 1]);
    RunLast(lim, es);
    LaunchIsDue(lim, Run(lim, START, es[..|es| - 1]), es[|es| - 1], Due(lim, es[..|es| - 1]));
  }

  // ----- What each step does, over runs -----

  /** A congestion hold is on record and every held group that exists is normal, past its
      cooldown, and at least quiet_seconds past the start of its window. */
  ghost predicate HoldIsOver(lim: Limits, s: Issue, groups: Groups, now: real) {
    && s.rec.Some? && s.rec.value.held.Some?
    && forall name | name in s.rec.value.held.value && name in groups ::
         && groups[name].mode == AdmissionLedger.Normal
         && (groups[name].cooldownUntil.Some? ==> now >= groups[name].cooldownUntil.value)
         && now - groups[name].windowStart >= lim.quiet
  }

  lemma HoldIsOverIs(lim: Limits, s: Issue, groups: Groups, now: real)
    ensures HoldIsOver(lim, s, groups, now) <==> Rearms(lim, s, groups, now)
  {
  }

  lemma RearmPass(lim: Limits, s: Issue, e: Event)
    requires e.RetryPass? && s.status == Blocked && s.flag == Unset
    ensures var r, over := Step(lim, s, e), HoldIsOver(lim, s, e.groups, e.at);
            && r.Rec().resets == s.Rec().resets + (if over then 1 else 0)
            && r.Rec().quotaRequeues == (if over then 0 else s.Rec().quotaRequeues)
            && (over ==> r.Rec().held == None) && (!over ==> r == s)
            && (over && r.flag != Unset ==>
                  && r.flag == Armed(if s.Rec().cause.Some? then s.Rec().cause.value else QuotaRequeue)
                  && r.Rec().requeue == Some(Requeue(e.at, QuietWindow, lim.quiet)))
            && (over && !e.slotFree ==> r.flag != Unset)
  {
    hide Rearms, TooEarly;
    HoldIsOverIs(lim, s, e.groups, e.at);
  }

  /** In every run, a retry pass over a blocked job without a flag re-arms it, spending one reset
      for a fresh budget and keeping the cause, exactly when its congestion hold is over; else
      it does nothing. */
  lemma RearmsExactly(lim: Limits, es: seq<Event>)
    requires es != [] && es[|es| - 1].RetryPass?
    requires var s := Run(lim, START, es[..|es| - 1]); s.status == Blocked && s.flag == Unset
    ensures var s, r, e := Run(lim, START, es[..|es| - 1]), Run(lim, START, es), es[|es| - 1];
            var over := HoldIsOver(lim, s, e.groups, e.at);
            && r.Rec().resets == s.Rec().resets + (if over then 1 else 0)
            && r.Rec().quotaRequeues == (if over then 0 else s.Rec().quotaRequeues)
            && (over ==> r.Rec().held == None) && (!over ==> r == s)
            && (over && r.flag != Unset ==>
                  && r.flag == Armed(if s.Rec().cause.Some? then s.Rec().cause.value else QuotaRequeue)
                  && r.Rec().requeue == Some(Requeue(e.at, QuietWindow, lim.quiet)))
            && (over && !e.slotFree ==> r.flag != Unset)
  {
    hide Run, Step, HoldIsOver;
    RunLast(lim, es);
    RearmPass(lim, Run(lim, START, es[..|es| - 1]), es[|es| - 1]);
  }

  /** The issue is due for a retry: the operator asked for it, or the armed time has come, or a
      congestion hold is over now. */
  ghost predicate IsDue(lim: Limits, s: Issue, groups: Groups, now: real) {
    || s.flag.Operator?
    || (s.flag.Armed? && (s.Rec().requeue.Some? ==> s.Rec().requeue.value.notBefore <= now))
    || (s.flag.Unset? && HoldIsOver(lim, s, groups, now))
  }

  lemma RetryPassIs(lim: Limits, s: Issue, e: Event)
    requires e.RetryPass? && s.status == Blocked
    ensures var r := Step(lim, s, e);
            var work := if s.rec.Some? then s.rec.value.work else e.survey;
            var tried := IsDue(lim, s, e.groups, e.at) && e.slotFree && work.Some?;
            && (r.status == Working <==> tried && (e.answer == Launched || e.answer == LaunchFailed))
            && r.launches == s.launches + (if tried && e.answer == Launched && !s.flag.Operator? then 1 else 0)
            && (tried && e.answer == Launched ==> r.flag == Unset && r.Rec().requeue == None && r.Rec().held == None)
            && (tried && e.answer == RestoreFailed ==> r.Rec().attempts == s.Rec().attempts + 1
                                                       && (r.flag == Unset <==> s.Rec().attempts + 1 >= 3))
            && (!(tried && e.answer == RestoreFailed) ==> r.Rec().attempts == s.Rec().attempts)
            && (s.flag != Unset && r.flag == Unset ==> tried && (e.answer == Launched || e.answer == RestoreFailed))
  {
    hide Rearms;
    HoldIsOverIs(lim, s, e.groups, e.at);
  }

  /** In every run, a retry pass relaunches a blocked job exactly when it is due, a slot is free,
      its preserved work is known and the launch succeeds; only that, or a third failed
      restore, takes its flag away. */
  lemma RetriesExactly(lim: Limits, es: seq<Event>)
    requires es != [] && es[|es| - 1].RetryPass? && Run(lim, START, es[..|es| - 1]).status == Blocked
    ensures var s, r, e := Run(lim, START, es[..|es| - 1]), Run(lim, START, es), es[|es| - 1];
            var work := if s.rec.Some? then s.rec.value.work else e.survey;
            var tried := IsDue(lim, s, e.groups, e.at) && e.slotFree && work.Some?;
            && (r.status == Working <==> tried && (e.answer == Launched || e.answer == LaunchFailed))
            && r.launches == s.launches + (if tried && e.answer == Launched && !s.flag.Operator? then 1 else 0)
            && (tried && e.answer == Launched ==> r.flag == Unset && r.Rec().requeue == None && r.Rec().held == None)
            && (tried && e.answer == RestoreFailed ==> r.Rec().attempts == s.Rec().attempts + 1
                                                       && (r.flag == Unset <==> s.Rec().attempts + 1 >= 3))
            && (!(tried && e.answer == RestoreFailed) ==> r.Rec().attempts == s.Rec().attempts)
            && (s.flag != Unset && r.flag == Unset ==> tried && (e.answer == Launched || e.answer == RestoreFailed))
  {
    hide Run, Step, IsDue;
    RunLast(lim, es);
    RetryPassIs(lim, Run(lim, START, es[..|es| - 1]), es[|es| - 1]);
  }

  lemma FailureIs(lim: Limits, s: Issue, e: Event)
    requires e.WorkerFailed? && s.status == Working
    ensures var r, rec := Step(lim, s, e), s.Rec();
            var delay := if e.retryAfter.Some? then e.retryAfter.value else lim.delay;
            var cause := if e.category == Rate || e.category == Endpoint then QuotaRequeue else KillRequeue;
            && r.status == Blocked && r.launches == s.launches && r.Rec().work == e.survey
            && (if e.category != OtherFailure && rec.quotaRequeues < lim.budget
                then && r.flag == Armed(cause) && r.Rec().quotaRequeues == rec.quotaRequeues + 1 && r.Rec().held == rec.held
                     && r.Rec().cause == Some(cause)
                     && r.Rec().requeue == Some(Requeue(e.at + delay, if e.retryAfter.Some? then RetryAfter else Default, delay))
                else && r.flag == s.flag && r.Rec().quotaRequeues == rec.quotaRequeues && r.Rec().requeue == rec.requeue
                     && r.Rec().held == if e.category != OtherFailure && rec.resets < lim.resets && e.congested != []
                                        then Some(e.congested) else rec.held)
            && r.Rec().resets == rec.resets && r.Rec().attempts == rec.attempts
  {
  }

  /** In every run, a worker killed for a requeueable cause is armed for one retry after the
      provider's delay, or the configured one, while budget is left; on a spent budget it is
      held for the congested groups while a reset is left; and it is blocked in any case. */
  lemma FailuresExactly(lim: Limits, es: seq<Event>)
    requires es != [] && es[|es| - 1].WorkerFailed? && Run(lim, START, es[..|es| - 1]).status == Working
    ensures var s, r, e := Run(lim, START, es[..|es| - 1]), Run(lim, START, es), es[|es| - 1];
            var rec := s.Rec();
            var delay := if e.retryAfter.Some? then e.retryAfter.value else lim.delay;
            var cause := if e.category == Rate || e.category == Endpoint then QuotaRequeue else KillRequeue;
            && r.status == Blocked && r.launches == s.launches && r.Rec().work == e.survey
            && (if e.category != OtherFailure && rec.quotaRequeues < lim.budget
                then && r.flag == Armed(cause) && r.Rec().quotaRequeues == rec.quotaRequeues + 1 && r.Rec().held == rec.held
                     && r.Rec().cause == Some(cause)
                     && r.Rec().requeue == Some(Requeue(e.at + delay, if e.retryAfter.Some? then RetryAfter else Default, delay))
                else && r.flag == s.flag && r.Rec().quotaRequeues == rec.quotaRequeues && r.Rec().requeue == rec.requeue
                     && r.Rec().held == if e.category != OtherFailure && rec.resets < lim.resets && e.congested != []
                                        then Some(e.congested) else rec.held)
            && r.Rec().resets == rec.resets && r.Rec().attempts == rec.attempts
  {
    hide Run, Step;
    RunLast(lim, es);
    FailureIs(lim, Run(lim, START, es[..|es| - 1]), es[|es| - 1]);
  }

  /** In every run, a block of an unfinished job keeps every counter, hold and schedule under the
      new survey verdict. */
  lemma BlocksExactly(lim: Limits, es: seq<Event>)
    requires es != [] && es[|es| - 1].Blocks? && Run(lim, START, es[..|es| - 1]).status != Done
    ensures var s, r := Run(lim, START, es[..|es| - 1]), Run(lim, START, es);
            var rec := if s.rec.Some? then s.rec.value else Record(None, 0, 0, 0, None, None, None);
            r == Issue(Blocked, s.flag, Some(rec.(work := es[|es| - 1].survey)), s.launches)
  {
    hide Run;
    RunLast(lim, es);
  }
}
