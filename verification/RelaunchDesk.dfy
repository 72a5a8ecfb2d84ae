/** The supervisor's methods on one issue's retry state, updating the job status, the
    `retry:<n>` flag and the `recovery:<n>` record in place. Each is proved against the step
    functions of `Relaunch`, so its bound holds of every sequence of calls. */
module RelaunchDesk {
  import opened Common
  import opened Relaunch

  class Desk {
    const lim: Limits
    var status: Status
    var flag: Flag
    var rec: Option<Record>
    ghost var launches: nat

    ghost function View(): Issue
      reads this
    {
      Issue(status, flag, rec, launches)
    }

    constructor (limits: Limits)
      ensures lim == limits && View() == START
    {
      lim, status, flag, rec, launches := limits, Working, Unset, None, 0;
    }

    /** `requeue_quota`. */
    method Requeue(category: Category, retryAfter: Option<real>, congested: seq<string>, now: real)
      modifies this`flag, this`rec
      ensures View() == RequeueQuota(lim, old(View()), category, retryAfter, congested, now)
    {
      var r := if rec.Some? then rec.value else BLANK;
      var used := r.quotaRequeues;
      if used >= lim.budget {
        if r.resets >= lim.resets {
          return;
        }
        if congested == [] {
          return;
        }
        rec := Some(r.(held := Some(congested)));
        return;
      }
      var delay := if retryAfter.Some? then retryAfter.value else lim.delay;
      var cause := if Congestion(category) then QuotaRequeue else KillRequeue;
      r := r.(quotaRequeues := used + 1);
      r := r.(requeue := Some(Relaunch.Requeue(now + delay, if retryAfter.Some? then RetryAfter else Default, delay)));
      rec := Some(r.(cause := Some(cause)));
      flag := Armed(cause);
    }

    /** `capture_recovery` and `block`. */
    method Block(survey: Option<bool>)
      modifies this`rec, this`status
      ensures View() == Capture(old(View()), survey).(status := Blocked)
    {
      rec := Some((if rec.Some? then rec.value else BLANK).(work := survey));
      status := Blocked;
    }

    /** The failed-receipt branch of `reconcile_workers`. */
    method WorkerFailed(category: Category, retryAfter: Option<real>, congested: seq<string>, survey: Option<bool>, now: real)
      requires status == Working
      modifies this
      ensures View() == Step(lim, old(View()), Event.WorkerFailed(category, retryAfter, congested, survey, now))
    {
      if Requeueable(category) {
        Requeue(category, retryAfter, congested, now);
      }
      Block(survey);
    }

    /** `quiet_episode_rearm`: walks the held groups and re-arms once all are quiet. */
    method QuietEpisodeRearm(groups: Groups, now: real)
      modifies this`flag, this`rec
      ensures View() == Rearm(lim, old(View()), groups, now)
    {
      if rec.None? || rec.value.held.None? {
        return;
      }
      var names := rec.value.held.value;
      for i := 0 to |names|
        invariant flag == old(flag) && rec == old(rec)
        invariant forall j | 0 <= j < i :: GroupQuiet(lim, groups, names[j], now)
      {
        if !GroupQuiet(lim, groups, names[i], now) {
          assert names[i] in names;
          return;
        }
      }
      var r := rec.value;
      flag := Armed(if r.cause.Some? then r.cause.value else QuotaRequeue);
      rec := Some(r.(held := None, quotaRequeues := 0, resets := r.resets + 1,
                     requeue := Some(Relaunch.Requeue(now, QuietWindow, lim.quiet))));
    }

    /** `recover_job`: relaunches once, or says why not; only a launch consumes the flag. */
    method RecoverJob(answer: Answer)
      requires rec.Some?
      modifies this
      ensures View() == Recover(old(View()), answer)
    {
      var r := rec.value;
      if r.work.None? || answer == NoSlot || answer == RetryRefused {
        return;
      }
      if answer == RestoreFailed {
        rec := Some(r.(attempts := r.attempts + 1));
        if r.attempts + 1 >= 3 {
          flag := Unset;
        }
        return;
      }
      status := Working;
      if answer == LaunchFailed {
        return;
      }
      if flag.Armed? {
        launches := launches + 1;
      }
      rec := Some(r.(requeue := None, cause := None, held := None));
      flag := Unset;
    }

    /** `retries` for this issue. */
    method RetryPass(groups: Groups, slotFree: bool, survey: Option<bool>, answer: Answer, now: real)
      requires status == Blocked
      modifies this
      ensures View() == Step(lim, old(View()), Event.RetryPass(groups, slotFree, survey, answer, now))
    {
      if flag == Unset {
        QuietEpisodeRearm(groups, now);
        if flag == Unset {
          return;
        }
      }
      if !slotFree {
        return;
      }
      if rec.None? {
        rec := Some(BLANK.(work := survey));
      }
      if flag.Armed? && rec.value.requeue.Some? && now < rec.value.requeue.value.notBefore {
        return;
      }
      RecoverJob(answer);
    }
  }
}
