/** What holds across whole admission runs: which probe may lift a congestion episode, how
    long a block lasts, how often targets move, and how far cooldowns reach. */
module AdmissionEpisodes {
  import opened Common
  import opened AdmissionLedger
  import opened AdmissionBounds

  /** A nonnegative clock that never runs backwards. */
  ghost predicate Timed(es: seq<Event>) {
    es != [] ==>
      var front, now := es[..|es| - 1], es[|es| - 1].at;
      Timed(front) && 0.0 <= now && (front != [] ==> front[|front| - 1].at <= now)
  }

  lemma {:induction false} TimedAt(es: seq<Event>, i: nat, j: nat)
    requires Timed(es) && i <= j < |es|
    ensures 0.0 <= es[i].at <= es[j].at
    decreases |es|
  {
    if j < |es| - 1 {
      TimedAt(es[..|es| - 1], i, j);
    } else if i < j {
      TimedAt(es[..|es| - 1], i, j - 1);
    }
  }

  /** The step records a rate, endpoint, auth or credits report on the group. */
  predicate Congests(cfg: Config, l: Ledger, e: Event, name: string)
    requires cfg.Valid()
  {
    Recorded(l, e) && name in NamesOf(cfg, l, e) && e.category in {Rate, Endpoint, Auth, Credits}
  }

  /** A success report moves the group from troubled to normal. */
  predicate Reopens(cfg: Config, l: Ledger, e: Event, name: string)
    requires cfg.Valid() && Tables(cfg, l) && name in cfg.groups
  {
    e.Finish? && l.groups[name].mode != Normal && NextGroup(cfg, l, e, name).mode == Normal
  }

  // ----- Probe ordering -----

  lemma FeedbackCongestion(cfg: Config, name: string, g: Group, lease: Option<Lease>, category: Category,
                           hint: Option<real>, jitter: real, now: real)
    requires name in cfg.groups
    ensures var r := Feedback(cfg, name, g, lease, category, hint, jitter, now);
            if category in {Rate, Endpoint, Auth, Credits} then r.mode != Normal && r.congestedAt == Some(now)
            else r.mode == Normal || (r.mode == g.mode && r.congestedAt == g.congestedAt)
  {
  }

  lemma CongestionStep(cfg: Config, l: Ledger, e: Event, name: string)
    requires cfg.Valid() && Tables(cfg, l) && name in cfg.groups
    ensures var g, r := l.groups[name], NextGroup(cfg, l, e, name);
            if Congests(cfg, l, e, name) then r.mode != Normal && r.congestedAt == Some(e.at)
            else r.mode == Normal || (r.mode == g.mode && r.congestedAt == g.congestedAt)
  {
    hide Feedback, Decide, NamesOf, IdOf;
    if e.Finish? {
      FeedbackCongestion(cfg, name, l.groups[name], LeaseOf(l, e), e.category,
                         Clamp(e.retryAfter, cfg.HintCeiling()), e.jitter(name), e.at);
    }
  }

  /** A report stays on its group's record, or is replaced by a later one, until the group
      is normal again: the group never forgets when it was last congested. */
  lemma {:induction false} CongestionRemembered(cfg: Config, ls: seq<Ledger>, es: seq<Event>, j: nat, n: nat, name: string)
    requires IsRun(cfg, ls, es) && Timed(es) && name in cfg.groups && j < n <= |es|
    requires Congests(cfg, ls[j], es[j], name)
    ensures var g := ls[n].groups[name];
            g.mode == Normal || (g.congestedAt.Some? && g.congestedAt.value >= es[j].at)
    decreases n
  {
    hide *;
    GroupStep(cfg, ls, es, n - 1, name);
    TimedAt(es, j, n - 1);
    CongestionStep(cfg, ls[n - 1], es[n - 1], name);
    if j < n - 1 {
      CongestionRemembered(cfg, ls, es, j, n - 1, name);
    }
  }

  /** Step k granted the lease the owner still holds before step n. */
  ghost predicate GrantedAt(cfg: Config, ls: seq<Ledger>, es: seq<Event>, owner: string, k: nat, n: nat)
    requires IsRun(cfg, ls, es) && n <= |es|
  {
    && k < n && es[k].Reserve? && es[k].owner == owner
    && owner !in ls[k].leases
    && forall m | k < m <= n :: owner in ls[m].leases
  }

  lemma {:induction false} LeaseRemembersGrant(cfg: Config, ls: seq<Ledger>, es: seq<Event>, owner: string, k: nat, n: nat)
    requires IsRun(cfg, ls, es) && n <= |es| && GrantedAt(cfg, ls, es, owner, k, n)
    ensures var lease := ls[n].leases[owner];
            && lease.granted == es[k].at && lease.grps == GroupNames(cfg, es[k].model)
            && Decide(cfg, ls[k], es[k]) == Granted(lease.probe)
    decreases n
  {
    hide NextLeases, Decide, GroupNames;
    LeasesStep(cfg, ls, es, n - 1);
    if k < n - 1 {
      LeaseRemembersGrant(cfg, ls, es, owner, k, n - 1);
      LeaseKept(cfg, ls[n - 1], es[n - 1], owner);
    } else {
      LeaseNew(cfg, ls[k], es[k], owner);
    }
  }

  /** Every lease on record was granted by a step of the run and has been held since. */
  lemma {:induction false} EveryLeaseWasGranted(cfg: Config, ls: seq<Ledger>, es: seq<Event>, owner: string, n: nat)
    returns (k: nat)
    requires IsRun(cfg, ls, es) && n <= |es| && owner in ls[n].leases
    ensures GrantedAt(cfg, ls, es, owner, k, n)
    decreases n
  {
    hide NextLeases, Decide, GroupNames;
    LeasesStep(cfg, ls, es, n - 1);
    if owner in ls[n - 1].leases {
      k := EveryLeaseWasGranted(cfg, ls, es, owner, n - 1);
    } else {
      LeaseNew(cfg, ls[n - 1], es[n - 1], owner);
      k := n - 1;
    }
  }

  /** A report that reopens a group was made under a probe lease the group does not outrank. */
  lemma ReopeningProbe(cfg: Config, l: Ledger, e: Event, name: string)
    requires cfg.Valid() && Tables(cfg, l) && name in cfg.groups && Reopens(cfg, l, e, name)
    ensures e.category == Success && e.owner in l.leases && l.leases[e.owner].probe
    ensures name in l.leases[e.owner].grps && !Outranked(l.groups[name], l.leases[e.owner].granted)
  {
  }

  /** A probe's success lifts only the episode it was granted for: between the grant of its
      lease and the report that reopens the group, no rate, endpoint, auth or credits report
      was recorded on that group. */
  lemma ProbeLiftsOnlyItsOwnEpisode(cfg: Config, ls: seq<Ledger>, es: seq<Event>, k: nat, i: nat, name: string)
    requires IsRun(cfg, ls, es) && Timed(es) && name in cfg.groups && i < |es|
    requires es[i].Finish? && GrantedAt(cfg, ls, es, es[i].owner, k, i)
    requires Reopens(cfg, ls[i], es[i], name)
    ensures ls[i].groups[name].mode == Probing
    ensures forall j | k < j < i :: !Congests(cfg, ls[j], es[j], name)
  {
    ReopeningProbe(cfg, ls[i], es[i], name);
    LeaseRemembersGrant(cfg, ls, es, es[i].owner, k, i);
    forall j | k < j < i ensures !Congests(cfg, ls[j], es[j], name) {
      if Congests(cfg, ls[j], es[j], name) {
        CongestionRemembered(cfg, ls, es, j, i, name);
        TimedAt(es, k, j);
      }
    }
  }

  // ----- Blocked groups -----

  lemma BlockedStep(cfg: Config, l: Ledger, e: Event, name: string)
    requires cfg.Valid() && Tables(cfg, l) && name in cfg.groups && l.groups[name].mode == Blocked
    ensures !(e.Reset? && e.name == name) ==> NextGroup(cfg, l, e, name).mode == Blocked
    ensures forall o | o in NextLeases(cfg, l, e) && o !in l.leases :: name !in NextLeases(cfg, l, e)[o].grps
  {
    hide NamesOf, IdOf, GroupNames, Decide, NextLeases;
    forall o | o in NextLeases(cfg, l, e) && o !in l.leases ensures name !in NextLeases(cfg, l, e)[o].grps {
      LeaseNew(cfg, l, e, o);
      if name in GroupNames(cfg, e.model) {
        GrantedIsNotDenied(cfg, l, e, name);
      }
    }
  }

  /** A blocked group stays blocked until an operator reset. */
  lemma {:induction false} BlockedUntilReset(cfg: Config, ls: seq<Ledger>, es: seq<Event>, i: nat, n: nat, name: string)
    requires IsRun(cfg, ls, es) && name in cfg.groups && i <= n <= |es|
    requires ls[i].groups[name].mode == Blocked
    requires forall j | i <= j < n :: !(es[j].Reset? && es[j].name == name)
    ensures ls[n].groups[name].mode == Blocked
    decreases n
  {
    hide *;
    if i < n {
      BlockedUntilReset(cfg, ls, es, i, n - 1, name);
      GroupStep(cfg, ls, es, n - 1, name);
      BlockedStep(cfg, ls[n - 1], es[n - 1], name);
    }
  }

  /** No lease that appears while a group is blocked covers it. */
  lemma NoLeaseWhileBlocked(cfg: Config, ls: seq<Ledger>, es: seq<Event>, i: nat, n: nat, name: string, owner: string)
    requires IsRun(cfg, ls, es) && name in cfg.groups && i <= n < |es|
    requires ls[i].groups[name].mode == Blocked
    requires forall j | i <= j < n :: !(es[j].Reset? && es[j].name == name)
    requires owner !in ls[n].leases && owner in ls[n + 1].leases
    ensures name !in ls[n + 1].leases[owner].grps
  {
    hide *;
    BlockedUntilReset(cfg, ls, es, i, n, name);
    LeasesStep(cfg, ls, es, n);
    BlockedStep(cfg, ls[n], es[n], name);
  }

  // ----- One probe at a time -----

  /** Step k granted the lease while the group was probing. */
  ghost predicate GrantedWhileProbing(cfg: Config, ls: seq<Ledger>, es: seq<Event>, owner: string, k: nat, n: nat, name: string)
    requires IsRun(cfg, ls, es) && n <= |es| && name in cfg.groups
  {
    && GrantedAt(cfg, ls, es, owner, k, n) && name in GroupNames(cfg, es[k].model)
    && ls[k].groups[name].mode == Probing
  }

  lemma ProbingGrantIsProbe(cfg: Config, l: Ledger, e: Event, name: string)
    requires cfg.Valid() && Tables(cfg, l) && e.Reserve? && Decide(cfg, l, e).Granted?
    requires name in GroupNames(cfg, e.model) && l.groups[name].mode == Probing
    ensures Decide(cfg, l, e).probe && |l.Probes(name)| == 0
  {
    GrantedIsNotDenied(cfg, l, e, name);
  }

  /** At most one outstanding lease of a group was granted while that group was probing,
      also when groups share models. */
  lemma OneProbePerGroup(cfg: Config, ls: seq<Ledger>, es: seq<Event>, n: nat, o: string, k: nat, p: string, m: nat, name: string)
    requires IsRun(cfg, ls, es) && n <= |es| && name in cfg.groups && k <= m
    requires GrantedWhileProbing(cfg, ls, es, o, k, n, name) && GrantedWhileProbing(cfg, ls, es, p, m, n, name)
    ensures o == p
  {
    hide Decide, GroupNames;
    if k < m {
      LeaseRemembersGrant(cfg, ls, es, o, k, m);
      LeaseRemembersGrant(cfg, ls, es, o, k, k + 1);
      LeaseRemembersGrant(cfg, ls, es, p, m, m + 1);
      ProbingGrantIsProbe(cfg, ls[k], es[k], name);
      assert o in ls[m].Probes(name);
      ProbingGrantIsProbe(cfg, ls[m], es[m], name);
    }
  }

  // ----- Target changes -----

  lemma FeedbackTarget(cfg: Config, name: string, g: Group, lease: Option<Lease>, category: Category,
                       hint: Option<real>, jitter: real, now: real)
    requires cfg.Valid() && name in cfg.groups && GroupOk(cfg, name, g)
    ensures var r := Feedback(cfg, name, g, lease, category, hint, jitter, now);
            && r.target <= g.target && (r.target < g.target ==> g.mode == Normal && r.mode == Probing)
            && (r.windowStart == g.windowStart || r.windowStart == now)
  {
  }

  lemma TargetStep(cfg: Config, l: Ledger, e: Event, name: string)
    requires cfg.Valid() && Tables(cfg, l) && name in cfg.groups && GroupOk(cfg, name, l.groups[name])
    ensures var g, r := l.groups[name], NextGroup(cfg, l, e, name);
            && (r.target < g.target ==> g.mode == Normal && r.mode == Probing)
            && (r.target > g.target ==> r.target == g.target + 1 && e.at - g.windowStart >= cfg.quiet
                                        && r.windowStart == e.at)
            && (r.windowStart == g.windowStart || r.windowStart == e.at)
  {
    hide Feedback, Decide, NamesOf, IdOf;
    if e.Finish? {
      FeedbackTarget(cfg, name, l.groups[name], LeaseOf(l, e), e.category,
                     Clamp(e.retryAfter, cfg.HintCeiling()), e.jitter(name), e.at);
    }
  }

  /** How often the group's target was decreased in the first n steps. */
  function Decreases(cfg: Config, ls: seq<Ledger>, es: seq<Event>, n: nat, name: string): nat
    requires IsRun(cfg, ls, es) && name in cfg.groups && n <= |es|
  {
    if n == 0 then 0 else
      Decreases(cfg, ls, es, n - 1, name)
      + if NextGroup(cfg, ls[n - 1], es[n - 1], name).target < ls[n - 1].groups[name].target then 1 else 0
  }

  predicate Opens(cfg: Config, l: Ledger, e: Event, name: string)
    requires cfg.Valid() && Tables(cfg, l) && name in cfg.groups
  {
    Reopens(cfg, l, e, name) || (e.Reset? && e.name == name)
  }

  /** Reopening probe successes and operator resets of the group in the first n steps. */
  function Openings(cfg: Config, ls: seq<Ledger>, es: seq<Event>, n: nat, name: string): nat
    requires IsRun(cfg, ls, es) && name in cfg.groups && n <= |es|
  {
    if n == 0 then 0 else
      Openings(cfg, ls, es, n - 1, name) + if Opens(cfg, ls[n - 1], es[n - 1], name) then 1 else 0
  }

  /** Repeated reports never spend a second penalty: a target is decreased at most once more
      than its group was reopened by a probe or reset. */
  lemma {:induction false} DecreasesBounded(cfg: Config, ls: seq<Ledger>, es: seq<Event>, n: nat, name: string)
    requires IsRun(cfg, ls, es) && name in cfg.groups && n <= |es|
    ensures Decreases(cfg, ls, es, n, name) + (if ls[n].groups[name].mode == Normal then 1 else 0)
            <= 1 + Openings(cfg, ls, es, n, name)
    decreases n
  {
    hide IsRun, StepAt, Tables, NextGroup, Reopens, Opens, GroupOk;
    if n > 0 {
      GroupStep(cfg, ls, es, n - 1, name);
      DecreasesBounded(cfg, ls, es, n - 1, name);
      ReachableGroup(cfg, ls, es, n - 1, name);
      TargetStep(cfg, ls[n - 1], es[n - 1], name);
      if ls[n - 1].groups[name].mode != Normal && ls[n].groups[name].mode == Normal {
        OnlyOpeningsNormalize(cfg, ls[n - 1], es[n - 1], name);
      }
    }
  }

  lemma OnlyOpeningsNormalize(cfg: Config, l: Ledger, e: Event, name: string)
    requires cfg.Valid() && Tables(cfg, l) && name in cfg.groups
    requires l.groups[name].mode != Normal && NextGroup(cfg, l, e, name).mode == Normal
    ensures Opens(cfg, l, e, name)
  {
  }

  ghost predicate IncreasesAt(cfg: Config, ls: seq<Ledger>, es: seq<Event>, i: nat, name: string)
    requires IsRun(cfg, ls, es) && name in cfg.groups && i < |es|
  {
    NextGroup(cfg, ls[i], es[i], name).target > ls[i].groups[name].target
  }

  lemma WindowOpens(cfg: Config, ls: seq<Ledger>, es: seq<Event>, i: nat, name: string)
    requires IsRun(cfg, ls, es) && name in cfg.groups && i < |es| && IncreasesAt(cfg, ls, es, i, name)
    ensures ls[i + 1].groups[name].windowStart == es[i].at
    ensures es[i].at - ls[i].groups[name].windowStart >= cfg.quiet
  {
    hide NextGroup, GroupOk;
    ReachableGroup(cfg, ls, es, i, name);
    GroupStep(cfg, ls, es, i, name);
    TargetStep(cfg, ls[i], es[i], name);
  }

  lemma {:induction false} WindowRestarts(cfg: Config, ls: seq<Ledger>, es: seq<Event>, i: nat, n: nat, name: string)
    requires IsRun(cfg, ls, es) && Timed(es) && name in cfg.groups && i < n <= |es| && IncreasesAt(cfg, ls, es, i, name)
    ensures ls[n].groups[name].windowStart >= es[i].at
    decreases n
  {
    hide *;
    if i == n - 1 {
      WindowOpens(cfg, ls, es, i, name);
    } else {
      TimedAt(es, i, n - 1);
      ReachableGroup(cfg, ls, es, n - 1, name);
      GroupStep(cfg, ls, es, n - 1, name);
      TargetStep(cfg, ls[n - 1], es[n - 1], name);
      WindowRestarts(cfg, ls, es, i, n - 1, name);
    }
  }

  /** Any two increases of a group's target are at least quiet_seconds apart. */
  lemma IncreasesAreSpaced(cfg: Config, ls: seq<Ledger>, es: seq<Event>, i: nat, j: nat, name: string)
    requires IsRun(cfg, ls, es) && Timed(es) && name in cfg.groups && i < j < |es|
    requires IncreasesAt(cfg, ls, es, i, name) && IncreasesAt(cfg, ls, es, j, name)
    ensures es[j].at - es[i].at >= cfg.quiet
  {
    hide *;
    WindowRestarts(cfg, ls, es, i, j, name);
    WindowOpens(cfg, ls, es, j, name);
  }

  // ----- Repeated reports -----

  lemma {:induction false} OutcomesStay(cfg: Config, ls: seq<Ledger>, es: seq<Event>, i: nat, n: nat, id: OutcomeId)
    requires IsRun(cfg, ls, es) && i <= n <= |es| && id in ls[i].outcomes
    ensures id in ls[n].outcomes
    decreases n
  {
    hide NamesOf;
    if i < n {
      OutcomesStay(cfg, ls, es, i, n - 1, id);
      LeasesStep(cfg, ls, es, n - 1);
    }
  }

  /** Once an invocation's report is recorded, reporting that invocation again, whether named or
      read from the lease, at any later point and with any category, changes no group and no
      outcome. */
  lemma RepeatedFinishChangesNothing(cfg: Config, ls: seq<Ledger>, es: seq<Event>, i: nat, n: nat)
    requires IsRun(cfg, ls, es) && i < n < |es| && es[i].Finish? && es[n].Finish?
    requires InvocationOf(ls[i], es[i]).Some? && InvocationOf(ls[n], es[n]) == InvocationOf(ls[i], es[i])
    ensures ls[n + 1].groups == ls[n].groups
    ensures ls[n + 1].outcomes == ls[n].outcomes
    ensures ls[n + 1].leases == ls[n].leases - {es[n].owner}
  {
    hide NamesOf;
    LeasesStep(cfg, ls, es, i);
    LeasesStep(cfg, ls, es, n);
    OutcomesStay(cfg, ls, es, i + 1, n, OfInvocation(InvocationOf(ls[n], es[n]).value));
    forall name | name in cfg.groups
      ensures ls[n + 1].groups[name] == ls[n].groups[name]
    {
      GroupStep(cfg, ls, es, n, name);
    }
  }

  // ----- Cooldowns -----

  predicate ReportsOn(cfg: Config, l: Ledger, e: Event, name: string)
    requires cfg.Valid()
  {
    Recorded(l, e) && name in NamesOf(cfg, l, e)
  }

  /** Time of the last report recorded on the group in the first n steps, or 0. */
  function LastReport(cfg: Config, ls: seq<Ledger>, es: seq<Event>, n: nat, name: string): real
    requires IsRun(cfg, ls, es) && n <= |es|
  {
    if n == 0 then 0.0
    else if ReportsOn(cfg, ls[n - 1], es[n - 1], name) then es[n - 1].at
    else LastReport(cfg, ls, es, n - 1, name)
  }

  /** The longest delay one report can ask for. */
  function Reach(cfg: Config): (r: real)
    ensures r >= MAX_HINT_DELAY
  {
    Max(cfg.HintCeiling(), Max(cfg.cooldown, cfg.maxCooldown))
  }

  ghost predicate JitterWithin(es: seq<Event>, J: real) {
    forall i, name: string | 0 <= i < |es| && es[i].Finish? :: 0.0 <= es[i].jitter(name) <= J
  }

  /** No cooldown reaches further than the latest report plus the longest honoured delay
      and the jitter, so no claimed duration can park a group. */
  lemma {:induction false} CooldownReach(cfg: Config, ls: seq<Ledger>, es: seq<Event>, n: nat, J: real, name: string)
    requires IsRun(cfg, ls, es) && Timed(es) && JitterWithin(es, J) && name in cfg.groups && 0.0 <= J && n <= |es|
    ensures var g := ls[n].groups[name];
            g.cooldownUntil.Some? ==> g.cooldownUntil.value <= LastReport(cfg, ls, es, n, name) + Reach(cfg) + J
    ensures n > 0 ==> LastReport(cfg, ls, es, n, name) <= es[n - 1].at
    decreases n
  {
    hide IsRun, StepAt, Tables, Config.Valid, NextGroup, ReportsOn, GroupOk, Reach, Timed;
    RunStarts(cfg, ls, es);
    if n > 0 {
      GroupStep(cfg, ls, es, n - 1, name);
      var l, e := ls[n - 1], es[n - 1];
      CooldownReach(cfg, ls, es, n - 1, J, name);
      ReachableGroup(cfg, ls, es, n - 1, name);
      TimedAt(es, if n > 1 then n - 2 else 0, n - 1);
      ReachStep(cfg, l, e, name, J);
    }
  }

  lemma ReachStep(cfg: Config, l: Ledger, e: Event, name: string, J: real)
    requires cfg.Valid() && Tables(cfg, l) && name in cfg.groups && GroupOk(cfg, name, l.groups[name])
    requires 0.0 <= e.at && (e.Finish? ==> 0.0 <= e.jitter(name) <= J)
    ensures var before, after := l.groups[name].cooldownUntil, NextGroup(cfg, l, e, name).cooldownUntil;
            after.None? || after == before
            || (ReportsOn(cfg, l, e, name)
                && after.value <= Max(e.at + Reach(cfg) + J, if before.Some? then before.value else 0.0))
  {
    hide Decide, NamesOf, IdOf, Feedback, Reach, GroupOk;
    if e.Finish? {
      FeedbackReach(cfg, name, l.groups[name], LeaseOf(l, e), e.category,
                    Clamp(e.retryAfter, cfg.HintCeiling()), e.jitter(name), e.at, J);
    }
  }

  lemma FeedbackReach(cfg: Config, name: string, g: Group, lease: Option<Lease>, category: Category,
                      hint: Option<real>, jitter: real, now: real, J: real)
    requires cfg.Valid() && name in cfg.groups && GroupOk(cfg, name, g)
    requires hint.Some? ==> hint.value <= Max(1.0, cfg.HintCeiling())
    requires 0.0 <= jitter <= J && 0.0 <= now
    ensures var after := Feedback(cfg, name, g, lease, category, hint, jitter, now).cooldownUntil;
            after.None? || after == g.cooldownUntil
            || after.value <= Max(now + Reach(cfg) + J, if g.cooldownUntil.Some? then g.cooldownUntil.value else 0.0)
  {
  }

  lemma ProbingStep(cfg: Config, l: Ledger, e: Event, name: string)
    requires cfg.Valid() && Tables(cfg, l) && name in cfg.groups
    requires l.groups[name].mode == Probing ==> l.groups[name].cooldownUntil.Some?
    ensures var g := NextGroup(cfg, l, e, name); g.mode == Probing ==> g.cooldownUntil.Some?
  {
    hide Decide, NamesOf, IdOf;
  }

  lemma InitialNormal(cfg: Config, name: string)
    requires cfg.Valid() && name in cfg.groups
    ensures name in Initial(cfg).groups && Initial(cfg).groups[name].mode == Normal
  {
  }

  /** A probing group always has a cooldown time. */
  lemma {:induction false} ProbingCools(cfg: Config, ls: seq<Ledger>, es: seq<Event>, n: nat, name: string)
    requires IsRun(cfg, ls, es) && name in cfg.groups && n <= |es|
    ensures ls[n].groups[name].mode == Probing ==> ls[n].groups[name].cooldownUntil.Some?
    decreases n
  {
    hide *;
    RunStarts(cfg, ls, es);
    if n == 0 {
      InitialNormal(cfg, name);
    } else {
      GroupStep(cfg, ls, es, n - 1, name);
      ProbingCools(cfg, ls, es, n - 1, name);
      ProbingStep(cfg, ls[n - 1], es[n - 1], name);
    }
  }

  /** Inside one probing episode, however long, the cooldown time never moves earlier. */
  lemma {:induction false} CooldownNeverEarlier(cfg: Config, ls: seq<Ledger>, es: seq<Event>, i: nat, n: nat, name: string)
    requires IsRun(cfg, ls, es) && name in cfg.groups && i <= n <= |es|
    requires forall m | i <= m <= n :: ls[m].groups[name].mode == Probing
    ensures var before, after := ls[i].groups[name].cooldownUntil, ls[n].groups[name].cooldownUntil;
            before.Some? && after.Some? && before.value <= after.value
    decreases n
  {
    hide *;
    RunStarts(cfg, ls, es);
    if i == n {
      TablesAt(cfg, ls, es, n, name);
      ProbingCools(cfg, ls, es, n, name);
    } else {
      GroupStep(cfg, ls, es, n - 1, name);
      CooldownNeverEarlier(cfg, ls, es, i, n - 1, name);
      CooldownStep(cfg, ls[n - 1], es[n - 1], name);
      TablesAt(cfg, ls, es, i, name);
    }
  }

  lemma TablesAt(cfg: Config, ls: seq<Ledger>, es: seq<Event>, n: nat, name: string)
    requires IsRun(cfg, ls, es) && n <= |es| && name in cfg.groups
    ensures |ls| == |es| + 1 && name in ls[n].groups
  {
  }

  lemma CooldownStep(cfg: Config, l: Ledger, e: Event, name: string)
    requires cfg.Valid() && Tables(cfg, l) && name in cfg.groups
    requires l.groups[name].mode == Probing && NextGroup(cfg, l, e, name).mode == Probing
    requires l.groups[name].cooldownUntil.Some?
    ensures var after := NextGroup(cfg, l, e, name).cooldownUntil;
            after.Some? && l.groups[name].cooldownUntil.value <= after.value
  {
    hide Decide, NamesOf, IdOf;
  }
}
