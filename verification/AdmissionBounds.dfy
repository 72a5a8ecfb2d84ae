/** Bounds kept in every reachable admission state: group targets, cooldown lengths, the
    lease count, clone ownership and per-group activity. */
module AdmissionBounds {
  import opened Common
  import opened AdmissionLedger

  /** One group's row is consistent: its target is in range, it is normal exactly when it
      carries no congestion time, and only a troubled group cools down. */
  ghost predicate GroupOk(cfg: Config, name: string, g: Group)
    requires name in cfg.groups
  {
    && cfg.groups[name].minimum <= g.target <= cfg.groups[name].ceiling
    && (g.mode == Normal <==> g.congestedAt.None?)
    && (g.mode == Normal ==> g.cooldownUntil.None?)
    && 0.0 < g.cooldownLen <= Max(cfg.cooldown, cfg.maxCooldown)
  }

  lemma FeedbackKeepsGroup(cfg: Config, name: string, g: Group, lease: Option<Lease>, category: Category,
                           hint: Option<real>, jitter: real, now: real)
    requires cfg.Valid() && name in cfg.groups && GroupOk(cfg, name, g)
    ensures GroupOk(cfg, name, Feedback(cfg, name, g, lease, category, hint, jitter, now))
  {
  }

  lemma StepKeepsGroup(cfg: Config, l: Ledger, e: Event, name: string)
    requires cfg.Valid() && Tables(cfg, l) && name in cfg.groups
    requires GroupOk(cfg, name, l.groups[name])
    ensures GroupOk(cfg, name, NextGroup(cfg, l, e, name))
  {
    if e.Finish? {
      FeedbackKeepsGroup(cfg, name, l.groups[name], LeaseOf(l, e), e.category,
                         Clamp(e.retryAfter, cfg.HintCeiling()), e.jitter(name), e.at);
    }
  }

  lemma InitialOk(cfg: Config, name: string)
    requires cfg.Valid() && name in cfg.groups
    ensures name in Initial(cfg).groups && GroupOk(cfg, name, Initial(cfg).groups[name])
    ensures |Initial(cfg).Holders(name)| <= SlotBound(cfg, name)
  {
    assert Initial(cfg).Holders(name) == {};
  }

  /** In every reachable state every group's row is consistent; in particular
      minimum <= target <= ceiling, and doubling keeps the cooldown length bounded. */
  lemma {:induction false} ReachableGroup(cfg: Config, ls: seq<Ledger>, es: seq<Event>, n: nat, name: string)
    requires IsRun(cfg, ls, es) && n <= |es| && name in cfg.groups
    ensures GroupOk(cfg, name, ls[n].groups[name])
    decreases n
  {
    hide *;
    RunStarts(cfg, ls, es);
    if n == 0 {
      InitialOk(cfg, name);
    } else {
      GroupStep(cfg, ls, es, n - 1, name);
      ReachableGroup(cfg, ls, es, n - 1, name);
      StepKeepsGroup(cfg, ls[n - 1], es[n - 1], name);
    }
  }

  // ----- Leases -----

  function SlotBound(cfg: Config, name: string): int
    requires name in cfg.groups
  {
    var open := cfg.groups[name].ceiling - cfg.groups[name].externalSlots;
    if open < 1 then 1 else open
  }

  /** A lease that is new after a step was granted by it. */
  lemma LeaseNew(cfg: Config, l: Ledger, e: Event, o: string)
    requires cfg.Valid() && Tables(cfg, l) && o !in l.leases && o in NextLeases(cfg, l, e)
    ensures e.Reserve? && e.owner == o
    ensures var r := NextLeases(cfg, l, e)[o];
            && Decide(cfg, l, e) == Granted(r.probe) && r.granted == e.at && r.model == e.model
            && r.clone == e.clone && r.grps == GroupNames(cfg, e.model)
  {
  }

  /** A lease a step leaves in place changes at most its bound invocation. */
  lemma LeaseKept(cfg: Config, l: Ledger, e: Event, o: string)
    requires cfg.Valid() && Tables(cfg, l) && o in l.leases && o in NextLeases(cfg, l, e)
    ensures var g, r := l.leases[o], NextLeases(cfg, l, e)[o];
            && r.granted == g.granted && r.probe == g.probe && r.grps == g.grps
            && r.model == g.model && r.clone == g.clone
  {
  }

  /** Every lease covers exactly its model's groups. */
  lemma {:induction false} LeaseCoversItsModel(cfg: Config, ls: seq<Ledger>, es: seq<Event>, n: nat, o: string)
    requires IsRun(cfg, ls, es) && n <= |es| && o in ls[n].leases
    ensures ls[n].leases[o].grps == GroupNames(cfg, ls[n].leases[o].model)
    decreases n
  {
    hide NextLeases, GroupNames, Decide;
    if n > 0 {
      LeasesStep(cfg, ls, es, n - 1);
      if o in ls[n - 1].leases {
        LeaseCoversItsModel(cfg, ls, es, n - 1, o);
        LeaseKept(cfg, ls[n - 1], es[n - 1], o);
      } else {
        LeaseNew(cfg, ls[n - 1], es[n - 1], o);
      }
    }
  }

  /** A newly granted lease takes a clone nobody holds. */
  lemma GrantedClone(cfg: Config, l: Ledger, e: Event, o: string)
    requires cfg.Valid() && Tables(cfg, l) && e.Reserve? && Decide(cfg, l, e).Granted?
    requires o in l.leases && e.clone.Some?
    ensures l.leases[o].clone != e.clone
  {
  }

  /** No two leases share a clone. */
  lemma {:induction false} ClonesDistinct(cfg: Config, ls: seq<Ledger>, es: seq<Event>, n: nat, o: string, p: string)
    requires IsRun(cfg, ls, es) && n <= |es| && o in ls[n].leases && p in ls[n].leases && o != p
    requires ls[n].leases[o].clone.Some?
    ensures ls[n].leases[o].clone != ls[n].leases[p].clone
    decreases n
  {
    hide NextLeases, GroupNames, Decide;
    if n > 0 {
      var l, e := ls[n - 1], es[n - 1];
      LeasesStep(cfg, ls, es, n - 1);
      if o in l.leases { LeaseKept(cfg, l, e, o); } else { LeaseNew(cfg, l, e, o); }
      if p in l.leases { LeaseKept(cfg, l, e, p); } else { LeaseNew(cfg, l, e, p); }
      if o in l.leases && p in l.leases {
        ClonesDistinct(cfg, ls, es, n - 1, o, p);
      } else if o in l.leases && e.clone.Some? {
        GrantedClone(cfg, l, e, o);
      } else if p in l.leases {
        GrantedClone(cfg, l, e, p);
      }
    }
  }

  /** Every reservation of the run asks for at most the given limit; a limit that never
      shrinks makes its last value such a bound. */
  ghost predicate LimitedBy(es: seq<Event>, limit: int) {
    forall i | 0 <= i < |es| && es[i].Reserve? :: es[i].limit <= limit
  }

  lemma LeaseCountStep(cfg: Config, l: Ledger, e: Event)
    requires cfg.Valid() && Tables(cfg, l)
    ensures var r := NextLeases(cfg, l, e);
            |r| <= |l.leases| || (e.Reserve? && |r| <= e.limit)
  {
    var r := NextLeases(cfg, l, e);
    assert |r| == |r.Keys| && |l.leases| == |l.leases.Keys|;
    if e.Reserve? && Decide(cfg, l, e).Granted? {
      GrantedIsNew(cfg, l, e);
    } else {
      assert r.Keys <= l.leases.Keys;
      SubsetSize(r.Keys, l.leases.Keys);
    }
  }

  lemma {:induction false} LeasesWithinLimit(cfg: Config, ls: seq<Ledger>, es: seq<Event>, n: nat, limit: nat)
    requires IsRun(cfg, ls, es) && LimitedBy(es, limit) && n <= |es|
    ensures |ls[n].leases| <= limit
    decreases n
  {
    hide NextLeases, StepAt;
    if n > 0 {
      LeasesWithinLimit(cfg, ls, es, n - 1, limit);
      LeasesStep(cfg, ls, es, n - 1);
      LeaseCountStep(cfg, ls[n - 1], es[n - 1]);
    }
  }

  /** A granted lease finds every covering group willing. */
  lemma GrantedIsNotDenied(cfg: Config, l: Ledger, e: Event, name: string)
    requires cfg.Valid() && Tables(cfg, l) && e.Reserve? && Decide(cfg, l, e).Granted?
    requires name in GroupNames(cfg, e.model)
    ensures !Denied(cfg, l, name, e.at) && e.owner !in l.leases
  {
  }

  lemma GrantedIsNew(cfg: Config, l: Ledger, e: Event)
    requires cfg.Valid() && Tables(cfg, l) && e.Reserve? && Decide(cfg, l, e).Granted?
    ensures e.owner !in l.leases && |l.leases| < e.limit
  {
  }

  lemma WillingHasRoom(cfg: Config, l: Ledger, name: string, now: real)
    requires cfg.Valid() && Tables(cfg, l) && name in cfg.groups && GroupOk(cfg, name, l.groups[name])
    requires !Denied(cfg, l, name, now)
    ensures |l.Holders(name)| < SlotBound(cfg, name)
  {
  }

  lemma HoldersStep(cfg: Config, l: Ledger, r: Ledger, e: Event, name: string)
    requires cfg.Valid() && Tables(cfg, l) && name in cfg.groups && r.leases == NextLeases(cfg, l, e)
    ensures if e.Reserve? && Decide(cfg, l, e).Granted? && name in GroupNames(cfg, e.model)
            then r.Holders(name) <= l.Holders(name) + {e.owner}
            else r.Holders(name) <= l.Holders(name)
  {
    hide Decide, GroupNames, NextLeases;
    forall o | o in r.Holders(name) && o !in l.Holders(name)
      ensures e.Reserve? && Decide(cfg, l, e).Granted? && o == e.owner && name in GroupNames(cfg, e.model)
    {
      if o in l.leases { LeaseKept(cfg, l, e, o); } else { LeaseNew(cfg, l, e, o); }
    }
  }

  /** A group's active leases never exceed max(1, ceiling - external slots). */
  lemma {:induction false} ActiveWithinSlots(cfg: Config, ls: seq<Ledger>, es: seq<Event>, n: nat, name: string)
    requires IsRun(cfg, ls, es) && n <= |es| && name in cfg.groups
    ensures |ls[n].Holders(name)| <= SlotBound(cfg, name)
    decreases n
  {
    hide *;
    RunStarts(cfg, ls, es);
    if n == 0 {
      InitialOk(cfg, name);
    } else {
      LeasesStep(cfg, ls, es, n - 1);
      var l, e := ls[n - 1], es[n - 1];
      ActiveWithinSlots(cfg, ls, es, n - 1, name);
      HoldersStep(cfg, l, ls[n], e, name);
      if e.Reserve? && Decide(cfg, l, e).Granted? && name in GroupNames(cfg, e.model) {
        ReachableGroup(cfg, ls, es, n - 1, name);
        GrantedIsNotDenied(cfg, l, e, name);
        WillingHasRoom(cfg, l, name, e.at);
        SubsetSize(ls[n].Holders(name), l.Holders(name) + {e.owner});
      } else {
        SubsetSize(ls[n].Holders(name), l.Holders(name));
      }
    }
  }
}
