/** The class `Admission` of agent_pool/admission.py: the ledger's tables, updated in place
    by one method per transaction. Every method is proved against `AdmissionLedger.Step`,
    so the theorems about runs hold of every sequence of calls. */
module AdmissionTables {
  import opened Common
  import opened AdmissionLedger

  /** Configured groups, each once. */
  ghost predicate CoverList(cfg: Config, names: seq<string>) {
    && (forall n | n in names :: n in cfg.groups)
    && (forall i, j | 0 <= i < j < |names| :: names[i] != names[j])
  }

  lemma CoverListOf(cfg: Config, model: string)
    requires cfg.Valid()
    ensures CoverList(cfg, GroupNames(cfg, model))
  {
  }

  /** What a step does to the tables, told apart: enough to conclude the whole step. */
  lemma StepIs(cfg: Config, l: Ledger, e: Event, r: Ledger)
    requires cfg.Valid() && Tables(cfg, l) && Tables(cfg, r)
    requires forall n | n in cfg.groups :: r.groups[n] == NextGroup(cfg, l, e, n)
    requires r.leases == NextLeases(cfg, l, e) && r.outcomes == NextOutcomes(cfg, l, e)
    ensures r == Step(cfg, l, e)
  {
    hide NextGroup, NextLeases, NextOutcomes, Config.Valid;
    assert r.groups == Step(cfg, l, e).groups;
  }

  /** A refused reservation, or one the owner already holds, changes nothing. */
  lemma RefusedStep(cfg: Config, l: Ledger, e: Event)
    requires cfg.Valid() && Tables(cfg, l) && e.Reserve? && Decide(cfg, l, e) in {Refused, AlreadyHeld}
    ensures Step(cfg, l, e) == l
  {
    hide Decide, Config.Valid, GroupNames;
    assert Step(cfg, l, e).groups == l.groups;
  }

  lemma DecideEarly(cfg: Config, l: Ledger, e: Event)
    requires cfg.Valid() && Tables(cfg, l) && e.Reserve?
    ensures e.paused ==> Decide(cfg, l, e) == Refused
    ensures !e.paused && e.owner in l.leases ==> Decide(cfg, l, e) == AlreadyHeld
    ensures !e.paused && e.owner !in l.leases
            && ((e.clone.Some? && exists o | o in l.leases :: l.leases[o].clone == e.clone) || |l.leases| >= e.limit)
            ==> Decide(cfg, l, e) == Refused
  {
    hide Config.Valid, Denied;
  }

  /** How the group loop decides, from the first covering group that denies. */
  lemma DecideByGroups(cfg: Config, l: Ledger, e: Event, i: nat)
    requires cfg.Valid() && Tables(cfg, l) && e.Reserve? && !e.paused && e.owner !in l.leases && |l.leases| < e.limit
    requires !(e.clone.Some? && exists o | o in l.leases :: l.leases[o].clone == e.clone)
    requires var names := GroupNames(cfg, e.model);
             && i <= |names| && (forall j | 0 <= j < i :: !Denied(cfg, l, names[j], e.at))
             && (i < |names| ==> Denied(cfg, l, names[i], e.at))
    ensures var names := GroupNames(cfg, e.model);
            Decide(cfg, l, e) ==
            if i == |names| then Granted(exists n | n in names :: l.groups[n].mode == Probing)
            else if CoolingOrBlocked(l.groups[names[i]], e.at) || l.groups[names[i]].mode != Normal then Refused
            else Saturated(names[i])
  {
    hide Config.Valid, Denied, CoolingOrBlocked;
    assert i == FirstDenied(cfg, l, GroupNames(cfg, e.model), e.at);
  }

  lemma SaturatedStep(cfg: Config, l: Ledger, e: Event, r: Ledger, name: string)
    requires cfg.Valid() && Tables(cfg, l) && e.Reserve? && name in cfg.groups && Decide(cfg, l, e) == Saturated(name)
    requires Tables(cfg, r) && r.leases == l.leases && r.outcomes == l.outcomes
    requires forall n | n in cfg.groups ::
               r.groups[n] == if n == name then l.groups[n].(loaded := Some(e.at)) else l.groups[n]
    ensures r == Step(cfg, l, e)
  {
    hide Config.Valid, Decide, GroupNames, Step;
    StepIs(cfg, l, e, r);
  }

  lemma GrantedStep(cfg: Config, l: Ledger, e: Event, r: Ledger, probe: bool)
    requires cfg.Valid() && Tables(cfg, l) && e.Reserve? && Decide(cfg, l, e) == Granted(probe)
    requires Tables(cfg, r) && r.outcomes == l.outcomes
    requires r.leases == l.leases[e.owner := Lease(e.model, GroupNames(cfg, e.model), e.clone, None, probe, e.at)]
    requires forall n | n in cfg.groups ::
               r.groups[n] == if n in GroupNames(cfg, e.model) then Grow(cfg, n, l.groups[n], e.at) else l.groups[n]
    ensures r == Step(cfg, l, e)
  {
    hide Config.Valid, Decide, GroupNames, Step, Grow;
    StepIs(cfg, l, e, r);
  }

  lemma RecordedStep(cfg: Config, l: Ledger, e: Event, r: Ledger, names: seq<string>, id: OutcomeId)
    requires cfg.Valid() && Tables(cfg, l) && e.Finish? && Tables(cfg, r)
    requires id == IdOf(l, e) && id !in l.outcomes && names == NamesOf(cfg, l, e)
    requires r.leases == l.leases - {e.owner}
    requires r.outcomes == l.outcomes[id := Outcome(e.owner, names, e.category, false, e.at)]
    requires forall n | n in cfg.groups ::
               r.groups[n] == if n in names
                              then Feedback(cfg, n, l.groups[n], LeaseOf(l, e), e.category,
                                            Clamp(e.retryAfter, cfg.HintCeiling()), e.jitter(n), e.at)
                              else l.groups[n]
    ensures r == Step(cfg, l, e)
  {
    hide Config.Valid, GroupNames, Step, Feedback, Clamp;
    StepIs(cfg, l, e, r);
  }

  class Admission {
    const cfg: Config
    var groups: map<string, Group>   // rows written so far; the others hold their fresh state
    var leases: map<string, Lease>
    var outcomes: map<OutcomeId, Outcome>

    ghost predicate Valid()
      reads this
    {
      && cfg.Valid() && groups.Keys <= cfg.groups.Keys
      && (forall o | o in leases :: CoverList(cfg, leases[o].grps))
      && (forall id | id in outcomes :: CoverList(cfg, outcomes[id].grps))
    }

    function Row(name: string): Group
      requires name in cfg.groups
      reads this`groups
    {
      if name in groups then groups[name] else cfg.Fresh(name)
    }

    /** The ledger as every reader sees it: which rows exist yet makes no difference. */
    function View(): (l: Ledger)
      reads this
      ensures Tables(cfg, l) && forall n | n in cfg.groups :: l.groups[n] == Row(n)
      ensures l.leases == leases && l.outcomes == outcomes
    {
      Ledger(map n | n in cfg.groups :: Row(n), leases, outcomes)
    }

    constructor (config: Config)
      requires config.Valid()
      ensures Valid() && cfg == config && View() == Initial(config)
    {
      cfg, groups, leases, outcomes := config, map[], map[], map[];
    }

    /** `_group`: the row, written from configuration on first use. */
    method GroupRow(name: string) returns (g: Group)
      requires name in cfg.groups
      modifies this`groups
      ensures g == old(Row(name)) && groups == old(groups)[name := g]
    {
      if name !in groups {
        groups := groups[name := cfg.Fresh(name)];
      }
      g := groups[name];
      assert groups == old(groups)[name := g];
    }

    method Reserve(paused: bool, owner: string, model: string, clone: Option<string>, limit: int, now: real)
      returns (held: bool)
      requires Valid()
      modifies this
      ensures Valid() && View() == Step(cfg, old(View()), Event.Reserve(paused, owner, model, clone, limit, now))
      ensures held <==> !paused && owner in leases
    {
      hide Config.Valid, GroupNames, Decide, Step, Denied, CoolingOrBlocked, Grow;
      ghost var e := Event.Reserve(paused, owner, model, clone, limit, now);
      ghost var l := View();
      DecideEarly(cfg, l, e);
      if paused || owner in leases {
        RefusedStep(cfg, l, e);
        return !paused;
      }
      if clone.Some? && exists o | o in leases :: leases[o].clone == clone {
        RefusedStep(cfg, l, e);
        return false;
      }
      if |leases| >= limit {
        RefusedStep(cfg, l, e);
        return false;
      }
      held := Admit(owner, model, clone, limit, now);
    }

    /** The group checks of `reserve`, and the grant. */
    method Admit(owner: string, model: string, clone: Option<string>, limit: int, now: real) returns (held: bool)
      requires Valid() && owner !in leases && |leases| < limit
      requires !(clone.Some? && exists o | o in leases :: leases[o].clone == clone)
      modifies this
      ensures Valid() && View() == Step(cfg, old(View()), Event.Reserve(false, owner, model, clone, limit, now))
      ensures held <==> owner in leases
    {
      hide Config.Valid, GroupNames, Decide, Step, Denied, CoolingOrBlocked, Grow;
      var e := Event.Reserve(false, owner, model, clone, limit, now);
      var names := GroupNames(cfg, model);
      CoverListOf(cfg, model);
      var i, probe := Survey(names, now);
      DecideByGroups(cfg, View(), e, i);
      hide CoverList;
      held := i == |names|;
      if held {
        Grant(e, names, probe);
      } else if CoolingOrBlocked(Row(names[i]), now) || Row(names[i]).mode != Normal {
        RefusedStep(cfg, View(), e);
      } else {
        NoteLoad(e, names[i]);
      }
    }

    /** Grows the covering groups and takes the lease. */
    method Grant(e: Event, names: seq<string>, probe: bool)
      requires Valid() && e.Reserve? && CoverList(cfg, names) && names == GroupNames(cfg, e.model)
      requires Decide(cfg, View(), e) == Granted(probe)
      modifies this
      ensures Valid() && View() == Step(cfg, old(View()), e) && e.owner in leases
    {
      hide Config.Valid, GroupNames, Decide, Step, Grow, CoverList;
      GrowAll(names, e.at);
      leases := leases[e.owner := Lease(e.model, names, e.clone, None, probe, e.at)];
      GrantedStep(cfg, old(View()), e, View(), probe);
    }

    /** A group at its target notes that it was asked for more. */
    method NoteLoad(e: Event, name: string)
      requires Valid() && e.Reserve? && name in cfg.groups && Decide(cfg, View(), e) == Saturated(name)
      modifies this`groups
      ensures Valid() && View() == Step(cfg, old(View()), e)
    {
      hide Config.Valid, GroupNames, Decide, Step, CoverList;
      var g := GroupRow(name);
      groups := groups[name := g.(loaded := Some(e.at))];
      SaturatedStep(cfg, old(View()), e, View(), name);
    }

    /** The denial loop of `reserve`: the first group that denies, and whether a willing one
        is probing. */
    method Survey(names: seq<string>, now: real) returns (i: nat, probe: bool)
      requires groups.Keys <= cfg.groups.Keys && forall n | n in names :: n in cfg.groups
      modifies this`groups
      ensures groups.Keys <= cfg.groups.Keys && forall n | n in cfg.groups :: Row(n) == old(Row(n))
      ensures View() == old(View())
      ensures i <= |names| && forall j | 0 <= j < i :: !Denied(cfg, View(), names[j], now)
      ensures i < |names| ==> Denied(cfg, View(), names[i], now)
      ensures i == |names| ==> (probe <==> exists n | n in names :: View().groups[n].mode == Probing)
    {
      hide Denied;
      ghost var l := View();
      i, probe := 0, false;
      while i < |names| && !Denied(cfg, View(), names[i], now)
        invariant i <= |names| && groups.Keys <= cfg.groups.Keys
        invariant forall n | n in cfg.groups :: Row(n) == old(Row(n))
        invariant View() == l
        invariant forall j | 0 <= j < i :: !Denied(cfg, l, names[j], now)
        invariant probe <==> exists j | 0 <= j < i :: l.groups[names[j]].mode == Probing
      {
        var g := GroupRow(names[i]);
        assert View().groups == l.groups;
        probe := probe || g.mode == Probing;
        i := i + 1;
      }
    }

    /** The growth loop of `reserve`. */
    method GrowAll(names: seq<string>, now: real)
      requires groups.Keys <= cfg.groups.Keys && CoverList(cfg, names)
      modifies this`groups
      ensures groups.Keys <= cfg.groups.Keys
      ensures forall n | n in cfg.groups :: Row(n) == if n in names then Grow(cfg, n, old(Row(n)), now) else old(Row(n))
    {
      hide Grow;
      for i := 0 to |names|
        invariant groups.Keys <= cfg.groups.Keys
        invariant forall n | n in cfg.groups ::
                    Row(n) == if n in names[..i] then Grow(cfg, n, old(Row(n)), now) else old(Row(n))
      {
        assert names[i] !in names[..i];
        var g := GroupRow(names[i]);
        groups := groups[names[i] := Grow(cfg, names[i], g, now)];
        assert names[..i + 1] == names[..i] + [names[i]];
      }
      assert names[..|names|] == names;
    }

    /** Binds a reserved lease to its spawned invocation. */
    method Attach(owner: string, invocation: Option<string>, now: real)
      requires Valid()
      modifies this`leases
      ensures Valid() && View() == Step(cfg, old(View()), Event.Attach(owner, invocation, now))
    {
      hide Config.Valid, GroupNames, Step;
      if owner in leases {
        leases := leases[owner := leases[owner].(invocation := invocation)];
      }
      StepIs(cfg, old(View()), Event.Attach(owner, invocation, now), View());
    }

    /** Records one outcome and releases the lease; `raised` when the outcome key clashes, in
        which case the transaction is rolled back. */
    method Finish(owner: string, invocation: Option<string>, model: string, category: Category,
                  retryAfter: Option<real>, jitter: string -> real, now: real) returns (raised: bool)
      requires Valid()
      modifies this
      ensures Valid()
      ensures var e := Event.Finish(owner, invocation, model, category, retryAfter, jitter, now);
              && View() == Step(cfg, old(View()), e)
              && (raised <==> !Repeated(old(View()), e) && !Recorded(old(View()), e))
    {
      hide Config.Valid, GroupNames, Step, Feedback, Clamp;
      ghost var e := Event.Finish(owner, invocation, model, category, retryAfter, jitter, now);
      ghost var l := View();
      var hint := Clamp(retryAfter, cfg.HintCeiling());
      var lease := if owner in leases then Some(leases[owner]) else None;
      var reported := if invocation.Some? then invocation
                      else if lease.Some? then lease.value.invocation else None;
      if reported.Some? && OfInvocation(reported.value) in outcomes {
        leases := leases - {owner};
        StepIs(cfg, l, e, View());
        return false;
      }
      var names := if lease.Some? then lease.value.grps else GroupNames(cfg, model);
      var id := if reported.Some? then OfInvocation(reported.value) else OfOwner(owner, now);
      if id in outcomes {
        StepIs(cfg, l, e, View());
        return true;
      }
      assert CoverList(cfg, names) by { if lease.None? { CoverListOf(cfg, model); } }
      hide CoverList;
      leases := leases - {owner};
      outcomes := outcomes[id := Outcome(owner, names, category, false, now)];
      Report(names, lease, category, hint, jitter, now);
      RecordedStep(cfg, l, e, View(), names, id);
      return false;
    }

    /** The group loop of `finish`. */
    method Report(names: seq<string>, lease: Option<Lease>, category: Category, hint: Option<real>,
                  jitter: string -> real, now: real)
      requires groups.Keys <= cfg.groups.Keys && CoverList(cfg, names)
      modifies this`groups
      ensures groups.Keys <= cfg.groups.Keys
      ensures forall n | n in cfg.groups ::
                Row(n) == if n in names then Feedback(cfg, n, old(Row(n)), lease, category, hint, jitter(n), now)
                          else old(Row(n))
    {
      hide Feedback;
      for i := 0 to |names|
        invariant groups.Keys <= cfg.groups.Keys
        invariant forall n | n in cfg.groups ::
                    Row(n) == if n in names[..i] then Feedback(cfg, n, old(Row(n)), lease, category, hint, jitter(n), now)
                              else old(Row(n))
      {
        assert names[i] !in names[..i];
        var g := GroupRow(names[i]);
        groups := groups[names[i] := Feedback(cfg, names[i], g, lease, category, hint, jitter(names[i]), now)];
        assert names[..i + 1] == names[..i] + [names[i]];
      }
      assert names[..|names|] == names;
    }

    /** Credits a verified useful completion once, to every group of its outcome row. */
    method Credit(row: OutcomeId, now: real)
      requires Valid()
      modifies this
      ensures Valid() && View() == Step(cfg, old(View()), Event.Useful(row, now))
    {
      hide Config.Valid, GroupNames, Step, CoverList;
      if row in outcomes && !outcomes[row].useful {
        var names := outcomes[row].grps;
        outcomes := outcomes[row := outcomes[row].(useful := true)];
        CreditAll(names);
      } else if row in outcomes {
        assert outcomes == outcomes[row := outcomes[row].(useful := true)];
      }
      StepIs(cfg, old(View()), Event.Useful(row, now), View());
    }

    method CreditAll(names: seq<string>)
      requires groups.Keys <= cfg.groups.Keys && CoverList(cfg, names)
      modifies this`groups
      ensures groups.Keys <= cfg.groups.Keys
      ensures forall n | n in cfg.groups ::
                Row(n) == if n in names then old(Row(n)).(useful := old(Row(n)).useful + 1) else old(Row(n))
    {
      for i := 0 to |names|
        invariant groups.Keys <= cfg.groups.Keys
        invariant forall n | n in cfg.groups ::
                    Row(n) == if n in names[..i] then old(Row(n)).(useful := old(Row(n)).useful + 1) else old(Row(n))
      {
        assert names[i] !in names[..i];
        var g := GroupRow(names[i]);
        groups := groups[names[i] := g.(useful := g.useful + 1)];
        assert names[..i + 1] == names[..i] + [names[i]];
      }
      assert names[..|names|] == names;
    }

    method Release(owner: string, now: real)
      requires Valid()
      modifies this`leases
      ensures Valid() && View() == Step(cfg, old(View()), Event.Release(owner, now))
    {
      hide Config.Valid, GroupNames, Step;
      leases := leases - {owner};
      StepIs(cfg, old(View()), Event.Release(owner, now), View());
    }

    /** Operator reset; false for a name that is no configured group, where the source raises. */
    method Reset(name: string, now: real) returns (known: bool)
      requires Valid()
      modifies this`groups
      ensures Valid() && View() == Step(cfg, old(View()), Event.Reset(name, now))
      ensures known <==> name in cfg.groups
    {
      hide Config.Valid, GroupNames, Step;
      known := name in cfg.groups;
      if known {
        var g := GroupRow(name);
        groups := groups[name := g.(mode := Normal, cooldownUntil := None, cooldownLen := cfg.cooldown,
                                    windowStart := now, congestedAt := None, useful := 0, loaded := None)];
      }
      StepIs(cfg, old(View()), Event.Reset(name, now), View());
    }

    /** Drops the leases of owners that no longer exist. */
    method Reconcile(owners: set<string>, now: real)
      requires Valid()
      modifies this`leases
      ensures Valid() && View() == Step(cfg, old(View()), Event.Reconcile(owners, now))
    {
      hide Config.Valid, GroupNames, Step;
      leases := map o | o in leases && o in owners :: leases[o];
      StepIs(cfg, old(View()), Event.Reconcile(owners, now), View());
    }
  }
}
