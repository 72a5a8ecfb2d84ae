/** What each admission call does to leases and groups in every run, in terms of the state
    before it: who is granted a lease, when a target grows, and what a report leaves behind. */
module AdmissionLaws {
  import opened Common
  import opened AdmissionLedger

  // ----- Reports -----

  /** The report is recorded on the group: its invocation, or else its owner and time, is not on
      record yet, and its lease, or else its model, covers the group. */
  ghost predicate Reported(cfg: Config, l: Ledger, e: Event, name: string)
    requires name in cfg.groups
  {
    && e.Finish?
    && (var invocation := if e.invocation.Some? then e.invocation
                          else if e.owner in l.leases then l.leases[e.owner].invocation else None;
        match invocation
        case Some(i) => OfInvocation(i) !in l.outcomes
        case None => OfOwner(e.owner, e.at) !in l.outcomes)
    && (if e.owner in l.leases then name in l.leases[e.owner].grps else e.model in cfg.groups[name].models)
  }

  /** The report was made under a lease granted as a probe. */
  predicate UnderProbe(l: Ledger, e: Event) {
    e.Finish? && e.owner in l.leases && l.leases[e.owner].probe
  }

  /** The delay honoured for a claimed one: rounded up to whole seconds, at least one second and
      at most the longest honoured delay. */
  ghost predicate IsHint(cfg: Config, claimed: Option<real>, hint: Option<real>) {
    var longest := (if cfg.maxCooldown < 7200.0 then 7200.0 else cfg.maxCooldown).Floor;
    match claimed
    case None => hint == None
    case Some(s) =>
      && hint.Some? && hint.value == hint.value.Floor as real
      && 1 <= hint.value.Floor <= longest
      && (hint.value >= s || hint.value.Floor == longest) && (hint.value < s + 1.0 || hint.value.Floor == 1)
  }

  lemma ReportedIs(cfg: Config, l: Ledger, e: Event, name: string)
    requires cfg.Valid() && name in cfg.groups
    ensures Reported(cfg, l, e, name) <==> Recorded(l, e) && name in NamesOf(cfg, l, e)
  {
  }

  lemma ClampIsHint(cfg: Config, claimed: Option<real>)
    ensures IsHint(cfg, claimed, Clamp(claimed, cfg.HintCeiling()))
  {
    if claimed.Some? {
      var up, cap := -((-claimed.value).Floor), cfg.HintCeiling().Floor;
      assert cap >= 7200;
      var h := if up < 1 then 1 else if up < cap then up else cap;
      assert h as real == Clamp(claimed, cfg.HintCeiling()).value;
    }
  }

  lemma ReportStep(cfg: Config, ls: seq<Ledger>, es: seq<Event>, n: nat, name: string) returns (hint: Option<real>)
    requires IsRun(cfg, ls, es) && n < |es| && name in cfg.groups && es[n].Finish?
    ensures cfg.Valid() && |ls| == |es| + 1 && name in ls[n].groups && name in ls[n + 1].groups
    ensures IsHint(cfg, es[n].retryAfter, hint)
    ensures var l, e := ls[n], es[n];
            ls[n + 1].groups[name]
            == if Reported(cfg, l, e, name)
               then Feedback(cfg, name, l.groups[name], LeaseOf(l, e), e.category, hint, e.jitter(name), e.at)
               else l.groups[name]
  {
    hide Reported, Recorded, NamesOf, Feedback, LeaseOf, IsHint, Clamp;
    GroupStep(cfg, ls, es, n, name);
    ReportedIs(cfg, ls[n], es[n], name);
    ClampIsHint(cfg, es[n].retryAfter);
    hint := Clamp(es[n].retryAfter, cfg.HintCeiling());
  }

  /** A rate or endpoint report on a normal group halves its target, rounding up, but not below
      the minimum, and opens a probing episode that cools down from the report on. */
  lemma CongestionHalves(cfg: Config, ls: seq<Ledger>, es: seq<Event>, n: nat, name: string) returns (hint: Option<real>)
    requires IsRun(cfg, ls, es) && n < |es| && name in cfg.groups && es[n].Finish?
    requires Reported(cfg, ls[n], es[n], name)
    requires es[n].category == Rate || es[n].category == Endpoint
    requires ls[n].groups[name].mode == Normal
    ensures IsHint(cfg, es[n].retryAfter, hint)
    ensures var g, r, at, least := ls[n].groups[name], ls[n + 1].groups[name], es[n].at, cfg.groups[name].minimum;
            && r.target >= least
            && (r.target == least || g.target <= 2 * r.target <= g.target + 1)
            && (r.target == least ==> g.target <= 2 * least)
            && r.mode == Probing && r.congestedAt == Some(at) && r.windowStart == at
            && r.cooldownUntil == Some(at + (if hint.Some? then hint.value else g.cooldownLen) + es[n].jitter(name))
            && r.cooldownLen == g.cooldownLen && r.useful == 0 && r.loaded == None
  {
    hide Reported, IsHint, IsRun;
    hint := ReportStep(cfg, ls, es, n, name);
  }

  /** On a group that is probing or blocked it only moves the cooldown later, and doubles the
      cooldown length, up to its maximum, when the report comes from the probe. */
  lemma CongestionExtends(cfg: Config, ls: seq<Ledger>, es: seq<Event>, n: nat, name: string) returns (hint: Option<real>)
    requires IsRun(cfg, ls, es) && n < |es| && name in cfg.groups && es[n].Finish?
    requires Reported(cfg, ls[n], es[n], name)
    requires es[n].category == Rate || es[n].category == Endpoint
    requires ls[n].groups[name].mode != Normal
    ensures IsHint(cfg, es[n].retryAfter, hint)
    ensures var g, r, e := ls[n].groups[name], ls[n + 1].groups[name], es[n];
            var base := if g.cooldownLen != 0.0 then g.cooldownLen else cfg.cooldown;
            var until := e.at + (if hint.Some? then hint.value else base) + e.jitter(name);
            var before := if g.cooldownUntil.Some? then g.cooldownUntil.value else 0.0;
            var doubled := 2.0 * (if g.cooldownLen < cfg.cooldown then cfg.cooldown else g.cooldownLen);
            && r.cooldownUntil == Some(if before < until then until else before)
            && r.cooldownLen == (if !UnderProbe(ls[n], e) then g.cooldownLen
                                 else if doubled < cfg.maxCooldown then doubled else cfg.maxCooldown)
            && r == g.(cooldownUntil := r.cooldownUntil, cooldownLen := r.cooldownLen, congestedAt := Some(e.at))
  {
    hide Reported, IsHint, IsRun;
    hint := ReportStep(cfg, ls, es, n, name);
  }

  /** An auth or credits report blocks the group and ends its cooldown. */
  lemma AuthBlocks(cfg: Config, ls: seq<Ledger>, es: seq<Event>, n: nat, name: string)
    requires IsRun(cfg, ls, es) && n < |es| && name in cfg.groups && es[n].Finish?
    requires Reported(cfg, ls[n], es[n], name)
    requires es[n].category == Auth || es[n].category == Credits
    ensures ls[n + 1].groups[name]
         == ls[n].groups[name].(mode := Blocked, cooldownUntil := None, congestedAt := Some(es[n].at))
  {
    hide Reported, IsHint, IsRun;
    var _ := ReportStep(cfg, ls, es, n, name);
  }

  /** A success reopens the group exactly when it comes from a probe, the group is not blocked,
      and no congestion was recorded on it at or after the probe's grant; a failure backs a
      probing group off exactly when it comes from the probe. Every other report, and a report
      not recorded on the group, leaves the group alone. */
  lemma OtherReports(cfg: Config, ls: seq<Ledger>, es: seq<Event>, n: nat, name: string)
    requires IsRun(cfg, ls, es) && n < |es| && name in cfg.groups && es[n].Finish?
    requires Reported(cfg, ls[n], es[n], name) ==> es[n].category in {Success, Failure, Timeout, Stall}
    ensures var l, g, r, e := ls[n], ls[n].groups[name], ls[n + 1].groups[name], es[n];
            if !Reported(cfg, l, e, name) then r == g
            else if e.category == Success && UnderProbe(l, e) && g.mode != Blocked
                    && (g.congestedAt.Some? ==> g.congestedAt.value < l.leases[e.owner].granted)
            then r == g.(mode := Normal, cooldownUntil := None, cooldownLen := cfg.cooldown, congestedAt := None)
            else if e.category == Failure && UnderProbe(l, e) && g.mode == Probing
            then var until := e.at + (if g.cooldownLen != 0.0 then g.cooldownLen else cfg.cooldown) + e.jitter(name);
                 var before := if g.cooldownUntil.Some? then g.cooldownUntil.value else 0.0;
                 r == g.(cooldownUntil := Some(if before < until then until else before))
            else r == g
  {
    hide Reported, IsHint, IsRun;
    var _ := ReportStep(cfg, ls, es, n, name);
  }

  // ----- Reservations -----

  /** The group takes one more lease on the model now: it is not blocked and not cooling; while
      it is probing no probe of it is out; and its leases leave room below its target, or
      below one while probing, less the slots kept for others. */
  ghost predicate Willing(cfg: Config, l: Ledger, name: string, now: real)
    requires name in cfg.groups && name in l.groups
  {
    var g := l.groups[name];
    var held := |set o | o in l.leases && name in l.leases[o].grps|;
    var room := g.target - cfg.groups[name].externalSlots;
    && g.mode != Blocked && (g.cooldownUntil.Some? ==> now >= g.cooldownUntil.value)
    && (g.mode == Probing ==> !(exists o | o in l.leases :: name in l.leases[o].grps && l.leases[o].probe)
                              && (held < room || held < 1))
    && (g.mode == Normal ==> held < room)
  }

  lemma WillingIs(cfg: Config, l: Ledger, name: string, now: real)
    requires name in cfg.groups && name in l.groups
    ensures Willing(cfg, l, name, now) <==> !Denied(cfg, l, name, now)
  {
    assert l.Holders(name) == set o | o in l.leases && name in l.leases[o].grps;
    var probes := l.Probes(name);
    if o :| o in l.leases && name in l.leases[o].grps && l.leases[o].probe {
      assert o in probes;
      assert |probes| >= 1;
    } else {
      assert probes == {};
    }
  }

  /** The ledger's global conditions for a new lease. */
  predicate Admissible(l: Ledger, e: Event)
    requires e.Reserve?
  {
    && !e.paused && e.owner !in l.leases && |l.leases| < e.limit
    && (e.clone.Some? ==> forall o | o in l.leases :: l.leases[o].clone != e.clone)
  }

  lemma GrantedIs(cfg: Config, l: Ledger, e: Event)
    requires cfg.Valid() && Tables(cfg, l) && e.Reserve?
    ensures Decide(cfg, l, e).Granted?
       <==> Admissible(l, e) && forall n | n in cfg.groups && e.model in cfg.groups[n].models :: Willing(cfg, l, n, e.at)
    ensures Decide(cfg, l, e).Granted? ==>
              (Decide(cfg, l, e).probe <==>
               exists n | n in cfg.groups :: e.model in cfg.groups[n].models && l.groups[n].mode == Probing)
  {
    hide Config.Valid, Willing, Denied;
    var names := GroupNames(cfg, e.model);
    forall n | n in cfg.groups ensures Willing(cfg, l, n, e.at) <==> !Denied(cfg, l, n, e.at) {
      WillingIs(cfg, l, n, e.at);
    }
    var i := FirstDenied(cfg, l, names, e.at);
    if i < |names| {
      assert names[i] in names;
    } else {
      assert forall n | n in names :: !Denied(cfg, l, n, e.at);
    }
  }

  /** A reservation is granted exactly when the ledger is not paused, the owner holds no lease,
      its clone is free, the limit has room and every group covering the model is willing. The
      lease is a probe exactly when one of those groups is probing. */
  lemma ReservesExactly(cfg: Config, ls: seq<Ledger>, es: seq<Event>, n: nat)
    requires IsRun(cfg, ls, es) && n < |es| && es[n].Reserve?
    ensures var l, r, e := ls[n], ls[n + 1], es[n];
            if && Admissible(l, e)
               && forall name | name in cfg.groups && e.model in cfg.groups[name].models :: Willing(cfg, l, name, e.at)
            then && r.leases.Keys == l.leases.Keys + {e.owner} && e.owner !in l.leases
                 && (forall o | o in l.leases :: r.leases[o] == l.leases[o])
                 && var lease := r.leases[e.owner];
                    && lease == Lease(e.model, lease.grps, e.clone, None, lease.probe, e.at)
                    && (forall name :: name in lease.grps <==> name in cfg.groups && e.model in cfg.groups[name].models)
                    && (lease.probe <==> exists name | name in cfg.groups ::
                                           e.model in cfg.groups[name].models && l.groups[name].mode == Probing)
            else r.leases == l.leases
    ensures ls[n + 1].outcomes == ls[n].outcomes
  {
    hide Willing, Decide, Config.Valid, StepAt;
    LeasesStep(cfg, ls, es, n);
    GrantedIs(cfg, ls[n], es[n]);
  }

  /** A grant raises the target of a covering group by one, below the ceiling, exactly when the
      group is normal, has been credited and was asked for more since its window opened, and
      quiet_seconds have passed; the window then starts again. It changes nothing else. */
  lemma GrantGrows(cfg: Config, ls: seq<Ledger>, es: seq<Event>, n: nat, name: string)
    requires IsRun(cfg, ls, es) && n < |es| && es[n].Reserve? && name in cfg.groups
    requires es[n].owner !in ls[n].leases && es[n].owner in ls[n + 1].leases
    ensures var g, r, at, top := ls[n].groups[name], ls[n + 1].groups[name], es[n].at, cfg.groups[name].ceiling;
            if && es[n].model in cfg.groups[name].models && g.mode == Normal && g.useful >= 1
               && g.loaded.Some? && g.loaded.value >= g.windowStart && at - g.windowStart >= cfg.quiet
            then r == g.(target := if g.target < top then g.target + 1 else top,
                         windowStart := at, useful := 0, loaded := None)
            else r == g
  {
    hide Decide, Config.Valid, StepAt;
    LeasesStep(cfg, ls, es, n);
    GroupStep(cfg, ls, es, n, name);
  }

  /** A refused reservation touches a group exactly when that group refuses it for being at its
      target: every group before it is willing, and it is normal and not cooling. It then
      notes that it was asked for more. */
  lemma RefusalNotesLoad(cfg: Config, ls: seq<Ledger>, es: seq<Event>, n: nat, name: string)
    requires IsRun(cfg, ls, es) && n < |es| && es[n].Reserve? && name in cfg.groups
    requires es[n].owner !in ls[n + 1].leases
    ensures var l, e, g, r := ls[n], es[n], ls[n].groups[name], ls[n + 1].groups[name];
            if && Admissible(l, e) && FirstUnwilling(cfg, l, GroupNames(cfg, e.model), name, e.at)
               && g.mode == Normal && !(g.cooldownUntil.Some? && e.at < g.cooldownUntil.value)
            then r == g.(loaded := Some(e.at))
            else r == g
  {
    hide Config.Valid, StepAt, Decide, FirstUnwilling;
    LeasesStep(cfg, ls, es, n);
    GroupStep(cfg, ls, es, n, name);
    SaturatedIs(cfg, ls[n], es[n], name);
  }

  predicate ComesBefore(order: seq<string>, x: string, y: string) {
    exists a, b | 0 <= a < b < |order| :: order[a] == x && order[b] == y
  }

  /** A model's groups are asked in configuration order. */
  lemma GroupsInOrder(cfg: Config, model: string, i: nat, j: nat)
    requires cfg.Valid() && i < j < |GroupNames(cfg, model)|
    ensures ComesBefore(cfg.order, GroupNames(cfg, model)[i], GroupNames(cfg, model)[j])
  {
    NamesInOrder(cfg, model, cfg.order, i, j);
  }

  lemma {:induction false} NamesInOrder(cfg: Config, model: string, order: seq<string>, i: nat, j: nat)
    requires forall n | n in order :: n in cfg.groups
    requires forall a, b | 0 <= a < b < |order| :: order[a] != order[b]
    requires i < j < |NamesFrom(cfg, model, order)|
    ensures ComesBefore(order, NamesFrom(cfg, model, order)[i], NamesFrom(cfg, model, order)[j])
    decreases |order|
  {
    hide ComesBefore;
    var names, rest := NamesFrom(cfg, model, order), NamesFrom(cfg, model, order[1..]);
    if model in cfg.groups[order[0]].models {
      assert names == [order[0]] + rest && names[j] == rest[j - 1];
      if i == 0 {
        assert rest[j - 1] in rest;
        FirstComesBefore(order, names[j]);
      } else {
        NamesInOrder(cfg, model, order[1..], i - 1, j - 1);
        RestComesBefore(order, names[i], names[j]);
      }
    } else {
      assert names == rest;
      NamesInOrder(cfg, model, order[1..], i, j);
      RestComesBefore(order, names[i], names[j]);
    }
  }

  lemma FirstComesBefore(order: seq<string>, y: string)
    requires order != [] && y in order[1..]
    ensures ComesBefore(order, order[0], y)
  {
    var b :| 0 <= b < |order[1..]| && order[1..][b] == y;
    assert order[b + 1] == y;
  }

  lemma RestComesBefore(order: seq<string>, x: string, y: string)
    requires order != [] && ComesBefore(order[1..], x, y)
    ensures ComesBefore(order, x, y)
  {
    var a, b :| 0 <= a < b < |order[1..]| && order[1..][a] == x && order[1..][b] == y;
    assert order[a + 1] == x && order[b + 1] == y;
  }

  /** The group is the first of the model's groups that is not willing. */
  ghost predicate FirstUnwilling(cfg: Config, l: Ledger, names: seq<string>, name: string, now: real)
    requires forall n | n in names :: n in cfg.groups && n in l.groups
  {
    exists i | 0 <= i < |names| ::
      names[i] == name && !Willing(cfg, l, name, now) && forall j | 0 <= j < i :: Willing(cfg, l, names[j], now)
  }

  lemma FirstUnwillingIs(cfg: Config, l: Ledger, names: seq<string>, name: string, now: real)
    requires forall n | n in names :: n in cfg.groups && n in l.groups
    requires forall i, j | 0 <= i < j < |names| :: names[i] != names[j]
    ensures FirstUnwilling(cfg, l, names, name, now)
       <==> FirstDenied(cfg, l, names, now) < |names| && names[FirstDenied(cfg, l, names, now)] == name
  {
    hide Willing, Denied;
    forall j | 0 <= j < |names| ensures Willing(cfg, l, names[j], now) <==> !Denied(cfg, l, names[j], now) {
      WillingIs(cfg, l, names[j], now);
    }
  }

  lemma SaturatedIs(cfg: Config, l: Ledger, e: Event, name: string)
    requires cfg.Valid() && Tables(cfg, l) && e.Reserve? && name in cfg.groups
    ensures (Decide(cfg, l, e) == Saturated(name)) <==>
              (Admissible(l, e) && FirstUnwilling(cfg, l, GroupNames(cfg, e.model), name, e.at)
               && l.groups[name].mode == Normal
               && !(l.groups[name].cooldownUntil.Some? && e.at < l.groups[name].cooldownUntil.value))
  {
    hide Config.Valid, FirstUnwilling, Denied;
    FirstUnwillingIs(cfg, l, GroupNames(cfg, e.model), name, e.at);
  }

  // ----- The other calls -----

  /** A useful completion is credited once, to each group of its outcome; a reset reopens its
      group with a fresh window; attaching, releasing and reconciling touch no group. */
  lemma OtherCalls(cfg: Config, ls: seq<Ledger>, es: seq<Event>, n: nat, name: string)
    requires IsRun(cfg, ls, es) && n < |es| && name in cfg.groups && !es[n].Reserve? && !es[n].Finish?
    ensures var l, g, r, e := ls[n], ls[n].groups[name], ls[n + 1].groups[name], es[n];
            if e.Useful? && e.row in l.outcomes && !l.outcomes[e.row].useful && name in l.outcomes[e.row].grps
            then r == g.(useful := g.useful + 1)
            else if e.Reset? && e.name == name
            then r == Group(g.target, Normal, None, cfg.cooldown, e.at, None, 0, None)
            else r == g
    ensures es[n].Useful? && es[n].row in ls[n].outcomes ==>
              ls[n + 1].outcomes == ls[n].outcomes[es[n].row := ls[n].outcomes[es[n].row].(useful := true)]
  {
    hide Config.Valid, StepAt;
    LeasesStep(cfg, ls, es, n);
    GroupStep(cfg, ls, es, n, name);
  }

  /** A recorded report writes its outcome row, with the groups it was recorded on and no
      credit, and drops the owner's lease; a repeated one only drops the lease; a clash of
      outcome keys changes nothing. */
  lemma ReportsExactly(cfg: Config, ls: seq<Ledger>, es: seq<Event>, n: nat)
    requires IsRun(cfg, ls, es) && n < |es| && es[n].Finish?
    ensures var l, r, e := ls[n], ls[n + 1], es[n];
            var invocation := if e.invocation.Some? then e.invocation
                              else if e.owner in l.leases then l.leases[e.owner].invocation else None;
            var id := match invocation case Some(i) => OfInvocation(i) case None => OfOwner(e.owner, e.at);
            if id !in l.outcomes
            then && r.leases == l.leases - {e.owner}
                 && id in r.outcomes && r.outcomes == l.outcomes[id := r.outcomes[id]]
                 && r.outcomes[id] == Outcome(e.owner, r.outcomes[id].grps, e.category, false, e.at)
                 && forall name | name in cfg.groups :: name in r.outcomes[id].grps <==> Reported(cfg, l, e, name)
            else r.outcomes == l.outcomes && r.leases == if invocation.Some? then l.leases - {e.owner} else l.leases
  {
    hide Config.Valid, StepAt, GroupNames;
    LeasesStep(cfg, ls, es, n);
  }
}
