/** The admission ledger of agent_pool/admission.py: quota groups, inference leases and
    recorded outcomes, and what each transaction does to them. Times are reals; a whole
    transaction is one step, and each step reads the clock once. */
module AdmissionLedger {
  import opened Common

  datatype Mode = Normal | Probing | Blocked

  datatype Category = Success | Rate | Endpoint | Auth | Credits | Failure | Timeout | Stall

  datatype Group = Group(target: int, mode: Mode, cooldownUntil: Option<real>, cooldownLen: real,
                         windowStart: real, loaded: Option<real>, useful: nat, congestedAt: Option<real>)

  datatype Lease = Lease(model: string, grps: seq<string>, clone: Option<string>,
                         invocation: Option<string>, probe: bool, granted: real)

  /** The key of an outcome row: the invocation, or owner and time when there is none. */
  datatype OutcomeId = OfInvocation(id: string) | OfOwner(owner: string, at: real)

  datatype Outcome = Outcome(owner: string, grps: seq<string>, category: Category, useful: bool, at: real)

  datatype GroupConfig = GroupConfig(models: seq<string>, initial: int, minimum: int, ceiling: int,
                                     externalSlots: int)

  const MAX_HINT_DELAY := 7200.0

  function Max(a: real, b: real): real { if a < b then b else a }

  function Min(a: real, b: real): real { if a < b then a else b }

  datatype Config = Config(groups: map<string, GroupConfig>, order: seq<string>, quiet: real,
                           cooldown: real, maxCooldown: real)
  {
    /** What agent_pool/config.py validates. */
    ghost predicate Valid() {
      && (forall i, j | 0 <= i < j < |order| :: order[i] != order[j])
      && (forall n :: n in order <==> n in groups)
      && (forall n | n in groups ::
            1 <= groups[n].minimum <= groups[n].initial <= groups[n].ceiling && 0 <= groups[n].externalSlots)
      && quiet > 0.0 && cooldown > 0.0 && maxCooldown > 0.0
    }

    /** Bounds a provider-claimed delay. */
    function HintCeiling(): real { Max(maxCooldown, MAX_HINT_DELAY) }

    /** A group's state before its first row is written. */
    function Fresh(name: string): Group
      requires name in groups
    {
      Group(groups[name].initial, Normal, None, cooldown, 0.0, None, 0, None)
    }
  }

  /** The groups that cover a model, in configuration order. */
  function GroupNames(cfg: Config, model: string): (r: seq<string>)
    requires cfg.Valid()
    ensures forall n :: n in r <==> n in cfg.groups && model in cfg.groups[n].models
    ensures forall i, j | 0 <= i < j < |r| :: r[i] != r[j]
  {
    NamesFrom(cfg, model, cfg.order)
  }

  function NamesFrom(cfg: Config, model: string, order: seq<string>): (r: seq<string>)
    requires forall n | n in order :: n in cfg.groups
    requires forall i, j | 0 <= i < j < |order| :: order[i] != order[j]
    ensures forall n :: n in r <==> n in order && model in cfg.groups[n].models
    ensures forall i, j | 0 <= i < j < |r| :: r[i] != r[j]
  {
    if order == [] then [] else
      (if model in cfg.groups[order[0]].models then [order[0]] else []) + NamesFrom(cfg, model, order[1..])
  }

  /** `_clamp`: a delay rounded up to whole seconds, at least 1 and at most the cap. */
  function Clamp(seconds: Option<real>, cap: real): (r: Option<real>)
    ensures r.None? <==> seconds.None?
    ensures r.Some? ==> 1.0 <= r.value <= Max(1.0, cap)
  {
    match seconds
    case None => None
    case Some(s) => Some(Min(Max(1.0, (-((-s).Floor)) as real), Max(1.0, cap.Floor as real)))
  }

  datatype Ledger = Ledger(groups: map<string, Group>, leases: map<string, Lease>,
                           outcomes: map<OutcomeId, Outcome>)
  {
    function Holders(name: string): set<string> {
      set o | o in leases && name in leases[o].grps
    }

    function Probes(name: string): set<string> {
      set o | o in leases && name in leases[o].grps && leases[o].probe
    }
  }

  function Initial(cfg: Config): Ledger {
    Ledger(map n | n in cfg.groups :: cfg.Fresh(n), map[], map[])
  }

  // ----- Steps -----

  datatype Event =
    | Reserve(paused: bool, owner: string, model: string, clone: Option<string>, limit: int, at: real)
    | Attach(owner: string, invocation: Option<string>, at: real)
    | Finish(owner: string, invocation: Option<string>, model: string, category: Category,
             retryAfter: Option<real>, jitter: string -> real, at: real)
    | Useful(row: OutcomeId, at: real)
    | Release(owner: string, at: real)
    | Reset(name: string, at: real)
    | Reconcile(owners: set<string>, at: real)

  /** A group's slots open to managed leases under its adaptive target. */
  function Effective(cfg: Config, name: string, g: Group): int
    requires name in cfg.groups
  {
    if g.target < cfg.groups[name].externalSlots then 0 else g.target - cfg.groups[name].externalSlots
  }

  predicate CoolingOrBlocked(g: Group, now: real) {
    g.mode == Blocked || (g.cooldownUntil.Some? && now < g.cooldownUntil.value)
  }

  predicate Denied(cfg: Config, l: Ledger, name: string, now: real)
    requires name in cfg.groups && name in l.groups
  {
    var g := l.groups[name];
    || CoolingOrBlocked(g, now)
    || (g.mode == Probing && (|l.Probes(name)| >= 1
                              || |l.Holders(name)| >= (if Effective(cfg, name, g) < 1 then 1 else Effective(cfg, name, g))))
    || (g.mode == Normal && |l.Holders(name)| >= Effective(cfg, name, g))
  }

  /** The first covering group that denies the lease, or the number of names. */
  function FirstDenied(cfg: Config, l: Ledger, names: seq<string>, now: real): (i: nat)
    requires forall n | n in names :: n in cfg.groups && n in l.groups
    ensures i <= |names| && forall j | 0 <= j < i :: !Denied(cfg, l, names[j], now)
    ensures i < |names| ==> Denied(cfg, l, names[i], now)
  {
    if names == [] || Denied(cfg, l, names[0], now) then 0 else 1 + FirstDenied(cfg, l, names[1..], now)
  }

  datatype Verdict =
    | Refused
    | Saturated(name: string)   // refused by a normal group at its target, which notes the load
    | AlreadyHeld
    | Granted(probe: bool)

  predicate Tables(cfg: Config, l: Ledger) {
    l.groups.Keys == cfg.groups.Keys
  }

  /** How `reserve` decides. */
  function Decide(cfg: Config, l: Ledger, e: Event): Verdict
    requires cfg.Valid() && Tables(cfg, l) && e.Reserve?
  {
    var names := GroupNames(cfg, e.model);
    if e.paused then Refused
    else if e.owner in l.leases then AlreadyHeld
    else if e.clone.Some? && exists o | o in l.leases :: l.leases[o].clone == e.clone then Refused
    else if |l.leases| >= e.limit then Refused
    else
      var i := FirstDenied(cfg, l, names, e.at);
      if i < |names| then
        if CoolingOrBlocked(l.groups[names[i]], e.at) || l.groups[names[i]].mode != Normal
        then Refused else Saturated(names[i])
      else Granted(exists n | n in names :: l.groups[n].mode == Probing)
  }

  /** Adaptive growth of one group when a lease on it is granted. */
  function Grow(cfg: Config, name: string, g: Group, now: real): Group
    requires name in cfg.groups
  {
    if g.mode == Normal && g.useful >= 1 && g.loaded.Some? && g.loaded.value >= g.windowStart
       && now - g.windowStart >= cfg.quiet
    then g.(target := if cfg.groups[name].ceiling < g.target + 1 then cfg.groups[name].ceiling else g.target + 1,
            windowStart := now, useful := 0, loaded := None)
    else g
  }

  /** The lease a report is made under, and the invocation it reports. */
  function LeaseOf(l: Ledger, e: Event): Option<Lease>
    requires e.Finish?
  {
    if e.owner in l.leases then Some(l.leases[e.owner]) else None
  }

  function InvocationOf(l: Ledger, e: Event): Option<string>
    requires e.Finish?
  {
    if e.invocation.Some? then e.invocation
    else if e.owner in l.leases then l.leases[e.owner].invocation
    else None
  }

  predicate Repeated(l: Ledger, e: Event)
    requires e.Finish?
  {
    InvocationOf(l, e).Some? && OfInvocation(InvocationOf(l, e).value) in l.outcomes
  }

  function IdOf(l: Ledger, e: Event): OutcomeId
    requires e.Finish?
  {
    match InvocationOf(l, e)
    case Some(i) => OfInvocation(i)
    case None => OfOwner(e.owner, e.at)
  }

  /** The report is recorded: neither a repeat nor a clash of outcome keys, which raises. */
  predicate Recorded(l: Ledger, e: Event) {
    e.Finish? && IdOf(l, e) !in l.outcomes
  }

  function NamesOf(cfg: Config, l: Ledger, e: Event): seq<string>
    requires cfg.Valid() && e.Finish?
  {
    if e.owner in l.leases then l.leases[e.owner].grps else GroupNames(cfg, e.model)
  }

  /** `_outranked`: newer provider feedback stands against this probe's success. */
  predicate Outranked(g: Group, granted: real) {
    g.mode == Blocked || (g.congestedAt.Some? && g.congestedAt.value >= granted)
  }

  function Halved(cfg: Config, name: string, g: Group): int
    requires name in cfg.groups
  {
    var half := (g.target + 1) / 2;
    if half < cfg.groups[name].minimum then cfg.groups[name].minimum else half
  }

  /** A cooldown length read from the row, or the configured one when the row holds zero. */
  function Length(cfg: Config, hint: Option<real>, g: Group): real {
    if hint.Some? then hint.value else if g.cooldownLen != 0.0 then g.cooldownLen else cfg.cooldown
  }

  function Later(until: Option<real>, t: real): Option<real> {
    Some(Max(if until.Some? then until.value else 0.0, t))
  }

  /** What a recorded report does to one of its groups. */
  function Feedback(cfg: Config, name: string, g: Group, lease: Option<Lease>, category: Category,
                    hint: Option<real>, jitter: real, now: real): Group
    requires name in cfg.groups
  {
    var probe := lease.Some? && lease.value.probe;
    match category
    case Rate | Endpoint =>
      if g.mode == Normal then
        g.(target := Halved(cfg, name, g), mode := Probing,
           cooldownUntil := Some(now + (if hint.Some? then hint.value else g.cooldownLen) + jitter),
           windowStart := now, congestedAt := Some(now), useful := 0, loaded := None)
      else
        g.(cooldownUntil := Later(g.cooldownUntil, now + Length(cfg, hint, g) + jitter),
           cooldownLen := if probe then Min(cfg.maxCooldown, Max(g.cooldownLen, cfg.cooldown) * 2.0) else g.cooldownLen,
           congestedAt := Some(now))
    case Auth | Credits =>
      g.(mode := Blocked, cooldownUntil := None, congestedAt := Some(now))
    case Success =>
      if probe && !Outranked(g, lease.value.granted)
      then g.(mode := Normal, cooldownUntil := None, cooldownLen := cfg.cooldown, congestedAt := None)
      else g
    case Failure =>
      if probe && g.mode == Probing
      then g.(cooldownUntil := Later(g.cooldownUntil, now + Length(cfg, None, g) + jitter))
      else g
    case _ => g
  }

  /** One group after a step. */
  function NextGroup(cfg: Config, l: Ledger, e: Event, name: string): Group
    requires cfg.Valid() && Tables(cfg, l) && name in cfg.groups
  {
    var g := l.groups[name];
    match e
    case Reserve(_, _, model, _, _, at) =>
      var v := Decide(cfg, l, e);
      if v == Saturated(name) then g.(loaded := Some(at))
      else if v.Granted? && name in GroupNames(cfg, model) then Grow(cfg, name, g, at)
      else g
    case Finish(_, _, _, category, retryAfter, jitter, at) =>
      if Recorded(l, e) && name in NamesOf(cfg, l, e)
      then Feedback(cfg, name, g, LeaseOf(l, e), category, Clamp(retryAfter, cfg.HintCeiling()), jitter(name), at)
      else g
    case Useful(row, _) =>
      if row in l.outcomes && !l.outcomes[row].useful && name in l.outcomes[row].grps
      then g.(useful := g.useful + 1) else g
    case Reset(n, at) =>
      if n == name
      then g.(mode := Normal, cooldownUntil := None, cooldownLen := cfg.cooldown, windowStart := at,
              congestedAt := None, useful := 0, loaded := None)
      else g
    case _ => g
  }

  function NextLeases(cfg: Config, l: Ledger, e: Event): map<string, Lease>
    requires cfg.Valid() && Tables(cfg, l)
  {
    match e
    case Reserve(_, owner, model, clone, _, at) =>
      var v := Decide(cfg, l, e);
      if v.Granted? then l.leases[owner := Lease(model, GroupNames(cfg, model), clone, None, v.probe, at)]
      else l.leases
    case Attach(owner, invocation, _) =>
      if owner in l.leases then l.leases[owner := l.leases[owner].(invocation := invocation)] else l.leases
    case Finish(owner, _, _, _, _, _, _) =>
      if Repeated(l, e) || Recorded(l, e) then l.leases - {owner} else l.leases
    case Release(owner, _) => l.leases - {owner}
    case Reconcile(owners, _) => map o | o in l.leases && o in owners :: l.leases[o]
    case _ => l.leases
  }

  function NextOutcomes(cfg: Config, l: Ledger, e: Event): map<OutcomeId, Outcome>
    requires cfg.Valid()
  {
    match e
    case Finish(owner, _, _, category, _, _, at) =>
      if Recorded(l, e) then l.outcomes[IdOf(l, e) := Outcome(owner, NamesOf(cfg, l, e), category, false, at)]
      else l.outcomes
    case Useful(row, _) =>
      if row in l.outcomes then l.outcomes[row := l.outcomes[row].(useful := true)] else l.outcomes
    case _ => l.outcomes
  }

  function Step(cfg: Config, l: Ledger, e: Event): (r: Ledger)
    requires cfg.Valid() && Tables(cfg, l)
    ensures Tables(cfg, r)
  {
    Ledger(map n | n in cfg.groups :: NextGroup(cfg, l, e, n), NextLeases(cfg, l, e), NextOutcomes(cfg, l, e))
  }

  // ----- Runs -----

  ghost predicate StepAt(cfg: Config, ls: seq<Ledger>, es: seq<Event>, n: nat)
    requires cfg.Valid() && n < |es| && n + 1 < |ls| && Tables(cfg, ls[n])
  {
    ls[n + 1] == Step(cfg, ls[n], es[n])
  }

  /** A run from an empty store: ls[n] is the ledger before step n. */
  ghost predicate IsRun(cfg: Config, ls: seq<Ledger>, es: seq<Event>) {
    && cfg.Valid() && |ls| == |es| + 1 && ls[0] == Initial(cfg)
    && (forall n | 0 <= n < |ls| :: Tables(cfg, ls[n]))
    && (forall n: nat {:trigger StepAt(cfg, ls, es, n)} | n < |es| :: StepAt(cfg, ls, es, n))
  }

  lemma RunStarts(cfg: Config, ls: seq<Ledger>, es: seq<Event>)
    requires IsRun(cfg, ls, es)
    ensures cfg.Valid() && |ls| == |es| + 1 && ls[0] == Initial(cfg) && Tables(cfg, ls[0])
  {
  }

  lemma GroupStep(cfg: Config, ls: seq<Ledger>, es: seq<Event>, n: nat, name: string)
    requires IsRun(cfg, ls, es) && n < |es| && name in cfg.groups
    ensures cfg.Valid() && |ls| == |es| + 1 && Tables(cfg, ls[n]) && Tables(cfg, ls[n + 1])
    ensures name in ls[n].groups && name in ls[n + 1].groups
    ensures ls[n + 1].groups[name] == NextGroup(cfg, ls[n], es[n], name)
  {
    hide NextGroup, NextLeases, NextOutcomes;
    assert StepAt(cfg, ls, es, n);
  }

  lemma LeasesStep(cfg: Config, ls: seq<Ledger>, es: seq<Event>, n: nat)
    requires IsRun(cfg, ls, es) && n < |es|
    ensures cfg.Valid() && |ls| == |es| + 1 && Tables(cfg, ls[n])
    ensures ls[n + 1].leases == NextLeases(cfg, ls[n], es[n])
    ensures ls[n + 1].outcomes == NextOutcomes(cfg, ls[n], es[n])
  {
    hide NextGroup, NextLeases, NextOutcomes;
    assert StepAt(cfg, ls, es, n);
  }
}
