/** The QA findings lane of agent_pool/findings.py: routing, fix verification, follow-ups for
    failed fixes, and verifications parked on a failed lookup. */
module Findings {
  import opened Common

  datatype Kind = Defect | Capability | Infrastructure

  datatype Status =
    | Recorded | Held | Infra | Candidate | Disposed
    | IssueOpen | Redispatched | FixMerged | Verified | Failed | Unresolved

  /** `completed` is the stored report status, `cause` whether the payload names a product cause. */
  datatype Finding = Finding(kind: Kind, cause: bool, completed: bool, status: Status, issue: Option<int>,
                             fixSha: Option<string>, cycles: nat)

  datatype Verdict = Passed | Failing | Inconclusive

  /** One verification entry with the assessed revision of its report. */
  datatype Entry = Entry(fixSha: Option<string>, testCase: string, tested: Option<string>, reportSha: Option<string>,
                         ancestry: bool, outcome: Verdict, evidence: bool)

  datatype Lane = Lane(findings: map<string, Finding>, stash: map<string, Entry>)

  /** max_open and max_fix_cycles, both validated to be at least 1. */
  datatype Config = Config(maxOpen: int, maxCycles: int) {
    predicate Valid() { maxOpen >= 1 && maxCycles >= 1 }
  }

  /** An existing managed issue that carries the finding's marker. */
  datatype Known = Known(number: int, closed: bool)

  datatype Lookup = Contained | NotContained | LookupError

  /** What the finished job's pull request says about the merge. */
  datatype Merge = NoPr | PrError | NoCommit | Commit(sha: string)

  predicate CountsAsOpen(s: Status) {
    s in {Recorded, IssueOpen, Redispatched, FixMerged, Failed, Candidate}
  }

  function OpenCount(l: Lane): int {
    |set k | k in l.findings && CountsAsOpen(l.findings[k].status)|
  }

  // ----- One finding -----

  /** `_route` for a new or unrouted finding; `published` is the created issue, if it could be. */
  function Route(cfg: Config, f: Finding, known: Option<Known>, open: int, canCreate: bool, published: Option<int>): Finding {
    if known.Some? then
      f.(status := if known.value.closed then Failed else IssueOpen, issue := Some(known.value.number), cycles := 1)
    else if f.kind == Infrastructure && !f.cause then f.(status := Infra)
    else if f.kind == Capability then f.(status := Candidate)
    else if !canCreate || open >= cfg.maxOpen then f.(status := Held)
    else if published.None? then f.(status := Recorded)
    else f.(status := IssueOpen, issue := published, cycles := 1)
  }

  /** `_redispatch`: a linked follow-up for a failed fix, bounded by max_fix_cycles. */
  function Redispatch(cfg: Config, f: Finding, published: Option<int>): Finding {
    if f.issue.None? || f.cycles >= cfg.maxCycles then f.(status := Unresolved)
    else if published.None? then f
    else f.(status := Redispatched, issue := published, cycles := f.cycles + 1, fixSha := None)
  }

  /** Every gate of `apply_verification` before the containment lookup. */
  predicate Gates(key: string, f: Finding, entry: Entry) {
    && f.status == FixMerged && f.fixSha.Some? && entry.fixSha == f.fixSha
    && entry.testCase == key && entry.tested.Some? && entry.tested == entry.reportSha
    && entry.ancestry && entry.outcome != Inconclusive && entry.evidence
  }

  /** `apply_verification` on the finding. */
  function Verify(cfg: Config, key: string, f: Finding, entry: Entry, lookup: Lookup, published: Option<int>): Finding {
    if !Gates(key, f, entry) || lookup != Contained then f
    else if entry.outcome == Passed then f.(status := Verified)
    else Redispatch(cfg, f.(status := Failed), published)
  }

  /** `route_pending` for one finding that still owes routing. */
  function Sweep(cfg: Config, f: Finding, known: Option<Known>, published: Option<int>): Finding {
    if f.status == Failed then Redispatch(cfg, f, published)
    else if f.status != Held && f.status != Recorded then f
    else if f.status == Recorded && !f.completed then f
    else if f.kind == Infrastructure && !f.cause then f.(status := Infra)
    else if f.kind == Capability then f.(status := Candidate)
    else
      var cycles := if f.cycles < 1 then 1 else f.cycles;
      if known.Some? then
        f.(status := if known.value.closed then Failed else IssueOpen, issue := Some(known.value.number), cycles := cycles)
      else if published.None? then f
      else f.(status := IssueOpen, issue := published, cycles := cycles)
  }

  /** `reconcile_merged` for one finding whose issue's job is done. */
  function Merged(f: Finding, merge: Merge): Finding {
    if f.status != IssueOpen && f.status != Redispatched then f
    else match merge
      case NoPr => f.(status := FixMerged, fixSha := None)
      case Commit(sha) => f.(status := FixMerged, fixSha := Some(sha))
      case _ => f
  }

  /** A finding of an ingested report: new, re-observed, or regressed. */
  function Observe(cfg: Config, l: Lane, e: Event): Finding
    requires e.Observed?
  {
    if e.key !in l.findings then
      var f := Finding(e.kind, e.cause, e.completed, Recorded, None, None, 0);
      if e.routing then Route(cfg, f, e.known, OpenCount(l), e.canCreate, e.published) else f
    else
      var f := l.findings[e.key].(kind := e.kind, cause := e.cause, completed := e.completed);
      if e.routing && (f.status == Recorded || f.status == Held)
      then Route(cfg, f, e.known, OpenCount(l), e.canCreate, e.published)
      else if f.status == Verified && e.kind == Defect then f.(status := Failed)
      else f
  }

  // ----- Steps of the lane -----

  datatype Event =
    | Observed(key: string, kind: Kind, cause: bool, completed: bool, routing: bool, known: Option<Known>,
               canCreate: bool, published: Option<int>)
    | Verification(key: string, entry: Entry, lookup: Lookup, published: Option<int>)
    | RetryParked(key: string, lookup: Lookup, published: Option<int>)
    | Swept(key: string, known: Option<Known>, published: Option<int>)
    | MergeSeen(key: string, merge: Merge)
    | Disposition(key: string)

  /** A lookup that fails after all gates passed parks the entry. */
  predicate Parks(l: Lane, key: string, entry: Entry, lookup: Lookup) {
    key in l.findings && Gates(key, l.findings[key], entry) && lookup == LookupError
  }

  function NextFinding(cfg: Config, l: Lane, e: Event): Finding
    requires e.key in l.findings || e.Observed?
  {
    match e
    case Observed(_, _, _, _, _, _, _, _) => Observe(cfg, l, e)
    case Verification(key, entry, lookup, published) => Verify(cfg, key, l.findings[key], entry, lookup, published)
    case RetryParked(key, lookup, published) =>
      if key in l.stash then Verify(cfg, key, l.findings[key], l.stash[key], lookup, published) else l.findings[key]
    case Swept(key, known, published) => Sweep(cfg, l.findings[key], known, published)
    case MergeSeen(key, merge) => Merged(l.findings[key], merge)
    case Disposition(key) =>
      if l.findings[key].status == Candidate then l.findings[key].(status := Disposed) else l.findings[key]
  }

  function NextStash(l: Lane, e: Event): map<string, Entry> {
    match e
    case Verification(key, entry, lookup, _) => if Parks(l, key, entry, lookup) then l.stash[key := entry] else l.stash
    case RetryParked(key, lookup, _) =>
      if key in l.stash && !Parks(l, key, l.stash[key], lookup) then l.stash - {key} else l.stash
    case _ => l.stash
  }

  function Step(cfg: Config, l: Lane, e: Event): Lane {
    if e.key in l.findings || e.Observed?
    then Lane(l.findings[e.key := NextFinding(cfg, l, e)], NextStash(l, e))
    else l.(stash := NextStash(l, e))
  }

  // ----- The lifecycle measure -----

  predicate Routed(s: Status) {
    s in {IssueOpen, Redispatched, FixMerged, Verified, Failed, Unresolved}
  }

  function Rank(s: Status): nat {
    match s
    case IssueOpen | Redispatched => 4
    case FixMerged => 3
    case Verified => 2
    case Failed => 1
    case _ => 0
  }

  function Measure(cfg: Config, f: Finding): int {
    5 * (cfg.maxCycles - f.cycles) + Rank(f.status)
  }

  /** A routed finding is in its first to last fix cycle, an unrouted one before the first. */
  ghost predicate CyclesOk(cfg: Config, f: Finding) {
    if Routed(f.status) then 1 <= f.cycles <= cfg.maxCycles else f.cycles == 0
  }

  ghost predicate LaneOk(cfg: Config, l: Lane) {
    forall k | k in l.findings :: CyclesOk(cfg, l.findings[k])
  }

  /** Every status change of a routed finding strictly decreases the measure, nothing else
      moves it, and a routed finding stays routed. */
  lemma RoutedDescends(cfg: Config, l: Lane, e: Event)
    requires cfg.Valid() && e.key in l.findings && CyclesOk(cfg, l.findings[e.key])
    ensures var f, g := l.findings[e.key], NextFinding(cfg, l, e);
            && CyclesOk(cfg, g)
            && (Routed(f.status) ==>
                  Routed(g.status) && 0 <= Measure(cfg, g)
                  && (g.status != f.status ==> Measure(cfg, g) < Measure(cfg, f))
                  && (g.status == f.status ==> Measure(cfg, g) == Measure(cfg, f)))
            && (!Routed(f.status) && Routed(g.status) ==> Measure(cfg, g) <= 5 * cfg.maxCycles - 1)
  {
    hide OpenCount;
  }

  lemma NewIsOk(cfg: Config, l: Lane, e: Event)
    requires cfg.Valid() && e.key !in l.findings && e.Observed?
    ensures CyclesOk(cfg, NextFinding(cfg, l, e))
    ensures Routed(NextFinding(cfg, l, e).status) ==> Measure(cfg, NextFinding(cfg, l, e)) <= 5 * cfg.maxCycles - 1
  {
    hide OpenCount;
  }

  // ----- Runs -----

  ghost predicate StepAt(cfg: Config, ls: seq<Lane>, es: seq<Event>, n: nat)
    requires n < |es| && n + 1 < |ls|
  {
    ls[n + 1] == Step(cfg, ls[n], es[n])
  }

  ghost predicate IsRun(cfg: Config, ls: seq<Lane>, es: seq<Event>) {
    && cfg.Valid() && |ls| == |es| + 1 && ls[0] == Lane(map[], map[])
    && forall n: nat {:trigger StepAt(cfg, ls, es, n)} | n < |es| :: StepAt(cfg, ls, es, n)
  }

  lemma RunStep(cfg: Config, ls: seq<Lane>, es: seq<Event>, n: nat)
    requires IsRun(cfg, ls, es) && n < |es|
    ensures cfg.Valid() && |ls| == |es| + 1 && ls[n + 1] == Step(cfg, ls[n], es[n])
  {
    assert StepAt(cfg, ls, es, n);
  }

  /** In every reachable lane no finding exceeds max_fix_cycles. */
  lemma {:induction false} CyclesBounded(cfg: Config, ls: seq<Lane>, es: seq<Event>, n: nat)
    requires IsRun(cfg, ls, es) && n <= |es|
    ensures LaneOk(cfg, ls[n])
    decreases n
  {
    if n > 0 {
      hide NextFinding, NextStash, CyclesOk;
      var l, e := ls[n - 1], es[n - 1];
      RunStep(cfg, ls, es, n - 1);
      CyclesBounded(cfg, ls, es, n - 1);
      if e.key in l.findings {
        RoutedDescends(cfg, l, e);
      } else if e.Observed? {
        NewIsOk(cfg, l, e);
      }
    }
  }

  function StatusOf(l: Lane, key: string): Option<Status> {
    if key in l.findings then Some(l.findings[key].status) else None
  }

  /** How often the finding changed status, once routed, in the first n steps. */
  function Changes(ls: seq<Lane>, n: nat, key: string): nat
    requires n < |ls|
  {
    if n == 0 then 0 else
      var before, after := StatusOf(ls[n - 1], key), StatusOf(ls[n], key);
      Changes(ls, n - 1, key) + if before.Some? && Routed(before.value) && before != after then 1 else 0
  }

  /** The lifecycle is finite: a routed finding changes status fewer than 5*max_fix_cycles
      times over any run. */
  lemma {:induction false} LifecycleBounded(cfg: Config, ls: seq<Lane>, es: seq<Event>, n: nat, key: string)
    requires IsRun(cfg, ls, es) && n <= |es|
    ensures if key in ls[n].findings && Routed(ls[n].findings[key].status)
            then Changes(ls, n, key) + Measure(cfg, ls[n].findings[key]) <= 5 * cfg.maxCycles - 1
            else Changes(ls, n, key) == 0
    decreases n
  {
    if n > 0 {
      hide NextFinding, NextStash, CyclesOk, Measure, Routed;
      var l, e := ls[n - 1], es[n - 1];
      RunStep(cfg, ls, es, n - 1);
      LifecycleBounded(cfg, ls, es, n - 1, key);
      CyclesBounded(cfg, ls, es, n - 1);
      if e.key == key && key in l.findings {
        RoutedDescends(cfg, l, e);
      } else if e.key == key && e.Observed? {
        NewIsOk(cfg, l, e);
      }
    }
  }

  lemma ChangesBounded(cfg: Config, ls: seq<Lane>, es: seq<Event>, n: nat, key: string)
    requires IsRun(cfg, ls, es) && n <= |es|
    ensures Changes(ls, n, key) < 5 * cfg.maxCycles
  {
    hide Changes, LaneOk;
    LifecycleBounded(cfg, ls, es, n, key);
    CyclesBounded(cfg, ls, es, n);
    if key in ls[n].findings && Routed(ls[n].findings[key].status) {
      MeasureNonnegative(cfg, ls[n], key);
    }
  }

  lemma MeasureNonnegative(cfg: Config, l: Lane, key: string)
    requires LaneOk(cfg, l) && key in l.findings && Routed(l.findings[key].status)
    ensures Measure(cfg, l.findings[key]) >= 0
  {
  }

  // ----- Parked verifications -----

  /** Step i merges the finding's fix at a known commit. */
  ghost predicate MergesFix(ls: seq<Lane>, es: seq<Event>, i: nat, key: string)
    requires i < |es| && |ls| == |es| + 1
  {
    && es[i].MergeSeen? && es[i].key == key && es[i].merge.Commit? && key in ls[i].findings
    && ls[i].findings[key].status in {IssueOpen, Redispatched}
  }

  /** Different merges of one finding's fixes have different commits. */
  ghost predicate FreshCommits(ls: seq<Lane>, es: seq<Event>, key: string)
    requires |ls| == |es| + 1
  {
    forall i: nat, j: nat {:trigger MergesFix(ls, es, i, key), MergesFix(ls, es, j, key)} |
      i < j < |es| && MergesFix(ls, es, i, key) && MergesFix(ls, es, j, key) ::
      es[i].merge.sha != es[j].merge.sha
  }

  ghost predicate AwaitingSince(ls: seq<Lane>, i: nat, n: nat, key: string, sha: string, cycles: nat)
    requires i < n < |ls|
  {
    forall j | i < j <= n ::
      && key in ls[j].findings && ls[j].findings[key].status == FixMerged
      && ls[j].findings[key].fixSha == Some(sha) && ls[j].findings[key].cycles == cycles
  }

  lemma MergedStep(cfg: Config, l: Lane, e: Event)
    requires e.key in l.findings || e.Observed?
    requires NextFinding(cfg, l, e).status == FixMerged && NextFinding(cfg, l, e).fixSha.Some?
    ensures e.key in l.findings
    ensures var f, g := l.findings[e.key], NextFinding(cfg, l, e);
            || (f.status == FixMerged && f.fixSha == g.fixSha && f.cycles == g.cycles)
            || (e.MergeSeen? && e.merge == Commit(g.fixSha.value) && f.status in {IssueOpen, Redispatched})
  {
    hide OpenCount;
  }

  /** A finding awaiting verification of a known fix has been awaiting it since that fix
      merged, in the same cycle. */
  lemma {:induction false} AwaitsItsFix(cfg: Config, ls: seq<Lane>, es: seq<Event>, n: nat, key: string) returns (i: nat)
    requires IsRun(cfg, ls, es) && n <= |es| && key in ls[n].findings
    requires ls[n].findings[key].status == FixMerged && ls[n].findings[key].fixSha.Some?
    ensures i < n && |ls| == |es| + 1 && MergesFix(ls, es, i, key)
    ensures es[i].merge.sha == ls[n].findings[key].fixSha.value
    ensures AwaitingSince(ls, i, n, key, es[i].merge.sha, ls[n].findings[key].cycles)
    decreases n
  {
    hide NextFinding, NextStash;
    assert n > 0;
    var l, e := ls[n - 1], es[n - 1];
    RunStep(cfg, ls, es, n - 1);
    if e.key == key && (key in l.findings || e.Observed?) {
      MergedStep(cfg, l, e);
    }
    if l.findings[key].status == FixMerged {
      i := AwaitsItsFix(cfg, ls, es, n - 1, key);
    } else {
      i := n - 1;
    }
  }

  /** A parked entry passed every gate when it was parked: it was then about the fix the
      finding was awaiting. */
  lemma {:induction false} ParkedForItsFix(cfg: Config, ls: seq<Lane>, es: seq<Event>, n: nat, key: string) returns (m: nat)
    requires IsRun(cfg, ls, es) && n <= |es| && key in ls[n].stash
    ensures m < n && m < |ls| && key in ls[m].findings && Gates(key, ls[m].findings[key], ls[n].stash[key])
    ensures m + 1 < |ls| && key in ls[m + 1].stash && ls[m + 1].stash[key] == ls[n].stash[key]
    decreases n
  {
    hide NextFinding, Gates;
    assert n > 0;
    var l, e := ls[n - 1], es[n - 1];
    RunStep(cfg, ls, es, n - 1);
    if e.Verification? && Parks(l, e.key, e.entry, e.lookup) && e.key == key {
      m := n - 1;
    } else {
      m := ParkedForItsFix(cfg, ls, es, n - 1, key);
    }
  }

  /** A parked verification of an older fix never verifies, or fails, a newer one: if a retry
      moves the finding at step n, then ever since its entry was parked the finding has been
      awaiting that very fix, in the same cycle. */
  lemma ParkedSettlesOnlyItsFix(cfg: Config, ls: seq<Lane>, es: seq<Event>, n: nat, key: string) returns (m: nat)
    requires IsRun(cfg, ls, es) && n < |es| && FreshCommits(ls, es, key)
    requires es[n].RetryParked? && es[n].key == key && key in ls[n].stash && key in ls[n].findings
    requires StatusOf(ls[n + 1], key) != StatusOf(ls[n], key)
    ensures m < n && |ls| == |es| + 1 && key in ls[m + 1].stash && ls[m + 1].stash[key] == ls[n].stash[key]
    ensures ls[n].stash[key].fixSha.Some?
    ensures m > 0 && AwaitingSince(ls, m - 1, n, key, ls[n].stash[key].fixSha.value, ls[n].findings[key].cycles)
  {
    RunStep(cfg, ls, es, n);
    assert Gates(key, ls[n].findings[key], ls[n].stash[key]);
    m := ParkedForItsFix(cfg, ls, es, n, key);
    var i := AwaitsItsFix(cfg, ls, es, n, key);
    var j := AwaitsItsFix(cfg, ls, es, m, key);
    assert i == j;
  }
}
