/** The functions of agent_pool/findings.py that move finding rows step by step, over the
    finding table, its creation order and the parked verifications. Each pass is proved to be
    a sequence of `Findings.Step`s, so the lifecycle theorems hold of every run of passes. */
module FindingsLane {
  import opened Common
  import opened Findings

  /** The lane after a sequence of events. */
  function RunFrom(cfg: Config, l: Lane, es: seq<Event>): Lane {
    if es == [] then l else Step(cfg, RunFrom(cfg, l, es[..|es| - 1]), es[|es| - 1])
  }

  /** The step creates an issue: a follow-up for a failed fix, or the first issue of a finding
      that no existing issue carries. */
  predicate Publishes(cfg: Config, l: Lane, e: Event) {
    match e
    case Observed(key, _, _, _, routing, known, _, _) =>
      routing && known.None? && (key in l.findings ==> l.findings[key].status in {Recorded, Held})
      && NextFinding(cfg, l, e).status == IssueOpen
    case Swept(key, known, _) =>
      key in l.findings
      && if l.findings[key].status == Failed then NextFinding(cfg, l, e).status == Redispatched
         else known.None? && l.findings[key].status in {Recorded, Held} && NextFinding(cfg, l, e).status == IssueOpen
    case Verification(key, _, _, _) =>
      key in l.findings && l.findings[key].status == FixMerged && NextFinding(cfg, l, e).status == Redispatched
    case RetryParked(key, _, _) =>
      key in l.findings && l.findings[key].status == FixMerged && NextFinding(cfg, l, e).status == Redispatched
    case _ => false
  }

  /** How many of the events create an issue. */
  function Published(cfg: Config, l: Lane, es: seq<Event>): nat {
    if es == [] then 0 else
      var front := es[..|es| - 1];
      Published(cfg, l, front) + if Publishes(cfg, RunFrom(cfg, l, front), es[|es| - 1]) then 1 else 0
  }

  lemma OneMore(cfg: Config, l: Lane, es: seq<Event>, e: Event)
    ensures RunFrom(cfg, l, es + [e]) == Step(cfg, RunFrom(cfg, l, es), e)
    ensures Published(cfg, l, es + [e]) == Published(cfg, l, es) + if Publishes(cfg, RunFrom(cfg, l, es), e) then 1 else 0
  {
    assert (es + [e])[..|es|] == es;
  }

  /** A report creates no issue while max_open findings are open, nor beyond its own limit. */
  lemma ReportPublishesBelowMaxOpen(cfg: Config, l: Lane, e: Event)
    requires e.Observed? && Publishes(cfg, l, e)
    ensures e.canCreate && OpenCount(l) < cfg.maxOpen && e.published.Some?
    ensures NextFinding(cfg, l, e).issue == e.published && NextFinding(cfg, l, e).cycles == 1
  {
    hide OpenCount;
  }

  /** Keys of the rows with one of the statuses, in creation order. */
  function KeysWith(order: seq<string>, findings: map<string, Finding>, statuses: set<Status>): seq<string> {
    if order == [] then [] else
      var k := order[|order| - 1];
      KeysWith(order[..|order| - 1], findings, statuses)
      + if k in findings && findings[k].status in statuses then [k] else []
  }

  lemma KeysNext(order: seq<string>, findings: map<string, Finding>, statuses: set<Status>, i: nat)
    requires i < |order|
    ensures KeysWith(order[..i + 1], findings, statuses) == KeysWith(order[..i], findings, statuses)
            + if order[i] in findings && findings[order[i]].status in statuses then [order[i]] else []
  {
    assert order[..i + 1][..i] == order[..i];
  }

  /** The events of the report loop: each sighting in turn, with leave to create an issue while
      fewer than `limit` have been created. */
  ghost predicate Ingests(cfg: Config, l: Lane, sightings: seq<Sighting>, completed: bool, routing: bool, limit: nat,
                          es: seq<Event>)
  {
    && |es| <= |sightings|
    && forall i | 0 <= i < |es| ::
         var s := sightings[i];
         es[i] == Observed(s.key, s.kind, s.cause, completed, routing, s.known, Published(cfg, l, es[..i]) < limit, s.published)
  }

  lemma IngestsMore(cfg: Config, l: Lane, sightings: seq<Sighting>, completed: bool, routing: bool, limit: nat,
                    es: seq<Event>, e: Event)
    requires Ingests(cfg, l, sightings, completed, routing, limit, es) && |es| < |sightings|
    requires var s := sightings[|es|];
             e == Observed(s.key, s.kind, s.cause, completed, routing, s.known, Published(cfg, l, es) < limit, s.published)
    ensures Ingests(cfg, l, sightings, completed, routing, limit, es + [e])
  {
    hide Published;
    var all := es + [e];
    forall i | 0 <= i < |all|
      ensures var s := sightings[i];
              all[i] == Observed(s.key, s.kind, s.cause, completed, routing, s.known, Published(cfg, l, all[..i]) < limit,
                                 s.published)
    {
      assert all[..i] == es[..i];
      assert es[..|es|] == es;
    }
  }

  /** The events of one sweep loop: the keys in order, each while `spent` and the issues created
      so far leave budget and, if `capped`, fewer than max_open findings are open. */
  ghost predicate Sweeps(cfg: Config, l: Lane, keys: seq<string>, known: string -> Option<Known>,
                         publish: string -> Option<int>, spent: nat, budget: nat, capped: bool, es: seq<Event>)
  {
    && |es| <= |keys|
    && forall i | 0 <= i < |es| ::
         && es[i] == Swept(keys[i], known(keys[i]), publish(keys[i]))
         && MaySweep(cfg, l, spent, budget, capped, es[..i])
  }

  predicate MaySweep(cfg: Config, l: Lane, spent: nat, budget: nat, capped: bool, es: seq<Event>) {
    spent + Published(cfg, l, es) < budget && (capped ==> OpenCount(RunFrom(cfg, l, es)) < cfg.maxOpen)
  }

  /** The loop ends with the last key, or where it may sweep no more. */
  ghost predicate SweepEnds(cfg: Config, l: Lane, keys: seq<string>, spent: nat, budget: nat, capped: bool, es: seq<Event>) {
    |es| < |keys| ==> !MaySweep(cfg, l, spent, budget, capped, es)
  }

  lemma SweepsMore(cfg: Config, l: Lane, keys: seq<string>, known: string -> Option<Known>,
                   publish: string -> Option<int>, spent: nat, budget: nat, capped: bool, es: seq<Event>)
    requires Sweeps(cfg, l, keys, known, publish, spent, budget, capped, es) && |es| < |keys|
    requires MaySweep(cfg, l, spent, budget, capped, es)
    ensures Sweeps(cfg, l, keys, known, publish, spent, budget, capped,
                   es + [Swept(keys[|es|], known(keys[|es|]), publish(keys[|es|]))])
  {
    hide MaySweep;
    var all := es + [Swept(keys[|es|], known(keys[|es|]), publish(keys[|es|]))];
    forall i | 0 <= i < |all| ensures MaySweep(cfg, l, spent, budget, capped, all[..i]) {
      assert all[..i] == es[..i];
      assert es[..|es|] == es;
    }
  }

  /** One finding of a report, with what the environment answers while it is routed. */
  datatype Sighting = Sighting(key: string, kind: Kind, cause: bool, known: Option<Known>, published: Option<int>)

  lemma NoneIngested(cfg: Config, l: Lane, sightings: seq<Sighting>, completed: bool, routing: bool, limit: nat)
    ensures Ingests(cfg, l, sightings, completed, routing, limit, [])
    ensures RunFrom(cfg, l, []) == l && Published(cfg, l, []) == 0
  {
  }

  lemma NoneSwept(cfg: Config, l: Lane, keys: seq<string>, known: string -> Option<Known>,
                  publish: string -> Option<int>, spent: nat, budget: nat, capped: bool)
    ensures Sweeps(cfg, l, keys, known, publish, spent, budget, capped, [])
    ensures RunFrom(cfg, l, []) == l && Published(cfg, l, []) == 0
  {
  }

  lemma MayCreate(cfg: Config, l: Lane, e: Event)
    requires e.Observed? && !e.canCreate
    ensures !Publishes(cfg, l, e)
  {
    hide OpenCount;
  }

  lemma SweptStep(cfg: Config, l: Lane, key: string, known: Option<Known>, published: Option<int>)
    requires key in l.findings
    ensures var f, e := l.findings[key], Swept(key, known, published);
            && Step(cfg, l, e) == Lane(l.findings[key := Sweep(cfg, f, known, published)], l.stash)
            && (Publishes(cfg, l, e) <==>
                if f.status == Failed then f.issue.Some? && f.cycles < cfg.maxCycles && published.Some?
                else known.None? && f.status in {Held, Recorded} && Sweep(cfg, f, known, published).status == IssueOpen)
  {
  }

  lemma ObservedStep(cfg: Config, l: Lane, e: Event)
    requires e.Observed?
    ensures Step(cfg, l, e) == Lane(l.findings[e.key := Observe(cfg, l, e)], l.stash)
    ensures Publishes(cfg, l, e) <==>
            e.routing && e.known.None? && (e.key in l.findings ==> l.findings[e.key].status in {Recorded, Held})
            && Observe(cfg, l, e).status == IssueOpen
  {
    hide Observe;
  }

  lemma OpenNeedsLeave(cfg: Config, f: Finding, known: Option<Known>, open: int, canCreate: bool, published: Option<int>)
    ensures known.None? && Route(cfg, f, known, open, canCreate, published).status == IssueOpen ==> canCreate
  {
  }

  class Lanes {
    const cfg: Config
    var findings: map<string, Finding>
    var order: seq<string>
    var stash: map<string, Entry>

    /** The creation order lists every finding once. */
    ghost predicate Valid()
      reads this
    {
      && (forall k :: k in order <==> k in findings)
      && forall i, j | 0 <= i < j < |order| :: order[i] != order[j]
    }

    function View(): Lane
      reads this
    {
      Lane(findings, stash)
    }

    constructor (config: Config)
      ensures Valid() && cfg == config && View() == Lane(map[], map[])
    {
      cfg, findings, order, stash := config, map[], [], map[];
    }

    /** `_redispatch`; true when a follow-up issue was published. */
    method RedispatchFinding(key: string, published: Option<int>) returns (made: bool)
      requires key in findings
      modifies this`findings
      ensures findings == old(findings)[key := Redispatch(cfg, old(findings)[key], published)]
      ensures made <==> old(findings)[key].issue.Some? && old(findings)[key].cycles < cfg.maxCycles && published.Some?
    {
      var f := findings[key];
      made := false;
      if f.issue.None? || f.cycles >= cfg.maxCycles {
        findings := findings[key := f.(status := Unresolved)];
        return;
      }
      findings := findings[key := f];
      if published.Some? {
        findings := findings[key := f.(status := Redispatched, issue := published, cycles := f.cycles + 1, fixSha := None)];
        made := true;
      }
    }

    /** `apply_verification`, gate by gate. */
    method ApplyVerification(key: string, entry: Entry, lookup: Lookup, published: Option<int>)
      modifies this`findings, this`stash
      ensures View() == Step(cfg, old(View()), Verification(key, entry, lookup, published))
      ensures findings.Keys == old(findings).Keys
    {
      if key !in findings { return; }
      var f := findings[key];
      assert findings[key := f] == findings;
      if f.status != FixMerged || f.fixSha.None? || entry.fixSha != f.fixSha || entry.testCase != key
         || entry.tested.None? || entry.tested != entry.reportSha || !entry.ancestry
         || entry.outcome == Inconclusive || !entry.evidence
      {
        return;
      }
      if lookup == LookupError {
        stash := stash[key := entry];
        return;
      }
      if lookup == NotContained { return; }
      if entry.outcome == Passed {
        findings := findings[key := f.(status := Verified)];
        return;
      }
      findings := findings[key := f.(status := Failed)];
      var _ := RedispatchFinding(key, published);
      assert findings == old(findings)[key := Redispatch(cfg, f.(status := Failed), published)];
    }

    /** One iteration of `retry_verifications`: re-applies a parked entry and unparks it unless
        the lookup failed again. */
    method RetryVerification(key: string, lookup: Lookup, published: Option<int>)
      modifies this`findings, this`stash
      ensures View() == Step(cfg, old(View()), RetryParked(key, lookup, published))
      ensures findings.Keys == old(findings).Keys
    {
      if key !in stash {
        assert key in findings ==> findings[key := findings[key]] == findings;
        return;
      }
      var entry := stash[key];
      assert stash[key := entry] == stash;
      var again := key in findings && Gates(key, findings[key], entry) && lookup == LookupError;
      ApplyVerification(key, entry, lookup, published);
      if !again {
        stash := stash - {key};
      }
    }

    /** One iteration of `reconcile_merged` on a finding whose job is done. */
    method ReconcileFinding(key: string, merge: Merge)
      requires key in findings
      modifies this`findings
      ensures View() == Step(cfg, old(View()), MergeSeen(key, merge)) && findings.Keys == old(findings).Keys
    {
      var f := findings[key];
      assert findings[key := f] == findings;
      if f.status != IssueOpen && f.status != Redispatched { return; }
      match merge
      case NoPr => findings := findings[key := f.(status := FixMerged, fixSha := None)];
      case Commit(sha) => findings := findings[key := f.(status := FixMerged, fixSha := Some(sha))];
      case PrError =>
      case NoCommit =>
    }

    /** One finding of `ingest_report`; true when an issue was created for it. */
    method IngestFinding(s: Sighting, completed: bool, routing: bool, canCreate: bool) returns (made: bool)
      requires Valid()
      modifies this`findings, this`order
      ensures Valid()
      ensures View() == Step(cfg, old(View()),
                             Observed(s.key, s.kind, s.cause, completed, routing, s.known, canCreate, s.published))
      ensures made <==> Publishes(cfg, old(View()),
                                  Observed(s.key, s.kind, s.cause, completed, routing, s.known, canCreate, s.published))
    {
      hide OpenCount, Step, Publishes, Route;
      ObservedStep(cfg, View(), Observed(s.key, s.kind, s.cause, completed, routing, s.known, canCreate, s.published));
      var unseen := s.key !in findings;
      var f := if unseen then Finding(s.kind, s.cause, completed, Recorded, None, None, 0)
               else findings[s.key].(kind := s.kind, cause := s.cause, completed := completed);
      var route := routing && (unseen || f.status == Recorded || f.status == Held);
      made := false;
      if route {
        OpenNeedsLeave(cfg, f, s.known, OpenCount(View()), canCreate, s.published);
        f := Route(cfg, f, s.known, OpenCount(View()), canCreate, s.published);
        made := canCreate && s.known.None? && f.status == IssueOpen;
      } else if !unseen && f.status == Verified && s.kind == Defect {
        f := f.(status := Failed);
      }
      findings := findings[s.key := f];
      if unseen {
        order := order + [s.key];
      }
    }

    /** The finding loop of `ingest_report`: every finding of the report in turn; at most
        `limit` issues are created, and `created` counts them. */
    method IngestReport(sightings: seq<Sighting>, completed: bool, routing: bool, limit: nat)
      returns (created: nat, ghost es: seq<Event>)
      requires Valid()
      modifies this`findings, this`order
      ensures Valid() && |es| == |sightings| && View() == RunFrom(cfg, old(View()), es)
      ensures Ingests(cfg, old(View()), sightings, completed, routing, limit, es)
      ensures created == Published(cfg, old(View()), es) <= limit
    {
      hide Ingests, Publishes, Step;
      created, es := 0, [];
      NoneIngested(cfg, View(), sightings, completed, routing, limit);
      for i := 0 to |sightings|
        invariant Valid() && |es| == i && View() == RunFrom(cfg, old(View()), es)
        invariant Ingests(cfg, old(View()), sightings, completed, routing, limit, es)
        invariant created == Published(cfg, old(View()), es) <= limit
      {
        var s := sightings[i];
        ghost var e := Observed(s.key, s.kind, s.cause, completed, routing, s.known, created < limit, s.published);
        OneMore(cfg, old(View()), es, e);
        IngestsMore(cfg, old(View()), sightings, completed, routing, limit, es, e);
        if !e.canCreate {
          MayCreate(cfg, View(), e);
        }
        var made := IngestFinding(s, completed, routing, created < limit);
        created := created + if made then 1 else 0;
        es := es + [e];
      }
    }

    method Select(statuses: set<Status>) returns (keys: seq<string>)
      requires Valid()
      ensures keys == KeysWith(order, findings, statuses)
      ensures forall k | k in keys :: k in findings
    {
      keys := [];
      for i := 0 to |order|
        invariant keys == KeysWith(order[..i], findings, statuses) && forall k | k in keys :: k in findings
      {
        assert order[i] in order;
        KeysNext(order, findings, statuses, i);
        if findings[order[i]].status in statuses {
          keys := keys + [order[i]];
        }
      }
      assert order[..|order|] == order;
    }

    /** One loop of `route_pending` over the selected keys. */
    method SweepAll(keys: seq<string>, known: string -> Option<Known>, publish: string -> Option<int>, spent: nat,
                    budget: nat, capped: bool) returns (total: nat, ghost es: seq<Event>)
      requires Valid() && spent <= budget && forall k | k in keys :: k in findings
      modifies this`findings
      ensures Valid() && findings.Keys == old(findings).Keys && View() == RunFrom(cfg, old(View()), es)
      ensures Sweeps(cfg, old(View()), keys, known, publish, spent, budget, capped, es)
      ensures SweepEnds(cfg, old(View()), keys, spent, budget, capped, es)
      ensures total == spent + Published(cfg, old(View()), es) <= budget
    {
      hide Sweeps, Publishes, Step, OpenCount;
      total, es := spent, [];
      NoneSwept(cfg, View(), keys, known, publish, spent, budget, capped);
      for i := 0 to |keys|
        invariant Valid() && |es| == i && findings.Keys == old(findings).Keys && View() == RunFrom(cfg, old(View()), es)
        invariant Sweeps(cfg, old(View()), keys, known, publish, spent, budget, capped, es)
        invariant total == spent + Published(cfg, old(View()), es) <= budget
      {
        if total >= budget || (capped && OpenCount(View()) >= cfg.maxOpen) { return; }
        SweepsMore(cfg, old(View()), keys, known, publish, spent, budget, capped, es);
        ghost var e := Swept(keys[i], known(keys[i]), publish(keys[i]));
        OneMore(cfg, old(View()), es, e);
        var made := SweepFinding(keys[i], known(keys[i]), publish(keys[i]));
        total := total + if made then 1 else 0;
        es := es + [e];
      }
    }

    /** `route_pending`: follow-ups for the failed findings in creation order, then the held and
        recorded ones, the latter only while fewer than max_open findings are open; `spent`
        counts the issues created and stays within the budget. */
    method RoutePending(known: string -> Option<Known>, publish: string -> Option<int>, budget: nat)
      returns (spent: nat, ghost fs: seq<Event>, ghost ps: seq<Event>)
      requires Valid()
      modifies this`findings
      ensures Valid() && findings.Keys == old(findings).Keys
      ensures var l, mid := old(View()), RunFrom(cfg, old(View()), fs);
              var failed := KeysWith(order, l.findings, {Failed});
              var pending := KeysWith(order, mid.findings, {Held, Recorded});
              var used := Published(cfg, l, fs);
              && Sweeps(cfg, l, failed, k => None, publish, 0, budget, false, fs)
              && SweepEnds(cfg, l, failed, 0, budget, false, fs)
              && Sweeps(cfg, mid, pending, known, publish, used, budget, true, ps)
              && SweepEnds(cfg, mid, pending, used, budget, true, ps)
              && View() == RunFrom(cfg, mid, ps)
              && spent == used + Published(cfg, mid, ps) <= budget
    {
      hide Sweeps, SweepEnds, Published, Step;
      var failed := Select({Failed});
      spent, fs := SweepAll(failed, k => None, publish, 0, budget, false);
      var pending := Select({Held, Recorded});
      spent, ps := SweepAll(pending, known, publish, spent, budget, true);
    }

    /** One iteration of `route_pending`; true when an issue was published. */
    method SweepFinding(key: string, known: Option<Known>, published: Option<int>) returns (made: bool)
      requires Valid() && key in findings
      modifies this`findings
      ensures Valid() && findings.Keys == old(findings).Keys && stash == old(stash)
      ensures View() == Step(cfg, old(View()), Swept(key, known, published))
      ensures made <==> Publishes(cfg, old(View()), Swept(key, known, published))
    {
      hide Step, Publishes, OpenCount;
      SweptStep(cfg, View(), key, known, published);
      var f := findings[key];
      made := false;
      if f.status == Failed {
        made := RedispatchFinding(key, published);
        return;
      }
      assert findings[key := f] == findings;
      if (f.status != Held && f.status != Recorded) || (f.status == Recorded && !f.completed) { return; }
      if f.kind == Infrastructure && !f.cause {
        findings := findings[key := f.(status := Infra)];
        return;
      }
      if f.kind == Capability {
        findings := findings[key := f.(status := Candidate)];
        return;
      }
      var cycles := if f.cycles < 1 then 1 else f.cycles;
      if known.Some? {
        findings := findings[key := f.(status := if known.value.closed then Failed else IssueOpen,
                                       issue := Some(known.value.number), cycles := cycles)];
        return;
      }
      if published.Some? {
        findings := findings[key := f.(status := IssueOpen, issue := published, cycles := cycles)];
        made := true;
      }
    }
  }
}
