/** What each step of the findings lane does to a finding, in every run: which verdict verifies
    it, where a report routes it, and what a merge or a sweep makes of it. */
module FindingsLaws {
  import opened Common
  import opened Findings

  /** The entry proves something about the fix the finding is awaiting: the merged commit, the
      original case, the revision its report assessed, with ancestry and evidence. */
  predicate AboutItsFix(key: string, f: Finding, entry: Entry) {
    && f.status == FixMerged && f.fixSha.Some? && entry.fixSha == f.fixSha
    && entry.testCase == key && entry.tested.Some? && entry.tested == entry.reportSha
    && entry.ancestry && entry.evidence
  }

  /** The entry the step applies: a new one or the one parked for its finding. */
  function EntryOf(l: Lane, e: Event): Option<Entry> {
    if e.Verification? then Some(e.entry)
    else if e.RetryParked? && e.key in l.stash then Some(l.stash[e.key])
    else None
  }

  function LookupOf(e: Event): Lookup
    requires e.Verification? || e.RetryParked?
  {
    match e
    case Verification(_, _, lookup, _) => lookup
    case RetryParked(_, lookup, _) => lookup
    case _ => NotContained
  }

  /** A failed fix gets a linked follow-up, one cycle later, if its issue is known, a cycle is
      left and the follow-up could be published; without issue or cycle it is given up. */
  ghost predicate FollowsUp(cfg: Config, f: Finding, published: Option<int>, g: Finding) {
    if f.issue.None? || f.cycles >= cfg.maxCycles then g == f.(status := Unresolved)
    else if published.None? then g == f.(status := Failed)
    else g == f.(status := Redispatched, issue := published, cycles := f.cycles + 1, fixSha := None)
  }

  lemma FindingStep(cfg: Config, ls: seq<Lane>, es: seq<Event>, n: nat, key: string)
    requires IsRun(cfg, ls, es) && n < |es| && (key in ls[n].findings || (es[n].Observed? && es[n].key == key))
    ensures |ls| == |es| + 1 && key in ls[n + 1].findings
    ensures ls[n + 1].findings[key] == if es[n].key == key then NextFinding(cfg, ls[n], es[n]) else ls[n].findings[key]
    ensures ls[n + 1].stash == NextStash(ls[n], es[n])
  {
    hide NextFinding, NextStash;
    RunStep(cfg, ls, es, n);
  }

  /** A step that applies an entry: a passed one about its fix, whose revision contains the fix,
      verifies the finding; a failed one gives it a follow-up; and nothing else changes it. The
      entry is parked when it would have settled the finding but the lookup failed. */
  lemma EntriesExactly(cfg: Config, ls: seq<Lane>, es: seq<Event>, n: nat)
    requires IsRun(cfg, ls, es) && n < |es| && es[n].key in ls[n].findings && EntryOf(ls[n], es[n]).Some?
    ensures var l, e, entry := ls[n], es[n], EntryOf(ls[n], es[n]).value;
            var f, settles := l.findings[e.key], AboutItsFix(e.key, l.findings[e.key], entry) && LookupOf(e) == Contained;
            && e.key in ls[n + 1].findings
            && var g := ls[n + 1].findings[e.key];
            if settles && entry.outcome == Passed then g == f.(status := Verified)
            else if settles && entry.outcome == Failing then FollowsUp(cfg, f, e.published, g)
            else g == f
    ensures var l, e, entry := ls[n], es[n], EntryOf(ls[n], es[n]).value;
            var parks := && AboutItsFix(e.key, l.findings[e.key], entry) && entry.outcome != Inconclusive
                         && LookupOf(e) == LookupError;
            ls[n + 1].stash == if parks then l.stash[e.key := entry]
                               else if e.RetryParked? then l.stash - {e.key} else l.stash
  {
    FindingStep(cfg, ls, es, n, es[n].key);
  }

  /** A finding becomes verified in a step if and only if the step applies a passed entry about
      its fix, and the tested revision contains the fix. */
  lemma VerifiedExactly(cfg: Config, ls: seq<Lane>, es: seq<Event>, n: nat, key: string)
    requires IsRun(cfg, ls, es) && n < |es| && |ls| == |es| + 1 && key in ls[n + 1].findings
    requires key in ls[n].findings ==> ls[n].findings[key].status != Verified
    ensures ls[n + 1].findings[key].status == Verified
       <==> && es[n].key == key && key in ls[n].findings && EntryOf(ls[n], es[n]).Some?
            && LookupOf(es[n]) == Contained
            && var f, entry := ls[n].findings[key], EntryOf(ls[n], es[n]).value;
            && entry.outcome == Passed && f.status == FixMerged
            && f.fixSha.Some? && entry.fixSha == f.fixSha && entry.testCase == key
            && entry.tested.Some? && entry.tested == entry.reportSha && entry.ancestry && entry.evidence
  {
    hide NextStash, OpenCount;
    RunStep(cfg, ls, es, n);
    if key in ls[n].findings {
      FindingStep(cfg, ls, es, n, key);
    }
  }

  /** A merge moves a finding with an open or redispatched issue to fix-merged under the commit
      it is known by, or none when the job had no pull request; an error or a missing commit,
      or any other status, leaves it alone. */
  lemma MergesExactly(cfg: Config, ls: seq<Lane>, es: seq<Event>, n: nat)
    requires IsRun(cfg, ls, es) && n < |es| && es[n].MergeSeen? && es[n].key in ls[n].findings
    ensures var f, m := ls[n].findings[es[n].key], es[n].merge;
            && es[n].key in ls[n + 1].findings
            && ls[n + 1].findings[es[n].key]
               == if (f.status == IssueOpen || f.status == Redispatched) && (m.NoPr? || m.Commit?)
                  then f.(status := FixMerged, fixSha := if m.Commit? then Some(m.sha) else None) else f
    ensures ls[n + 1].stash == ls[n].stash
  {
    FindingStep(cfg, ls, es, n, es[n].key);
  }

  /** Where a finding without an issue of its own goes: to the issue that already carries it,
      reopened as failed when that one is closed; aside, when it is infrastructure without a
      product cause, or a capability for the planner; and else to a new issue, if one may be
      created and was. */
  ghost predicate RoutesTo(f: Finding, known: Option<Known>, mayCreate: bool, published: Option<int>, g: Finding) {
    match known
    case Some(issue) => g == f.(status := if issue.closed then Failed else IssueOpen, issue := Some(issue.number), cycles := 1)
    case None =>
      if f.kind == Infrastructure && !f.cause then g == f.(status := Infra)
      else if f.kind == Capability then g == f.(status := Candidate)
      else if !mayCreate then g == f.(status := Held)
      else if published.None? then g == f.(status := Recorded)
      else g == f.(status := IssueOpen, issue := published, cycles := 1)
  }

  /** A sighting refreshes the finding's evidence. It is routed when the report is and the
      finding is new or still unrouted, and may then create an issue below max_open; a defect
      sighted again after it was verified has failed; otherwise its status stays. */
  lemma SightingsExactly(cfg: Config, ls: seq<Lane>, es: seq<Event>, n: nat)
    requires IsRun(cfg, ls, es) && n < |es| && es[n].Observed?
    ensures var l, e := ls[n], es[n];
            var f := if e.key in l.findings
                     then l.findings[e.key].(kind := e.kind, cause := e.cause, completed := e.completed)
                     else Finding(e.kind, e.cause, e.completed, Recorded, None, None, 0);
            var open := |set k | k in l.findings && l.findings[k].status in
                                   {Recorded, IssueOpen, Redispatched, FixMerged, Failed, Candidate}|;
            && e.key in ls[n + 1].findings
            && var g := ls[n + 1].findings[e.key];
            if e.routing && (f.status == Recorded || f.status == Held)
            then RoutesTo(f, e.known, e.canCreate && open < cfg.maxOpen, e.published, g)
            else if e.key in l.findings && f.status == Verified && e.kind == Defect then g == f.(status := Failed)
            else g == f
    ensures ls[n + 1].stash == ls[n].stash
  {
    FindingStep(cfg, ls, es, n, es[n].key);
    OpenAre(ls[n]);
  }

  lemma OpenAre(l: Lane)
    ensures OpenCount(l) == |set k | k in l.findings && l.findings[k].status in
                               {Recorded, IssueOpen, Redispatched, FixMerged, Failed, Candidate}|
  {
    assert (set k | k in l.findings && CountsAsOpen(l.findings[k].status))
        == set k | k in l.findings && l.findings[k].status in
             {Recorded, IssueOpen, Redispatched, FixMerged, Failed, Candidate};
  }

  /** A sweep gives a failed finding its follow-up, and routes a held one, or a recorded one of
      a completed report, keeping at least the first cycle; it leaves every other one alone. */
  lemma SweepsExactly(cfg: Config, ls: seq<Lane>, es: seq<Event>, n: nat)
    requires IsRun(cfg, ls, es) && n < |es| && es[n].Swept? && es[n].key in ls[n].findings
    ensures var f, e := ls[n].findings[es[n].key], es[n];
            && e.key in ls[n + 1].findings
            && var g := ls[n + 1].findings[e.key];
            if f.status == Failed then FollowsUp(cfg, f, e.published, g)
            else if (f.status == Held || (f.status == Recorded && f.completed))
                    && (e.known.Some? || e.published.Some? || f.kind == Capability || (f.kind == Infrastructure && !f.cause))
            then if f.kind == Infrastructure && !f.cause then g == f.(status := Infra)
                 else if f.kind == Capability then g == f.(status := Candidate)
                 else if e.known.Some?
                 then g == f.(status := if e.known.value.closed then Failed else IssueOpen,
                              issue := Some(e.known.value.number), cycles := if f.cycles < 1 then 1 else f.cycles)
                 else g == f.(status := IssueOpen, issue := e.published, cycles := if f.cycles < 1 then 1 else f.cycles)
            else g == f
    ensures ls[n + 1].stash == ls[n].stash
  {
    FindingStep(cfg, ls, es, n, es[n].key);
  }

  /** The planner's disposition closes a candidate and nothing else. */
  lemma DispositionsExactly(cfg: Config, ls: seq<Lane>, es: seq<Event>, n: nat)
    requires IsRun(cfg, ls, es) && n < |es| && es[n].Disposition? && es[n].key in ls[n].findings
    ensures var f := ls[n].findings[es[n].key];
            && es[n].key in ls[n + 1].findings
            && ls[n + 1].findings[es[n].key] == if f.status == Candidate then f.(status := Disposed) else f
    ensures ls[n + 1].stash == ls[n].stash
  {
    FindingStep(cfg, ls, es, n, es[n].key);
  }

  /** No step touches another finding. */
  lemma OthersStay(cfg: Config, ls: seq<Lane>, es: seq<Event>, n: nat, key: string)
    requires IsRun(cfg, ls, es) && n < |es| && key != es[n].key
    ensures |ls| == |es| + 1 && (key in ls[n + 1].findings <==> key in ls[n].findings)
    ensures key in ls[n].findings ==> ls[n + 1].findings[key] == ls[n].findings[key]
    ensures key in ls[n + 1].stash <==> key in ls[n].stash
    ensures key in ls[n].stash ==> ls[n + 1].stash[key] == ls[n].stash[key]
  {
    hide NextFinding;
    RunStep(cfg, ls, es, n);
  }
}
