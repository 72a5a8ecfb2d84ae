/** The `jobs` table of agent_pool/state.py as the fast form and the append-only
    `work_events` ledger as the simple one, and the replay `_status_at` of
    agent_pool/merge_flow.py that should read the table's status back from the ledger. */
module JobLedger {
  import opened Common

  datatype Status = Working | PrOpen | Blocked | Done

  datatype Job = Job(worker: string, status: Status, attempt: nat, repairs: nat) {
    predicate Live() { status == Working || status == PrOpen }
  }

  datatype Kind = Reserved | RetryReserved | Redispatch | Repair | MergedAndClosed | StatusIs(to: Status) | Note

  /** The source_key column: unique where present. */
  datatype Key = RepairKey(issue: int, attempt: nat, repairs: nat) | RedispatchKey(issue: int, attempt: nat)

  datatype Row = Row(kind: Kind, issue: int, at: real, key: Option<Key>)

  datatype Store = Store(jobs: map<int, Job>, rows: seq<Row>, merges: nat)

  const EMPTY := Store(map[], [], 0)

  // ----- Replay -----

  /** The status a ledger row moves its issue to, if any. */
  function Effect(k: Kind): Option<Status> {
    match k
    case Reserved | RetryReserved | Redispatch | Repair => Some(Working)
    case MergedAndClosed => Some(Done)
    case StatusIs(to) => Some(to)
    case Note => None
  }

  /** `_status_at`: the last effect among the issue's rows before hi. */
  function StatusAt(rows: seq<Row>, issue: int, hi: real): Option<Status> {
    if rows == [] then None else
      var last := rows[|rows| - 1];
      if last.issue == issue && last.at < hi && Effect(last.kind).Some? then Effect(last.kind)
      else StatusAt(rows[..|rows| - 1], issue, hi)
  }

  method ReplayStatus(rows: seq<Row>, issue: int, hi: real) returns (status: Option<Status>)
    ensures status == StatusAt(rows, issue, hi)
  {
    status := None;
    for i := 0 to |rows|
      invariant status == StatusAt(rows[..i], issue, hi)
    {
      assert rows[..i + 1][..i] == rows[..i];
      if rows[i].issue != issue || rows[i].at >= hi { continue; }
      match rows[i].kind
      case Reserved | RetryReserved | Redispatch | Repair => status := Some(Working);
      case MergedAndClosed => status := Some(Done);
      case StatusIs(to) => status := Some(to);
      case Note =>
    }
    assert rows[..|rows|] == rows;
  }

  /** The same replay over the whole ledger. */
  function Replay(rows: seq<Row>, issue: int): Option<Status> {
    if rows == [] then None else
      var last := rows[|rows| - 1];
      if last.issue == issue && Effect(last.kind).Some? then Effect(last.kind)
      else Replay(rows[..|rows| - 1], issue)
  }

  lemma ReplayAppend(rows: seq<Row>, row: Row, issue: int)
    ensures Replay(rows + [row], issue) ==
            if row.issue == issue && Effect(row.kind).Some? then Effect(row.kind) else Replay(rows, issue)
  {
    assert (rows + [row])[..|rows|] == rows;
  }

  /** Cutting the ledger at a time is cutting it after the rows recorded before that time. */
  lemma {:induction false} StatusAtCut(early: seq<Row>, late: seq<Row>, issue: int, hi: real)
    requires forall r | r in early :: r.at < hi
    requires forall r | r in late :: r.at >= hi
    ensures StatusAt(early + late, issue, hi) == Replay(early, issue)
    decreases |early| + |late|
  {
    var rows := early + late;
    if late != [] {
      assert rows[|rows| - 1] == late[|late| - 1] && late[|late| - 1] in late;
      assert rows[..|rows| - 1] == early + late[..|late| - 1];
      StatusAtCut(early, late[..|late| - 1], issue, hi);
    } else if early != [] {
      assert rows == early && early[|early| - 1] in early;
      StatusAtCut(early[..|early| - 1], [], issue, hi);
      assert early[..|early| - 1] + [] == early[..|early| - 1];
    }
  }

  // ----- Steps -----

  datatype Event =
    | Reserve(paused: bool, issue: int, worker: string, deps: seq<int>, workspace: Option<int>, at: real)
    | UpdateJob(issue: int, status: Option<Status>, owner: Option<string>, attempt: Option<nat>,
                repairs: Option<nat>, at: real)
    | RepairJob(issue: int, at: real)
    | Complete(issue: int, at: real)
    | Retry(issue: int, at: real)
    | Record(issue: int, at: real)

  function Capacity(merges: nat, workspace: Option<int>): int {
    if workspace.Some? then workspace.value
    else if merges >= 15 then 20 else if merges >= 5 then 10 else 5
  }

  function LiveIssues(jobs: map<int, Job>): set<int> {
    set i | i in jobs && jobs[i].Live()
  }

  /** The live-worker index refuses the worker for this issue. */
  predicate Taken(jobs: map<int, Job>, issue: int, worker: string) {
    exists i | i in jobs :: i != issue && jobs[i].Live() && jobs[i].worker == worker
  }

  predicate DepsDone(jobs: map<int, Job>, deps: seq<int>) {
    forall d | d in deps :: d in jobs && jobs[d].status == Done
  }

  predicate Reservable(s: Store, e: Event)
    requires e.Reserve?
  {
    && !e.paused && DepsDone(s.jobs, e.deps)
    && |LiveIssues(s.jobs)| < Capacity(s.merges, e.workspace)
    && e.issue !in s.jobs && !Taken(s.jobs, e.issue, e.worker)
  }

  function Updated(j: Job, e: Event): Job
    requires e.UpdateJob?
  {
    Job(if e.owner.Some? then e.owner.value else j.worker,
        if e.status.Some? then e.status.value else j.status,
        if e.attempt.Some? then e.attempt.value else j.attempt,
        if e.repairs.Some? then e.repairs.value else j.repairs)
  }

  predicate RepairGranted(s: Store, e: Event) {
    e.RepairJob? && e.issue in s.jobs && s.jobs[e.issue].repairs < 3 && s.jobs[e.issue].Live()
  }

  predicate Retriable(s: Store, e: Event) {
    && e.Retry? && e.issue in s.jobs && s.jobs[e.issue].status == Blocked
    && !Taken(s.jobs, e.issue, s.jobs[e.issue].worker)
  }

  predicate KeyUsed(rows: seq<Row>, k: Key) {
    exists r | r in rows :: r.key == Some(k)
  }

  /** INSERT OR IGNORE of a keyed row. */
  function Append(rows: seq<Row>, row: Row): seq<Row> {
    if row.key.Some? && KeyUsed(rows, row.key.value) then rows else rows + [row]
  }

  function Step(s: Store, e: Event): Store {
    match e
    case Reserve(_, issue, worker, _, _, at) =>
      if Reservable(s, e)
      then s.(jobs := s.jobs[issue := Job(worker, Working, 1, 0)], rows := s.rows + [Row(Reserved, issue, at, None)])
      else s
    case UpdateJob(issue, _, _, _, _, at) =>
      if issue !in s.jobs then s else
        var j := Updated(s.jobs[issue], e);
        if j.Live() && Taken(s.jobs, issue, j.worker) then s   // the index refuses; rolled back
        else s.(jobs := s.jobs[issue := j],
                rows := if j.status != s.jobs[issue].status then s.rows + [Row(StatusIs(j.status), issue, at, None)]
                        else s.rows)
    case RepairJob(issue, at) =>
      if RepairGranted(s, e) then
        var j := s.jobs[issue].(repairs := s.jobs[issue].repairs + 1, status := Working);
        s.(jobs := s.jobs[issue := j],
           rows := Append(s.rows, Row(Repair, issue, at, Some(RepairKey(issue, j.attempt, j.repairs)))))
      else if issue in s.jobs && s.jobs[issue].status != Done
      then s.(jobs := s.jobs[issue := s.jobs[issue].(status := Blocked)])
      else s
    case Complete(issue, at) =>
      if issue in s.jobs && s.jobs[issue].status != Done
      then Store(s.jobs[issue := s.jobs[issue].(status := Done)],
                 s.rows + [Row(MergedAndClosed, issue, at, None)], s.merges + 1)
      else s
    case Retry(issue, at) =>
      if Retriable(s, e) then
        var j := s.jobs[issue].(status := Working, attempt := s.jobs[issue].attempt + 1, repairs := 0);
        s.(jobs := s.jobs[issue := j],
           rows := Append(s.rows + [Row(RetryReserved, issue, at, None)],
                          Row(Redispatch, issue, at, Some(RedispatchKey(issue, j.attempt)))))
      else s
    case Record(issue, at) => s.(rows := s.rows + [Row(Note, issue, at, None)])
  }

  // ----- Agreement of table and ledger -----

  function StatusOf(s: Store, issue: int): Option<Status> {
    if issue in s.jobs then Some(s.jobs[issue].status) else None
  }

  predicate Agrees(s: Store, issue: int) {
    Replay(s.rows, issue) == StatusOf(s, issue)
  }

  /** A repair refused on a live job: it is parked without a ledger row. */
  predicate DeniedOnLive(s: Store, e: Event) {
    e.RepairJob? && e.issue in s.jobs && s.jobs[e.issue].Live() && s.jobs[e.issue].repairs >= 3
  }

  /** A repair granted on a pr-open job whose ledger key was already used, so no row is added. */
  predicate StaleKey(s: Store, e: Event) {
    && RepairGranted(s, e) && s.jobs[e.issue].status == PrOpen
    && KeyUsed(s.rows, RepairKey(e.issue, s.jobs[e.issue].attempt, s.jobs[e.issue].repairs + 1))
  }

  /** From agreement, a step keeps the ledger readable exactly when it is neither a refused
      repair of a live job nor a repair under a used key. */
  lemma StepAgreesExactly(s: Store, e: Event, issue: int)
    requires Agrees(s, issue)
    ensures Agrees(Step(s, e), issue) <==> issue != e.issue || (!DeniedOnLive(s, e) && !StaleKey(s, e))
  {
    hide Replay, KeyUsed, Taken, LiveIssues;
    var r := Step(s, e);
    AppendEffect(s, e, issue);
  }

  /** Every row a step appends is its own issue's, and the last effect among them is the
      status it leaves in the table. */
  lemma AppendEffect(s: Store, e: Event, issue: int)
    ensures var r := Step(s, e);
            Replay(r.rows, issue) ==
            if issue == e.issue && Writes(s, e) then StatusOf(r, issue) else Replay(s.rows, issue)
  {
    hide Replay, KeyUsed, Taken, LiveIssues;
    match e
    case Reserve(_, _, _, _, _, at) => ReplayAppend(s.rows, Row(Reserved, e.issue, at, None), issue);
    case UpdateJob(_, _, _, _, _, at) =>
      if e.issue in s.jobs {
        ReplayAppend(s.rows, Row(StatusIs(Updated(s.jobs[e.issue], e).status), e.issue, at, None), issue);
      }
    case RepairJob(_, at) =>
      if RepairGranted(s, e) {
        var j := s.jobs[e.issue];
        ReplayAppend(s.rows, Row(Repair, e.issue, at, Some(RepairKey(e.issue, j.attempt, j.repairs + 1))), issue);
      }
    case Complete(_, at) => ReplayAppend(s.rows, Row(MergedAndClosed, e.issue, at, None), issue);
    case Retry(_, at) =>
      if Retriable(s, e) {
        var first := s.rows + [Row(RetryReserved, e.issue, at, None)];
        ReplayAppend(s.rows, Row(RetryReserved, e.issue, at, None), issue);
        ReplayAppend(first, Row(Redispatch, e.issue, at, Some(RedispatchKey(e.issue, s.jobs[e.issue].attempt + 1))), issue);
      }
    case Record(_, at) => ReplayAppend(s.rows, Row(Note, e.issue, at, None), issue);
  }

  /** The step appends a row that carries a status. */
  predicate Writes(s: Store, e: Event) {
    match e
    case Reserve(_, _, _, _, _, _) => Reservable(s, e)
    case UpdateJob(issue, _, _, _, _, _) =>
      && issue in s.jobs && Updated(s.jobs[issue], e).status != s.jobs[issue].status
      && !(Updated(s.jobs[issue], e).Live() && Taken(s.jobs, issue, Updated(s.jobs[issue], e).worker))
    case RepairJob(issue, _) =>
      RepairGranted(s, e) && !KeyUsed(s.rows, RepairKey(issue, s.jobs[issue].attempt, s.jobs[issue].repairs + 1))
    case Complete(issue, _) => issue in s.jobs && s.jobs[issue].status != Done
    case Retry(_, _) => Retriable(s, e)
    case Record(_, _) => false
  }

  /** A lost row is healed by the next row of the issue: whatever the ledger missed before, it
      agrees again after any step that writes a status. */
  lemma WritingRestoresAgreement(s: Store, e: Event)
    requires Writes(s, e)
    ensures Agrees(Step(s, e), e.issue)
  {
    AppendEffect(s, e, e.issue);
  }

  // ----- Runs -----

  ghost predicate StepAt(ss: seq<Store>, es: seq<Event>, n: nat)
    requires n < |es| && n + 1 < |ss|
  {
    ss[n + 1] == Step(ss[n], es[n])
  }

  ghost predicate IsRun(ss: seq<Store>, es: seq<Event>) {
    && |ss| == |es| + 1 && ss[0] == EMPTY
    && forall n: nat {:trigger StepAt(ss, es, n)} | n < |es| :: StepAt(ss, es, n)
  }

  /** An update that takes the issue's (attempt, repairs) backwards. */
  predicate Lowers(s: Store, e: Event) {
    e.UpdateJob? && e.issue in s.jobs &&
    var j, u := s.jobs[e.issue], Updated(s.jobs[e.issue], e);
    u.attempt < j.attempt || (u.attempt == j.attempt && u.repairs < j.repairs)
  }

  /** Repair keys on record never lie ahead of the job's (attempt, repairs). */
  ghost predicate KeysBehind(s: Store) {
    forall r | r in s.rows && r.key.Some? && r.key.value.RepairKey? ::
      && r.key.value.issue in s.jobs
      && var j := s.jobs[r.key.value.issue];
         r.key.value.attempt < j.attempt || (r.key.value.attempt == j.attempt && r.key.value.repairs <= j.repairs)
  }

  lemma StepKeepsKeysBehind(s: Store, e: Event)
    requires KeysBehind(s) && !Lowers(s, e)
    ensures KeysBehind(Step(s, e)) && !StaleKey(s, e)
  {
    hide Taken, LiveIssues;
  }

  /** No step of the run takes an issue's attempt and repair counters backwards. */
  ghost predicate Forward(ss: seq<Store>, es: seq<Event>)
    requires |ss| == |es| + 1
  {
    forall n: nat {:trigger Lowers(ss[n], es[n])} | n < |es| :: !Lowers(ss[n], es[n])
  }

  lemma {:induction false} RunKeepsKeysBehind(ss: seq<Store>, es: seq<Event>, n: nat)
    requires IsRun(ss, es) && Forward(ss, es) && n <= |es|
    ensures KeysBehind(ss[n])
    decreases n
  {
    if n > 0 {
      hide Step, KeysBehind, Lowers;
      RunKeepsKeysBehind(ss, es, n - 1);
      assert StepAt(ss, es, n - 1);
      assert !Lowers(ss[n - 1], es[n - 1]);
      StepKeepsKeysBehind(ss[n - 1], es[n - 1]);
    }
  }

  /** The issue's last step so far that wrote a row or parked it was a refused repair of the
      live job. */
  predicate Missed(ss: seq<Store>, es: seq<Event>, n: nat, issue: int)
    requires n <= |es| && |ss| == |es| + 1
  {
    n > 0 &&
    if es[n - 1].issue == issue && DeniedOnLive(ss[n - 1], es[n - 1]) then true
    else if es[n - 1].issue == issue && Writes(ss[n - 1], es[n - 1]) then false
    else Missed(ss, es, n - 1, issue)
  }

  /** A missed park leaves a blocked job under a ledger that says otherwise. */
  predicate Diverged(s: Store, issue: int) {
    StatusOf(s, issue) == Some(Blocked) && Replay(s.rows, issue) != Some(Blocked)
  }

  lemma StepOfAgreement(s: Store, e: Event, issue: int)
    requires !StaleKey(s, e) && (Agrees(s, issue) || Diverged(s, issue))
    ensures if issue == e.issue && DeniedOnLive(s, e) then Diverged(Step(s, e), issue)
            else if issue == e.issue && Writes(s, e) then Agrees(Step(s, e), issue)
            else (Diverged(s, issue) ==> Diverged(Step(s, e), issue)) && (Agrees(s, issue) ==> Agrees(Step(s, e), issue))
  {
    hide Replay, KeyUsed, Taken, LiveIssues;
    AppendEffect(s, e, issue);
  }

  /** In every run that keeps its counters moving forward, the ledger replays to the table's
      status for every issue that has no missed park, and to another status for the others:
      a job parked by a refused repair stays invisible until its next ledger row. */
  lemma {:induction false} LedgerAgreesExactly(ss: seq<Store>, es: seq<Event>, n: nat, issue: int)
    requires IsRun(ss, es) && Forward(ss, es) && n <= |es|
    ensures if Missed(ss, es, n, issue) then Diverged(ss[n], issue) else Agrees(ss[n], issue)
    decreases n
  {
    if n > 0 {
      hide Step, KeysBehind, Lowers, DeniedOnLive, StaleKey, Agrees, Diverged, Writes;
      LedgerAgreesExactly(ss, es, n - 1, issue);
      RunKeepsKeysBehind(ss, es, n - 1);
      assert StepAt(ss, es, n - 1);
      assert !Lowers(ss[n - 1], es[n - 1]);
      StepKeepsKeysBehind(ss[n - 1], es[n - 1]);
      StepOfAgreement(ss[n - 1], es[n - 1], issue);
    }
  }

  // ----- Replay to a point in time -----

  lemma StepRows(s: Store, e: Event)
    ensures s.rows <= Step(s, e).rows
    ensures forall r | r in Step(s, e).rows[|s.rows|..] :: r.at == e.at
  {
    hide KeyUsed, Taken, LiveIssues;
  }

  /** The rows of steps n and later carry those steps' times. */
  lemma {:induction false} LaterRows(ss: seq<Store>, es: seq<Event>, n: nat, m: nat)
    requires IsRun(ss, es) && n <= m <= |es|
    ensures ss[n].rows <= ss[m].rows
    ensures forall r | r in ss[m].rows[|ss[n].rows|..] :: exists i: nat :: n <= i < m && r.at == es[i].at
    decreases m
  {
    if n < m {
      hide Step;
      LaterRows(ss, es, n, m - 1);
      assert StepAt(ss, es, m - 1);
      StepRows(ss[m - 1], es[m - 1]);
      var a, b, c := ss[n].rows, ss[m - 1].rows, ss[m].rows;
      assert c[|a|..] == b[|a|..] + c[|b|..];
      forall r | r in c[|a|..] ensures exists i: nat :: n <= i < m && r.at == es[i].at {
        if r in b[|a|..] {
          var i: nat :| n <= i < m - 1 && r.at == es[i].at;
        } else {
          assert r.at == es[m - 1].at;
        }
      }
    }
  }

  /** Replaying the final ledger up to a time gives the status the table had at that time,
      whatever came later, exactly when no park was missed by then. */
  lemma ReplayIsHistory(ss: seq<Store>, es: seq<Event>, n: nat, issue: int, hi: real)
    requires IsRun(ss, es) && Forward(ss, es) && n <= |es|
    requires forall i | 0 <= i < n :: es[i].at < hi
    requires forall i | n <= i < |es| :: es[i].at >= hi
    ensures StatusAt(ss[|es|].rows, issue, hi) == StatusOf(ss[n], issue) <==> !Missed(ss, es, n, issue)
  {
    hide StatusAt, Replay, StatusOf;
    LaterRows(ss, es, 0, n);
    LaterRows(ss, es, n, |es|);
    LedgerAgreesExactly(ss, es, n, issue);
    var early, all := ss[n].rows, ss[|es|].rows;
    assert early[|ss[0].rows|..] == early;
    assert all == early + all[|early|..];
    StatusAtCut(early, all[|early|..], issue, hi);
  }

  // ----- The merges counter -----

  function Merged(rows: seq<Row>): nat {
    if rows == [] then 0
    else Merged(rows[..|rows| - 1]) + if rows[|rows| - 1].kind == MergedAndClosed then 1 else 0
  }

  lemma MergedAppend(rows: seq<Row>, row: Row)
    ensures Merged(rows + [row]) == Merged(rows) + if row.kind == MergedAndClosed then 1 else 0
  {
    assert (rows + [row])[..|rows|] == rows;
  }

  lemma StepCountsMerges(s: Store, e: Event)
    requires s.merges == Merged(s.rows)
    ensures Step(s, e).merges == Merged(Step(s, e).rows)
  {
    hide Merged, KeyUsed, Taken, LiveIssues;
    forall row: Row { MergedAppend(s.rows, row); }
    if Retriable(s, e) {
      forall row: Row { MergedAppend(s.rows + [Row(RetryReserved, e.issue, e.at, None)], row); }
    }
  }

  /** The merges counter, which sets the capacity, is the number of merged-and-closed rows;
      this holds of every run. */
  lemma {:induction false} MergesCounted(ss: seq<Store>, es: seq<Event>, n: nat)
    requires IsRun(ss, es) && n <= |es|
    ensures ss[n].merges == Merged(ss[n].rows)
    decreases n
  {
    if n > 0 {
      hide Step;
      MergesCounted(ss, es, n - 1);
      assert StepAt(ss, es, n - 1);
      StepCountsMerges(ss[n - 1], es[n - 1]);
    }
  }

  // ----- One live job per worker -----

  ghost predicate WorkersDistinct(s: Store) {
    forall i, j | i in s.jobs && j in s.jobs && i != j && s.jobs[i].Live() && s.jobs[j].Live() ::
      s.jobs[i].worker != s.jobs[j].worker
  }

  lemma StepKeepsWorkers(s: Store, e: Event)
    requires WorkersDistinct(s)
    ensures WorkersDistinct(Step(s, e))
  {
    hide KeyUsed, LiveIssues, Replay;
  }

  /** In every reachable store no worker has two live jobs. */
  lemma {:induction false} LiveWorkersDistinct(ss: seq<Store>, es: seq<Event>, n: nat)
    requires IsRun(ss, es) && n <= |es|
    ensures WorkersDistinct(ss[n])
    decreases n
  {
    if n > 0 {
      hide Step, WorkersDistinct;
      LiveWorkersDistinct(ss, es, n - 1);
      assert StepAt(ss, es, n - 1);
      StepKeepsWorkers(ss[n - 1], es[n - 1]);
    }
  }

  // ----- Who is reserved, repaired and retried, over runs -----

  /** A reservation is made exactly when nothing is paused, every dependency's job is done, the
      live jobs are below the capacity (the workspace's, or 5, 10 from 5 merges and 20 from 15
      on), the issue has no job and its worker no live one. */
  lemma ReservesExactly(ss: seq<Store>, es: seq<Event>, n: nat)
    requires IsRun(ss, es) && n < |es| && es[n].Reserve?
    ensures var s, e := ss[n], es[n];
            var live := |set i | i in s.jobs && (s.jobs[i].status == Working || s.jobs[i].status == PrOpen)|;
            var done := Merged(s.rows);
            var room := if e.workspace.Some? then e.workspace.value else if done < 5 then 5 else if done < 15 then 10 else 20;
            ss[n + 1] ==
            if && !e.paused && (forall d | d in e.deps :: d in s.jobs && s.jobs[d].status == Done) && live < room
               && e.issue !in s.jobs
               && (forall i | i in s.jobs && s.jobs[i].worker == e.worker :: s.jobs[i].status == Blocked || s.jobs[i].status == Done)
            then s.(jobs := s.jobs[e.issue := Job(e.worker, Working, 1, 0)],
                    rows := s.rows + [Row(Reserved, e.issue, e.at, None)])
            else s
  {
    var s, e := ss[n], es[n];
    MergesCounted(ss, es, n);
    assert StepAt(ss, es, n);
    LiveAre(s.jobs);
    assert e.issue !in s.jobs ==>
             (Taken(s.jobs, e.issue, e.worker) <==>
              exists i | i in s.jobs && s.jobs[i].worker == e.worker :: !(s.jobs[i].status == Blocked || s.jobs[i].status == Done));
  }

  lemma LiveAre(jobs: map<int, Job>)
    ensures LiveIssues(jobs) == set i | i in jobs && (jobs[i].status == Working || jobs[i].status == PrOpen)
  {
    var live := set i | i in jobs && (jobs[i].status == Working || jobs[i].status == PrOpen);
    assert forall i :: i in live <==> i in LiveIssues(jobs);
  }

  /** A retry restarts a blocked job whose worker is not busy elsewhere: one attempt later, its
      repairs back to none. */
  lemma RetriesExactly(ss: seq<Store>, es: seq<Event>, n: nat)
    requires IsRun(ss, es) && n < |es| && es[n].Retry?
    ensures var s, i := ss[n], es[n].issue;
            if && i in s.jobs && s.jobs[i].status == Blocked
               && (forall j | j in s.jobs && j != i && s.jobs[j].worker == s.jobs[i].worker ::
                     s.jobs[j].status == Blocked || s.jobs[j].status == Done)
            then && ss[n + 1].jobs == s.jobs[i := Job(s.jobs[i].worker, Working, s.jobs[i].attempt + 1, 0)]
                 && ss[n + 1].merges == s.merges
                 && s.rows + [Row(RetryReserved, i, es[n].at, None)] <= ss[n + 1].rows
            else ss[n + 1] == s
  {
    hide KeyUsed;
    assert StepAt(ss, es, n);
  }

  /** An update changes the named fields of an existing job and records a change of status; the
      store is left alone when it would give one worker a second live job. */
  lemma UpdatesExactly(ss: seq<Store>, es: seq<Event>, n: nat)
    requires IsRun(ss, es) && n < |es| && es[n].UpdateJob? && es[n].issue in ss[n].jobs
    ensures var s, e, j := ss[n], es[n], ss[n].jobs[es[n].issue];
            var worker := if e.owner.Some? then e.owner.value else j.worker;
            var status := if e.status.Some? then e.status.value else j.status;
            var t := Job(worker, status, if e.attempt.Some? then e.attempt.value else j.attempt,
                         if e.repairs.Some? then e.repairs.value else j.repairs);
            ss[n + 1] ==
            if (status == Working || status == PrOpen)
               && (exists i | i in s.jobs && i != e.issue ::
                     (s.jobs[i].status == Working || s.jobs[i].status == PrOpen) && s.jobs[i].worker == worker)
            then s
            else Store(s.jobs[e.issue := t],
                       if status == j.status then s.rows else s.rows + [Row(StatusIs(status), e.issue, e.at, None)], s.merges)
  {
    assert StepAt(ss, es, n);
  }

  /** A completion finishes an unfinished job once, with its row and its merge. */
  lemma CompletesExactly(ss: seq<Store>, es: seq<Event>, n: nat)
    requires IsRun(ss, es) && n < |es| && es[n].Complete?
    ensures var s, i := ss[n], es[n].issue;
            ss[n + 1] == if i in s.jobs && s.jobs[i].status != Done
                         then Store(s.jobs[i := s.jobs[i].(status := Done)],
                                    s.rows + [Row(MergedAndClosed, i, es[n].at, None)], s.merges + 1)
                         else s
  {
    assert StepAt(ss, es, n);
  }

  /** No update sets a job's repair counter above three. */
  ghost predicate RepairsKept(es: seq<Event>) {
    forall n | 0 <= n < |es| && es[n].UpdateJob? && es[n].repairs.Some? :: es[n].repairs.value <= 3
  }

  /** So in every run no attempt is repaired more than three times, and a fourth request on a
      live job parks it. */
  lemma {:induction false} RepairsBounded(ss: seq<Store>, es: seq<Event>, n: nat, i: int)
    requires IsRun(ss, es) && RepairsKept(es) && n <= |es| && i in ss[n].jobs
    ensures ss[n].jobs[i].repairs <= 3
    ensures n < |es| && es[n] == RepairJob(i, es[n].at) && ss[n].jobs[i].Live() ==>
              i in ss[n + 1].jobs
              && (if ss[n].jobs[i].repairs < 3 then ss[n + 1].jobs[i].status == Working
                                                   && ss[n + 1].jobs[i].repairs == ss[n].jobs[i].repairs + 1
                  else ss[n + 1].jobs[i] == ss[n].jobs[i].(status := Blocked) && ss[n + 1].rows == ss[n].rows)
    decreases n
  {
    hide KeyUsed, LiveIssues, Taken;
    if n < |es| {
      assert StepAt(ss, es, n);
    }
    if n > 0 {
      assert StepAt(ss, es, n - 1);
      if i in ss[n - 1].jobs {
        RepairsBounded(ss, es, n - 1, i);
      }
    }
  }

  // ----- The two exceptions, concretely -----

  /** The store after reserving issue 7 and granting it n repairs. */
  function RepairedRows(n: nat): seq<Row>
    requires n <= 3
  {
    if n == 0 then [Row(Reserved, 7, 0.0, None)]
    else RepairedRows(n - 1) + [Row(Repair, 7, n as real, Some(RepairKey(7, 1, n)))]
  }

  function RepairedStore(n: nat): Store
    requires n <= 3
  {
    Store(map[7 := Job("w", Working, 1, n)], RepairedRows(n), 0)
  }

  lemma FirstReserve()
    ensures Step(EMPTY, Reserve(false, 7, "w", [], None, 0.0)) == RepairedStore(0)
  {
    assert LiveIssues(EMPTY.jobs) == {};
  }

  lemma {:induction false} KeysSoFar(n: nat, m: nat)
    requires n <= 3
    ensures KeyUsed(RepairedRows(n), RepairKey(7, 1, m)) <==> 1 <= m <= n
  {
    if n > 0 {
      KeysSoFar(n - 1, m);
      assert forall r :: r in RepairedRows(n) <==> r in RepairedRows(n - 1) || r == Row(Repair, 7, n as real, Some(RepairKey(7, 1, n)));
    }
  }

  lemma NextRepair(n: nat)
    requires n < 3
    ensures Step(RepairedStore(n), RepairJob(7, (n + 1) as real)) == RepairedStore(n + 1)
  {
    hide KeyUsed, Replay;
    KeysSoFar(n, n + 1);
  }

  lemma ReplaysWorking(n: nat)
    requires n <= 3
    ensures Replay(RepairedRows(n), 7) == Some(Working)
  {
  }

  /** A run from an empty store: after three granted repairs a fourth request parks the live
      job while the ledger still says working. */
  lemma DeniedRepairDiverges() returns (ss: seq<Store>, es: seq<Event>)
    ensures IsRun(ss, es) && |es| == 5 && Agrees(ss[4], 7)
    ensures StatusOf(ss[5], 7) == Some(Blocked) && Replay(ss[5].rows, 7) == Some(Working)
  {
    hide Replay, RepairedRows, KeyUsed;
    FirstReserve();
    NextRepair(0);
    NextRepair(1);
    NextRepair(2);
    ReplaysWorking(3);
    var parked := RepairedStore(3).(jobs := map[7 := Job("w", Blocked, 1, 3)]);
    es := [Reserve(false, 7, "w", [], None, 0.0), RepairJob(7, 1.0), RepairJob(7, 2.0), RepairJob(7, 3.0), RepairJob(7, 4.0)];
    ss := [EMPTY, RepairedStore(0), RepairedStore(1), RepairedStore(2), RepairedStore(3), parked];
    assert Step(RepairedStore(3), RepairJob(7, 4.0)) == parked;
    RunOf5(ss, es);
  }

  lemma RunOf5(ss: seq<Store>, es: seq<Event>)
    requires |es| == 5 && |ss| == 6 && ss[0] == EMPTY
    requires ss[1] == Step(ss[0], es[0]) && ss[2] == Step(ss[1], es[1]) && ss[3] == Step(ss[2], es[2])
    requires ss[4] == Step(ss[3], es[3]) && ss[5] == Step(ss[4], es[4])
    ensures IsRun(ss, es)
  {
    hide Step;
  }

  lemma RunOf4(ss: seq<Store>, es: seq<Event>)
    requires |es| == 4 && |ss| == 5 && ss[0] == EMPTY
    requires ss[1] == Step(ss[0], es[0]) && ss[2] == Step(ss[1], es[1])
    requires ss[3] == Step(ss[2], es[2]) && ss[4] == Step(ss[3], es[3])
    ensures IsRun(ss, es)
  {
    hide Step;
  }

  /** A run from an empty store: lowering the repair counter lets a later repair reuse a ledger
      key, so its row is ignored and the ledger keeps saying pr-open for a job that works. */
  lemma LoweredCounterDiverges() returns (ss: seq<Store>, es: seq<Event>)
    ensures IsRun(ss, es) && |es| == 4 && Agrees(ss[3], 7)
    ensures StatusOf(ss[4], 7) == Some(Working) && Replay(ss[4].rows, 7) == Some(PrOpen)
  {
    hide RepairedRows, KeyUsed;
    FirstReserve();
    NextRepair(0);
    var update := UpdateJob(7, Some(PrOpen), None, None, Some(0), 2.0);
    var u := Store(map[7 := Job("w", PrOpen, 1, 0)], RepairedRows(1) + [Row(StatusIs(PrOpen), 7, 2.0, None)], 0);
    var r := u.(jobs := map[7 := Job("w", Working, 1, 1)]);
    assert Step(RepairedStore(1), update) == u;
    LoweredKeyUsed();
    assert Step(u, RepairJob(7, 3.0)) == r;
    ReplayAppend(RepairedRows(1), Row(StatusIs(PrOpen), 7, 2.0, None), 7);
    es := [Reserve(false, 7, "w", [], None, 0.0), RepairJob(7, 1.0), update, RepairJob(7, 3.0)];
    ss := [EMPTY, RepairedStore(0), RepairedStore(1), u, r];
    RunOf4(ss, es);
  }

  lemma LoweredKeyUsed()
    ensures KeyUsed(RepairedRows(1) + [Row(StatusIs(PrOpen), 7, 2.0, None)], RepairKey(7, 1, 1))
  {
    var row := Row(Repair, 7, 1.0, Some(RepairKey(7, 1, 1)));
    assert RepairedRows(1)[1] == row;
    assert row in RepairedRows(1) + [Row(StatusIs(PrOpen), 7, 2.0, None)];
  }
}
