/** The run queue of qa_lane/state.py: queued assessments superseded by newer revisions, and
    dedicated verification and exploration runs beside them. */
module RunQueue {
  import opened Common

  datatype Status = Queued | Running | Finished | Interrupted | Superseded

  datatype Record = Record(id: string, attempted: string, completed: Option<string>, status: Status,
                           rangeFirst: Option<string>)
  {
    /** Assessment runs carry the `qa-` prefix; dedicated kinds (`qav-`, `qax-`) do not. */
    predicate Assessment() { "qa-" <= id }

    /** The oldest revision the record answers for. */
    function First(): string { if rangeFirst.Some? then rangeFirst.value else attempted }
  }

  /** The runs table in creation order. */
  type Runs = seq<Record>

  datatype Event =
    | Enqueue(id: string, sha: string)
    | Dedicated(id: string, sha: string)
    | Begin(id: string)
    | Finish(id: string, completed: Option<string>)
    | Interrupt(id: string)

  // ----- Steps -----

  predicate Pending(r: Record, sha: string) {
    r.Assessment() && (r.status == Queued || r.status == Running) && r.attempted == sha
  }

  predicate HasId(runs: Runs, id: string) {
    exists r | r in runs :: r.id == id
  }

  /** The first queued assessment's oldest revision. */
  function QueuedFirst(runs: Runs): Option<string> {
    if runs == [] then None
    else if runs[0].Assessment() && runs[0].status == Queued then Some(runs[0].First())
    else QueuedFirst(runs[1..])
  }

  /** The revision the latest ended assessment reached. */
  function LastEnded(runs: Runs): Option<string> {
    if runs == [] then None else
      var r := runs[|runs| - 1];
      if r.Assessment() && (r.status == Finished || r.status == Interrupted)
      then Some(if r.completed.Some? then r.completed.value else r.attempted)
      else LastEnded(runs[..|runs| - 1])
  }

  function RangeFirst(runs: Runs, sha: string): Option<string> {
    if QueuedFirst(runs).Some? then QueuedFirst(runs)
    else if LastEnded(runs).Some? && LastEnded(runs).value != sha then LastEnded(runs)
    else None
  }

  function Supersede(runs: Runs): (r: Runs)
    ensures |r| == |runs|
    ensures forall i | 0 <= i < |runs| ::
              r[i] == if runs[i].Assessment() && runs[i].status == Queued then runs[i].(status := Superseded) else runs[i]
  {
    seq(|runs|, i requires 0 <= i < |runs| =>
      if runs[i].Assessment() && runs[i].status == Queued then runs[i].(status := Superseded) else runs[i])
  }

  predicate NoOp(runs: Runs, e: Event)
    requires e.Enqueue?
  {
    exists r | r in runs :: Pending(r, e.sha)
  }

  function Ended(r: Record, e: Event): Record {
    match e
    case Begin(_) => if r.status == Queued then r.(status := Running) else r
    case Finish(_, completed) => r.(status := Finished, completed := completed)
    case Interrupt(_) => r.(status := Interrupted)
    case _ => r
  }

  function UpdateRow(runs: Runs, e: Event): (r: Runs)
    ensures |r| == |runs|
    ensures forall i | 0 <= i < |runs| :: r[i] == if runs[i].id == e.id then Ended(runs[i], e) else runs[i]
  {
    seq(|runs|, i requires 0 <= i < |runs| => if runs[i].id == e.id then Ended(runs[i], e) else runs[i])
  }

  /** One call; an insert under a used run id raises and changes nothing. */
  function Step(runs: Runs, e: Event): Runs {
    match e
    case Enqueue(id, sha) =>
      if NoOp(runs, e) || HasId(runs, id) then runs
      else Supersede(runs) + [Record(id, sha, None, Queued, RangeFirst(runs, sha))]
    case Dedicated(id, sha) =>
      if HasId(runs, id) then runs else runs + [Record(id, sha, None, Queued, None)]
    case _ => UpdateRow(runs, e)
  }

  /** The event keeps to its callers' conventions: assessments and dedicated runs are told
      apart by their ids. */
  predicate Proper(e: Event) {
    && (e.Enqueue? ==> "qa-" <= e.id)
    && (e.Dedicated? ==> !("qa-" <= e.id))
  }

  // ----- One queued assessment, and where a superseded one went -----

  /** n is the next assessment after i. */
  ghost predicate NextAssessment(runs: Runs, i: nat, n: nat) {
    i < n < |runs| && runs[n].Assessment() && forall k | i < k < n :: !runs[k].Assessment()
  }

  /** The next assessment answers for everything i answered for. */
  ghost predicate HandedOn(runs: Runs, i: nat) {
    i < |runs| && exists n: nat :: NextAssessment(runs, i, n) && runs[n].rangeFirst == Some(runs[i].First())
  }

  /** A queued assessment is the latest one, and every superseded assessment was handed on. */
  ghost predicate Inv(runs: Runs) {
    && (forall i, j | 0 <= i < j < |runs| && runs[i].Assessment() && runs[j].Assessment() :: runs[i].status != Queued)
    && (forall i: nat | i < |runs| && runs[i].Assessment() && runs[i].status == Superseded :: HandedOn(runs, i))
  }

  lemma {:induction false} QueuedFirstIs(runs: Runs, i: nat)
    requires i < |runs| && runs[i].Assessment() && runs[i].status == Queued
    requires forall k | 0 <= k < i :: !(runs[k].Assessment() && runs[k].status == Queued)
    ensures QueuedFirst(runs) == Some(runs[i].First())
    decreases i
  {
    if i > 0 {
      QueuedFirstIs(runs[1..], i - 1);
    }
  }

  /** Rows keep their place, id, revision and range through every step. */
  ghost predicate SameRow(a: Record, b: Record) {
    a.id == b.id && a.attempted == b.attempted && a.rangeFirst == b.rangeFirst
  }

  lemma StepKeepsRows(runs: Runs, e: Event, i: nat)
    requires i < |runs|
    ensures var r := Step(runs, e);
            |runs| <= |r| && SameRow(runs[i], r[i])
            && (r[i].status == Queued ==> runs[i].status == Queued)
            && (r[i].status == Superseded ==> runs[i].status == Superseded || (e.Enqueue? && runs[i].status == Queued
                                              && runs[i].Assessment() && |r| == |runs| + 1))
  {
  }

  lemma HandedOnStays(runs: Runs, e: Event, i: nat)
    requires HandedOn(runs, i)
    ensures HandedOn(Step(runs, e), i)
  {
    hide Step;
    var n: nat :| NextAssessment(runs, i, n) && runs[n].rangeFirst == Some(runs[i].First());
    var r := Step(runs, e);
    StepKeepsRows(runs, e, i);
    StepKeepsRows(runs, e, n);
    forall k | i < k < n ensures !r[k].Assessment() {
      StepKeepsRows(runs, e, k);
    }
    assert NextAssessment(r, i, n);
  }

  /** The assessment superseded by an enqueue is handed on to the new record. */
  lemma SupersededIsHandedOn(runs: Runs, e: Event, i: nat)
    requires Inv(runs) && Proper(e) && e.Enqueue? && i < |runs| && runs[i].Assessment() && runs[i].status == Queued
    requires |Step(runs, e)| == |runs| + 1
    ensures HandedOn(Step(runs, e), i)
  {
    var r := Step(runs, e);
    QueuedFirstIs(runs, i);
    assert NextAssessment(r, i, |runs|);
  }

  lemma StepKeepsInv(runs: Runs, e: Event)
    requires Inv(runs) && Proper(e)
    ensures Inv(Step(runs, e))
  {
    var r := Step(runs, e);
    forall i, j | 0 <= i < j < |r| && r[i].Assessment() && r[j].Assessment() ensures r[i].status != Queued {
      LatestIsQueued(runs, e, i, j);
    }
    forall i: nat | i < |r| && r[i].Assessment() && r[i].status == Superseded ensures HandedOn(r, i) {
      NewRowIsQueued(runs, e);
      StepKeepsRows(runs, e, i);
      if runs[i].status == Superseded {
        HandedOnStays(runs, e, i);
      } else {
        SupersededIsHandedOn(runs, e, i);
      }
    }
  }

  lemma NewRowIsQueued(runs: Runs, e: Event)
    ensures var r := Step(runs, e);
            |runs| <= |r| <= |runs| + 1 && (|r| > |runs| ==> r[|runs|].status == Queued)
  {
  }

  lemma LatestIsQueued(runs: Runs, e: Event, i: nat, j: nat)
    requires Inv(runs) && Proper(e) && i < j < |Step(runs, e)|
    requires Step(runs, e)[i].Assessment() && Step(runs, e)[j].Assessment()
    ensures Step(runs, e)[i].status != Queued
  {
    NewRowIsQueued(runs, e);
    StepKeepsRows(runs, e, i);
    if j < |runs| {
      StepKeepsRows(runs, e, j);
    }
  }

  // ----- Runs of the queue -----

  ghost predicate StepAt(qs: seq<Runs>, es: seq<Event>, n: nat)
    requires n < |es| && n + 1 < |qs|
  {
    qs[n + 1] == Step(qs[n], es[n]) && Proper(es[n])
  }

  ghost predicate IsRun(qs: seq<Runs>, es: seq<Event>) {
    && |qs| == |es| + 1 && qs[0] == []
    && forall n: nat {:trigger StepAt(qs, es, n)} | n < |es| :: StepAt(qs, es, n)
  }

  lemma {:induction false} ReachableInv(qs: seq<Runs>, es: seq<Event>, n: nat)
    requires IsRun(qs, es) && n <= |es|
    ensures Inv(qs[n])
    decreases n
  {
    if n > 0 {
      hide Step, Inv;
      ReachableInv(qs, es, n - 1);
      assert StepAt(qs, es, n - 1);
      StepKeepsInv(qs[n - 1], es[n - 1]);
    }
  }

  /** At most one assessment is queued at any time. */
  lemma OneQueuedAssessment(qs: seq<Runs>, es: seq<Event>, n: nat, i: nat, j: nat)
    requires IsRun(qs, es) && n <= |es| && i < |qs[n]| && j < |qs[n]|
    requires qs[n][i].Assessment() && qs[n][i].status == Queued && qs[n][j].Assessment() && qs[n][j].status == Queued
    ensures i == j
  {
    ReachableInv(qs, es, n);
  }

  /** The supersession chain of i: from a superseded assessment to the next assessment, which
      carries its oldest revision on, up to one that is not superseded. */
  ghost predicate EndsAt(runs: Runs, i: nat, end: nat)
    requires i < |runs|
    decreases |runs| - i
  {
    if runs[i].status != Superseded then end == i
    else exists n: nat :: NextAssessment(runs, i, n) && runs[n].rangeFirst == Some(runs[i].First()) && EndsAt(runs, n, end)
  }

  /** Following the supersessions from i ends at an assessment that is not superseded and
      still answers for i's oldest revision. */
  lemma {:induction false} ChainEnd(runs: Runs, i: nat) returns (end: nat)
    requires Inv(runs) && i < |runs| && runs[i].Assessment()
    ensures EndsAt(runs, i, end)
    ensures i <= end < |runs| && runs[end].Assessment() && runs[end].status != Superseded
    ensures runs[end].First() == runs[i].First() && (end > i ==> runs[end].rangeFirst == Some(runs[i].First()))
    decreases |runs| - i
  {
    if runs[i].status != Superseded {
      end := i;
    } else {
      assert HandedOn(runs, i);
      var n: nat :| NextAssessment(runs, i, n) && runs[n].rangeFirst == Some(runs[i].First());
      end := ChainEnd(runs, n);
    }
  }

  // ----- What each call does, over runs -----

  /** The assessment has ended. */
  predicate Over(r: Record) {
    "qa-" <= r.id && (r.status == Finished || r.status == Interrupted)
  }

  /** The revision an ended run reached. */
  function Reached(r: Record): string {
    match r.completed
    case Some(sha) => sha
    case None => r.attempted
  }

  ghost predicate LastOver(runs: Runs, j: nat) {
    j < |runs| && Over(runs[j]) && forall k | j < k < |runs| :: !Over(runs[k])
  }

  lemma {:induction false} LastEndedIs(runs: Runs, j: nat)
    requires LastOver(runs, j)
    ensures LastEnded(runs) == Some(Reached(runs[j]))
    decreases |runs|
  {
    var front := runs[..|runs| - 1];
    if j < |runs| - 1 {
      assert !Over(runs[|runs| - 1]);
      LastEndedIs(front, j);
    }
  }

  lemma {:induction false} NoneEnded(runs: Runs)
    requires forall r | r in runs :: !Over(r)
    ensures LastEnded(runs) == None
    decreases |runs|
  {
    if runs != [] {
      assert runs[|runs| - 1] in runs;
      NoneEnded(runs[..|runs| - 1]);
    }
  }

  lemma {:induction false} NoneQueued(runs: Runs)
    requires forall r | r in runs && "qa-" <= r.id :: r.status != Queued
    ensures QueuedFirst(runs) == None
    decreases |runs|
  {
    if runs != [] {
      assert runs[0] in runs;
      NoneQueued(runs[1..]);
    }
  }

  /** An enqueue that appends a record while no assessment is queued: its range starts at the
      revision the last ended assessment reached, and is left open when that is the new
      revision itself or nothing has ended. */
  lemma RangeFromLastEnded(qs: seq<Runs>, es: seq<Event>, n: nat)
    requires IsRun(qs, es) && n < |es| && es[n].Enqueue? && |qs[n + 1]| > |qs[n]|
    requires forall r | r in qs[n] && "qa-" <= r.id :: r.status != Queued
    ensures var runs, row := qs[n], qs[n + 1][|qs[n]|];
            && (forall j: nat | LastOver(runs, j) ::
                  row.rangeFirst == if Reached(runs[j]) != es[n].sha then Some(Reached(runs[j])) else None)
            && ((forall r | r in runs :: !Over(r)) ==> row.rangeFirst == None)
  {
    hide LastEnded, QueuedFirst, NoOp, HasId;
    var runs := qs[n];
    assert StepAt(qs, es, n);
    NoneQueued(runs);
    forall j: nat | LastOver(runs, j) ensures LastEnded(runs) == Some(Reached(runs[j])) {
      LastEndedIs(runs, j);
    }
    if forall r | r in runs :: !Over(r) {
      NoneEnded(runs);
    }
  }

  /** So the new record starts exactly where the last one stopped: no revision between two
      assessments is left out of both. */
  lemma RangesMeet(qs: seq<Runs>, es: seq<Event>, n: nat, j: nat)
    requires IsRun(qs, es) && n < |es| && es[n].Enqueue? && |qs[n + 1]| > |qs[n]|
    requires forall r | r in qs[n] && "qa-" <= r.id :: r.status != Queued
    requires LastOver(qs[n], j)
    ensures qs[n + 1][|qs[n]|].First() == Reached(qs[n][j])
  {
    hide LastOver, Reached, IsRun;
    RangeFromLastEnded(qs, es, n);
    AppendedRow(qs, es, n);
  }

  lemma AppendedRow(qs: seq<Runs>, es: seq<Event>, n: nat)
    requires IsRun(qs, es) && n < |es| && es[n].Enqueue? && |qs[n + 1]| > |qs[n]|
    ensures qs[n + 1][|qs[n]|].attempted == es[n].sha
  {
    assert StepAt(qs, es, n);
  }

  /** An enqueue that appends a record while assessment i is queued takes over its range. */
  lemma RangeFromQueued(qs: seq<Runs>, es: seq<Event>, n: nat, i: nat)
    requires IsRun(qs, es) && n < |es| && es[n].Enqueue? && |qs[n + 1]| > |qs[n]|
    requires i < |qs[n]| && "qa-" <= qs[n][i].id && qs[n][i].status == Queued
    ensures var r := qs[n][i];
            qs[n + 1][|qs[n]|].rangeFirst == Some(match r.rangeFirst case Some(first) => first case None => r.attempted)
  {
    hide NoOp, HasId;
    ReachableInv(qs, es, n);
    assert StepAt(qs, es, n);
    QueuedFirstIs(qs[n], i);
  }

  /** An enqueue is a no-op exactly when an assessment of the revision is queued or running, or
      the run id is used. Otherwise it appends one queued record and marks every queued
      assessment superseded; no other row changes. */
  lemma EnqueuesExactly(qs: seq<Runs>, es: seq<Event>, n: nat)
    requires IsRun(qs, es) && n < |es| && es[n].Enqueue?
    ensures var before, after, id, sha := qs[n], qs[n + 1], es[n].id, es[n].sha;
            if exists r | r in before ::
                 r.id == id || ("qa-" <= r.id && (r.status == Queued || r.status == Running) && r.attempted == sha)
            then after == before
            else
              && |after| == |before| + 1
              && after[|before|] == Record(id, sha, None, Queued, after[|before|].rangeFirst)
              && forall i | 0 <= i < |before| ::
                   after[i] == if "qa-" <= before[i].id && before[i].status == Queued
                               then before[i].(status := Superseded) else before[i]
  {
    hide LastEnded, QueuedFirst, RangeFirst;
    assert StepAt(qs, es, n);
  }

  /** Begin moves a queued run to running, finish and interrupt end the run whatever its status,
      and a dedicated run is appended unless its id is used; no other row changes. */
  lemma OtherCallsExactly(qs: seq<Runs>, es: seq<Event>, n: nat, i: nat)
    requires IsRun(qs, es) && n < |es| && !es[n].Enqueue? && i < |qs[n]|
    ensures i < |qs[n + 1]|
    ensures var r, e, t := qs[n][i], es[n], qs[n + 1][i];
            && (e.Dedicated? || r.id != e.id ==> t == r)
            && (r.id == e.id && e.Begin? ==> t == if r.status == Queued then r.(status := Running) else r)
            && (r.id == e.id && e.Finish? ==> t == r.(status := Finished, completed := e.completed))
            && (r.id == e.id && e.Interrupt? ==> t == r.(status := Interrupted))
    ensures |qs[n + 1]| == |qs[n]| + if es[n].Dedicated? && !(exists r | r in qs[n] :: r.id == es[n].id) then 1 else 0
    ensures |qs[n + 1]| > |qs[n]| ==> qs[n + 1][|qs[n]|] == Record(es[n].id, es[n].sha, None, Queued, None)
  {
    assert StepAt(qs, es, n);
  }

  // ----- Commit order -----

  /** Revisions as positions in the commit history. */
  type History = string -> int

  /** The step respects commit order: a new assessment is no older than any before it, and a
      run completes no revision newer than the one it attempted. */
  ghost predicate InOrder(pos: History, runs: Runs, e: Event) {
    match e
    case Enqueue(_, sha) => forall r | r in runs && r.Assessment() :: pos(r.attempted) <= pos(sha)
    case Finish(id, Some(c)) => forall r | r in runs && r.id == id :: pos(c) <= pos(r.attempted)
    case _ => true
  }

  ghost predicate OrderOk(pos: History, runs: Runs) {
    && (forall i, j | 0 <= i < j < |runs| && runs[i].Assessment() && runs[j].Assessment() ::
          pos(runs[i].attempted) <= pos(runs[j].attempted))
    && (forall i | 0 <= i < |runs| :: runs[i].Assessment() ==> pos(runs[i].First()) <= pos(runs[i].attempted))
    && (forall i | 0 <= i < |runs| :: runs[i].completed.Some? ==> pos(runs[i].completed.value) <= pos(runs[i].attempted))
  }

  lemma {:induction false} RangeFirstInOrder(pos: History, runs: Runs, sha: string)
    requires forall i | 0 <= i < |runs| :: runs[i].Assessment() ==> pos(runs[i].First()) <= pos(runs[i].attempted) <= pos(sha)
    requires forall i | 0 <= i < |runs| :: runs[i].completed.Some? ==> pos(runs[i].completed.value) <= pos(runs[i].attempted)
    ensures QueuedFirst(runs).Some? ==> pos(QueuedFirst(runs).value) <= pos(sha)
    ensures LastEnded(runs).Some? ==> pos(LastEnded(runs).value) <= pos(sha)
    decreases |runs|
  {
    if runs != [] {
      RangeFirstInOrder(pos, runs[1..], sha);
      RangeFirstInOrder(pos, runs[..|runs| - 1], sha);
    }
  }

  lemma StepKeepsOrder(pos: History, runs: Runs, e: Event)
    requires OrderOk(pos, runs) && InOrder(pos, runs, e) && Proper(e)
    ensures OrderOk(pos, Step(runs, e))
  {
    var r := Step(runs, e);
    if e.Enqueue? {
      RangeFirstInOrder(pos, runs, e.sha);
    }
    forall i: nat | i < |runs| ensures SameRow(runs[i], r[i]) {
      StepKeepsRows(runs, e, i);
    }
    NewRowIsQueued(runs, e);
  }

  ghost predicate AllInOrder(pos: History, qs: seq<Runs>, es: seq<Event>)
    requires |qs| == |es| + 1
  {
    forall n: nat {:trigger InOrder(pos, qs[n], es[n])} | n < |es| :: InOrder(pos, qs[n], es[n])
  }

  lemma {:induction false} ReachableOrder(pos: History, qs: seq<Runs>, es: seq<Event>, n: nat)
    requires IsRun(qs, es) && AllInOrder(pos, qs, es) && n <= |es|
    ensures OrderOk(pos, qs[n])
    decreases n
  {
    if n > 0 {
      hide Step, OrderOk, InOrder;
      ReachableOrder(pos, qs, es, n - 1);
      assert StepAt(qs, es, n - 1) && InOrder(pos, qs[n - 1], es[n - 1]);
      StepKeepsOrder(pos, qs[n - 1], es[n - 1]);
    }
  }

  /** Some assessment that is not superseded covers the revision with its range. */
  ghost predicate Covered(pos: History, runs: Runs, sha: string) {
    exists r | r in runs ::
      r.Assessment() && r.status != Superseded && pos(r.First()) <= pos(sha) <= pos(r.attempted)
  }

  /** In every run that enqueues in commit order, each assessment's revision lies in
      [range_first, attempted] of the record at the end of its supersession chain. */
  lemma SupersededIsCovered(pos: History, qs: seq<Runs>, es: seq<Event>, n: nat, i: nat) returns (end: nat)
    requires IsRun(qs, es) && AllInOrder(pos, qs, es) && n <= |es|
    requires i < |qs[n]| && qs[n][i].Assessment()
    ensures var runs := qs[n];
            && i <= end < |runs| && EndsAt(runs, i, end)
            && runs[end].Assessment() && runs[end].status != Superseded && runs[end].First() == runs[i].First()
            && pos(runs[end].First()) <= pos(runs[i].attempted) <= pos(runs[end].attempted)
  {
    hide Inv, OrderOk, EndsAt, AllInOrder;
    ReachableInv(qs, es, n);
    ReachableOrder(pos, qs, es, n);
    end := ChainEnd(qs[n], i);
    RangeHolds(pos, qs[n], i, end);
  }

  lemma RangeHolds(pos: History, runs: Runs, i: nat, end: nat)
    requires OrderOk(pos, runs) && i <= end < |runs| && runs[i].Assessment() && runs[end].Assessment()
    ensures pos(runs[i].First()) <= pos(runs[i].attempted) <= pos(runs[end].attempted)
  {
  }

  lemma {:induction false} RowStays(qs: seq<Runs>, es: seq<Event>, m: nat, n: nat, i: nat)
    requires IsRun(qs, es) && m <= n <= |es| && i < |qs[m]|
    ensures i < |qs[n]| && SameRow(qs[m][i], qs[n][i])
    decreases n
  {
    if m < n {
      hide Step;
      RowStays(qs, es, m, n - 1, i);
      assert StepAt(qs, es, n - 1);
      StepKeepsRows(qs[n - 1], es[n - 1], i);
    }
  }

  /** No revision is ever dropped: from the moment it is enqueued, unless its run id was
      already used, every revision stays covered by an assessment that is not superseded. */
  lemma NoRevisionDropped(pos: History, qs: seq<Runs>, es: seq<Event>, m: nat, n: nat)
    requires IsRun(qs, es) && AllInOrder(pos, qs, es) && m < n <= |es|
    requires es[m].Enqueue? && (NoOp(qs[m], es[m]) || !HasId(qs[m], es[m].id))
    ensures Covered(pos, qs[n], es[m].sha)
  {
    hide Covered, OrderOk, Inv, AllInOrder;
    assert StepAt(qs, es, m);
    var i := EnqueuedRow(qs[m], es[m]);
    RowStays(qs, es, m + 1, n, i);
    var end := SupersededIsCovered(pos, qs, es, n, i);
    CoveredBy(pos, qs[n], end, es[m].sha);
  }

  lemma CoveredBy(pos: History, runs: Runs, end: nat, sha: string)
    requires end < |runs| && runs[end].Assessment() && runs[end].status != Superseded
    requires pos(runs[end].First()) <= pos(sha) <= pos(runs[end].attempted)
    ensures Covered(pos, runs, sha)
  {
    assert runs[end] in runs;
  }

  lemma EnqueuedRow(runs: Runs, e: Event) returns (i: nat)
    requires e.Enqueue? && Proper(e) && (NoOp(runs, e) || !HasId(runs, e.id))
    ensures i < |Step(runs, e)| && Step(runs, e)[i].Assessment() && Step(runs, e)[i].attempted == e.sha
  {
    if NoOp(runs, e) {
      var r :| r in runs && Pending(r, e.sha);
      i :| 0 <= i < |runs| && runs[i] == r;
    } else {
      i := |runs|;
    }
  }
}
