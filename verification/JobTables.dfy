/** The class `State` of agent_pool/state.py as far as jobs and the work ledger go: one method
    per transaction, updating the tables in place, each proved against `JobLedger.Step`. */
module JobTables {
  import opened Common
  import opened JobLedger

  class State {
    const workspace: Option<int>
    var jobs: map<int, Job>
    var rows: seq<Row>
    var merges: nat

    function View(): Store
      reads this
    {
      Store(jobs, rows, merges)
    }

    constructor (capacity: Option<int>)
      ensures workspace == capacity && View() == EMPTY
    {
      workspace, jobs, rows, merges := capacity, map[], [], 0;
    }

    /** The job is reserved unless paused, occupied, or its dependencies are incomplete. */
    method Reserve(paused: bool, issue: int, worker: string, deps: seq<int>, now: real) returns (ok: bool)
      modifies this`jobs, this`rows
      ensures View() == Step(old(View()), Event.Reserve(paused, issue, worker, deps, workspace, now))
      ensures ok <==> issue !in old(jobs) && issue in jobs
    {
      ghost var e := Event.Reserve(paused, issue, worker, deps, workspace, now);
      if paused {
        return false;
      }
      for i := 0 to |deps|
        invariant View() == old(View()) && forall k | 0 <= k < i :: deps[k] in jobs && jobs[deps[k]].status == Done
      {
        var d := deps[i];
        if d !in jobs || jobs[d].status != Done {
          assert !DepsDone(jobs, deps);
          return false;
        }
      }
      assert DepsDone(jobs, deps);
      if |LiveIssues(jobs)| >= Capacity(merges, workspace) || issue in jobs || Taken(jobs, issue, worker) {
        return false;
      }
      assert Reservable(old(View()), e);
      jobs := jobs[issue := Job(worker, Working, 1, 0)];
      rows := rows + [Row(Reserved, issue, now, None)];
      return true;
    }

    /** Field updates; `refused` when the live-worker index rejects the row. */
    method UpdateJob(issue: int, status: Option<Status>, owner: Option<string>, attempt: Option<nat>,
                     repairs: Option<nat>, now: real) returns (refused: bool)
      modifies this`jobs, this`rows
      ensures View() == Step(old(View()), Event.UpdateJob(issue, status, owner, attempt, repairs, now))
    {
      refused := false;
      if issue !in jobs {
        return;
      }
      var previous := jobs[issue];
      var j := previous;
      if owner.Some? { j := j.(worker := owner.value); }
      if status.Some? { j := j.(status := status.value); }
      if attempt.Some? { j := j.(attempt := attempt.value); }
      if repairs.Some? { j := j.(repairs := repairs.value); }
      assert j == Updated(previous, Event.UpdateJob(issue, status, owner, attempt, repairs, now));
      if j.Live() && Taken(jobs, issue, j.worker) {
        return true;
      }
      jobs := jobs[issue := j];
      if j.status != previous.status {
        rows := rows + [Row(StatusIs(j.status), issue, now, None)];
      }
    }

    method Repair(issue: int, now: real) returns (granted: bool)
      modifies this`jobs, this`rows
      ensures View() == Step(old(View()), Event.RepairJob(issue, now))
      ensures granted <==> RepairGranted(old(View()), Event.RepairJob(issue, now))
    {
      granted := issue in jobs && jobs[issue].repairs < 3 && jobs[issue].Live();
      if granted {
        var j := jobs[issue].(repairs := jobs[issue].repairs + 1, status := Working);
        jobs := jobs[issue := j];
        var key := RepairKey(issue, j.attempt, j.repairs);
        if !KeyUsed(rows, key) {
          rows := rows + [Row(Kind.Repair, issue, now, Some(key))];
        }
      } else if issue in jobs && jobs[issue].status != Done {
        jobs := jobs[issue := jobs[issue].(status := Blocked)];
      }
    }

    method Complete(issue: int, now: real)
      modifies this
      ensures View() == Step(old(View()), Event.Complete(issue, now))
    {
      if issue in jobs && jobs[issue].status != Done {
        jobs := jobs[issue := jobs[issue].(status := Done)];
        rows := rows + [Row(MergedAndClosed, issue, now, None)];
        merges := merges + 1;
      }
    }

    method Retry(issue: int, now: real) returns (granted: bool)
      modifies this`jobs, this`rows
      ensures View() == Step(old(View()), Event.Retry(issue, now))
      ensures granted <==> Retriable(old(View()), Event.Retry(issue, now))
    {
      granted := issue in jobs && jobs[issue].status == Blocked && !Taken(jobs, issue, jobs[issue].worker);
      if granted {
        var j := jobs[issue].(status := Working, attempt := jobs[issue].attempt + 1, repairs := 0);
        jobs := jobs[issue := j];
        rows := rows + [Row(RetryReserved, issue, now, None)];
        var key := RedispatchKey(issue, j.attempt);
        if !KeyUsed(rows, key) {
          rows := rows + [Row(Redispatch, issue, now, Some(key))];
        }
      }
    }
  }
}
