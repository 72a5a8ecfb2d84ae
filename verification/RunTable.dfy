/** The runs table of qa_lane/state.py as an object: each method is one transaction and leaves
    the table as `Step` of module RunQueue says. */
module RunTable {
  import opened Common
  import opened RunQueue

  /** Run ids are the primary key. */
  predicate DistinctIds(runs: Runs) {
    forall i, j | 0 <= i < j < |runs| :: runs[i].id != runs[j].id
  }

  predicate QueuedAssessment(r: Record) {
    r.Assessment() && r.status == Queued
  }

  function Row(runs: Runs, id: string): Option<Record> {
    if runs == [] then None
    else if runs[0].id == id then Some(runs[0])
    else Row(runs[1..], id)
  }

  lemma NotAssessmentHere(runs: Runs, i: nat)
    requires i < |runs|
    ensures QueuedFirst(runs[i..]) == if QueuedAssessment(runs[i]) then Some(runs[i].First()) else QueuedFirst(runs[i + 1..])
  {
    assert runs[i..][1..] == runs[i + 1..];
  }

  lemma EndedHere(runs: Runs, i: nat)
    requires i < |runs|
    ensures LastEnded(runs[..i + 1])
         == if runs[i].Assessment() && (runs[i].status == Finished || runs[i].status == Interrupted)
            then Some(if runs[i].completed.Some? then runs[i].completed.value else runs[i].attempted)
            else LastEnded(runs[..i])
  {
    assert runs[..i + 1][..i] == runs[..i];
  }

  /** The rows after the loop marked the first n of the queued ones. */
  predicate Marked(was: Runs, rows: Runs, queued: seq<Record>, n: nat)
    requires n <= |queued|
  {
    && |rows| == |was|
    && forall i | 0 <= i < |was| :: rows[i] == if was[i] in queued[..n] then was[i].(status := Superseded) else was[i]
  }

  lemma MarkNext(was: Runs, rows: Runs, queued: seq<Record>, n: nat)
    requires DistinctIds(was) && n < |queued| && Marked(was, rows, queued, n) && queued[n] in was
    ensures Marked(was, seq(|rows|, i requires 0 <= i < |rows| =>
                     if rows[i].id == queued[n].id then rows[i].(status := Superseded) else rows[i]), queued, n + 1)
  {
    assert queued[..n + 1] == queued[..n] + [queued[n]];
    forall i | 0 <= i < |was| && rows[i].id == queued[n].id ensures was[i] == queued[n] {
      var j :| 0 <= j < |was| && was[j] == queued[n];
    }
  }

  lemma AllMarked(was: Runs, rows: Runs, queued: seq<Record>)
    requires Marked(was, rows, queued, |queued|)
    requires forall r :: r in queued <==> r in was && QueuedAssessment(r)
    ensures rows == Supersede(was)
  {
    assert queued[..|queued|] == queued;
    assert forall i | 0 <= i < |was| :: was[i] in was;
  }

  class State {
    var runs: Runs

    ghost predicate Valid()
      reads this
    {
      DistinctIds(runs)
    }

    constructor ()
      ensures Valid() && runs == []
    {
      runs := [];
    }

    /** The row of a run id, if any. */
    method Run(id: string) returns (row: Option<Record>)
      ensures row == Row(runs, id)
    {
      var i := 0;
      while i < |runs|
        invariant i <= |runs| && Row(runs, id) == Row(runs[i..], id)
      {
        assert runs[i..][1..] == runs[i + 1..];
        if runs[i].id == id { return Some(runs[i]); }
        i := i + 1;
      }
      row := None;
    }

    /** The oldest revision the queued assessments or the latest ended one leave untested. */
    method Range(sha: string) returns (first: Option<string>)
      ensures first == RangeFirst(runs, sha)
    {
      first := None;
      var last: Option<string> := None;
      assert runs[0..] == runs;
      for i := 0 to |runs|
        invariant QueuedFirst(runs) == if first.Some? then first else QueuedFirst(runs[i..])
        invariant last == LastEnded(runs[..i])
      {
        NotAssessmentHere(runs, i);
        EndedHere(runs, i);
        var row := runs[i];
        if QueuedAssessment(row) && first.None? {
          first := Some(row.First());
        }
        if row.Assessment() && (row.status == Finished || row.status == Interrupted) {
          last := Some(if row.completed.Some? then row.completed.value else row.attempted);
        }
      }
      assert runs[..|runs|] == runs;
      if first.None? && last.Some? && last.value != sha {
        first := last;
      }
    }

    /** The rows with every queued assessment marked superseded. */
    method Superseding() returns (rows: Runs)
      requires Valid()
      ensures rows == Supersede(runs)
    {
      var queued: seq<Record> := [];
      for i := 0 to |runs|
        invariant forall r :: r in queued <==> r in runs[..i] && QueuedAssessment(r)
      {
        assert runs[..i + 1] == runs[..i] + [runs[i]];
        if QueuedAssessment(runs[i]) {
          queued := queued + [runs[i]];
        }
      }
      assert runs[..|runs|] == runs;
      rows := runs;
      for n := 0 to |queued|
        invariant Marked(runs, rows, queued, n)
      {
        MarkNext(runs, rows, queued, n);
        rows := seq(|rows|, i requires 0 <= i < |rows| =>
          if rows[i].id == queued[n].id then rows[i].(status := Superseded) else rows[i]);
      }
      AllMarked(runs, rows, queued);
    }

    /** Returns the pending record of the revision if there is one; otherwise supersedes every
        queued assessment and appends a record answering for their oldest revision. A used run
        id raises and changes nothing. */
    method Enqueue(id: string, sha: string) returns (record: Option<Record>)
      requires Valid()
      modifies this
      ensures Valid() && runs == Step(old(runs), Event.Enqueue(id, sha))
      ensures NoOp(old(runs), Event.Enqueue(id, sha)) ==>
                record.Some? && record.value in runs && Pending(record.value, sha)
      ensures !NoOp(old(runs), Event.Enqueue(id, sha)) ==>
                record == if HasId(old(runs), id) then None else Some(runs[|runs| - 1])
    {
      var i := 0;
      while i < |runs|
        invariant i <= |runs| && forall k | 0 <= k < i :: !Pending(runs[k], sha)
      {
        if Pending(runs[i], sha) { return Some(runs[i]); }
        i := i + 1;
      }
      assert !NoOp(runs, Event.Enqueue(id, sha));
      var first := Range(sha);
      var rows := Superseding();
      if HasId(runs, id) { return None; }
      record := Some(Record(id, sha, None, Queued, first));
      runs := rows + [record.value];
    }

    /** Appends a dedicated record and supersedes nothing. */
    method QueueDedicated(id: string, sha: string) returns (record: Option<Record>)
      requires Valid()
      modifies this
      ensures Valid() && runs == Step(old(runs), Event.Dedicated(id, sha))
      ensures record == if HasId(old(runs), id) then None else Some(runs[|runs| - 1])
    {
      if HasId(runs, id) { return None; }
      record := Some(Record(id, sha, None, Queued, None));
      runs := runs + [record.value];
    }

    /** Only a queued run begins. */
    method Begin(id: string) returns (record: Option<Record>)
      requires Valid()
      modifies this
      ensures Valid() && runs == Step(old(runs), Event.Begin(id))
      ensures record == Row(runs, id)
    {
      var rows := runs;
      runs := seq(|rows|, i requires 0 <= i < |rows| =>
        if rows[i].id == id && rows[i].status == Queued then rows[i].(status := Running) else rows[i]);
      record := Run(id);
    }

    method Finish(id: string, completed: Option<string>)
      requires Valid()
      modifies this
      ensures Valid() && runs == Step(old(runs), Event.Finish(id, completed))
    {
      var rows := runs;
      runs := seq(|rows|, i requires 0 <= i < |rows| =>
        if rows[i].id == id then rows[i].(status := Finished, completed := completed) else rows[i]);
    }

    method Interrupt(id: string)
      requires Valid()
      modifies this
      ensures Valid() && runs == Step(old(runs), Event.Interrupt(id))
    {
      var rows := runs;
      runs := seq(|rows|, i requires 0 <= i < |rows| =>
        if rows[i].id == id then rows[i].(status := Interrupted) else rows[i]);
    }
  }
}
