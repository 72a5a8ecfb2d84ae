/** `lint`, `derive` and `apply_incompatible` of qa_lane/revision.py as they run: loops that
    grow id sets, append to a copy and edit it. */
module RevisionEdits {
  import opened Common
  import opened Revision
  import R = Retype

  method FindDuplicates(collection: string, ids: seq<Id>) returns (problems: seq<Problem>)
    ensures problems == Duplicates(collection, ids)
  {
    problems := [];
    var seen: set<Id> := {};
    for i := 0 to |ids|
      invariant problems == Duplicates(collection, ids[..i])
      invariant forall x :: x in seen <==> x in ids[..i]
    {
      assert ids[..i + 1] == ids[..i] + [ids[i]];
      if ids[i] in seen {
        problems := problems + [Duplicate(collection, ids[i])];
      }
      seen := seen + {ids[i]};
    }
    assert ids[..|ids|] == ids;
  }

  /** The problems of a document, in the order they are reported. */
  method Lint(d: Document) returns (problems: seq<Problem>)
    ensures problems == LintProblems(d)
  {
    hide PointProblems, SignalProblems, Duplicates, PointIds;
    if !d.complete { return [Incomplete]; }
    var devices := FindDuplicates("devices", d.devices);
    var points := FindDuplicates("io_points", IdsOfPoints(d.points));
    var signals := FindDuplicates("signals", IdsOfSignals(d.signals));
    var components := FindDuplicates("components", d.components);
    var known := PointIds(d.points);
    var found: seq<Problem> := [];
    for i := 0 to |d.points|
      invariant found == AllPointProblems(d.points[..i])
    {
      assert d.points[..i + 1][..i] == d.points[..i];
      found := found + PointProblems(d.points[i]);
    }
    assert d.points[..|d.points|] == d.points;
    var unsourced: seq<Problem> := [];
    for i := 0 to |d.signals|
      invariant unsourced == AllSignalProblems(d.signals[..i], known)
    {
      assert d.signals[..i + 1][..i] == d.signals[..i];
      unsourced := unsourced + SignalProblems(d.signals[i], known);
    }
    assert d.signals[..|d.signals|] == d.signals;
    problems := devices + points + signals + components + found + unsourced;
  }

  lemma PointsRest(es: seq<Option<Point>>, i: nat, known: set<Id>)
    requires i < |es|
    ensures PointsFit(es[i..], known)
       <==> PointFits(es[i], known) && es[i].Some? && PointsFit(es[i + 1..], known + {es[i].value.id})
  {
    hide PointFits;
    assert es[i..][1..] == es[i + 1..];
    NoObjectFails(es[i], known);
  }

  lemma SignalsRest(es: seq<Option<Signal>>, i: nat, ids: set<Id>, names: set<Option<string>>, points: set<Id>)
    requires i < |es|
    ensures SignalsFit(es[i..], ids, names, points)
       <==> SignalFits(es[i], ids, names, points) && es[i].Some?
            && SignalsFit(es[i + 1..], ids + {es[i].value.id}, names + {es[i].value.name}, points)
  {
    hide SignalFits;
    assert es[i..][1..] == es[i + 1..];
    NoObjectSignals(es[i], ids, names, points);
  }

  /** Appends the recipe's points one by one, each checked against all before it. */
  method AddPoints(d: Document, es: seq<Option<Point>>) returns (points: Option<seq<Option<Point>>>)
    ensures points == if PointsFit(es, PointIds(d.points)) then Some(d.points + es) else None
  {
    hide PointFits, PointsFit;
    var ids := PointIds(d.points);
    var revised := d.points;
    assert es[0..] == es;
    for i := 0 to |es|
      invariant PointsFit(es, PointIds(d.points)) <==> PointsFit(es[i..], ids)
      invariant revised == d.points + es[..i]
    {
      PointsRest(es, i, ids);
      NoObjectFails(es[i], ids);
      if !PointFits(es[i], ids) { return None; }
      ids := ids + {es[i].value.id};
      revised := revised + [es[i]];
    }
    assert es[..|es|] == es;
    NothingFits(es[|es|..], ids);
    points := Some(revised);
  }

  lemma NothingFits(es: seq<Option<Point>>, known: set<Id>)
    requires es == []
    ensures PointsFit(es, known)
  {
  }

  /** Appends the recipe's signals one by one; ids and names grow as they are added. */
  method AddSignals(d: Document, es: seq<Option<Signal>>, points: set<Id>) returns (signals: Option<seq<Option<Signal>>>)
    ensures signals == if SignalsFit(es, SignalIds(d.signals), SignalNames(d.signals), points)
                       then Some(d.signals + es) else None
  {
    hide SignalFits, SignalsFit;
    var ids, names := SignalIds(d.signals), SignalNames(d.signals);
    var revised := d.signals;
    assert es[0..] == es;
    for i := 0 to |es|
      invariant SignalsFit(es, SignalIds(d.signals), SignalNames(d.signals), points) <==> SignalsFit(es[i..], ids, names, points)
      invariant revised == d.signals + es[..i]
    {
      SignalsRest(es, i, ids, names, points);
      NoObjectSignals(es[i], ids, names, points);
      if !SignalFits(es[i], ids, names, points) { return None; }
      ids, names := ids + {es[i].value.id}, names + {es[i].value.name};
      revised := revised + [es[i]];
    }
    assert es[..|es|] == es;
    NothingFitsSignals(es[|es|..], ids, names, points);
    signals := Some(revised);
  }

  lemma NothingFitsSignals(es: seq<Option<Signal>>, ids: set<Id>, names: set<Option<string>>, points: set<Id>)
    requires es == []
    ensures SignalsFit(es, ids, names, points)
  {
  }

  /** Applies the recipe, or raises and leaves no document. */
  method ApplyRecipe(d: Document, r: Recipe) returns (revised: Option<Document>)
    ensures revised == Derive(d, r)
  {
    hide PointsFit, SignalsFit, LintProblems;
    var points := AddPoints(d, r.points);
    if points.None? { return None; }
    var signals := AddSignals(d, r.signals, PointIds(points.value));
    if signals.None? { return None; }
    var document := d.(points := points.value, signals := signals.value);
    var problems := Lint(document);
    revised := if problems == [] then Some(document) else None;
  }

  /** Repoints the ends that name the point and counts them. */
  method Rewire(cs: seq<Connection>, id: Id, rewireTo: Id) returns (rewired: seq<Connection>, count: nat)
    ensures rewired == R.RepointAll(cs, id, rewireTo) && count == R.CountEnds(cs, id)
  {
    rewired, count := cs, 0;
    for i := 0 to |cs|
      invariant |rewired| == |cs|
      invariant forall j | 0 <= j < |cs| :: rewired[j] == if j < i then R.Repoint(cs[j], id, rewireTo) else cs[j]
      invariant count == R.CountEnds(cs[..i], id)
    {
      assert cs[..i + 1][..i] == cs[..i];
      var c := cs[i];
      if R.Names(c.source, id) {
        rewired := rewired[i := rewired[i].(source := Some(c.source.value.(point := rewireTo)))];
        count := count + 1;
      }
      if R.Names(c.target, id) {
        rewired := rewired[i := rewired[i].(target := Some(c.target.value.(point := rewireTo)))];
        count := count + 1;
      }
    }
    assert cs[..|cs|] == cs;
  }

  /** Finds the point and its substitute, retypes the point and rewires its ends; raises on any
      breach and on any problem of the result. */
  method ApplyIncompatible(d: Document, t: R.Spec) returns (result: Option<(Document, nat)>)
    ensures result == R.Incompatible(d, t)
  {
    hide LintProblems, InitialFits, VALUE_KINDS, R.Replaces, R.CountEnds, R.Repoint, R.RetypePoint;
    if t.valueType !in VALUE_KINDS { return None; }
    if !InitialFits(t.initial, t.valueType) { return None; }
    var target, substitute: Option<nat> := None, None;
    for i := 0 to |d.points|
      invariant target == R.LastIndex(d.points[..i], t.id)
      invariant substitute == R.LastIndex(d.points[..i], t.rewireTo)
    {
      assert d.points[..i + 1][..i] == d.points[..i];
      if d.points[i].Some? && d.points[i].value.id == t.id {
        target := Some(i);
      }
      if d.points[i].Some? && d.points[i].value.id == t.rewireTo {
        substitute := Some(i);
      }
    }
    assert d.points[..|d.points|] == d.points;
    if target.None? { return None; }
    var point := d.points[target.value].value;
    if "channel" in point.keys || point.direction != "in" || !point.writable { return None; }
    if point.valueType == Some(t.valueType) { return None; }
    if substitute.None? { return None; }
    if !R.Replaces(d.points[substitute.value].value, point) { return None; }
    var document := d.(points := d.points[target.value := Some(R.RetypePoint(point, t))]);
    var connections, count := Rewire(document.connections, t.id, t.rewireTo);
    document := document.(connections := connections);
    var problems := Lint(document);
    result := if problems == [] then Some((document, count)) else None;
  }
}
