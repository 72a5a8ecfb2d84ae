/** `apply_incompatible` of qa_lane/revision.py: retype one internal point and repoint its
    connection ends, so that only the carryover crossing can refuse the document. */
module Retype {
  import opened Common
  import opened Revision

  /** The retype specification. */
  datatype Spec = Spec(id: Id, valueType: string, initial: Option<map<string, Scalar>>, rewireTo: Id)

  /** The last point object with the id. */
  function LastIndex(ps: seq<Option<Point>>, id: Id): (i: Option<nat>)
    ensures i.Some? ==> i.value < |ps| && ps[i.value].Some? && ps[i.value].value.id == id
  {
    if ps == [] then None
    else if ps[|ps| - 1].Some? && ps[|ps| - 1].value.id == id then Some(|ps| - 1)
    else LastIndex(ps[..|ps| - 1], id)
  }

  function PointOf(d: Document, id: Id): Option<Point> {
    var i := LastIndex(d.points, id);
    if i.Some? then d.points[i.value] else None
  }

  predicate Replaces(substitute: Point, target: Point) {
    substitute.valueType == target.valueType && substitute.direction == target.direction && "channel" !in substitute.keys
  }

  /** The specification is acceptable for the document: a new kind with a fitting initial
      value, a writable internal in point, and a substitute of its old direction and kind. */
  predicate Retypable(d: Document, t: Spec) {
    && t.valueType in VALUE_KINDS && InitialFits(t.initial, t.valueType)
    && PointOf(d, t.id).Some? && PointOf(d, t.rewireTo).Some?
    && var target := PointOf(d, t.id).value;
    && "channel" !in target.keys && target.direction == "in" && target.writable
    && target.valueType != Some(t.valueType)
    && Replaces(PointOf(d, t.rewireTo).value, target)
  }

  function RetypePoint(p: Point, t: Spec): Point {
    p.(keys := p.keys + {"value_type", "initial"}, valueType := Some(t.valueType), initial := t.initial)
  }

  predicate Names(e: Option<End>, id: Id) {
    e.Some? && e.value.point == id
  }

  function RepointEnd(e: Option<End>, id: Id, rewireTo: Id): Option<End> {
    if Names(e, id) then Some(e.value.(point := rewireTo)) else e
  }

  function Repoint(c: Connection, id: Id, rewireTo: Id): Connection {
    c.(source := RepointEnd(c.source, id, rewireTo), target := RepointEnd(c.target, id, rewireTo))
  }

  function RepointAll(cs: seq<Connection>, id: Id, rewireTo: Id): (r: seq<Connection>)
    ensures |r| == |cs| && forall i | 0 <= i < |cs| :: r[i] == Repoint(cs[i], id, rewireTo)
  {
    seq(|cs|, i requires 0 <= i < |cs| => Repoint(cs[i], id, rewireTo))
  }

  function Ends(c: Connection, id: Id): nat {
    (if Names(c.source, id) then 1 else 0) + (if Names(c.target, id) then 1 else 0)
  }

  /** Connection ends that name the point. */
  function CountEnds(cs: seq<Connection>, id: Id): nat {
    if cs == [] then 0 else CountEnds(cs[..|cs| - 1], id) + Ends(cs[|cs| - 1], id)
  }

  function Retyped(d: Document, t: Spec): Document
    requires Retypable(d, t)
  {
    var i := LastIndex(d.points, t.id).value;
    d.(points := d.points[i := Some(RetypePoint(d.points[i].value, t))],
       connections := RepointAll(d.connections, t.id, t.rewireTo))
  }

  /** The variant and the number of repointed ends; `None` is a RevisionError. */
  function Incompatible(d: Document, t: Spec): Option<(Document, nat)> {
    if Retypable(d, t) && LintProblems(Retyped(d, t)) == []
    then Some((Retyped(d, t), CountEnds(d.connections, t.id))) else None
  }

  // ----- When the final lint fails -----

  lemma SameIds(a: seq<Option<Point>>, b: seq<Option<Point>>)
    requires |a| == |b| && forall i | 0 <= i < |a| :: a[i].Some? == b[i].Some? && PointId(a[i]) == PointId(b[i])
    ensures PointIds(a) == PointIds(b) && IdsOfPoints(a) == IdsOfPoints(b)
  {
    forall x ensures x in PointIds(a) <==> x in PointIds(b) {
      if x in PointIds(a) {
        var i :| 0 <= i < |a| && a[i].Some? && a[i].value.id == x;
        assert b[i] in b;
      }
      if x in PointIds(b) {
        var i :| 0 <= i < |b| && b[i].Some? && b[i].value.id == x;
        assert a[i] in a;
      }
    }
  }

  lemma RetypedPointClean(p: Point, t: Spec)
    requires PointClean(Some(p)) && InitialFits(t.initial, t.valueType)
    ensures PointClean(Some(RetypePoint(p, t))) <==> !(p.journaled && t.valueType == "float")
  {
  }

  lemma RetypedIsClean(d: Document, t: Spec)
    requires Clean(d) && Retypable(d, t)
    ensures Clean(Retyped(d, t)) <==> !(PointOf(d, t.id).value.journaled && t.valueType == "float")
  {
    hide PointClean, Distinct, PointIds, LastIndex, InitialFits, VALUE_KINDS, Replaces;
    var i := LastIndex(d.points, t.id).value;
    var e := Retyped(d, t);
    SameIds(d.points, e.points);
    assert d.points[i] in d.points && e.points[i] in e.points;
    RetypedPointClean(d.points[i].value, t);
    assert forall p | p in e.points :: p in d.points || p == e.points[i];
  }

  /** On a clean document an acceptable retype is refused by the final lint exactly when the
      point is journaled and becomes a float. */
  lemma RetypeFailsExactly(d: Document, t: Spec)
    requires Clean(d) && Retypable(d, t)
    ensures Incompatible(d, t).None? <==> PointOf(d, t.id).value.journaled && t.valueType == "float"
  {
    hide Clean, LintProblems, Retypable;
    RetypedIsClean(d, t);
    LintIsExact(Retyped(d, t));
  }

  /** Such a document: a journaled writable int point becomes a float, with another int point
      to take its connection ends. */
  lemma JournaledFloatIsRefused()
    ensures exists d, t :: Clean(d) && Retypable(d, t) && Incompatible(d, t).None?
  {
    var zero := Some(map["int" := Integer(0)]);
    var keys := {"id", "direction", "value_type", "initial", "writable", "journaled"};
    var p := Point(keys, Some(1), "in", Some("int"), zero, true, true);
    var q := p.(id := Some(2));
    var d := Document([Some(p), Some(q)], [], [], [], [], true);
    var t := Spec(Some(1), "float", Some(map["float" := Floating(0.0)]), Some(2));
    TwoPoints(p, q);
    assert Retypable(d, t);
    hide Retypable, LintProblems, Incompatible;
    assert Clean(d) by {
      assert IdsOfPoints(d.points) == [Some(1), Some(2)] && IdsOfSignals(d.signals) == [];
    }
    hide Clean;
    assert PointOf(d, t.id) == Some(p);
    RetypeFailsExactly(d, t);
    assert Clean(d) && Retypable(d, t) && Incompatible(d, t).None?;
  }

  lemma TwoPoints(p: Point, q: Point)
    requires p.id != q.id
    ensures LastIndex([Some(p), Some(q)], p.id) == Some(0) && LastIndex([Some(p), Some(q)], q.id) == Some(1)
  {
    assert [Some(p), Some(q)][..1] == [Some(p)];
  }

  /** Derivation followed by the retype. */
  function DeriveIncompatible(d: Document, r: Recipe, t: Spec): Option<(Document, nat)> {
    var e := Derive(d, r);
    if e.None? then None else Incompatible(e.value, t)
  }

  /** The refusal half fails exactly when the derivation does, or the specification does not
      fit the derived document, or it makes a journaled point a float. */
  lemma RefusalHalfFailsExactly(d: Document, r: Recipe, t: Spec)
    ensures DeriveIncompatible(d, r, t).None?
       <==> Derive(d, r).None? || !Retypable(Derive(d, r).value, t)
            || (PointOf(Derive(d, r).value, t.id).value.journaled && t.valueType == "float")
  {
    hide Clean, Retypable, Derive, Retyped, LintProblems, PointOf;
    if Derive(d, r).Some? {
      DerivationIsAdditive(d, r);
      HasTarget(Derive(d, r).value, t);
      if Retypable(Derive(d, r).value, t) {
        RetypeFailsExactly(Derive(d, r).value, t);
      }
    }
  }

  lemma HasTarget(d: Document, t: Spec)
    ensures Retypable(d, t) ==> PointOf(d, t.id).Some?
  {
  }

  // ----- What the repointing does -----

  /** Ends are conserved: those of the retyped point all move to the substitute. */
  lemma {:induction false} EndsMove(cs: seq<Connection>, id: Id, rewireTo: Id)
    requires id != rewireTo
    ensures var r := RepointAll(cs, id, rewireTo);
            CountEnds(r, id) == 0 && CountEnds(r, rewireTo) == CountEnds(cs, rewireTo) + CountEnds(cs, id)
    decreases |cs|
  {
    var r := RepointAll(cs, id, rewireTo);
    if cs != [] {
      EndsMove(cs[..|cs| - 1], id, rewireTo);
      assert r[..|r| - 1] == RepointAll(cs[..|cs| - 1], id, rewireTo);
    }
  }

  /** No end of the result names the retyped point, the number returned is the number of ends
      that did, and the substitute gains exactly those. */
  lemma NoEndNamesRetyped(d: Document, t: Spec)
    requires Incompatible(d, t).Some? && t.id != t.rewireTo
    ensures var (e, rewired) := Incompatible(d, t).value;
            && CountEnds(e.connections, t.id) == 0
            && rewired == CountEnds(d.connections, t.id)
            && CountEnds(e.connections, t.rewireTo) == CountEnds(d.connections, t.rewireTo) + rewired
  {
    hide LintProblems, Retypable;
    EndsMove(d.connections, t.id, t.rewireTo);
  }

  lemma {:induction false} LastIndexSame(a: seq<Option<Point>>, b: seq<Option<Point>>, id: Id)
    requires |a| == |b| && forall i | 0 <= i < |a| :: a[i].Some? == b[i].Some? && PointId(a[i]) == PointId(b[i])
    ensures LastIndex(a, id) == LastIndex(b, id)
    decreases |a|
  {
    if a != [] {
      LastIndexSame(a[..|a| - 1], b[..|b| - 1], id);
    }
  }

  /** The kind and direction of the point an end names. */
  function EndKind(d: Document, e: Option<End>): Option<(Option<string>, string)> {
    if e.None? || PointOf(d, e.value.point).None? then None
    else Some((PointOf(d, e.value.point).value.valueType, PointOf(d, e.value.point).value.direction))
  }

  lemma OtherPointsStay(d: Document, t: Spec, id: Id)
    requires Retypable(d, t)
    ensures PointOf(Retyped(d, t), id)
         == if id == t.id then Some(RetypePoint(PointOf(d, t.id).value, t)) else PointOf(d, id)
  {
    hide LastIndex, InitialFits, VALUE_KINDS, Replaces;
    LastIndexSame(d.points, Retyped(d, t).points, id);
  }

  lemma RepointedKeepsKind(d: Document, t: Spec, e: Option<End>)
    requires Retypable(d, t) && t.id != t.rewireTo
    ensures EndKind(Retyped(d, t), RepointEnd(e, t.id, t.rewireTo)) == EndKind(d, e)
  {
    hide Retyped, PointOf, RetypePoint, InitialFits, VALUE_KINDS;
    if e.Some? {
      OtherPointsStay(d, t, e.value.point);
      OtherPointsStay(d, t, t.rewireTo);
    }
  }

  /** Every connection end still meets a point of the kind and direction it met before, while
      the retyped point alone has changed its kind. */
  lemma EndsKeepTheirKind(d: Document, t: Spec, i: nat)
    requires Incompatible(d, t).Some? && t.id != t.rewireTo && i < |d.connections|
    ensures var e := Incompatible(d, t).value.0;
            && |e.connections| == |d.connections|
            && EndKind(e, e.connections[i].source) == EndKind(d, d.connections[i].source)
            && EndKind(e, e.connections[i].target) == EndKind(d, d.connections[i].target)
            && PointOf(e, t.id).Some? && PointOf(e, t.id).value.valueType != PointOf(d, t.id).value.valueType
            && forall id | id != t.id :: PointOf(e, id) == PointOf(d, id)
  {
    hide LintProblems, EndKind, PointOf, RepointEnd, InitialFits, VALUE_KINDS, Replaces;
    var e := Incompatible(d, t).value.0;
    RepointedKeepsKind(d, t, d.connections[i].source);
    RepointedKeepsKind(d, t, d.connections[i].target);
    forall id ensures id != t.id ==> PointOf(e, id) == PointOf(d, id) {
      OtherPointsStay(d, t, id);
    }
    OtherPointsStay(d, t, t.id);
  }

  // ----- Which specifications apply -----

  lemma {:induction false} OnlyIndex(ps: seq<Option<Point>>, i: nat)
    requires i < |ps| && ps[i].Some? && (forall p | p in ps :: p.Some?) && Distinct(IdsOfPoints(ps))
    ensures LastIndex(ps, ps[i].value.id) == Some(i)
    decreases |ps|
  {
    var last := |ps| - 1;
    if i < last {
      assert ps[last] in ps;
      assert IdsOfPoints(ps)[i] != IdsOfPoints(ps)[last];
      var front := ps[..last];
      assert IdsOfPoints(front) == IdsOfPoints(ps)[..last];
      OnlyIndex(front, i);
    }
  }

  /** Point i may be retyped with j as the substitute for its connections. */
  ghost predicate MayRetype(d: Document, t: Spec, i: nat, j: nat) {
    && i < |d.points| && j < |d.points| && d.points[i].Some? && d.points[j].Some?
    && var p, q := d.points[i].value, d.points[j].value;
    && p.id == t.id && q.id == t.rewireTo
    && p.direction == "in" && p.writable && "channel" !in p.keys
    && q.direction == "in" && "channel" !in q.keys && q.valueType == p.valueType
    && p.valueType != Some(t.valueType) && !(p.journaled && t.valueType == "float")
    && t.initial.Some?
    && (|| (t.valueType == "bool" && t.initial.value.Keys == {"bool"} && t.initial.value["bool"].Boolean?)
        || (t.valueType == "int" && t.initial.value.Keys == {"int"} && t.initial.value["int"].Integer?)
        || (t.valueType == "float" && t.initial.value.Keys == {"float"}
            && (t.initial.value["float"].Integer? || t.initial.value["float"].Floating?)))
  }

  lemma NewKindIs(t: Spec)
    ensures t.valueType in VALUE_KINDS && InitialFits(t.initial, t.valueType)
       <==> && t.initial.Some?
            && (|| (t.valueType == "bool" && t.initial.value.Keys == {"bool"} && t.initial.value["bool"].Boolean?)
                || (t.valueType == "int" && t.initial.value.Keys == {"int"} && t.initial.value["int"].Integer?)
                || (t.valueType == "float" && t.initial.value.Keys == {"float"}
                    && (t.initial.value["float"].Integer? || t.initial.value["float"].Floating?)))
  {
    KindIs(t.valueType);
  }

  lemma RetypableIs(d: Document, t: Spec, i: nat, j: nat)
    requires Clean(d) && i < |d.points| && j < |d.points| && PointId(d.points[i]) == t.id && PointId(d.points[j]) == t.rewireTo
    ensures MayRetype(d, t, i, j)
       <==> Retypable(d, t) && !(PointOf(d, t.id).value.journaled && t.valueType == "float")
    ensures PointOf(d, t.id) == d.points[i] && LastIndex(d.points, t.id) == Some(i)
  {
    hide InitialFits, VALUE_KINDS, PointClean, Sourced;
    assert d.points[i] in d.points && d.points[j] in d.points;
    assert d.points[i].Some? && d.points[j].Some? by { AllObjects(d); }
    AllObjects(d);
    OnlyIndex(d.points, i);
    OnlyIndex(d.points, j);
    NewKindIs(t);
  }

  lemma AllObjects(d: Document)
    requires Clean(d)
    ensures forall p | p in d.points :: p.Some?
  {
    assert forall p | p in d.points :: PointClean(p);
  }

  /** On a clean document the retype applies exactly when the specification names a writable
      internal in point, another kind with one fitting initial value, no float for a journaled
      point, and an internal substitute of the old kind and direction. It then changes that
      point's kind and initial value, moves every end that named it to the substitute, and
      leaves everything else as it was. */
  lemma RetypesExactly(d: Document, t: Spec)
    requires Clean(d)
    ensures Incompatible(d, t).Some? <==> exists i: nat, j: nat :: MayRetype(d, t, i, j)
    ensures forall i: nat, j: nat | MayRetype(d, t, i, j) :: IsRetyped(d, t, i)
  {
    hide Retypable, Clean, Incompatible, MayRetype;
    if Incompatible(d, t).Some? {
      var i, j := TargetOf(d, t);
      RetypableIs(d, t, i, j);
      RetypeFailsExactly(d, t);
    }
    forall i: nat, j: nat | MayRetype(d, t, i, j) ensures Incompatible(d, t).Some? && IsRetyped(d, t, i) {
      NamesBoth(d, t, i, j);
      RetypableIs(d, t, i, j);
      RetypeFailsExactly(d, t);
      RetypedAt(d, t, i);
    }
  }

  lemma NamesBoth(d: Document, t: Spec, i: nat, j: nat)
    requires MayRetype(d, t, i, j)
    ensures i < |d.points| && j < |d.points| && PointId(d.points[i]) == t.id && PointId(d.points[j]) == t.rewireTo
  {
  }

  lemma TargetOf(d: Document, t: Spec) returns (i: nat, j: nat)
    requires Incompatible(d, t).Some?
    ensures Retypable(d, t) && i < |d.points| && j < |d.points|
    ensures PointId(d.points[i]) == t.id && PointId(d.points[j]) == t.rewireTo
  {
    hide InitialFits, VALUE_KINDS, LintProblems;
    i, j := LastIndex(d.points, t.id).value, LastIndex(d.points, t.rewireTo).value;
  }

  /** The variant with point i retyped, and nothing else changed but the connection ends. */
  ghost predicate IsRetyped(d: Document, t: Spec, i: nat) {
    && i < |d.points| && d.points[i].Some? && Incompatible(d, t).Some?
    && var p, e := d.points[i].value, Incompatible(d, t).value.0;
    && e.points == d.points[i := Some(Point(p.keys + {"value_type", "initial"}, p.id, p.direction, Some(t.valueType),
                                            t.initial, p.writable, p.journaled))]
    && e == d.(points := e.points, connections := e.connections)
    && |e.connections| == |d.connections|
    && forall k | 0 <= k < |d.connections| ::
         && e.connections[k].rest == d.connections[k].rest
         && Moved(d.connections[k].source, e.connections[k].source, t)
         && Moved(d.connections[k].target, e.connections[k].target, t)
  }

  /** An end that named the point names the substitute; every other end is as it was. */
  ghost predicate Moved(e: Option<End>, f: Option<End>, t: Spec) {
    if e.Some? && e.value.point == t.id then f == Some(End(t.rewireTo, e.value.rest)) else f == e
  }

  lemma RetypedAt(d: Document, t: Spec, i: nat)
    requires Incompatible(d, t).Some? && LastIndex(d.points, t.id) == Some(i)
    ensures IsRetyped(d, t, i)
  {
    hide InitialFits, VALUE_KINDS, LintProblems;
  }
}
