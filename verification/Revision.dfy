/** The model revision of qa_lane/revision.py: an additive recipe appended to a mounted plant
    model, the structural lint of the result, and the retype that makes it incompatible. */
module Revision {
  import opened Common

  /** A JSON scalar, as far as a declared initial value is concerned. */
  datatype Scalar = Boolean(b: bool) | Integer(i: int) | Floating(r: real) | OtherValue

  /** An element id; `None` where it is missing or null. */
  type Id = Option<int>

  /** An io point: its keys and the fields the rules read. */
  datatype Point = Point(keys: set<string>, id: Id, direction: string, valueType: Option<string>,
                         initial: Option<map<string, Scalar>>, writable: bool, journaled: bool)

  /** A signal; `texts` says that its unit, description and group are strings where present. */
  datatype Signal = Signal(keys: set<string>, id: Id, name: Option<string>, source: Id, texts: bool)

  /** One end of a connection: the point it names, if any, and the rest of it. */
  datatype End = End(point: Id, rest: string)

  datatype Connection = Connection(source: Option<End>, target: Option<End>, rest: string)

  /** A parsed model. An entry of a list is `None` where it is not an object; of devices and
      components only the ids matter; `complete` says that every required section is there. */
  datatype Document = Document(points: seq<Option<Point>>, signals: seq<Option<Signal>>, devices: seq<Id>,
                               components: seq<Id>, connections: seq<Connection>, complete: bool)

  datatype Recipe = Recipe(points: seq<Option<Point>>, signals: seq<Option<Signal>>)

  const POINT_KEYS: set<string> := {"id", "direction", "value_type", "channel", "initial", "writable", "journaled",
                                    "stale_after_ticks"}
  const SIGNAL_KEYS: set<string> := {"id", "name", "source", "unit", "description", "group"}
  const VALUE_KINDS: set<string> := {"bool", "int", "float"}

  function PointId(e: Option<Point>): Id {
    if e.Some? then e.value.id else None
  }

  function SignalId(e: Option<Signal>): Id {
    if e.Some? then e.value.id else None
  }

  /** The ids of the points that are objects; an object without an id contributes `None`. */
  function PointIds(ps: seq<Option<Point>>): set<Id> {
    set p | p in ps && p.Some? :: p.value.id
  }

  function SignalIds(ss: seq<Option<Signal>>): set<Id> {
    set s | s in ss && s.Some? :: s.value.id
  }

  function SignalNames(ss: seq<Option<Signal>>): set<Option<string>> {
    set s | s in ss && s.Some? :: s.value.name
  }

  function IdsOfPoints(ps: seq<Option<Point>>): (r: seq<Id>)
    ensures |r| == |ps| && forall i | 0 <= i < |ps| :: r[i] == PointId(ps[i])
  {
    seq(|ps|, i requires 0 <= i < |ps| => PointId(ps[i]))
  }

  function IdsOfSignals(ss: seq<Option<Signal>>): (r: seq<Id>)
    ensures |r| == |ss| && forall i | 0 <= i < |ss| :: r[i] == SignalId(ss[i])
  {
    seq(|ss|, i requires 0 <= i < |ss| => SignalId(ss[i]))
  }

  // ----- The recipe's checks -----

  predicate FitsKind(kind: string, v: Scalar) {
    (kind == "bool" && v.Boolean?) || (kind == "int" && v.Integer?) || (kind == "float" && (v.Integer? || v.Floating?))
  }

  predicate InitialFits(initial: Option<map<string, Scalar>>, kind: string) {
    initial.Some? && initial.value.Keys == {kind} && FitsKind(kind, initial.value[kind])
  }

  /** `_check_point` accepts the entry. */
  predicate PointFits(e: Option<Point>, known: set<Id>) {
    e.Some? && var p := e.value;
    && p.keys <= POINT_KEYS
    && p.id.Some? && p.id.value > 0 && p.id !in known
    && "channel" !in p.keys
    && (p.direction == "in" || p.direction == "out")
    && p.valueType.Some? && p.valueType.value in VALUE_KINDS
    && InitialFits(p.initial, p.valueType.value)
    && (p.writable ==> p.direction == "in")
    && (p.journaled ==> p.valueType.value != "float")
    && "stale_after_ticks" !in p.keys
  }

  /** `_check_signal` accepts the entry. */
  predicate SignalFits(e: Option<Signal>, ids: set<Id>, names: set<Option<string>>, points: set<Id>) {
    e.Some? && var s := e.value;
    && s.keys <= SIGNAL_KEYS
    && s.id.Some? && s.id.value > 0 && s.id !in ids
    && s.name.Some? && Strip(s.name.value) != [] && s.name !in names
    && s.source in points
    && s.texts
  }

  /** Every point of the recipe is accepted, each against the ones before it. */
  predicate PointsFit(es: seq<Option<Point>>, known: set<Id>) {
    es == [] || (PointFits(es[0], known) && PointsFit(es[1..], known + {es[0].value.id}))
  }

  predicate SignalsFit(es: seq<Option<Signal>>, ids: set<Id>, names: set<Option<string>>, points: set<Id>) {
    es == [] || (SignalFits(es[0], ids, names, points)
                 && SignalsFit(es[1..], ids + {es[0].value.id}, names + {es[0].value.name}, points))
  }

  // ----- Lint -----

  datatype Problem =
    | Incomplete
    | Duplicate(collection: string, id: Id)
    | NotAnObject(collection: string)
    | NoInitial(id: Id)
    | KindMismatch(id: Id)
    | WritableOut(id: Id)
    | JournaledFloat(id: Id)
    | UnknownSource(id: Id)

  function Duplicates(collection: string, ids: seq<Id>): seq<Problem> {
    if ids == [] then [] else
      var front, last := ids[..|ids| - 1], ids[|ids| - 1];
      Duplicates(collection, front) + if last in front then [Duplicate(collection, last)] else []
  }

  function PointProblems(e: Option<Point>): seq<Problem> {
    if e.None? then [NotAnObject("io_points")] else
      var p := e.value;
      (if "channel" in p.keys then []
       else if p.initial.None? || |p.initial.value| != 1 then [NoInitial(p.id)]
       else if p.valueType.None? || p.valueType.value !in p.initial.value then [KindMismatch(p.id)] else [])
      + (if p.writable && p.direction == "out" then [WritableOut(p.id)] else [])
      + (if p.journaled && p.valueType == Some("float") then [JournaledFloat(p.id)] else [])
  }

  function AllPointProblems(ps: seq<Option<Point>>): seq<Problem> {
    if ps == [] then [] else AllPointProblems(ps[..|ps| - 1]) + PointProblems(ps[|ps| - 1])
  }

  function SignalProblems(e: Option<Signal>, points: set<Id>): seq<Problem> {
    if e.None? then [NotAnObject("signals")]
    else if e.value.source !in points then [UnknownSource(e.value.id)] else []
  }

  function AllSignalProblems(ss: seq<Option<Signal>>, points: set<Id>): seq<Problem> {
    if ss == [] then [] else AllSignalProblems(ss[..|ss| - 1], points) + SignalProblems(ss[|ss| - 1], points)
  }

  function LintProblems(d: Document): seq<Problem> {
    if !d.complete then [Incomplete] else
      Duplicates("devices", d.devices) + Duplicates("io_points", IdsOfPoints(d.points))
      + Duplicates("signals", IdsOfSignals(d.signals)) + Duplicates("components", d.components)
      + AllPointProblems(d.points) + AllSignalProblems(d.signals, PointIds(d.points))
  }

  ghost predicate Distinct(ids: seq<Id>) {
    forall i, j | 0 <= i < j < |ids| :: ids[i] != ids[j]
  }

  ghost predicate PointClean(e: Option<Point>) {
    e.Some? && var p := e.value;
    && ("channel" !in p.keys ==> p.initial.Some? && p.valueType.Some? && p.initial.value.Keys == {p.valueType.value})
    && !(p.writable && p.direction == "out")
    && !(p.journaled && p.valueType == Some("float"))
  }

  ghost predicate Sourced(ss: seq<Option<Signal>>, points: set<Id>) {
    forall s | s in ss :: s.Some? && s.value.source in points
  }

  /** What a document without problems looks like. */
  ghost predicate Clean(d: Document) {
    && d.complete
    && Distinct(d.devices) && Distinct(IdsOfPoints(d.points)) && Distinct(IdsOfSignals(d.signals)) && Distinct(d.components)
    && (forall p | p in d.points :: PointClean(p))
    && Sourced(d.signals, PointIds(d.points))
  }

  lemma DistinctLast(front: seq<Id>, last: Id)
    ensures Distinct(front + [last]) <==> Distinct(front) && last !in front
  {
    var ids := front + [last];
    if Distinct(ids) {
      forall i | 0 <= i < |front| ensures front[i] != last {
        assert ids[i] != ids[|front|];
      }
      forall i, j | 0 <= i < j < |front| ensures front[i] != front[j] {
        assert ids[i] != ids[j];
      }
    }
  }

  lemma {:induction false} NoDuplicates(collection: string, ids: seq<Id>)
    ensures Duplicates(collection, ids) == [] <==> Distinct(ids)
  {
    hide Distinct;
    if ids == [] {
      NoneDistinct(ids);
    } else {
      var front, last := ids[..|ids| - 1], ids[|ids| - 1];
      NoDuplicates(collection, front);
      assert ids == front + [last];
      DistinctLast(front, last);
    }
  }

  lemma NoneDistinct(ids: seq<Id>)
    requires ids == []
    ensures Distinct(ids)
  {
  }

  lemma SingleKey(m: map<string, Scalar>, k: string)
    ensures |m| == 1 && k in m <==> m.Keys == {k}
  {
    if |m| == 1 && k in m {
      assert |m.Keys - {k}| == 0;
    }
    assert |m| == |m.Keys|;
  }

  lemma PointCleanIff(e: Option<Point>)
    ensures PointProblems(e) == [] <==> PointClean(e)
  {
    if e.Some? && e.value.initial.Some? && e.value.valueType.Some? {
      SingleKey(e.value.initial.value, e.value.valueType.value);
    }
  }

  lemma {:induction false} AllPointsCleanIff(ps: seq<Option<Point>>)
    ensures AllPointProblems(ps) == [] <==> forall p | p in ps :: PointClean(p)
  {
    if ps != [] {
      hide PointProblems, PointClean;
      var front, last := ps[..|ps| - 1], ps[|ps| - 1];
      AllPointsCleanIff(front);
      PointCleanIff(last);
      assert ps == front + [last];
    }
  }

  lemma SourcedJoin(a: seq<Option<Signal>>, b: seq<Option<Signal>>, points: set<Id>)
    ensures Sourced(a + b, points) <==> Sourced(a, points) && Sourced(b, points)
  {
    assert forall s :: s in a + b <==> s in a || s in b;
  }

  lemma {:induction false} AllSourcedIff(ss: seq<Option<Signal>>, points: set<Id>)
    ensures AllSignalProblems(ss, points) == [] <==> Sourced(ss, points)
  {
    if ss == [] {
      assert Sourced([], points);
    } else {
      hide Sourced;
      var front, last := ss[..|ss| - 1], ss[|ss| - 1];
      AllSourcedIff(front, points);
      assert ss == front + [last];
      SourcedJoin(front, [last], points);
      SourcedOne(last, points);
    }
  }

  lemma SourcedOne(e: Option<Signal>, points: set<Id>)
    ensures SignalProblems(e, points) == [] <==> Sourced([e], points)
  {
    assert e in [e];
  }

  /** Lint finds nothing exactly in the documents with all sections, distinct ids, well-formed
      points and resolved sources. */
  lemma LintIsExact(d: Document)
    ensures LintProblems(d) == [] <==> Clean(d)
  {
    hide Distinct, PointClean, Sourced, Duplicates, AllPointProblems, AllSignalProblems;
    NoDuplicates("devices", d.devices);
    NoDuplicates("io_points", IdsOfPoints(d.points));
    NoDuplicates("signals", IdsOfSignals(d.signals));
    NoDuplicates("components", d.components);
    AllPointsCleanIff(d.points);
    AllSourcedIff(d.signals, PointIds(d.points));
  }

  // ----- Derivation -----

  function Appended(d: Document, r: Recipe): Document {
    d.(points := d.points + r.points, signals := d.signals + r.signals)
  }

  /** Every addition of the recipe is accepted. */
  predicate Accepted(d: Document, r: Recipe) {
    && PointsFit(r.points, PointIds(d.points))
    && SignalsFit(r.signals, SignalIds(d.signals), SignalNames(d.signals), PointIds(d.points + r.points))
  }

  /** `derive`; `None` is a RevisionError. */
  function Derive(d: Document, r: Recipe): Option<Document> {
    if Accepted(d, r) && LintProblems(Appended(d, r)) == [] then Some(Appended(d, r)) else None
  }

  function Followed(r1: Recipe, r2: Recipe): Recipe {
    Recipe(r1.points + r2.points, r1.signals + r2.signals)
  }

  /** One recipe applied after another. */
  function DeriveBoth(d: Document, r1: Recipe, r2: Recipe): Option<Document> {
    var first := Derive(d, r1);
    if first.None? then None else Derive(first.value, r2)
  }

  // ----- Additions compose -----

  lemma IdsJoin(a: seq<Option<Point>>, b: seq<Option<Point>>)
    ensures PointIds(a + b) == PointIds(a) + PointIds(b)
  {
  }

  lemma SignalIdsJoin(a: seq<Option<Signal>>, b: seq<Option<Signal>>)
    ensures SignalIds(a + b) == SignalIds(a) + SignalIds(b) && SignalNames(a + b) == SignalNames(a) + SignalNames(b)
  {
  }

  lemma {:induction false} PointsFitJoin(a: seq<Option<Point>>, b: seq<Option<Point>>, known: set<Id>)
    ensures PointsFit(a + b, known) <==> PointsFit(a, known) && PointsFit(b, known + PointIds(a))
    decreases |a|
  {
    hide PointFits;
    if a == [] {
      assert a + b == b && known + PointIds(a) == known;
    } else if a[0].Some? {
      assert (a + b)[0] == a[0] && (a + b)[1..] == a[1..] + b;
      PointsFitJoin(a[1..], b, known + {a[0].value.id});
      assert [a[0]] + a[1..] == a;
      IdsJoin([a[0]], a[1..]);
      assert PointIds([a[0]]) == {a[0].value.id};
      assert known + {a[0].value.id} + PointIds(a[1..]) == known + PointIds(a);
      assert PointsFit(a + b, known) <==> PointFits(a[0], known) && PointsFit(a[1..] + b, known + {a[0].value.id});
    } else {
      NoObjectFails(a[0], known);
    }
  }

  lemma NoObjectFails(e: Option<Point>, known: set<Id>)
    ensures PointFits(e, known) ==> e.Some?
  {
  }

  lemma {:induction false} SignalsFitJoin(a: seq<Option<Signal>>, b: seq<Option<Signal>>, ids: set<Id>,
                                          names: set<Option<string>>, points: set<Id>)
    ensures SignalsFit(a + b, ids, names, points)
       <==> SignalsFit(a, ids, names, points) && SignalsFit(b, ids + SignalIds(a), names + SignalNames(a), points)
    decreases |a|
  {
    hide SignalFits;
    if a == [] {
      assert a + b == b && ids + SignalIds(a) == ids && names + SignalNames(a) == names;
    } else if a[0].Some? {
      assert (a + b)[0] == a[0] && (a + b)[1..] == a[1..] + b;
      var ids', names' := ids + {a[0].value.id}, names + {a[0].value.name};
      SignalsFitJoin(a[1..], b, ids', names', points);
      assert [a[0]] + a[1..] == a;
      SignalIdsJoin([a[0]], a[1..]);
      assert SignalIds([a[0]]) == {a[0].value.id} && SignalNames([a[0]]) == {a[0].value.name};
      assert ids' + SignalIds(a[1..]) == ids + SignalIds(a);
      assert names' + SignalNames(a[1..]) == names + SignalNames(a);
      assert SignalsFit(a + b, ids, names, points)
        <==> SignalFits(a[0], ids, names, points) && SignalsFit(a[1..] + b, ids', names', points);
    } else {
      NoObjectSignals(a[0], ids, names, points);
    }
  }

  lemma NoObjectSignals(e: Option<Signal>, ids: set<Id>, names: set<Option<string>>, points: set<Id>)
    ensures SignalFits(e, ids, names, points) ==> e.Some? && e.value.source in points
  {
  }

  /** Fewer known points accept a signal list exactly when they source all of it. */
  lemma {:induction false} SignalsFitFewer(es: seq<Option<Signal>>, ids: set<Id>, names: set<Option<string>>,
                                           some: set<Id>, more: set<Id>)
    requires some <= more
    ensures SignalsFit(es, ids, names, some) <==> SignalsFit(es, ids, names, more) && Sourced(es, some)
    decreases |es|
  {
    if es != [] {
      hide Strip;
      assert es == [es[0]] + es[1..];
      if es[0].Some? {
        SignalsFitFewer(es[1..], ids + {es[0].value.id}, names + {es[0].value.name}, some, more);
      }
    }
  }

  /** Both acceptance tests in a row are the joint one, once the first recipe's signals source
      points that are already there. */
  lemma AcceptedJoin(d: Document, r1: Recipe, r2: Recipe)
    ensures Accepted(d, r1) && Accepted(Appended(d, r1), r2)
       <==> Accepted(d, Followed(r1, r2)) && Sourced(r1.signals, PointIds(d.points + r1.points))
  {
    hide PointsFit, SignalsFit, Sourced, PointIds, SignalIds, SignalNames;
    var p1, p12 := PointIds(d.points + r1.points), PointIds(d.points + (r1.points + r2.points));
    var ids, names := SignalIds(d.signals), SignalNames(d.signals);
    IdsJoin(d.points, r1.points);
    SignalIdsJoin(d.signals, r1.signals);
    PointsFitJoin(r1.points, r2.points, PointIds(d.points));
    SignalsFitJoin(r1.signals, r2.signals, ids, names, p12);
    assert d.points + r1.points + r2.points == d.points + (r1.points + r2.points);
    IdsJoin(d.points + r1.points, r2.points);
    SignalsFitFewer(r1.signals, ids, names, p1, p12);
  }

  lemma DistinctPrefix(a: seq<Id>, b: seq<Id>)
    requires |a| <= |b| && b[..|a|] == a && Distinct(b)
    ensures Distinct(a)
  {
    forall i, j | 0 <= i < j < |a| ensures a[i] != a[j] {
      assert a[i] == b[i] && a[j] == b[j];
    }
  }

  /** A clean extension leaves a clean beginning exactly when the beginning resolves its own
      sources. */
  lemma CleanPrefix(d: Document, r: Recipe)
    requires Clean(Appended(d, r))
    ensures Clean(d) <==> Sourced(d.signals, PointIds(d.points))
  {
    hide PointClean, Distinct, PointIds;
    var e := Appended(d, r);
    DistinctPrefix(IdsOfPoints(d.points), IdsOfPoints(e.points));
    DistinctPrefix(IdsOfSignals(d.signals), IdsOfSignals(e.signals));
    assert forall p | p in d.points :: p in e.points;
  }

  /** Derivation composes. Applying one recipe after another succeeds exactly when applying
      them joined succeeds and every signal of the model and of the first recipe sources a
      point of the model or of the first recipe; the two results are the same document. */
  lemma DerivationComposes(d: Document, r1: Recipe, r2: Recipe)
    ensures DeriveBoth(d, r1, r2).Some?
       <==> Derive(d, Followed(r1, r2)).Some? && Sourced(d.signals + r1.signals, PointIds(d.points + r1.points))
    ensures DeriveBoth(d, r1, r2).Some? ==> DeriveBoth(d, r1, r2) == Derive(d, Followed(r1, r2))
  {
    hide Accepted, Clean, LintProblems, Sourced, PointIds;
    var d1 := Appended(d, r1);
    AcceptedJoin(d, r1, r2);
    SourcedJoin(d.signals, r1.signals, PointIds(d1.points));
    assert Appended(d1, r2) == Appended(d, Followed(r1, r2)) by {
      assert d.points + r1.points + r2.points == d.points + (r1.points + r2.points);
      assert d.signals + r1.signals + r2.signals == d.signals + (r1.signals + r2.signals);
    }
    LintIsExact(d1);
    LintIsExact(Appended(d1, r2));
    if Clean(Appended(d1, r2)) {
      CleanPrefix(d1, r2);
    }
    CleanSources(d1);
  }

  lemma OneOfEach(d: Document, p: Point, s: Signal)
    requires d.points == [] && d.signals == []
    requires PointFits(Some(p), {}) && SignalFits(Some(s), {}, {}, {p.id})
    ensures Accepted(d, Recipe([Some(p)], [Some(s)]))
  {
    hide PointFits, SignalFits;
    var ps, ss := [Some(p)], [Some(s)];
    assert ps[1..] == [] && ss[1..] == [];
    assert PointsFit(ps, {}) && SignalsFit(ss, {}, {}, {p.id});
    assert PointIds([]) == {} && SignalIds([]) == {} && SignalNames([]) == {};
    assert d.points + ps == ps && PointIds(ps) == {p.id};
  }

  lemma OneOfEachClean(d: Document, p: Point, s: Signal)
    requires d == Document([], [], [], [], [], true) && PointClean(Some(p)) && s.source == p.id
    ensures Clean(Appended(d, Recipe([Some(p)], [Some(s)])))
  {
    hide PointClean, Sourced, Distinct, PointIds, IdsOfPoints, IdsOfSignals;
    var e := Appended(d, Recipe([Some(p)], [Some(s)]));
    assert e.points == [Some(p)] && e.signals == [Some(s)];
    OneSourced(p, s);
    AtMostOneDistinct(e.devices);
    AtMostOneDistinct(e.components);
    AtMostOneDistinct(IdsOfPoints(e.points));
    AtMostOneDistinct(IdsOfSignals(e.signals));
  }

  lemma OneSourced(p: Point, s: Signal)
    requires s.source == p.id
    ensures Sourced([Some(s)], PointIds([Some(p)]))
  {
    assert Some(p) in [Some(p)];
  }

  lemma AtMostOneDistinct(ids: seq<Id>)
    requires |ids| <= 1
    ensures Distinct(ids)
  {
  }

  /** The condition is needed: a signal of the first recipe may source a point that only the
      second one adds. */
  lemma LateSourceBreaksComposition()
    ensures exists d, r1, r2 :: Derive(d, Followed(r1, r2)).Some? && DeriveBoth(d, r1, r2).None?
  {
    var d := Document([], [], [], [], [], true);
    var p := Point({"id", "direction", "value_type", "initial", "writable"}, Some(7), "in", Some("int"),
                   Some(map["int" := Integer(0)]), true, false);
    var s := Signal({"id", "name", "source"}, Some(8), Some("x"), Some(7), true);
    var r1, r2 := Recipe([], [Some(s)]), Recipe([Some(p)], []);
    OneOfEach(d, p, s);
    OneOfEachClean(d, p, s);
    hide Accepted, Clean, LintProblems;
    LintIsExact(Appended(d, Recipe([Some(p)], [Some(s)])));
    assert Followed(r1, r2) == Recipe([Some(p)], [Some(s)]);
    DerivationComposes(d, r1, r2);
    assert Some(s) in d.signals + r1.signals && PointIds(d.points + r1.points) == {};
    assert Derive(d, Followed(r1, r2)).Some? && DeriveBoth(d, r1, r2).None?;
  }

  lemma CleanSources(d: Document)
    ensures Clean(d) ==> Sourced(d.signals, PointIds(d.points))
  {
  }

  lemma {:induction false} FittingPoint(es: seq<Option<Point>>, known: set<Id>, i: nat)
    requires PointsFit(es, known) && i < |es|
    ensures es[i].Some? && "channel" !in es[i].value.keys && es[i].value.id.Some? && es[i].value.id !in known
    decreases i
  {
    if i > 0 {
      FittingPoint(es[1..], known + {es[0].value.id}, i - 1);
    }
  }

  // ----- Which recipes apply -----

  /** The point may be added: known keys, neither channel nor freshness budget, a positive id, a
      direction, a kind with exactly one fitting initial value, writable only going in, and
      journaled only when it is no float. */
  ghost predicate SoundPoint(p: Point) {
    && p.keys <= {"id", "direction", "value_type", "initial", "writable", "journaled"}
    && p.id.Some? && p.id.value > 0 && (p.direction == "in" || p.direction == "out")
    && p.initial.Some?
    && (|| (p.valueType == Some("bool") && p.initial.value.Keys == {"bool"} && p.initial.value["bool"].Boolean?)
        || (p.valueType == Some("int") && p.initial.value.Keys == {"int"} && p.initial.value["int"].Integer?)
        || (p.valueType == Some("float") && p.initial.value.Keys == {"float"} && !p.journaled
            && (p.initial.value["float"].Integer? || p.initial.value["float"].Floating?)))
    && (p.writable ==> p.direction == "in")
  }

  /** The signal may be added: known keys, a positive id, a name that is not blank, and texts. */
  ghost predicate SoundSignal(s: Signal) {
    && s.keys <= {"id", "name", "source", "unit", "description", "group"}
    && s.id.Some? && s.id.value > 0 && s.texts
    && s.name.Some? && exists c | c in s.name.value :: !IsSpace(c)
  }

  lemma BlankStrips(s: string)
    ensures Strip(s) != [] <==> exists c | c in s :: !IsSpace(c)
  {
    hide IsSpace, Strip;
    var a, b := StripTakesSpaces(s);
    StrippedEnds(s);
    if Strip(s) != [] {
      assert Strip(s)[0] in s;
    } else {
      BlankJoin(a, b);
      assert s == a + b;
    }
  }

  lemma StrippedEnds(s: string)
    ensures Strip(s) != [] ==> !IsSpace(Strip(s)[0])
  {
  }

  lemma PointFitsIs(e: Option<Point>, known: set<Id>)
    ensures PointFits(e, known) <==> e.Some? && SoundPoint(e.value) && e.value.id !in known
  {
    if e.Some? {
      KeysSplit(e.value.keys);
      if e.value.valueType.Some? {
        KindIs(e.value.valueType.value);
      }
    }
  }

  lemma KindIs(kind: string)
    ensures kind in VALUE_KINDS <==> kind == "bool" || kind == "int" || kind == "float"
  {
  }

  lemma KeysSplit(keys: set<string>)
    ensures keys <= POINT_KEYS && "channel" !in keys && "stale_after_ticks" !in keys
       <==> keys <= {"id", "direction", "value_type", "initial", "writable", "journaled"}
  {
    var rest := {"id", "direction", "value_type", "initial", "writable", "journaled"};
    assert POINT_KEYS == rest + {"channel", "stale_after_ticks"};
    if keys <= POINT_KEYS && "channel" !in keys && "stale_after_ticks" !in keys {
      assert forall k | k in keys :: k in rest;
    }
  }

  lemma SignalFitsIs(e: Option<Signal>, ids: set<Id>, names: set<Option<string>>, points: set<Id>)
    ensures SignalFits(e, ids, names, points)
       <==> e.Some? && SoundSignal(e.value) && e.value.id !in ids && e.value.name !in names && e.value.source in points
  {
    hide Strip, IsSpace;
    if e.Some? && e.value.name.Some? {
      BlankStrips(e.value.name.value);
    }
  }

  /** Each added point is sound and its id is neither known nor that of an earlier one. */
  ghost predicate SoundPoints(es: seq<Option<Point>>, known: set<Id>) {
    && (forall i | 0 <= i < |es| :: es[i].Some? && SoundPoint(es[i].value) && es[i].value.id !in known)
    && (forall i, j | 0 <= i < j < |es| :: PointId(es[i]) != PointId(es[j]))
  }

  /** Each added signal is sound and sources a point, and neither its id nor its name is known
      or that of an earlier one. */
  ghost predicate SoundSignals(es: seq<Option<Signal>>, ids: set<Id>, names: set<Option<string>>, points: set<Id>) {
    && (forall i | 0 <= i < |es| ::
          && es[i].Some? && SoundSignal(es[i].value) && es[i].value.source in points
          && es[i].value.id !in ids && es[i].value.name !in names)
    && (forall i, j | 0 <= i < j < |es| && es[i].Some? && es[j].Some? ::
          es[i].value.id != es[j].value.id && es[i].value.name != es[j].value.name)
  }

  lemma {:induction false} PointsFitExactly(es: seq<Option<Point>>, known: set<Id>)
    ensures PointsFit(es, known) <==> SoundPoints(es, known)
    decreases |es|
  {
    if es != [] {
      hide PointFits, SoundPoint;
      PointFitsIs(es[0], known);
      if es[0].Some? {
        PointsFitExactly(es[1..], known + {es[0].value.id});
        SoundFirst(es, known);
      }
    }
  }

  lemma SoundFirst(es: seq<Option<Point>>, known: set<Id>)
    requires es != [] && es[0].Some?
    ensures SoundPoints(es, known)
       <==> SoundPoint(es[0].value) && es[0].value.id !in known && SoundPoints(es[1..], known + {es[0].value.id})
  {
    hide SoundPoint;
    var rest := es[1..];
    if SoundPoints(rest, known + {es[0].value.id}) {
      forall i, j | 0 <= i < j < |es| ensures SoundPoint(es[0].value) ==> PointId(es[i]) != PointId(es[j]) {
        assert es[j] == rest[j - 1];
        if i > 0 {
          assert es[i] == rest[i - 1];
        }
      }
    }
    assert forall i | 0 < i < |es| :: es[i] == rest[i - 1];
  }

  lemma {:induction false} SignalsFitExactly(es: seq<Option<Signal>>, ids: set<Id>, names: set<Option<string>>, points: set<Id>)
    ensures SignalsFit(es, ids, names, points) <==> SoundSignals(es, ids, names, points)
    decreases |es|
  {
    if es != [] {
      hide SignalFits, SoundSignal;
      SignalFitsIs(es[0], ids, names, points);
      if es[0].Some? {
        SignalsFitExactly(es[1..], ids + {es[0].value.id}, names + {es[0].value.name}, points);
        SoundFirstSignal(es, ids, names, points);
      }
    }
  }

  lemma SoundFirstSignal(es: seq<Option<Signal>>, ids: set<Id>, names: set<Option<string>>, points: set<Id>)
    requires es != [] && es[0].Some?
    ensures SoundSignals(es, ids, names, points)
       <==> && SoundSignal(es[0].value) && es[0].value.source in points
            && es[0].value.id !in ids && es[0].value.name !in names
            && SoundSignals(es[1..], ids + {es[0].value.id}, names + {es[0].value.name}, points)
  {
    hide SoundSignal;
    var rest := es[1..];
    assert forall i | 0 < i < |es| :: es[i] == rest[i - 1];
    if SoundSignals(rest, ids + {es[0].value.id}, names + {es[0].value.name}, points) {
      forall i, j | 0 <= i < j < |es| && es[i].Some? && es[j].Some?
        ensures es[i].value.id != es[j].value.id && es[i].value.name != es[j].value.name
      {
        assert es[j] == rest[j - 1];
        if i > 0 {
          assert es[i] == rest[i - 1];
        }
      }
    }
  }

  /** A recipe applies exactly when its points are sound, internal and under new, distinct ids,
      its signals are sound, under new, distinct ids and names, and source a point of the model
      or the recipe, and the document with both appended is clean; the result is that
      document. */
  lemma DerivesExactly(d: Document, r: Recipe)
    ensures var e := d.(points := d.points + r.points, signals := d.signals + r.signals);
            Derive(d, r) ==
            if && SoundPoints(r.points, PointIds(d.points))
               && SoundSignals(r.signals, SignalIds(d.signals), SignalNames(d.signals), PointIds(e.points))
               && Clean(e)
            then Some(e) else None
  {
    hide PointsFit, SignalsFit, SoundPoints, SoundSignals, Clean, LintProblems, PointIds;
    PointsFitExactly(r.points, PointIds(d.points));
    SignalsFitExactly(r.signals, SignalIds(d.signals), SignalNames(d.signals), PointIds(d.points + r.points));
    LintIsExact(Appended(d, r));
  }

  /** A derived document begins with the mounted model's lists, keeps everything else, adds
      internal points only, under new ids, and has no problem. */
  lemma DerivationIsAdditive(d: Document, r: Recipe)
    requires Derive(d, r).Some?
    ensures var e := Derive(d, r).value;
            && d.points <= e.points && d.signals <= e.signals
            && e == d.(points := e.points, signals := e.signals)
            && Clean(e)
            && forall i | |d.points| <= i < |e.points| ::
                 e.points[i].Some? && "channel" !in e.points[i].value.keys && e.points[i].value.id !in PointIds(d.points)
  {
    hide Clean, LintProblems, PointsFit, SignalsFit;
    LintIsExact(Appended(d, r));
    var e := Appended(d, r);
    forall i | |d.points| <= i < |e.points|
      ensures e.points[i].Some? && "channel" !in e.points[i].value.keys && e.points[i].value.id !in PointIds(d.points)
    {
      FittingPoint(r.points, PointIds(d.points), i - |d.points|);
    }
  }

  /** A recipe applies once: applying it again is refused unless it adds nothing. */
  lemma AppliesOnce(d: Document, r: Recipe)
    requires Derive(d, r).Some? && (r.points != [] || r.signals != [])
    ensures Derive(Derive(d, r).value, r).None?
  {
    hide Clean, LintProblems, Strip;
    var e := Derive(d, r).value;
    if r.points != [] {
      FittingPoint(r.points, PointIds(d.points), 0);
      assert r.points[0] in e.points;
      assert r.points[0].value.id in PointIds(e.points);
    } else {
      assert r.signals[0] in e.signals;
      assert r.signals[0].value.id in SignalIds(e.signals);
    }
  }
}
