/** The publication loop of `planner` in agent_pool/supervisor.py: proposal items become
    issues in dependency order, while the ready frontier is below its cap. */
module Publication {
  import opened Common
  import opened Planning

  const READY_CAP := 20

  /** What the loop is given: the ordered proposal, the issue number of every managed key, all
      issue numbers, the closed ones, the ready frontier, and the number each key is created
      under if it comes to that. */
  datatype Plan = Plan(ordered: seq<Item>, inventory: map<string, int>, numbers: set<int>, closed: set<int>,
                       ready: int, create: string -> int)
  {
    /** The order comes from `ordered_issues`, and the inventory lists existing issues. */
    ghost predicate Valid() {
      Topological(ordered) && forall k | k in inventory :: inventory[k] in numbers
    }
  }

  /** An issue created by the loop, with its dependencies resolved to issue numbers. */
  datatype Created = Created(item: Item, number: int, deps: seq<int>)

  /** What the loop leaves: the issues it created, the ready count, and whether it raised on a
      dependency that is no existing issue. */
  datatype Report = Report(created: seq<Created>, ready: int, raised: bool)

  function NumbersOf(created: seq<Created>): set<int> {
    set c | c in created :: c.number
  }

  function CreatedKeys(created: seq<Created>): set<string> {
    set c | c in created :: c.item.key
  }

  // ----- The loop, while no dependency is missing -----

  function NumberOf(p: Plan, k: string): int {
    if k in p.inventory then p.inventory[k] else p.create(k)
  }

  function ResolveDep(p: Plan, d: Dep): int {
    match d
    case OnNumber(n) => n
    case OnKey(k) => NumberOf(p, k)
  }

  function ResolveDeps(p: Plan, item: Item): (deps: seq<int>)
    ensures |deps| == |item.deps| && forall j | 0 <= j < |deps| :: deps[j] == ResolveDep(p, item.deps[j])
  {
    seq(|item.deps|, j requires 0 <= j < |item.deps| => ResolveDep(p, item.deps[j]))
  }

  datatype Progress = Progress(created: seq<Created>, ready: int)

  predicate AllClosed(deps: seq<int>, closed: set<int>) {
    forall d | d in deps :: d in closed
  }

  /** The item is published next: its key has no issue yet and the frontier has room. */
  predicate Publishes(p: Plan, s: Progress, item: Item) {
    item.key !in p.inventory && item.key !in CreatedKeys(s.created) && s.ready < READY_CAP
  }

  function Publication(p: Plan, item: Item): Created {
    Created(item, p.create(item.key), ResolveDeps(p, item))
  }

  function Next(p: Plan, s: Progress, item: Item): Progress {
    if !Publishes(p, s, item) then s else
      var c := Publication(p, item);
      Progress(s.created + [c], s.ready + if AllClosed(c.deps, p.closed) then 1 else 0)
  }

  /** Progress after the first i items, were no dependency ever missing. */
  function After(p: Plan, i: nat): Progress
    requires i <= |p.ordered|
  {
    if i == 0 then Progress([], p.ready) else Next(p, After(p, i - 1), p.ordered[i - 1])
  }

  /** The item names a number that is neither an existing issue nor one of the created ones. */
  predicate Missing(p: Plan, created: seq<Created>, item: Item) {
    exists d | d in item.deps :: d.OnNumber? && d.number !in p.numbers && d.number !in NumbersOf(created)
  }

  /** The loop reaches item i, publishes it, and its dependencies do not all exist. */
  predicate RaisesAt(p: Plan, i: nat)
    requires i < |p.ordered|
  {
    Publishes(p, After(p, i), p.ordered[i]) && Missing(p, After(p, i).created, p.ordered[i])
  }

  // ----- What the created issues look like -----

  /** Of the created issues, those ready at once. */
  function CountReady(created: seq<Created>, closed: set<int>): nat {
    if created == [] then 0 else
      CountReady(created[..|created| - 1], closed)
      + if forall d | d in created[|created| - 1].deps :: d in closed then 1 else 0
  }

  /** The key stands for n: an inventory number, or the number of an issue created before. */
  ghost predicate StandsFor(p: Plan, before: seq<Created>, k: string, n: int) {
    if k in p.inventory then n == p.inventory[k] else exists b | b in before :: b.item.key == k && b.number == n
  }

  /** Every dependency is resolved, and every key among them by an issue that was there. */
  ghost predicate Resolved(p: Plan, before: seq<Created>, c: Created) {
    && |c.deps| == |c.item.deps|
    && forall j | 0 <= j < |c.deps| ::
         match c.item.deps[j]
         case OnNumber(n) => c.deps[j] == n
         case OnKey(k) => StandsFor(p, before, k, c.deps[j])
  }

  ghost predicate AllResolved(p: Plan, created: seq<Created>) {
    forall i | 0 <= i < |created| :: Resolved(p, created[..i], created[i])
  }

  /** Every dependency of an issue exists before it. */
  ghost predicate RefersBack(p: Plan, before: seq<Created>, c: Created) {
    forall d | d in c.deps :: d in p.numbers || d in NumbersOf(before)
  }

  ghost predicate AllReferBack(p: Plan, created: seq<Created>) {
    forall i | 0 <= i < |created| :: RefersBack(p, created[..i], created[i])
  }

  /** The created items are items of the list, in its order. */
  ghost predicate InOrderOf(created: seq<Created>, items: seq<Item>) {
    exists at: seq<int> :: Positions(created, items, at)
  }

  ghost predicate Positions(created: seq<Created>, items: seq<Item>, at: seq<int>) {
    && |at| == |created|
    && (forall i | 0 <= i < |at| :: 0 <= at[i] < |items| && created[i].item == items[at[i]])
    && forall i, j | 0 <= i < j < |at| :: at[i] < at[j]
  }

  /** Each created key is new and created once, in the order of the list, under the number
      the tracker gave it. */
  ghost predicate Fresh(p: Plan, created: seq<Created>, items: seq<Item>) {
    && CreatedKeys(created) !! p.inventory.Keys
    && (forall i, j | 0 <= i < j < |created| :: created[i].item.key != created[j].item.key)
    && (forall c | c in created :: c.number == p.create(c.item.key))
    && InOrderOf(created, items)
  }

  lemma KeysSnoc(created: seq<Created>, c: Created)
    ensures CreatedKeys(created + [c]) == CreatedKeys(created) + {c.item.key}
    ensures NumbersOf(created + [c]) == NumbersOf(created) + {c.number}
  {
  }

  lemma CountSnoc(created: seq<Created>, c: Created, closed: set<int>)
    ensures CountReady(created + [c], closed) == CountReady(created, closed) + if AllClosed(c.deps, closed) then 1 else 0
  {
    assert (created + [c])[|created|] == c;
    assert (created + [c])[..|created|] == created;
  }

  lemma FreshSnoc(p: Plan, created: seq<Created>, items: seq<Item>, c: Created)
    requires Fresh(p, created, items) && c.item.key !in p.inventory && c.item.key !in CreatedKeys(created)
    requires c.number == p.create(c.item.key)
    ensures Fresh(p, created + [c], items + [c.item])
  {
    hide Positions;
    KeysSnoc(created, c);
    assert forall b | b in created :: b.item.key in CreatedKeys(created);
    var at :| Positions(created, items, at);
    PositionsSnoc(created, items, at, c);
  }

  lemma PositionsSnoc(created: seq<Created>, items: seq<Item>, at: seq<int>, c: Created)
    requires Positions(created, items, at)
    ensures Positions(created + [c], items + [c.item], at + [|items|])
  {
  }

  lemma FreshWider(p: Plan, created: seq<Created>, items: seq<Item>, item: Item)
    requires Fresh(p, created, items)
    ensures Fresh(p, created, items + [item])
  {
    var at :| Positions(created, items, at);
    assert Positions(created, items + [item], at);
  }

  /** What holds after some items of the list: whatever has been created is new and follows
      the list, the count is that of the ready issues, and while the frontier has room every
      key so far has an issue. */
  ghost predicate Kept(p: Plan, items: seq<Item>, s: Progress) {
    && Fresh(p, s.created, items)
    && s.ready == p.ready + CountReady(s.created, p.closed)
    && s.ready <= (if p.ready > READY_CAP then p.ready else READY_CAP)
    && (s.ready < READY_CAP ==> KeysOf(items) <= p.inventory.Keys + CreatedKeys(s.created))
  }

  lemma NothingKept(p: Plan)
    ensures Kept(p, [], Progress([], p.ready))
  {
    assert Positions([], [], []);
  }

  lemma NextKept(p: Plan, items: seq<Item>, s: Progress, item: Item)
    requires Kept(p, items, s)
    ensures Kept(p, items + [item], Next(p, s, item))
  {
    hide Fresh, CreatedKeys, CountReady, KeysOf, AllClosed, ResolveDeps;
    var c := Publication(p, item);
    Planning.KeysSnoc(items, item);
    KeysSnoc(s.created, c);
    if Publishes(p, s, item) {
      FreshSnoc(p, s.created, items, c);
      CountSnoc(s.created, c, p.closed);
    } else {
      FreshWider(p, s.created, items, item);
    }
  }

  lemma {:induction false} AfterKept(p: Plan, i: nat)
    requires i <= |p.ordered|
    ensures Kept(p, p.ordered[..i], After(p, i))
    decreases i
  {
    hide Kept, Next;
    if i == 0 {
      NothingKept(p);
      assert p.ordered[..0] == [];
    } else {
      AfterKept(p, i - 1);
      assert p.ordered[..i] == p.ordered[..i - 1] + [p.ordered[i - 1]];
      NextKept(p, p.ordered[..i - 1], After(p, i - 1), p.ordered[i - 1]);
    }
  }

  lemma PublicationIs(p: Plan, item: Item)
    ensures var c := Publication(p, item); c.item == item && c.number == p.create(item.key) && c.deps == ResolveDeps(p, item)
  {
  }

  /** The lookup of a key dependency never fails: when an item is published, every key it
      depends on is in the inventory or was created before it. */
  lemma LookupsSucceed(p: Plan, i: nat, k: string)
    requires p.Valid() && i < |p.ordered| && Publishes(p, After(p, i), p.ordered[i]) && OnKey(k) in p.ordered[i].deps
    ensures StandsFor(p, After(p, i).created, k, NumberOf(p, k))
  {
    hide After, CountReady, InOrderOf;
    AfterKept(p, i);
    var created := After(p, i).created;
    assert Satisfied(p.ordered[i], KeysOf(p.ordered[..i]));
    if k !in p.inventory {
      var b :| b in created && b.item.key == k;
    }
  }

  lemma {:induction false} AfterResolved(p: Plan, i: nat)
    requires p.Valid() && i <= |p.ordered|
    ensures AllResolved(p, After(p, i).created)
    decreases i
  {
    if i > 0 {
      hide StandsFor, Plan.Valid, Publishes;
      AfterResolved(p, i - 1);
      var s, item := After(p, i - 1), p.ordered[i - 1];
      if Publishes(p, s, item) {
        var c := Publication(p, item);
        forall j | 0 <= j < |item.deps| && item.deps[j].OnKey? ensures StandsFor(p, s.created, item.deps[j].key, c.deps[j]) {
          assert item.deps[j] in item.deps;
          LookupsSucceed(p, i - 1, item.deps[j].key);
        }
        ResolvedSnoc(p, s.created, c);
      }
    }
  }

  lemma ResolvedSnoc(p: Plan, created: seq<Created>, c: Created)
    requires AllResolved(p, created) && Resolved(p, created, c)
    ensures AllResolved(p, created + [c])
  {
    hide Resolved;
    var all := created + [c];
    forall i | 0 <= i < |all| ensures Resolved(p, all[..i], all[i]) {
      assert all[..i] == created[..i];
      assert created[..|created|] == created;
    }
  }

  lemma {:induction false} AfterRefersBack(p: Plan, i: nat)
    requires p.Valid() && i <= |p.ordered| && forall j: nat | j < i :: !RaisesAt(p, j)
    ensures AllReferBack(p, After(p, i).created)
    decreases i
  {
    if i > 0 {
      hide StandsFor, Plan.Valid, Publishes, Missing;
      AfterRefersBack(p, i - 1);
      var s, item := After(p, i - 1), p.ordered[i - 1];
      if Publishes(p, s, item) {
        assert !RaisesAt(p, i - 1);
        NothingMissing(p, i - 1);
        ReferBackSnoc(p, s.created, Publication(p, item));
      }
    }
  }

  lemma ReferBackSnoc(p: Plan, created: seq<Created>, c: Created)
    requires AllReferBack(p, created) && RefersBack(p, created, c)
    ensures AllReferBack(p, created + [c])
  {
    hide RefersBack;
    var all := created + [c];
    forall i | 0 <= i < |all| ensures RefersBack(p, all[..i], all[i]) {
      assert all[..i] == created[..i];
      assert created[..|created|] == created;
    }
  }

  /** The resolved dependencies of an item about to be published all exist exactly when none
      of the numbers it names is missing. */
  lemma NothingMissing(p: Plan, i: nat)
    requires p.Valid() && i < |p.ordered| && Publishes(p, After(p, i), p.ordered[i])
    ensures RefersBack(p, After(p, i).created, Publication(p, p.ordered[i])) <==> !Missing(p, After(p, i).created, p.ordered[i])
  {
    hide After, Publishes, Topological;
    var item, created := p.ordered[i], After(p, i).created;
    var c := Publication(p, item);
    if RefersBack(p, created, c) {
      forall d | d in item.deps && d.OnNumber? ensures d.number in p.numbers || d.number in NumbersOf(created) {
        var j :| 0 <= j < |item.deps| && item.deps[j] == d;
        assert c.deps[j] in c.deps;
      }
    }
    if !Missing(p, created, item) {
      forall d | d in c.deps ensures d in p.numbers || d in NumbersOf(created) {
        var j :| 0 <= j < |c.deps| && c.deps[j] == d;
        assert item.deps[j] in item.deps;
        if item.deps[j].OnKey? {
          LookupsSucceed(p, i, item.deps[j].key);
        }
      }
    }
  }

  // ----- The loop as it runs -----

  method Resolve(p: Plan, item: Item, known: map<string, int>) returns (deps: seq<int>)
    requires Satisfied(item, known.Keys) && forall k | k in known :: known[k] == NumberOf(p, k)
    ensures deps == ResolveDeps(p, item)
  {
    deps := [];
    for i := 0 to |item.deps|
      invariant |deps| == i && forall j | 0 <= j < i :: deps[j] == ResolveDep(p, item.deps[j])
    {
      assert item.deps[i] in item.deps;
      match item.deps[i]
      case OnNumber(n) => deps := deps + [n];
      case OnKey(k) => deps := deps + [known[k]];
    }
  }

  /** The loop's books: what can be looked up and which numbers exist. */
  ghost predicate Booked(p: Plan, created: seq<Created>, known: map<string, int>, all: set<int>) {
    && known.Keys == p.inventory.Keys + CreatedKeys(created) && (forall k | k in known :: known[k] == NumberOf(p, k))
    && all == p.numbers + NumbersOf(created)
  }

  lemma BookedNone(p: Plan)
    ensures Booked(p, [], p.inventory, p.numbers)
  {
  }

  lemma BookedSnoc(p: Plan, created: seq<Created>, known: map<string, int>, all: set<int>, c: Created)
    requires Booked(p, created, known, all) && c.item.key !in p.inventory && c.number == p.create(c.item.key)
    ensures Booked(p, created + [c], known[c.item.key := c.number], all + {c.number})
  {
    KeysSnoc(created, c);
  }

  lemma KnownSatisfies(p: Plan, i: nat, known: map<string, int>, all: set<int>)
    requires p.Valid() && i < |p.ordered| && Booked(p, After(p, i).created, known, all)
    requires Publishes(p, After(p, i), p.ordered[i])
    ensures Satisfied(p.ordered[i], known.Keys)
  {
    hide After, Fresh, CountReady;
    AfterKept(p, i);
    assert Satisfied(p.ordered[i], KeysOf(p.ordered[..i]));
  }

  lemma ExistExactly(p: Plan, created: seq<Created>, known: map<string, int>, all: set<int>, c: Created)
    requires Booked(p, created, known, all)
    ensures (exists d | d in c.deps :: d !in all) <==> !RefersBack(p, created, c)
  {
  }

  /** Publishes the ordered items. It raises exactly when some item it reaches names a number
      that does not exist, and leaves the issues created before that one; otherwise it creates
      every item without an issue, in order, until the frontier is full. */
  method Publish(p: Plan) returns (r: Report)
    requires p.Valid()
    ensures r.raised <==> exists i: nat :: i < |p.ordered| && RaisesAt(p, i)
    ensures !r.raised ==> Progress(r.created, r.ready) == After(p, |p.ordered|)
    ensures r.raised ==> exists i: nat :: i < |p.ordered| && RaisesAt(p, i) && Progress(r.created, r.ready) == After(p, i)
                                          && forall j: nat | j < i :: !RaisesAt(p, j)
    ensures r.raised ==> r.ready < 20 && exists item | item in p.ordered ::
              && item.key !in p.inventory && item.key !in CreatedKeys(r.created)
              && exists d | d in item.deps :: d.OnNumber? && d.number !in p.numbers && d.number !in NumbersOf(r.created)
    ensures Fresh(p, r.created, p.ordered) && AllResolved(p, r.created) && AllReferBack(p, r.created)
    ensures r.ready == p.ready + CountReady(r.created, p.closed)
    ensures r.ready <= (if p.ready > 20 then p.ready else 20)
    ensures !r.raised && r.ready < 20 ==> KeysOf(p.ordered) <= p.inventory.Keys + CreatedKeys(r.created)
  {
    hide *;
    var known, all, created, count := p.inventory, p.numbers, [], p.ready;
    BookedNone(p);
    AfterNone(p);
    for i := 0 to |p.ordered|
      invariant Progress(created, count) == After(p, i) && Booked(p, created, known, all)
      invariant forall j: nat | j < i :: !RaisesAt(p, j)
    {
      var item := p.ordered[i];
      NextIs(p, i, known, all);
      if item.key in known || count >= READY_CAP {
        continue;
      }
      KnownSatisfies(p, i, known, all);
      BookedLooksUp(p, created, known, all);
      var deps := Resolve(p, item, known);
      var number := p.create(item.key);
      PublicationIs(p, item);
      NothingMissing(p, i);
      ExistExactly(p, created, known, all, Created(item, number, deps));
      if exists d | d in deps :: d !in all {
        Concludes(p, i);
        RaisesFor(p, i);
        return Report(created, count, true);
      }
      BookedSnoc(p, created, known, all, Created(item, number, deps));
      created := created + [Created(item, number, deps)];
      known := known[item.key := number];
      all := all + {number};
      if AllClosed(deps, p.closed) {
        count := count + 1;
      }
    }
    Concludes(p, |p.ordered|);
    r := Report(created, count, false);
  }

  lemma RaisesFor(p: Plan, i: nat)
    requires i < |p.ordered| && RaisesAt(p, i)
    ensures var s := After(p, i);
            s.ready < 20 && exists item | item in p.ordered ::
              && item.key !in p.inventory && item.key !in CreatedKeys(s.created)
              && exists d | d in item.deps :: d.OnNumber? && d.number !in p.numbers && d.number !in NumbersOf(s.created)
  {
    hide After;
    assert p.ordered[i] in p.ordered;
  }

  lemma AfterNone(p: Plan)
    ensures After(p, 0) == Progress([], p.ready)
  {
  }

  lemma BookedLooksUp(p: Plan, created: seq<Created>, known: map<string, int>, all: set<int>)
    requires Booked(p, created, known, all)
    ensures forall k | k in known :: known[k] == NumberOf(p, k)
  {
  }

  lemma NextIs(p: Plan, i: nat, known: map<string, int>, all: set<int>)
    requires i < |p.ordered| && Booked(p, After(p, i).created, known, all)
    ensures var s, item := After(p, i), p.ordered[i];
            var c := Publication(p, item);
            && (Publishes(p, s, item) <==> item.key !in known && s.ready < READY_CAP)
            && (item.key !in known ==> item.key !in p.inventory)
            && (RaisesAt(p, i) <==> Publishes(p, s, item) && Missing(p, s.created, item))
            && After(p, i + 1) == if !Publishes(p, s, item) then s
                                  else Progress(s.created + [c], s.ready + if AllClosed(c.deps, p.closed) then 1 else 0)
  {
    hide Publication, AllClosed, Missing;
  }

  lemma Concludes(p: Plan, i: nat)
    requires p.Valid() && i <= |p.ordered| && forall j: nat | j < i :: !RaisesAt(p, j)
    ensures var s := After(p, i);
            && Fresh(p, s.created, p.ordered) && AllResolved(p, s.created) && AllReferBack(p, s.created)
            && s.ready == p.ready + CountReady(s.created, p.closed)
            && s.ready <= (if p.ready > 20 then p.ready else 20)
            && (i == |p.ordered| && s.ready < 20 ==> KeysOf(p.ordered) <= p.inventory.Keys + CreatedKeys(s.created))
  {
    hide After, AllResolved, AllReferBack, Fresh, CountReady, RaisesAt, KeysOf, CreatedKeys, Plan.Valid;
    AfterKept(p, i);
    AfterResolved(p, i);
    AfterRefersBack(p, i);
    FreshInWhole(p, After(p, i).created, i);
    assert p.ordered[..|p.ordered|] == p.ordered;
  }

  lemma FreshInWhole(p: Plan, created: seq<Created>, i: nat)
    requires i <= |p.ordered| && Fresh(p, created, p.ordered[..i])
    ensures Fresh(p, created, p.ordered)
  {
    var at :| Positions(created, p.ordered[..i], at);
    assert Positions(created, p.ordered, at);
  }

  /** The loop can raise half way: here the first of two items is created before the second
      is found to depend on an issue that does not exist. */
  lemma RaisesHalfWay()
    ensures var p := Plan([Item("a", []), Item("b", [OnNumber(99)])], map[], {}, {}, 0, k => 1);
            p.Valid() && RaisesAt(p, 1) && |After(p, 1).created| == 1 && !RaisesAt(p, 0)
  {
    var p := Plan([Item("a", []), Item("b", [OnNumber(99)])], map[], {}, {}, 0, k => 1);
    assert After(p, 0) == Progress([], 0);
    assert After(p, 1).created == [Publication(p, Item("a", []))] && After(p, 1).ready == 1;
    assert OnNumber(99) in p.ordered[1].deps;
  }
}
