/** `_resolve_keyed_append` of agent_pool/merge_resolution.py: the union of two sides that
    each appended whole keyed entries to the same base, printed in key order. For a fixed
    region and base, the resolution is a partial join-semilattice on documents. */
module KeyedMerge {
  import opened Common
  import opened Insertion
  import opened Regions

  type Union = map<string, Lines>

  /** What one side appended: where, and which entries. */
  datatype Appended = Appended(anchor: nat, entries: Union)

  /** `_row_keys` and `_landed_keys`: the keys a document already carries. */
  function Keys(kind: Region, lines: Lines): set<string> {
    set line | line in lines && kind(line).Opener? :: kind(line).key
  }

  // ----- The union dictionary -----

  predicate Agree(a: Union, b: Union) {
    forall k | k in a && k in b :: a[k] == b[k]
  }

  /** One entry into the union; None on an existing key or a divergent text. */
  function Add(union: Union, e: Entry, held: set<string>): Option<Union> {
    if e.key in held || (e.key in union && union[e.key] != e.lines) then None
    else Some(union[e.key := e.lines])
  }

  function AddAll(union: Union, es: seq<Entry>, held: set<string>): Option<Union> {
    if es == [] then Some(union) else
      match AddAll(union, es[..|es| - 1], held)
      case None => None
      case Some(u) => Add(u, es[|es| - 1], held)
  }

  /** Adding entries to a union is joining it with the entries' own union. */
  lemma {:induction false} AddAllIsJoin(u: Union, es: seq<Entry>, held: set<string>)
    ensures var own := AddAll(map[], es, held);
            AddAll(u, es, held) ==
            if own.Some? && Agree(u, own.value) then Some(u + own.value) else None
  {
    if es == [] {
      assert u + map[] == u;
    } else {
      var front, e := es[..|es| - 1], es[|es| - 1];
      AddAllIsJoin(u, front, held);
      var before := AddAll(map[], front, held);
      if before.Some? {
        var own := Add(before.value, e, held);
        if own.Some? {
          assert own.value == before.value[e.key := e.lines];
          if Agree(u, before.value) {
            assert (u + before.value)[e.key := e.lines] == u + own.value;
            assert Agree(u, own.value) <==> (e.key in u ==> u[e.key] == e.lines);
          } else {
            var k :| k in u && k in before.value && u[k] != before.value[k];
            assert own.value[k] == before.value[k];
          }
        }
      }
    }
  }

  lemma AddAllTake(u: Union, es: seq<Entry>, held: set<string>, i: nat)
    requires i < |es|
    ensures var r := AddAll(u, es[..i], held);
            AddAll(u, es[..i + 1], held) == if r.None? then None else Add(r.value, es[i], held)
  {
    assert es[..i + 1][..i] == es[..i];
  }

  lemma {:induction false} RefusedAddAll(u: Union, es: seq<Entry>, held: set<string>, n: nat)
    requires n <= |es| && AddAll(u, es[..n], held).None?
    ensures AddAll(u, es, held).None?
    decreases |es|
  {
    if n == |es| {
      assert es[..n] == es;
    } else {
      assert es[..|es| - 1][..n] == es[..n];
      RefusedAddAll(u, es[..|es| - 1], held, n);
    }
  }

  /** The entries of one residue, added to a union. */
  function Gather(kind: Region, u: Union, inserted: Lines, held: set<string>): Option<Union> {
    var es := Parse(kind, inserted);
    if es.None? then None else AddAll(u, es.value, held)
  }

  /** Gathering into a union is joining it with what the residue gathers by itself. */
  lemma GatherIsJoin(kind: Region, u: Union, inserted: Lines, held: set<string>)
    ensures var own := Gather(kind, map[], inserted, held);
            Gather(kind, u, inserted, held) ==
            if own.Some? && Agree(u, own.value) then Some(u + own.value) else None
  {
    hide AddAll, Parse;
    var es := Parse(kind, inserted);
    if es.Some? {
      AddAllIsJoin(u, es.value, held);
    }
  }

  // ----- Printing -----

  function EntriesAt(union: Union, keys: seq<string>): (es: seq<Entry>)
    requires forall k | k in keys :: k in union
    ensures |es| == |keys| && forall i | 0 <= i < |es| :: es[i] == Entry(keys[i], union[keys[i]])
  {
    seq(|keys|, i requires 0 <= i < |keys| => Entry(keys[i], union[keys[i]]))
  }

  /** Adding entries under distinct fresh keys rebuilds the union they came from. */
  lemma {:induction false} AddAllOfEntries(union: Union, keys: seq<string>, held: set<string>)
    requires forall k | k in keys :: k in union && k !in held
    requires forall i, j | 0 <= i < j < |keys| :: keys[i] != keys[j]
    ensures AddAll(map[], EntriesAt(union, keys), held) == Some(map k | k in keys :: union[k])
  {
    if keys != [] {
      var front, k := keys[..|keys| - 1], keys[|keys| - 1];
      AddAllOfEntries(union, front, held);
      assert EntriesAt(union, keys)[..|front|] == EntriesAt(union, front);
      assert k !in front;
      assert (map j | j in front :: union[j])[k := union[k]] == map j | j in keys :: union[j];
    }
  }

  /** The union's entries in key order. */
  function EntriesOf(union: Union): seq<Entry> {
    EntriesAt(union, Sorted(union.Keys))
  }

  function Render(base: Lines, anchor: nat, union: Union): Lines
    requires anchor <= |base|
  {
    base[..anchor] + Flatten(EntriesOf(union)) + base[anchor..]
  }

  /** Whole entries under keys the base does not carry. */
  ghost predicate FreshUnion(kind: Region, base: Lines, u: Union) {
    u != map[] && forall k | k in u :: WholeEntry(kind, Entry(k, u[k])) && k !in Keys(kind, base)
  }

  // ----- What one side appended -----

  function Summary(kind: Region, base: Lines, side: Lines): (r: Option<Appended>)
    ensures r.Some? ==> r.value.anchor <= |base|
  {
    var ins := PureInsertion(base, side);
    if ins.None? then None else
      var u := Gather(kind, map[], ins.value.lines, Keys(kind, base));
      if u.None? then None else Some(Appended(ins.value.index, u.value))
  }

  lemma {:induction false} AddAllFresh(kind: Region, base: Lines, es: seq<Entry>)
    requires WholeEntries(kind, es) && es != []
    requires AddAll(map[], es, Keys(kind, base)).Some?
    ensures FreshUnion(kind, base, AddAll(map[], es, Keys(kind, base)).value)
  {
    var front, e := es[..|es| - 1], es[|es| - 1];
    assert es == front + [e] && e in es;
    assert e == Entry(e.key, e.lines);
    if front != [] {
      AddAllFresh(kind, base, front);
    }
    var u := AddAll(map[], es, Keys(kind, base)).value;
    assert e.key in u;
  }

  lemma SummaryIsFresh(kind: Region, base: Lines, side: Lines)
    requires Summary(kind, base, side).Some?
    ensures FreshUnion(kind, base, Summary(kind, base, side).value.entries)
  {
    hide PureInsertion;
    var ins := PureInsertion(base, side).value;
    ParseIsWhole(kind, ins.lines);
    InsertionIsLargest(base, side);
    AddAllFresh(kind, base, Parse(kind, ins.lines).value);
  }

  lemma EntriesOfWhole(kind: Region, base: Lines, u: Union)
    requires FreshUnion(kind, base, u)
    ensures WholeEntries(kind, EntriesOf(u)) && EntriesOf(u) != []
    ensures AddAll(map[], EntriesOf(u), Keys(kind, base)) == Some(u)
  {
    var keys := Sorted(u.Keys);
    AddAllOfEntries(u, keys, Keys(kind, base));
    assert (map k | k in keys :: u[k]) == u;
  }

  /** Whole entries under fresh keys, inserted at an index, are found again as the insertion
      at that index: their first line opens a fresh key, so it differs from the base line
      there and the insertion cannot slide on. */
  lemma InsertionIsFound(kind: Region, base: Lines, anchor: nat, es: seq<Entry>)
    requires anchor <= |base| && es != [] && WholeEntries(kind, es)
    requires es[0].key !in Keys(kind, base)
    ensures PureInsertion(base, base[..anchor] + Flatten(es) + base[anchor..]) ==
            Some(Inserted(anchor, Flatten(es)))
  {
    var ins, doc := Flatten(es), base[..anchor] + Flatten(es) + base[anchor..];
    assert es[0] in es && doc[anchor] == es[0].lines[0];
    assert doc[anchor] !in base;
    assert SplitsAt(base, doc, anchor, ins);
    var found := PureInsertion(base, doc).value;
    assert forall i | 0 <= i < found.index :: doc[i] == base[i];
    assert found.lines == doc[anchor..anchor + |doc| - |base|] == ins;
  }

  /** The printed union re-parses to the same entries at the same anchor. */
  lemma RenderReparses(kind: Region, base: Lines, anchor: nat, u: Union)
    requires anchor <= |base| && FreshUnion(kind, base, u)
    ensures Summary(kind, base, Render(base, anchor, u)) == Some(Appended(anchor, u))
  {
    var es := EntriesOf(u);
    EntriesOfWhole(kind, base, u);
    assert es[0].key == Sorted(u.Keys)[0];
    InsertionIsFound(kind, base, anchor, es);
    ParseFlatten(kind, es);
  }

  // ----- The resolution -----

  /** None where the source raises and the merge stays with the bounded repair. */
  function Resolve(kind: Region, base: Lines, ours: Lines, theirs: Lines): Option<Lines> {
    var mine, other := PureInsertion(base, ours), PureInsertion(base, theirs);
    if mine.None? || other.None? || mine.value.index != other.value.index then None else
      var held := Keys(kind, base);
      var u := Gather(kind, map[], mine.value.lines, held);
      if u.None? then None else
        var v := Gather(kind, u.value, other.value.lines, held);
        if v.None? then None else Some(Render(base, mine.value.index, v.value))
  }

  /** What two side summaries resolve to. */
  function JoinSummaries(base: Lines, a: Option<Appended>, b: Option<Appended>): Option<Lines>
    requires a.Some? ==> a.value.anchor <= |base|
  {
    if a.Some? && b.Some? && a.value.anchor == b.value.anchor && Agree(a.value.entries, b.value.entries)
    then Some(Render(base, a.value.anchor, a.value.entries + b.value.entries))
    else None
  }

  /** The side summaries alone decide the resolution: it exists exactly when both sides are
      pure appends of fresh entries at one anchor with no divergent text, and then it is the
      base with the join of both sides' entries printed at that anchor. */
  lemma ResolveBySummaries(kind: Region, base: Lines, ours: Lines, theirs: Lines)
    ensures Resolve(kind, base, ours, theirs) ==
            JoinSummaries(base, Summary(kind, base, ours), Summary(kind, base, theirs))
  {
    hide PureInsertion, Gather, Keys, Render;
    var mine, other := PureInsertion(base, ours), PureInsertion(base, theirs);
    if mine.Some? && other.Some? {
      var held := Keys(kind, base);
      var u := Gather(kind, map[], mine.value.lines, held);
      if u.Some? {
        GatherIsJoin(kind, u.value, other.value.lines, held);
      }
    }
  }

  lemma JoinIsFresh(kind: Region, base: Lines, a: Union, b: Union)
    requires FreshUnion(kind, base, a) && FreshUnion(kind, base, b)
    ensures FreshUnion(kind, base, a + b)
  {
    var k :| k in a;
    assert k in a + b;
  }

  /** A resolved document carries exactly the join of what its sides appended. */
  lemma ResolvedSummary(kind: Region, base: Lines, ours: Lines, theirs: Lines)
    requires Resolve(kind, base, ours, theirs).Some?
    ensures var a, b := Summary(kind, base, ours), Summary(kind, base, theirs);
            && a.Some? && b.Some? && Agree(a.value.entries, b.value.entries)
            && Summary(kind, base, Resolve(kind, base, ours, theirs).value) ==
               Some(Appended(a.value.anchor, a.value.entries + b.value.entries))
  {
    ResolveBySummaries(kind, base, ours, theirs);
    SummaryIsFresh(kind, base, ours);
    SummaryIsFresh(kind, base, theirs);
    var a, b := Summary(kind, base, ours).value, Summary(kind, base, theirs).value;
    JoinIsFresh(kind, base, a.entries, b.entries);
    RenderReparses(kind, base, a.anchor, a.entries + b.entries);
  }

  // ----- The semilattice laws -----

  lemma ResolveCommutes(kind: Region, base: Lines, x: Lines, y: Lines)
    ensures Resolve(kind, base, x, y) == Resolve(kind, base, y, x)
  {
    ResolveBySummaries(kind, base, x, y);
    ResolveBySummaries(kind, base, y, x);
    JoinCommutes(base, Summary(kind, base, x), Summary(kind, base, y));
  }

  lemma JoinCommutes(base: Lines, a: Option<Appended>, b: Option<Appended>)
    requires a.Some? ==> a.value.anchor <= |base|
    requires b.Some? ==> b.value.anchor <= |base|
    ensures JoinSummaries(base, a, b) == JoinSummaries(base, b, a)
  {
    if a.Some? && b.Some? && Agree(a.value.entries, b.value.entries) {
      assert a.value.entries + b.value.entries == b.value.entries + a.value.entries;
    }
  }

  /** A printed union absorbs any side whose entries it already holds. */
  lemma PrintedAbsorbs(kind: Region, base: Lines, d: Lines, x: Lines)
    requires Summary(kind, base, d).Some? && Summary(kind, base, x).Some?
    requires var a, b := Summary(kind, base, d).value, Summary(kind, base, x).value;
             && d == Render(base, a.anchor, a.entries) && a.anchor == b.anchor
             && b.entries.Keys <= a.entries.Keys && Agree(a.entries, b.entries)
    ensures Resolve(kind, base, d, x) == Some(d) && Resolve(kind, base, x, d) == Some(d)
  {
    var a, b := Summary(kind, base, d).value, Summary(kind, base, x).value;
    assert a.entries + b.entries == a.entries;
    ResolveBySummaries(kind, base, d, x);
    ResolveCommutes(kind, base, d, x);
  }

  lemma ResolveAbsorbs(kind: Region, base: Lines, x: Lines, y: Lines)
    requires Resolve(kind, base, x, y).Some?
    ensures var d := Resolve(kind, base, x, y).value;
            && Resolve(kind, base, d, d) == Some(d)
            && Resolve(kind, base, d, x) == Some(d) && Resolve(kind, base, x, d) == Some(d)
            && Resolve(kind, base, d, y) == Some(d) && Resolve(kind, base, y, d) == Some(d)
  {
    var d := Resolve(kind, base, x, y).value;
    ResolveBySummaries(kind, base, x, y);
    ResolvedSummary(kind, base, x, y);
    PrintedAbsorbs(kind, base, d, d);
    PrintedAbsorbs(kind, base, d, x);
    PrintedAbsorbs(kind, base, d, y);
  }

  function ThenResolve(kind: Region, base: Lines, d: Option<Lines>, z: Lines): Option<Lines> {
    if d.None? then None else Resolve(kind, base, d.value, z)
  }

  /** Three sides, each with its summary, joined pairwise: the form both groupings take. */
  lemma ThreeSides(kind: Region, base: Lines, x: Lines, y: Lines, z: Lines)
    ensures var a, b, c := Summary(kind, base, x), Summary(kind, base, y), Summary(kind, base, z);
            ThenResolve(kind, base, Resolve(kind, base, x, y), z) ==
            if && a.Some? && b.Some? && c.Some?
               && a.value.anchor == b.value.anchor == c.value.anchor
               && Agree(a.value.entries, b.value.entries) && Agree(a.value.entries, c.value.entries)
               && Agree(b.value.entries, c.value.entries)
            then Some(Render(base, a.value.anchor, a.value.entries + b.value.entries + c.value.entries))
            else None
  {
    var d := Resolve(kind, base, x, y);
    ResolveBySummaries(kind, base, x, y);
    if d.Some? {
      ResolvedSummary(kind, base, x, y);
      ResolveBySummaries(kind, base, d.value, z);
      if Summary(kind, base, z).Some? {
        AgreeWithJoin(Summary(kind, base, x).value.entries, Summary(kind, base, y).value.entries,
                      Summary(kind, base, z).value.entries);
      }
    }
  }

  lemma AgreeWithJoin(a: Union, b: Union, c: Union)
    requires Agree(a, b)
    ensures Agree(a + b, c) <==> Agree(a, c) && Agree(b, c)
  {
    if Agree(a + b, c) {
      forall k | k in a && k in c ensures a[k] == c[k] {
        assert (a + b)[k] == a[k];
      }
      forall k | k in b && k in c ensures b[k] == c[k] {
        assert (a + b)[k] == b[k];
      }
    }
  }

  function ResolveInto(kind: Region, base: Lines, x: Lines, d: Option<Lines>): Option<Lines> {
    if d.None? then None else Resolve(kind, base, x, d.value)
  }

  /** Associative, including when it is defined at all. */
  lemma ResolveAssociates(kind: Region, base: Lines, x: Lines, y: Lines, z: Lines)
    ensures ThenResolve(kind, base, Resolve(kind, base, x, y), z) ==
            ResolveInto(kind, base, x, Resolve(kind, base, y, z))
  {
    hide Resolve;
    ResolveRotates(kind, base, x, y, z);
    if Resolve(kind, base, y, z).Some? {
      ResolveCommutes(kind, base, x, Resolve(kind, base, y, z).value);
    }
  }

  /** Three sides may be taken in any cyclic order. */
  lemma ResolveRotates(kind: Region, base: Lines, x: Lines, y: Lines, z: Lines)
    ensures ThenResolve(kind, base, Resolve(kind, base, x, y), z) ==
            ThenResolve(kind, base, Resolve(kind, base, y, z), x)
  {
    ThreeSides(kind, base, x, y, z);
    ThreeSides(kind, base, y, z, x);
    var a, b, c := Summary(kind, base, x), Summary(kind, base, y), Summary(kind, base, z);
    if a.Some? && b.Some? && c.Some? {
      JoinRotates(a.value.entries, b.value.entries, c.value.entries);
    }
  }

  lemma JoinRotates(a: Union, b: Union, c: Union)
    ensures Agree(a, b) && Agree(a, c) && Agree(b, c) ==> a + b + c == b + c + a
  {
  }

  /** e is at or above x when resolving x into e changes nothing. */
  ghost predicate Below(kind: Region, base: Lines, x: Lines, e: Lines) {
    Resolve(kind, base, x, e) == Some(e)
  }

  /** The resolution is the least document above both sides, and it exists whenever any
      document is above both. */
  lemma ResolveIsLeastUpperBound(kind: Region, base: Lines, x: Lines, y: Lines, e: Lines)
    requires Below(kind, base, x, e) && Below(kind, base, y, e)
    ensures var d := Resolve(kind, base, x, y);
            && d.Some? && Below(kind, base, x, d.value) && Below(kind, base, y, d.value)
            && Below(kind, base, d.value, e)
  {
    ResolveRotates(kind, base, x, y, e);
    ResolveCommutes(kind, base, e, x);
    ResolveAbsorbs(kind, base, x, y);
  }

  // ----- Which documents merge, and to what -----

  /** The side is the base with whole entries inserted at p. */
  ghost predicate Appends(kind: Region, base: Lines, side: Lines, p: nat, es: seq<Entry>) {
    p <= |base| && es != [] && WholeEntries(kind, es) && side == base[..p] + Flatten(es) + base[p..]
  }

  /** No line of the base opens an entry with one of the keys. */
  ghost predicate NewTo(kind: Region, base: Lines, es: seq<Entry>) {
    forall e, line | e in es && line in base :: kind(line) != Opener(e.key)
  }

  /** Entries of one key have one text. */
  ghost predicate Consistent(es: seq<Entry>) {
    forall e, f | e in es && f in es && e.key == f.key :: e.lines == f.lines
  }

  /** Distinct keys, in the order of strings. */
  ghost predicate Increasing(es: seq<Entry>) {
    forall i, j | 0 <= i < j < |es| :: es[i].key != es[j].key && Before(es[i].key, es[j].key)
  }

  /** The union dictionary of the entries. */
  ghost predicate IsUnion(u: Union, es: seq<Entry>) {
    && (forall e | e in es :: e.key in u && u[e.key] == e.lines)
    && (forall k | k in u :: Entry(k, u[k]) in es)
  }

  lemma ConsistentOne(es: seq<Entry>, u: Union, e: Entry)
    requires IsUnion(u, es)
    ensures Consistent(es + [e]) <==> Consistent(es) && (e.key in u ==> u[e.key] == e.lines)
  {
    var all := es + [e];
    if Consistent(all) {
      assert forall f | f in es :: f in all;
      if e.key in u {
        assert Entry(e.key, u[e.key]) in all && e in all;
      }
    }
  }

  lemma UnionOne(es: seq<Entry>, u: Union, e: Entry)
    requires IsUnion(u, es) && (e.key in u ==> u[e.key] == e.lines)
    ensures IsUnion(u[e.key := e.lines], es + [e])
  {
    assert forall f | f in es :: f in es + [e];
    assert e == Entry(e.key, e.lines) && e in es + [e];
  }

  /** New entries make a union exactly when they are consistent. */
  lemma {:induction false} AddAllExactly(es: seq<Entry>, held: set<string>)
    requires forall e | e in es :: e.key !in held
    ensures var r := AddAll(map[], es, held);
            (r.Some? <==> Consistent(es)) && (r.Some? ==> IsUnion(r.value, es))
  {
    hide Consistent, IsUnion;
    if es == [] {
      NothingUnited();
    } else {
      var front, e := es[..|es| - 1], es[|es| - 1];
      assert es == front + [e];
      AddAllExactly(front, held);
      ConsistentFront(front, e);
      var r := AddAll(map[], front, held);
      if r.Some? {
        ConsistentOne(front, r.value, e);
        if Add(r.value, e, held).Some? {
          UnionOne(front, r.value, e);
        }
      }
    }
  }

  lemma NothingUnited()
    ensures Consistent([]) && IsUnion(map[], [])
  {
  }

  lemma ConsistentFront(es: seq<Entry>, e: Entry)
    ensures Consistent(es + [e]) ==> Consistent(es)
  {
    assert forall f | f in es :: f in es + [e];
  }

  lemma {:induction false} AppendedSummary(kind: Region, base: Lines, side: Lines, p: nat, es: seq<Entry>)
    requires Appends(kind, base, side, p, es) && NewTo(kind, base, es)
    ensures var r := Summary(kind, base, side);
            (r.Some? <==> Consistent(es)) && (r.Some? ==> r.value.anchor == p && IsUnion(r.value.entries, es))
  {
    hide PureInsertion, Consistent, IsUnion, Flatten, AddAll, Parse;
    NewKeysUnheld(kind, base, es);
    InsertionIsFound(kind, base, p, es);
    ParseFlatten(kind, es);
    AddAllExactly(es, Keys(kind, base));
  }

  lemma NewKeysUnheld(kind: Region, base: Lines, es: seq<Entry>)
    requires NewTo(kind, base, es)
    ensures forall e | e in es :: e.key !in Keys(kind, base)
  {
  }

  lemma ConsistentBoth(es: seq<Entry>, fs: seq<Entry>, u: Union, v: Union)
    requires IsUnion(u, es) && IsUnion(v, fs) && Consistent(es) && Consistent(fs)
    ensures Consistent(es + fs) <==> Agree(u, v)
    ensures Agree(u, v) ==> IsUnion(u + v, es + fs)
  {
    var all := es + fs;
    assert forall f :: f in all <==> f in es || f in fs;
    if Consistent(all) {
      forall k | k in u && k in v ensures u[k] == v[k] {
        assert Entry(k, u[k]) in all && Entry(k, v[k]) in all;
      }
    }
  }

  lemma {:induction false} IncreasingIsUnique(gs: seq<Entry>, hs: seq<Entry>)
    requires Increasing(gs) && Increasing(hs) && forall e :: e in gs <==> e in hs
    ensures gs == hs
    decreases |gs|
  {
    SameEmptiness(gs, hs);
    if gs != [] {
      var g, h := gs[|gs| - 1], hs[|hs| - 1];
      assert g in hs && h in gs;
      BothLast(gs, hs);
      var gs', hs' := gs[..|gs| - 1], hs[..|hs| - 1];
      forall e ensures e in gs' <==> e in hs' {
        InFront(gs, e);
        InFront(hs, e);
      }
      IncreasingIsUnique(gs', hs');
      assert gs == gs' + [g] && hs == hs' + [h];
    }
  }

  lemma SameEmptiness(gs: seq<Entry>, hs: seq<Entry>)
    requires forall e :: e in gs <==> e in hs
    ensures gs == [] <==> hs == []
  {
    if gs != [] {
      assert gs[0] in gs;
    }
    if hs != [] {
      assert hs[0] in hs;
    }
  }

  lemma InFront(gs: seq<Entry>, e: Entry)
    requires gs != [] && Increasing(gs)
    ensures e in gs[..|gs| - 1] <==> e in gs && e != gs[|gs| - 1]
  {
    assert gs == gs[..|gs| - 1] + [gs[|gs| - 1]];
  }

  lemma BothLast(gs: seq<Entry>, hs: seq<Entry>)
    requires gs != [] && hs != [] && Increasing(gs) && Increasing(hs) && gs[|gs| - 1] in hs && hs[|hs| - 1] in gs
    ensures gs[|gs| - 1] == hs[|hs| - 1]
  {
    var g, h := gs[|gs| - 1], hs[|hs| - 1];
    var i :| 0 <= i < |gs| && gs[i] == h;
    var j :| 0 <= j < |hs| && hs[j] == g;
    if g != h {
      assert Before(h.key, g.key) && Before(g.key, h.key);
      BeforeAntisymmetric(g.key, h.key);
    }
  }

  lemma EntriesOfIsIncreasing(u: Union, es: seq<Entry>)
    requires IsUnion(u, es)
    ensures Increasing(EntriesOf(u)) && forall e :: e in EntriesOf(u) <==> e in es
  {
    var keys, gs := Sorted(u.Keys), EntriesOf(u);
    forall e ensures e in gs <==> e in es {
      if e in es {
        var i :| 0 <= i < |keys| && keys[i] == e.key;
        assert gs[i] == e;
      }
      if e in gs {
        var i :| 0 <= i < |gs| && gs[i] == e;
        assert keys[i] in u;
      }
    }
  }

  /** Two sides that append entries new to the base: they merge exactly when they append at one
      place and no key has two texts, and then the merged document is the base with every
      appended entry once, in key order, at that place. */
  lemma MergesExactly(kind: Region, base: Lines, x: Lines, y: Lines, p: nat, q: nat, es: seq<Entry>, fs: seq<Entry>)
    requires Appends(kind, base, x, p, es) && Appends(kind, base, y, q, fs)
    requires NewTo(kind, base, es) && NewTo(kind, base, fs)
    ensures Resolve(kind, base, x, y).Some? <==> p == q && Consistent(es + fs)
    ensures forall gs | Increasing(gs) && (forall e :: e in gs <==> e in es || e in fs) && Resolve(kind, base, x, y).Some? ::
              Resolve(kind, base, x, y).value == base[..p] + Flatten(gs) + base[p..]
  {
    hide Summary, Resolve, Consistent, IsUnion, Increasing, Flatten, Appends, NewTo, EntriesOf;
    AppendedSummary(kind, base, x, p, es);
    AppendedSummary(kind, base, y, q, fs);
    ResolveBySummaries(kind, base, x, y);
    ConsistentParts(es, fs);
    var a, b := Summary(kind, base, x), Summary(kind, base, y);
    if a.Some? && b.Some? {
      ConsistentBoth(es, fs, a.value.entries, b.value.entries);
      if Agree(a.value.entries, b.value.entries) {
        var u := a.value.entries + b.value.entries;
        EntriesOfIsIncreasing(u, es + fs);
        forall gs | Increasing(gs) && forall e :: e in gs <==> e in es || e in fs ensures gs == EntriesOf(u) {
          IncreasingIsUnique(gs, EntriesOf(u));
        }
      }
    }
  }

  lemma ConsistentParts(es: seq<Entry>, fs: seq<Entry>)
    ensures Consistent(es + fs) ==> Consistent(es) && Consistent(fs)
  {
    assert forall f :: f in es + fs <==> f in es || f in fs;
  }

  // ----- Entries the base already has -----

  /** Whatever insertion is found, its lines are the same up to order. */
  lemma SameLines(base: Lines, side: Lines, p: nat, ins: Lines, q: nat, found: Lines)
    requires SplitsAt(base, side, p, ins) && SplitsAt(base, side, q, found)
    ensures multiset(found) == multiset(ins)
  {
    AddedLines(base, side, p, ins);
    AddedLines(base, side, q, found);
    forall line: string ensures multiset(found)[line] == multiset(ins)[line] {
      assert (multiset(base) + multiset(ins))[line] == (multiset(base) + multiset(found))[line];
    }
  }

  lemma AddedLines(base: Lines, side: Lines, p: nat, ins: Lines)
    requires SplitsAt(base, side, p, ins)
    ensures multiset(side) == multiset(base) + multiset(ins)
  {
    assert base == base[..p] + base[p..];
    assert multiset(base[..p] + base[p..]) == multiset(base[..p]) + multiset(base[p..]);
  }

  lemma {:induction false} OpenerHasEntry(kind: Region, lines: Lines, line: string)
    requires Parse(kind, lines).Some? && line in lines && kind(line).Opener?
    ensures exists e | e in Parse(kind, lines).value :: e.key == kind(line).key
  {
    var front, last := lines[..|lines| - 1], lines[|lines| - 1];
    assert lines == front + [last];
    var es := Parse(kind, front).value;
    if line == last {
      assert Entry(kind(line).key, [line]) in Parse(kind, lines).value;
    } else {
      OpenerHasEntry(kind, front, line);
      var e :| e in es && e.key == kind(line).key;
      ExtendKeepsKeys(kind, es, last, e);
    }
  }

  lemma ExtendKeepsKeys(kind: Region, es: seq<Entry>, line: string, e: Entry)
    requires Extend(kind, es, line).Some? && e in es
    ensures exists f | f in Extend(kind, es, line).value :: f.key == e.key
  {
    var r := Extend(kind, es, line).value;
    var i :| 0 <= i < |es| && es[i] == e;
    assert r[i].key == e.key && r[i] in r;
  }

  lemma {:induction false} HeldIsNotAdded(es: seq<Entry>, held: set<string>, e: Entry)
    requires e in es && e.key in held
    ensures AddAll(map[], es, held) == None
    decreases |es|
  {
    var front, last := es[..|es| - 1], es[|es| - 1];
    assert es == front + [last];
    if e != last {
      HeldIsNotAdded(front, held, e);
    }
  }

  lemma HeldHasNoSummary(kind: Region, base: Lines, side: Lines, p: nat, ins: Lines, line: string, existing: string)
    requires SplitsAt(base, side, p, ins) && line in ins && kind(line).Opener?
    requires existing in base && kind(existing) == kind(line)
    ensures Summary(kind, base, side) == None
  {
    hide PureInsertion, Parse, AddAll;
    InsertionIsLargest(base, side);
    var found := PureInsertion(base, side).value;
    SameLines(base, side, p, ins, found.index, found.lines);
    assert line in multiset(ins);
    assert line in found.lines;
    if Parse(kind, found.lines).Some? {
      OpenerHasEntry(kind, found.lines, line);
      var e :| e in Parse(kind, found.lines).value && e.key == kind(line).key;
      HeldIsNotAdded(Parse(kind, found.lines).value, Keys(kind, base), e);
    }
  }

  /** A side that inserts a line opening an entry the base already opens is never merged,
      wherever and whatever else it inserts. */
  lemma HeldIsRefused(kind: Region, base: Lines, side: Lines, p: nat, ins: Lines, line: string, existing: string, y: Lines)
    requires SplitsAt(base, side, p, ins) && line in ins && kind(line).Opener?
    requires existing in base && kind(existing) == kind(line)
    ensures Resolve(kind, base, side, y) == None && Resolve(kind, base, y, side) == None
  {
    hide Summary, Resolve;
    HeldHasNoSummary(kind, base, side, p, ins, line, existing);
    ResolveBySummaries(kind, base, side, y);
    ResolveBySummaries(kind, base, y, side);
  }

  /** Two sides that each append one row of the release contract, with the same name in the
      first cell and different text, are refused, wherever they append. */
  lemma DivergentRowsRefused(base: Lines, p: nat, q: nat, row: string, other: string,
                             b1: string, name: string, a1: string, r1: string,
                             b2: string, name': string, a2: string, r2: string)
    requires p <= |base| && q <= |base| && row != other
    requires RowShape(row, b1, name, a1, r1) && RowShape(other, b2, name', a2, r2) && Strip(name) == Strip(name')
    ensures Resolve(ROW_REGION, base, base[..p] + [row] + base[p..], base[..q] + [other] + base[q..]) == None
  {
    hide RowShape, Resolve, Strip, KeyedRow, Consistent;
    RowShapeIsKeyed(row, b1, name, a1, r1);
    RowShapeIsKeyed(other, b2, name', a2, r2);
    var x, y, k := base[..p] + [row] + base[p..], base[..q] + [other] + base[q..], Strip(name);
    if existing :| existing in base && ROW_REGION(existing) == Opener(k) {
      HeldIsRefused(ROW_REGION, base, x, p, [row], row, existing, y);
    } else {
      var e, f := Entry(k, [row]), Entry(k, [other]);
      OneEntry(ROW_REGION, e);
      OneEntry(ROW_REGION, f);
      MergesExactly(ROW_REGION, base, x, y, p, q, [e], [f]);
      TwoTexts(e, f);
    }
  }

  lemma OneEntry(kind: Region, e: Entry)
    requires |e.lines| == 1 && kind(e.lines[0]) == Opener(e.key)
    ensures WholeEntries(kind, [e]) && Flatten([e]) == e.lines
  {
    assert Flatten([e]) == e.lines + Flatten([e][1..]);
  }

  lemma TwoTexts(e: Entry, f: Entry)
    requires e.key == f.key && e.lines != f.lines
    ensures !Consistent([e] + [f])
  {
    assert e in [e] + [f] && f in [e] + [f];
  }

  // ----- The source's loops -----

  method AddSide(union: Union, kind: Region, inserted: Lines, held: set<string>) returns (r: Option<Union>)
    ensures r == Gather(kind, union, inserted, held)
  {
    var es := ParseEntries(kind, inserted);
    if es.None? {
      return None;
    }
    var u := union;
    for i := 0 to |es.value|
      invariant AddAll(union, es.value[..i], held) == Some(u)
    {
      var e := es.value[i];
      AddAllTake(union, es.value, held, i);
      if e.key in held || (e.key in u && u[e.key] != e.lines) {
        RefusedAddAll(union, es.value, held, i + 1);
        return None;
      }
      u := u[e.key := e.lines];
    }
    assert es.value[..|es.value|] == es.value;
    r := Some(u);
  }

  method ResolveKeyedAppend(kind: Region, base: Lines, ours: Lines, theirs: Lines) returns (r: Option<Lines>)
    ensures r == Resolve(kind, base, ours, theirs)
  {
    var held := Keys(kind, base);
    var mine := FindPureInsertion(base, ours);
    var other := FindPureInsertion(base, theirs);
    if mine.None? || other.None? || mine.value.index != other.value.index {
      return None;
    }
    var union := AddSide(map[], kind, mine.value.lines, held);
    if union.None? {
      return None;
    }
    union := AddSide(union.value, kind, other.value.lines, held);
    if union.None? {
      return None;
    }
    var resolved := Print(base, mine.value.index, union.value);
    r := Some(resolved);
  }

  method Print(base: Lines, anchor: nat, union: Union) returns (resolved: Lines)
    requires anchor <= |base|
    ensures resolved == Render(base, anchor, union)
  {
    var keys := Sorted(union.Keys);
    resolved := base[..anchor];
    ghost var es := EntriesOf(union);
    ghost var printed := [];
    for i := 0 to |keys|
      invariant printed == Flatten(es[..i]) && resolved == base[..anchor] + printed
    {
      FlattenTake(es, i);
      resolved := resolved + union[keys[i]];
      printed := printed + union[keys[i]];
    }
    assert es[..|keys|] == es;
    resolved := resolved + base[anchor..];
  }
}
