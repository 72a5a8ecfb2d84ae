/** `_pure_insertion` of agent_pool/merge_resolution.py: recognising a document that is
    the base document plus one contiguous block of inserted lines. */
module Insertion {
  import opened Common

  datatype Inserted<T> = Inserted(index: nat, lines: seq<T>)

  /** `side` is `base` with the nonempty block `ins` inserted at index p. */
  ghost predicate SplitsAt<T>(base: seq<T>, side: seq<T>, p: nat, ins: seq<T>) {
    p <= |base| && ins != [] && side == base[..p] + ins + base[p..]
  }

  /** Length of the longest common prefix. */
  function CommonPrefix<T(==)>(a: seq<T>, b: seq<T>): (n: nat)
    ensures n <= |a| && n <= |b|
    ensures forall i | 0 <= i < n :: a[i] == b[i]
    ensures n < |a| && n < |b| ==> a[n] != b[n]
  {
    if a == [] || b == [] || a[0] != b[0] then 0 else 1 + CommonPrefix(a[1..], b[1..])
  }

  /** The two documents agree on everything after the base's longest common prefix. */
  predicate TailsAgree<T(==)>(base: seq<T>, side: seq<T>) {
    var p := CommonPrefix(base, side);
    |side| > |base| && forall i | p <= i < |base| :: side[i + |side| - |base|] == base[i]
  }

  /** Every split leaves its index inside the common prefix, and slides to the end of it. */
  lemma SplitShifts<T>(base: seq<T>, side: seq<T>, q: nat, ins: seq<T>)
    requires SplitsAt(base, side, q, ins)
    ensures q <= CommonPrefix(base, side) && TailsAgree(base, side)
  {
    assert forall i | 0 <= i < q :: side[i] == base[i];
    assert forall i | q <= i < |base| :: side[i + |ins|] == base[i];
  }

  /** The insertion at the end of the common prefix, or None when the tails differ. */
  function PureInsertion<T(==)>(base: seq<T>, side: seq<T>): (r: Option<Inserted<T>>)
    ensures r.Some? ==> r.value.index <= |base|
  {
    var p := CommonPrefix(base, side);
    if TailsAgree(base, side) then Some(Inserted(p, side[p..p + |side| - |base|])) else None
  }

  /** An insertion is found exactly when one exists, and then it is one, at the largest index. */
  lemma InsertionIsLargest<T(!new)>(base: seq<T>, side: seq<T>)
    ensures var r := PureInsertion(base, side);
            && (r.Some? ==> SplitsAt(base, side, r.value.index, r.value.lines))
            && forall q: nat, ins :: SplitsAt(base, side, q, ins) ==> r.Some? && q <= r.value.index
  {
    forall q: nat, ins | SplitsAt(base, side, q, ins) ensures q <= CommonPrefix(base, side) && TailsAgree(base, side) {
      SplitShifts(base, side, q, ins);
    }
    var p := CommonPrefix(base, side);
    if TailsAgree(base, side) {
      assert side == base[..p] + side[p..p + |side| - |base|] + base[p..];
    }
  }

  /** Peels the common prefix, then the common suffix, as the source does. */
  method FindPureInsertion<T(==,!new)>(base: seq<T>, side: seq<T>) returns (r: Option<Inserted<T>>)
    ensures r == PureInsertion(base, side)
    ensures r.Some? ==> SplitsAt(base, side, r.value.index, r.value.lines)
    ensures forall q: nat, ins :: SplitsAt(base, side, q, ins) ==> r.Some? && q <= r.value.index
  {
    InsertionIsLargest(base, side);
    var prefix := 0;
    var limit := if |base| < |side| then |base| else |side|;
    while prefix < limit && base[prefix] == side[prefix]
      invariant 0 <= prefix <= limit
      invariant forall i | 0 <= i < prefix :: base[i] == side[i]
    {
      prefix := prefix + 1;
    }
    assert prefix == CommonPrefix(base, side);
    var suffix := 0;
    while suffix < |base| - prefix && suffix < |side| - prefix
          && base[|base| - 1 - suffix] == side[|side| - 1 - suffix]
      invariant 0 <= suffix <= |base| - prefix && suffix <= |side| - prefix
      invariant forall i | |base| - suffix <= i < |base| :: side[i + |side| - |base|] == base[i]
    {
      suffix := suffix + 1;
    }
    if prefix + suffix != |base| {
      assert !TailsAgree(base, side) by {
        var i := |base| - 1 - suffix;
        assert prefix <= i < |base|;
      }
      return None;
    }
    var inserted := side[prefix..|side| - suffix];
    r := if inserted != [] then Some(Inserted(prefix, inserted)) else None;
  }
}
