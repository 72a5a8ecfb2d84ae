/** Small vocabulary shared by the modules: optional values, Python's string stripping and
    string order, and sorting a finite set of strings by that order. */
module Common {

  datatype Option<+T> = None | Some(value: T)

  lemma SubsetSize<T>(a: set<T>, b: set<T>)
    requires a <= b
    ensures |a| <= |b|
  {
    assert b == a + (b - a);
  }

  predicate IsSpace(c: char) {
    c == ' ' || '\t' <= c <= '\r' || '\U{1c}' <= c <= '\U{1f}'
  }

  /** `str.strip()`. */
  function Strip(s: string): (r: string)
    ensures r != [] ==> !IsSpace(r[0]) && !IsSpace(r[|r| - 1])
  {
    if s == [] then []
    else if IsSpace(s[0]) then Strip(s[1..])
    else if IsSpace(s[|s| - 1]) then Strip(s[..|s| - 1])
    else s
  }

  predicate Blank(s: string) {
    forall c | c in s :: IsSpace(c)
  }

  lemma BlankJoin(a: string, b: string)
    ensures Blank(a + b) <==> Blank(a) && Blank(b)
  {
    hide IsSpace;
    assert forall c :: c in a + b <==> c in a || c in b;
  }

  lemma BlankOne(c: char)
    ensures Blank([c]) <==> IsSpace(c)
  {
    hide IsSpace;
    assert c in [c];
  }

  /** Stripping takes off spaces at both ends and nothing else. */
  lemma {:induction false} StripTakesSpaces(s: string) returns (a: string, b: string)
    ensures Blank(a) && Blank(b) && s == a + Strip(s) + b
    decreases |s|
  {
    hide IsSpace, Blank;
    a, b := [], [];
    NoneBlank();
    if s != [] {
      var first, last := s[0], s[|s| - 1];
      BlankOne(first);
      BlankOne(last);
      if IsSpace(first) {
        a, b := StripTakesSpaces(s[1..]);
        BlankJoin([first], a);
        a := [first] + a;
      } else if IsSpace(last) {
        a, b := StripTakesSpaces(s[..|s| - 1]);
        BlankJoin(b, [last]);
        b := b + [last];
      }
    }
  }

  lemma NoneBlank()
    ensures Blank([])
  {
  }

  /** Lexicographic order by code point, the order `sorted` gives strings. */
  predicate Before(a: string, b: string) {
    a == [] || (b != [] && (a[0] < b[0] || (a[0] == b[0] && Before(a[1..], b[1..]))))
  }

  lemma {:induction false} BeforeTotal(a: string, b: string)
    ensures Before(a, b) || Before(b, a)
  {
    if a != [] && b != [] && a[0] == b[0] {
      BeforeTotal(a[1..], b[1..]);
    }
  }

  lemma {:induction false} BeforeAntisymmetric(a: string, b: string)
    requires Before(a, b) && Before(b, a)
    ensures a == b
  {
    if a != [] {
      BeforeAntisymmetric(a[1..], b[1..]);
      assert a == [a[0]] + a[1..] && b == [b[0]] + b[1..];
    }
  }

  lemma {:induction false} BeforeTransitive(a: string, b: string, c: string)
    requires Before(a, b) && Before(b, c)
    ensures Before(a, c)
  {
    if a != [] && a[0] == b[0] && b[0] == c[0] {
      BeforeTransitive(a[1..], b[1..], c[1..]);
    }
  }

  /** The strings agree up to i, where a has the smaller character. */
  predicate FirstDiffers(a: string, b: string, i: nat) {
    i < |a| && i < |b| && a[..i] == b[..i] && a[i] < b[i]
  }

  lemma DiffersLater(a: string, b: string, i: nat)
    requires a != [] && b != [] && a[0] == b[0]
    ensures FirstDiffers(a, b, i + 1) <==> FirstDiffers(a[1..], b[1..], i)
  {
    if i < |a| - 1 && i < |b| - 1 {
      assert a[..i + 1] == [a[0]] + a[1..][..i] && b[..i + 1] == [b[0]] + b[1..][..i];
      assert a[1..][..i] == a[..i + 1][1..] && b[1..][..i] == b[..i + 1][1..];
    }
  }

  /** One string comes before another when it is a prefix of it or has the smaller character
      where they first differ. */
  lemma {:induction false} BeforeExactly(a: string, b: string)
    ensures Before(a, b) <==> a <= b || exists i: nat :: FirstDiffers(a, b, i)
    decreases |a|
  {
    if a != [] && b != [] {
      if a[0] == b[0] {
        hide FirstDiffers;
        BeforeExactly(a[1..], b[1..]);
        assert a <= b <==> a[1..] <= b[1..] by {
          assert a == [a[0]] + a[1..] && b == [b[0]] + b[1..];
        }
        SameStart(a, b);
      } else if a[0] < b[0] {
        assert FirstDiffers(a, b, 0);
      }
    }
  }

  lemma SameStart(a: string, b: string)
    requires a != [] && b != [] && a[0] == b[0]
    ensures (exists i: nat :: FirstDiffers(a, b, i)) <==> exists i: nat :: FirstDiffers(a[1..], b[1..], i)
  {
    if i: nat :| FirstDiffers(a, b, i) {
      DiffersLater(a, b, i - 1);
    }
    if i: nat :| FirstDiffers(a[1..], b[1..], i) {
      DiffersLater(a, b, i);
    }
  }

  predicate IsLeast(k: string, s: set<string>) {
    k in s && forall x | x in s :: Before(k, x)
  }

  lemma {:induction false} LeastExists(s: set<string>) returns (k: string)
    requires s != {}
    ensures IsLeast(k, s)
    decreases s
  {
    k :| k in s;
    var rest := s - {k};
    if rest == {} {
      assert s == {k};
      BeforeTotal(k, k);
    } else {
      var r := LeastExists(rest);
      BeforeTotal(k, r);
      BeforeTotal(k, k);
      forall x | x in s ensures Before(if Before(k, r) then k else r, x) {
        if x != k && Before(k, r) {
          BeforeTransitive(k, r, x);
        }
      }
      k := if Before(k, r) then k else r;
    }
  }

  function Least(s: set<string>): (k: string)
    requires s != {}
    ensures IsLeast(k, s)
  {
    assert exists k :: IsLeast(k, s) by { var k := LeastExists(s); }
    assert forall k, j :: IsLeast(k, s) && IsLeast(j, s) ==> k == j by {
      forall k, j | IsLeast(k, s) && IsLeast(j, s) ensures k == j {
        BeforeAntisymmetric(k, j);
      }
    }
    var k :| k in s && IsLeast(k, s);
    k
  }

  /** `sorted(s)`: the members of s, each once, in increasing order. */
  function Sorted(s: set<string>): (r: seq<string>)
    ensures forall k :: k in r <==> k in s
    ensures forall i, j | 0 <= i < j < |r| :: r[i] != r[j] && Before(r[i], r[j])
    decreases |s|
  {
    if s == {} then [] else
      var k := Least(s);
      [k] + Sorted(s - {k})
  }
}
