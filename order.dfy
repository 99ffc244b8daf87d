/** The orders the generator sorts by: Python's `<` on strings, and sort keys of
    the form `(rank, name)` compared as tuples. */
module Order {

  /** Python's `a < b` on `str`: code point by code point, a proper prefix first. */
  predicate LexLess(a: string, b: string)
    decreases |a|
  {
    if a == [] then b != []
    else b != [] && (a[0] < b[0] || (a[0] == b[0] && LexLess(a[1..], b[1..])))
  }

  lemma {:induction false} LexIrreflexive(a: string)
    ensures !LexLess(a, a)
    decreases |a|
  {
    if a != [] {
      LexIrreflexive(a[1..]);
    }
  }

  lemma {:induction false} LexTransitive(a: string, b: string, c: string)
    requires LexLess(a, b) && LexLess(b, c)
    ensures LexLess(a, c)
    decreases |a|
  {
    if a != [] && a[0] == b[0] && b[0] == c[0] {
      LexTransitive(a[1..], b[1..], c[1..]);
    }
  }

  lemma {:induction false} LexTotal(a: string, b: string)
    requires a != b
    ensures LexLess(a, b) || LexLess(b, a)
    decreases |a|
  {
    if a != [] && b != [] && a[0] == b[0] {
      assert a[1..] != b[1..] by {
        assert a == [a[0]] + a[1..] && b == [b[0]] + b[1..];
      }
      LexTotal(a[1..], b[1..]);
    }
  }

  /** `(rank(a), a) < (rank(b), b)` as Python compares tuples. */
  predicate Before(rank: string -> int, a: string, b: string)
  {
    rank(a) < rank(b) || (rank(a) == rank(b) && LexLess(a, b))
  }

  lemma BeforeIrreflexive(rank: string -> int, a: string)
    ensures !Before(rank, a, a)
  {
    LexIrreflexive(a);
  }

  lemma BeforeTransitive(rank: string -> int, a: string, b: string, c: string)
    requires Before(rank, a, b) && Before(rank, b, c)
    ensures Before(rank, a, c)
  {
    if rank(a) == rank(b) == rank(c) {
      LexTransitive(a, b, c);
    }
  }

  lemma BeforeTotal(rank: string -> int, a: string, b: string)
    requires a != b
    ensures Before(rank, a, b) || Before(rank, b, a)
  {
    LexTotal(a, b);
  }

  lemma BeforeAsymmetric(rank: string -> int, a: string, b: string)
    requires Before(rank, a, b)
    ensures !Before(rank, b, a)
  {
    if Before(rank, b, a) {
      BeforeTransitive(rank, a, b, a);
      BeforeIrreflexive(rank, a);
    }
  }

  predicate StrictlySorted(rank: string -> int, xs: seq<string>)
  {
    forall i, j :: 0 <= i < j < |xs| ==> Before(rank, xs[i], xs[j])
  }

  /** `m` is the least element of `S`. */
  predicate IsLeast(S: set<string>, rank: string -> int, m: string)
  {
    m in S && forall x :: x in S && x != m ==> Before(rank, m, x)
  }

  /** A finite non-empty set of strings has exactly one least element under `Before`. */
  lemma {:induction false} LeastExists(S: set<string>, rank: string -> int)
    requires S != {}
    ensures exists m :: IsLeast(S, rank, m)
    ensures forall m1, m2 :: IsLeast(S, rank, m1) && IsLeast(S, rank, m2) ==> m1 == m2
    decreases |S|
  {
    forall m1, m2 | IsLeast(S, rank, m1) && IsLeast(S, rank, m2) ensures m1 == m2 {
      if m1 != m2 {
        BeforeAsymmetric(rank, m1, m2);
      }
    }
    var y :| y in S;
    if S == {y} {
      assert IsLeast(S, rank, y);
    } else {
      LeastExists(S - {y}, rank);
      var m :| IsLeast(S - {y}, rank, m);
      if Before(rank, m, y) {
        assert IsLeast(S, rank, m);
      } else {
        BeforeTotal(rank, m, y);
        forall x | x in S && x != y ensures Before(rank, y, x) {
          if x != m {
            BeforeTransitive(rank, y, m, x);
          }
        }
        assert IsLeast(S, rank, y);
      }
    }
  }

  /** The elements of `S` in ascending `(rank, name)` order: Python's
      `sorted(S, key=lambda x: (rank(x), x))`, taking the least element each time. */
  function SortedBy(S: set<string>, rank: string -> int): (r: seq<string>)
    ensures |r| == |S|
    ensures forall x :: x in r <==> x in S
    ensures StrictlySorted(rank, r)
    decreases |S|
  {
    if S == {} then []
    else
      LeastExists(S, rank);
      var m :| IsLeast(S, rank, m);
      [m] + SortedBy(S - {m}, rank)
  }

  /** The head of a strictly sorted sequence is its least element, and is not repeated. */
  lemma HeadIsLeast(rank: string -> int, xs: seq<string>)
    requires StrictlySorted(rank, xs) && xs != []
    ensures IsLeast((set x | x in xs), rank, xs[0])
    ensures forall x :: x in xs[1..] <==> x in xs && x != xs[0]
  {
    BeforeIrreflexive(rank, xs[0]);
    forall x | x in xs && x != xs[0] ensures Before(rank, xs[0], x) && x in xs[1..] {
      var k :| 0 <= k < |xs| && xs[k] == x;
      assert xs[1..][k - 1] == x;
    }
    forall x | x in xs[1..] ensures x in xs && x != xs[0] {
      var k :| 0 <= k < |xs[1..]| && xs[1..][k] == x;
      assert Before(rank, xs[0], xs[k + 1]);
    }
  }

  /** A strictly sorted sequence is determined by its elements: two of them with the
      same elements are equal. Hence the output order cannot depend on the order in
      which the elements were found. */
  lemma {:induction false} StrictlySortedUnique(rank: string -> int, xs: seq<string>, ys: seq<string>)
    requires StrictlySorted(rank, xs) && StrictlySorted(rank, ys)
    requires forall x :: x in xs <==> x in ys
    ensures xs == ys
    decreases |xs|
  {
    assert xs != [] <==> ys != [] by {
      if xs != [] { assert xs[0] in xs; }
      if ys != [] { assert ys[0] in ys; }
    }
    if xs != [] {
      var S := set x | x in xs;
      assert S == set y | y in ys;
      HeadIsLeast(rank, xs);
      HeadIsLeast(rank, ys);
      LeastExists(S, rank);
      assert xs[0] == ys[0];
      StrictlySortedUnique(rank, xs[1..], ys[1..]);
      assert xs == [xs[0]] + xs[1..] && ys == [ys[0]] + ys[1..];
    }
  }

  /** Only the ranks of the elements matter. */
  lemma SortedByRanksOnly(S: set<string>, rank1: string -> int, rank2: string -> int)
    requires forall x :: x in S ==> rank1(x) == rank2(x)
    ensures SortedBy(S, rank1) == SortedBy(S, rank2)
  {
    var r1, r2 := SortedBy(S, rank1), SortedBy(S, rank2);
    assert StrictlySorted(rank2, r1) by {
      forall i, j | 0 <= i < j < |r1| ensures Before(rank2, r1[i], r1[j]) {
        assert r1[i] in S && r1[j] in S;
        assert Before(rank1, r1[i], r1[j]);
      }
    }
    StrictlySortedUnique(rank2, r1, r2);
  }
}
