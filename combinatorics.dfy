/**
 * The two `itertools` generators the hand detectors use, `combinations` and
 * `product`, as functions on lists, with the facts the detectors rely on:
 * `combinations(s, k)` lists every k-subset of `s` once, and `product`
 * lists every choice of one entry per list once.
 */
module Combinatorics {

  /** No entry occurs twice. */
  predicate Distinct<T(==)>(s: seq<T>)
  {
    forall i, j :: 0 <= i < j < |s| ==> s[i] != s[j]
  }

  /** The entries of a list, as a set (Python's `set(t)`). */
  function Elems<T(==)>(s: seq<T>): set<T>
  {
    set x | x in s
  }

  /** A list without repeats has as many distinct entries as it has entries. */
  lemma {:induction false} ElemsCard<T>(s: seq<T>)
    requires Distinct(s)
    ensures |Elems(s)| == |s|
  {
    if s != [] {
      ElemsCard(s[1..]);
      assert Elems(s) == {s[0]} + Elems(s[1..]);
      assert s[0] !in Elems(s[1..]);
    }
  }

  /** `[set(t) for t in ts]`. */
  function SetsOf<T(==)>(ts: seq<seq<T>>): (r: seq<set<T>>)
    ensures |r| == |ts|
    ensures forall i :: 0 <= i < |ts| ==> r[i] == Elems(ts[i])
  {
    seq(|ts|, (i: int) requires 0 <= i < |ts| => Elems(ts[i]))
  }

  /** Put `x` in front of every list of `ts`. */
  function PrependAll<T>(x: T, ts: seq<seq<T>>): (r: seq<seq<T>>)
    ensures |r| == |ts|
    ensures forall i :: 0 <= i < |ts| ==> r[i] == [x] + ts[i]
  {
    seq(|ts|, (i: int) requires 0 <= i < |ts| => [x] + ts[i])
  }

  /** `itertools.combinations(s, k)`: the k-tuples of `s`, in index order. */
  function Combinations<T>(s: seq<T>, k: nat): seq<seq<T>>
    decreases |s|
  {
    if k == 0 then [[]]
    else if |s| < k then []
    else PrependAll(s[0], Combinations(s[1..], k - 1)) + Combinations(s[1..], k)
  }

  /** The k-subsets of a set. */
  ghost predicate IsKSubset<T>(h: set<T>, of: set<T>, k: nat)
  {
    h <= of && |h| == k
  }

  /** `set(...)` commutes with list concatenation. */
  lemma SetsOfAppend<T>(p: seq<seq<T>>, q: seq<seq<T>>)
    ensures SetsOf(p + q) == SetsOf(p) + SetsOf(q)
  {
  }

  /** The sets of the tuples starting with `x` are `x` added to the sets of their tails. */
  lemma SetsOfPrependAll<T>(x: T, a: seq<seq<T>>, i: nat)
    requires i < |a|
    ensures SetsOf(PrependAll(x, a))[i] == {x} + SetsOf(a)[i]
  {
    assert Elems([x] + a[i]) == {x} + Elems(a[i]);
  }

  /** One unfolding of `Combinations` on the level of sets. */
  lemma CombinationsUnfold<T>(s: seq<T>, k: nat)
    requires 0 < k <= |s|
    ensures SetsOf(Combinations(s, k))
         == SetsOf(PrependAll(s[0], Combinations(s[1..], k - 1))) + SetsOf(Combinations(s[1..], k))
  {
    SetsOfAppend(PrependAll(s[0], Combinations(s[1..], k - 1)), Combinations(s[1..], k));
  }

  /** Every set listed by `combinations(s, k)` is a k-subset of `s`. */
  lemma {:induction false} CombinationsSound<T>(s: seq<T>, k: nat, h: set<T>)
    requires Distinct(s)
    requires h in SetsOf(Combinations(s, k))
    ensures IsKSubset(h, Elems(s), k)
    decreases |s|
  {
    if k > 0 {
      var t := s[1..];
      assert Distinct(t);
      assert Elems(s) == {s[0]} + Elems(t);
      CombinationsUnfold(s, k);
      var P := SetsOf(PrependAll(s[0], Combinations(t, k - 1)));
      if h in P {
        var i := Find(P, h);
        var h' := SetsOf(Combinations(t, k - 1))[i];
        SetsOfPrependAll(s[0], Combinations(t, k - 1), i);
        CombinationsSound(t, k - 1, h');
        assert s[0] !in Elems(t);
        HeadAdded(s[0], Elems(t), h', k - 1);
      } else {
        CombinationsSound(t, k, h);
      }
    }
  }

  /** Adding a new element to a k-subset gives a (k+1)-subset of the larger set. */
  lemma HeadAdded<T>(x: T, of: set<T>, h: set<T>, k: nat)
    requires IsKSubset(h, of, k) && x !in of
    ensures IsKSubset({x} + h, {x} + of, k + 1)
  {
  }

  /** A k-subset of the entries of a list without repeats needs k entries. */
  lemma KSubsetFits<T>(s: seq<T>, k: nat, h: set<T>)
    requires Distinct(s)
    requires IsKSubset(h, Elems(s), k)
    ensures k <= |s|
  {
    ElemsCard(s);
    SubsetCard(h, Elems(s));
  }

  /** Every k-subset of `s` is listed by `combinations(s, k)`. */
  lemma {:induction false} CombinationsComplete<T>(s: seq<T>, k: nat, h: set<T>)
    requires Distinct(s)
    requires IsKSubset(h, Elems(s), k)
    ensures h in SetsOf(Combinations(s, k))
    decreases |s|
  {
    if k == 0 {
      assert h == {};
      assert SetsOf(Combinations(s, k))[0] == {};
    } else {
      KSubsetFits(s, k, h);
      var t := s[1..];
      assert Distinct(t);
      assert Elems(s) == {s[0]} + Elems(t);
      CombinationsUnfold(s, k);
      if s[0] in h {
        CombinationsCompleteWithHead(s, k, h);
      } else {
        CombinationsComplete(t, k, h);
      }
    }
  }

  /** The k-subsets that contain the head of the list come from the (k-1)-subsets of its tail. */
  lemma {:induction false} CombinationsCompleteWithHead<T>(s: seq<T>, k: nat, h: set<T>)
    requires Distinct(s) && 0 < k <= |s|
    requires IsKSubset(h, Elems(s), k) && s[0] in h
    requires Elems(s) == {s[0]} + Elems(s[1..])
    ensures h in SetsOf(PrependAll(s[0], Combinations(s[1..], k - 1)))
    decreases |s|, 0
  {
    var t := s[1..];
    var h' := h - {s[0]};
    assert Distinct(t) && IsKSubset(h', Elems(t), k - 1) by {
      assert h == h' + {s[0]};
    }
    CombinationsComplete(t, k - 1, h');
    PrependFound(s[0], Combinations(t, k - 1), h', h);
  }

  /** A set listed among the tails, with `x` added, is listed among the tuples that start with `x`. */
  lemma PrependFound<T>(x: T, A: seq<seq<T>>, h': set<T>, h: set<T>)
    requires h' in SetsOf(A) && h == h' + {x}
    ensures h in SetsOf(PrependAll(x, A))
  {
    var i := Find(SetsOf(A), h');
    SetsOfPrependAll(x, A, i);
    assert SetsOf(PrependAll(x, A))[i] == h;
  }

  /** The first place where `x` occurs in `s`. */
  function Find<T(==)>(s: seq<T>, x: T): (i: nat)
    requires x in s
    ensures i < |s| && s[i] == x
  {
    if s[0] == x then 0 else 1 + Find(s[1..], x)
  }

  /** `combinations(s, k)` lists no set twice. */
  lemma {:induction false} CombinationsDistinct<T>(s: seq<T>, k: nat)
    requires Distinct(s)
    ensures Distinct(SetsOf(Combinations(s, k)))
    decreases |s|
  {
    if k > 0 && k <= |s| {
      var t := s[1..];
      var x := s[0];
      assert Distinct(t);
      CombinationsDistinct(t, k - 1);
      CombinationsDistinct(t, k);
      CombinationsUnfold(s, k);
      var A := Combinations(t, k - 1);
      var LA := SetsOf(A);
      var P := SetsOf(PrependAll(x, A));
      var Q := SetsOf(Combinations(t, k));
      assert x !in Elems(t);
      forall i | 0 <= i < |P| ensures x in P[i] && P[i] - {x} == LA[i] {
        PrependedSet(x, t, k - 1, i);
      }
      forall j | 0 <= j < |Q| ensures x !in Q[j] {
        CombinationsSound(t, k, Q[j]);
      }
      DistinctJoin(x, P, Q, LA);
    }
  }

  /** Tuple i of `x` prepended to the k-tuples of t holds x, and without x it is tuple i of the tail. */
  lemma PrependedSet<T>(x: T, t: seq<T>, k: nat, i: nat)
    requires Distinct(t) && x !in Elems(t) && i < |Combinations(t, k)|
    ensures x in SetsOf(PrependAll(x, Combinations(t, k)))[i]
    ensures SetsOf(PrependAll(x, Combinations(t, k)))[i] - {x} == SetsOf(Combinations(t, k))[i]
  {
    var A := Combinations(t, k);
    SetsOfPrependAll(x, A, i);
    CombinationsSound(t, k, SetsOf(A)[i]);
  }

  /**
   * Sets that all hold `x` and differ once `x` is removed, followed by
   * distinct sets without `x`, are all different.
   */
  lemma DistinctJoin<T>(x: T, P: seq<set<T>>, Q: seq<set<T>>, LA: seq<set<T>>)
    requires |P| == |LA| && Distinct(LA) && Distinct(Q)
    requires forall i :: 0 <= i < |P| ==> x in P[i] && P[i] - {x} == LA[i]
    requires forall j :: 0 <= j < |Q| ==> x !in Q[j]
    ensures Distinct(P + Q)
  {
    forall i, j | 0 <= i < j < |P + Q|
      ensures (P + Q)[i] != (P + Q)[j]
    {
      if j < |P| {
        assert P[i] - {x} != P[j] - {x};
      } else if i < |P| {
        assert x in (P + Q)[i] && x !in (P + Q)[j];
      } else {
        assert Q[i - |P|] != Q[j - |P|];
      }
    }
  }

  /** Two lists without repeats and without a common entry concatenate to a list without repeats. */
  lemma DistinctConcat<T>(a: seq<T>, b: seq<T>)
    requires Distinct(a) && Distinct(b)
    requires forall x :: x in a ==> x !in b
    ensures Distinct(a + b)
  {
    forall i, j | 0 <= i < j < |a + b|
      ensures (a + b)[i] != (a + b)[j]
    {
      if i < |a| <= j {
        assert (a + b)[i] in a && (a + b)[j] in b;
      }
    }
  }

  /** The sets of the tuples of `combinations(s, k)` are the k-subsets of `s`, each once. */
  lemma CombinationsAreKSubsets<T>(s: seq<T>, k: nat)
    requires Distinct(s)
    ensures forall h :: h in SetsOf(Combinations(s, k)) <==> IsKSubset(h, Elems(s), k)
    ensures Distinct(SetsOf(Combinations(s, k)))
  {
    forall h ensures h in SetsOf(Combinations(s, k)) <==> IsKSubset(h, Elems(s), k) {
      if h in SetsOf(Combinations(s, k)) { CombinationsSound(s, k, h); }
      if IsKSubset(h, Elems(s), k) { CombinationsComplete(s, k, h); }
    }
    CombinationsDistinct(s, k);
  }

  /** A subset is no larger than its superset. */
  lemma SubsetCard<T>(a: set<T>, b: set<T>)
    requires a <= b
    ensures |a| <= |b|
  {
    assert b == a + (b - a);
  }

  /** The tuples that start with each entry of `xs`, followed by a tuple of `rest`. */
  function PrependEach<T>(xs: seq<T>, rest: seq<seq<T>>): seq<seq<T>>
  {
    if xs == [] then [] else PrependAll(xs[0], rest) + PrependEach(xs[1..], rest)
  }

  /** `itertools.product(*ls)`: one entry of each list, the first list varying slowest. */
  function Product<T>(ls: seq<seq<T>>): seq<seq<T>>
    decreases |ls|
  {
    if ls == [] then [[]] else PrependEach(ls[0], Product(ls[1..]))
  }

  /** A tuple picks one entry from each list. */
  ghost predicate PicksFrom<T>(t: seq<T>, ls: seq<seq<T>>)
  {
    |t| == |ls| && forall i :: 0 <= i < |ls| ==> t[i] in ls[i]
  }

  /** The tuples of `PrependEach` are the tuples x + r, x from `xs` and r from `rest`. */
  lemma {:induction false} PrependEachMember<T>(xs: seq<T>, rest: seq<seq<T>>, t: seq<T>)
    ensures t in PrependEach(xs, rest) <==> |t| > 0 && t[0] in xs && t[1..] in rest
  {
    if xs != [] {
      PrependEachMember(xs[1..], rest, t);
      var P := PrependAll(xs[0], rest);
      assert PrependEach(xs, rest) == P + PrependEach(xs[1..], rest);
      if t in P {
        var i :| 0 <= i < |P| && P[i] == t;
        assert t[1..] == rest[i];
      }
      if |t| > 0 && t[0] == xs[0] && t[1..] in rest {
        var i :| 0 <= i < |rest| && rest[i] == t[1..];
        assert P[i] == t;
      }
    }
  }

  /** Every tuple of `PrependEach` starts with an entry of `xs`. */
  lemma PrependEachHeads<T>(xs: seq<T>, rest: seq<seq<T>>, t: seq<T>)
    requires t in PrependEach(xs, rest)
    ensures |t| > 0 && t[0] in xs && t[1..] in rest
  {
    PrependEachMember(xs, rest, t);
  }

  /** Without repeats in `xs` and in `rest`, `PrependEach` has no repeated tuple. */
  lemma {:induction false} PrependEachDistinct<T>(xs: seq<T>, rest: seq<seq<T>>)
    requires Distinct(xs) && Distinct(rest)
    ensures Distinct(PrependEach(xs, rest))
  {
    if xs != [] {
      assert Distinct(xs[1..]);
      PrependEachDistinct(xs[1..], rest);
      var P := PrependAll(xs[0], rest);
      var Q := PrependEach(xs[1..], rest);
      assert PrependEach(xs, rest) == P + Q;
      forall i, j | 0 <= i < j < |P + Q|
        ensures (P + Q)[i] != (P + Q)[j]
      {
        if j < |P| {
          assert P[i][1..] == rest[i] && P[j][1..] == rest[j];
        } else if i < |P| {
          PrependEachHeads(xs[1..], rest, Q[j - |P|]);
          assert (P + Q)[i][0] == xs[0];
          assert xs[0] !in xs[1..];
        } else {
          assert Q[i - |P|] != Q[j - |P|];
        }
      }
    }
  }

  /** `product(*ls)` lists exactly the tuples that pick one entry from each list, each once. */
  lemma {:induction false} ProductMembers<T>(ls: seq<seq<T>>)
    ensures forall t :: t in Product(ls) <==> PicksFrom(t, ls)
    ensures (forall i :: 0 <= i < |ls| ==> Distinct(ls[i])) ==> Distinct(Product(ls))
    decreases |ls|
  {
    if ls == [] {
      forall t | PicksFrom(t, ls) ensures t in Product(ls) {
        assert t == [];
      }
    } else {
      ProductMembers(ls[1..]);
      if forall i :: 0 <= i < |ls| ==> Distinct(ls[i]) {
        assert Distinct(ls[0]);
        assert forall i :: 0 <= i < |ls[1..]| ==> Distinct(ls[1..][i]) by {
          forall i | 0 <= i < |ls[1..]| ensures Distinct(ls[1..][i]) { assert ls[1..][i] == ls[i + 1]; }
        }
        PrependEachDistinct(ls[0], Product(ls[1..]));
      }
      forall t
        ensures t in Product(ls) <==> PicksFrom(t, ls)
      {
        PrependEachMember(ls[0], Product(ls[1..]), t);
        if PicksFrom(t, ls) {
          assert PicksFrom(t[1..], ls[1..]) by {
            forall i | 0 <= i < |ls[1..]| ensures t[1..][i] in ls[1..][i] {
              assert t[1..][i] == t[i + 1];
            }
          }
        }
        if t in Product(ls) {
          assert PicksFrom(t[1..], ls[1..]);
          forall i | 0 <= i < |ls| ensures t[i] in ls[i] {
            if i > 0 { assert t[i] == t[1..][i - 1]; }
          }
        }
      }
    }
  }
}
