/** What HASH_SRT computes: bottom-up merge sort on sequences, and the proof that
    it is a stable sort for every comparator that is a total preorder. */
module MergeSort {

  function Min(x: nat, y: nat): nat { if x < y then x else y }

  /** The order in which HASH_SRT's inner loop consumes two runs. */
  ghost function Merge<T>(p: seq<T>, q: seq<T>, cmp: (T, T) -> int): (r: seq<T>)
    ensures |r| == |p| + |q|
    decreases |p| + |q|
  {
    if p == [] then q
    else if q == [] then p
    else if cmp(p[0], q[0]) <= 0 then [p[0]] + Merge(p[1..], q, cmp)
    else [q[0]] + Merge(p, q[1..], cmp)
  }

  /** One pass of HASH_SRT with _hs_insize = k. */
  ghost function Pass<T>(s: seq<T>, k: nat, cmp: (T, T) -> int): (r: seq<T>)
    requires 1 <= k
    ensures |r| == |s|
    decreases |s|
  {
    if s == [] then []
    else
      var i := Min(k, |s|);
      var j := Min(2 * k, |s|);
      Merge(s[..i], s[i..j], cmp) + Pass(s[j..], k, cmp)
  }

  /** All passes from _hs_insize = k on: the last one merges at most two runs. */
  ghost function Passes<T>(s: seq<T>, k: nat, cmp: (T, T) -> int): (r: seq<T>)
    requires 1 <= k
    ensures |r| == |s|
    decreases if |s| > 2 * k then |s| - 2 * k else 0
  {
    var t := Pass(s, k, cmp);
    if |s| <= 2 * k then t else Passes(t, 2 * k, cmp)
  }

  // ----- what a sort must do

  ghost predicate TotalPreorder<T>(S: set<T>, cmp: (T, T) -> int)
  {
    && (forall a, b :: a in S && b in S ==> cmp(a, b) <= 0 || cmp(b, a) <= 0)
    && (forall a, b, c :: a in S && b in S && c in S && cmp(a, b) <= 0 && cmp(b, c) <= 0 ==> cmp(a, c) <= 0)
  }

  ghost predicate Sorted<T>(s: seq<T>, cmp: (T, T) -> int)
  {
    forall i, j :: 0 <= i < j < |s| ==> cmp(s[i], s[j]) <= 0
  }

  ghost predicate Equivalent<T>(a: T, b: T, cmp: (T, T) -> int)
  {
    cmp(a, b) <= 0 && cmp(b, a) <= 0
  }

  /** The elements of s that compare equal to x, in the order of s. */
  ghost function Class<T>(s: seq<T>, x: T, cmp: (T, T) -> int): seq<T>
  {
    if s == [] then []
    else (if Equivalent(s[0], x, cmp) then [s[0]] else []) + Class(s[1..], x, cmp)
  }

  ghost predicate StableSort<T>(s: seq<T>, t: seq<T>, cmp: (T, T) -> int)
  {
    && multiset(s) == multiset(t)
    && Sorted(t, cmp)
    && forall x :: x in s ==> Class(t, x, cmp) == Class(s, x, cmp)
  }

  /** Every run of k elements of s is sorted; the last run may be shorter. */
  ghost predicate RunsSorted<T>(s: seq<T>, k: nat, cmp: (T, T) -> int)
    requires 1 <= k
    decreases |s|
  {
    s == [] || (Sorted(s[..Min(k, |s|)], cmp) && RunsSorted(s[Min(k, |s|)..], k, cmp))
  }

  // ----- merging

  /** One step of a merge. */
  lemma MergeHead<T>(p: seq<T>, q: seq<T>, cmp: (T, T) -> int)
    requires p != [] && q != []
    ensures var m := Merge(p, q, cmp);
            if cmp(p[0], q[0]) <= 0 then m[0] == p[0] && m[1..] == Merge(p[1..], q, cmp)
            else m[0] == q[0] && m[1..] == Merge(p, q[1..], cmp)
  {
  }

  lemma MergeEnd<T>(p: seq<T>, q: seq<T>, cmp: (T, T) -> int)
    requires p == [] || q == []
    ensures Merge(p, q, cmp) == p + q
  {
  }

  lemma HeadContents<T>(s: seq<T>)
    requires s != []
    ensures multiset(s) == multiset{s[0]} + multiset(s[1..])
  {
    assert s == [s[0]] + s[1..];
  }

  lemma {:induction false} MergePermutes<T>(p: seq<T>, q: seq<T>, cmp: (T, T) -> int)
    ensures multiset(Merge(p, q, cmp)) == multiset(p) + multiset(q)
    decreases |p| + |q|
  {
    hide Merge;
    if p == [] || q == [] {
      MergeEnd(p, q, cmp);
    } else {
      MergeHead(p, q, cmp);
      HeadContents(Merge(p, q, cmp));
      if cmp(p[0], q[0]) <= 0 {
        MergePermutes(p[1..], q, cmp);
        HeadContents(p);
      } else {
        MergePermutes(p, q[1..], cmp);
        HeadContents(q);
      }
    }
  }

  lemma MergeElements<T>(p: seq<T>, q: seq<T>, cmp: (T, T) -> int, x: T)
    ensures x in Merge(p, q, cmp) <==> x in p || x in q
  {
    MergePermutes(p, q, cmp);
    assert x in Merge(p, q, cmp) <==> x in multiset(Merge(p, q, cmp));
    assert x in p <==> x in multiset(p);
    assert x in q <==> x in multiset(q);
  }

  lemma SortedCons<T>(x: T, s: seq<T>, cmp: (T, T) -> int)
    requires Sorted(s, cmp) && forall y :: y in s ==> cmp(x, y) <= 0
    ensures Sorted([x] + s, cmp)
  {
  }

  /** The head of a sorted run is below everything in it. */
  lemma HeadIsLeast<T>(s: seq<T>, cmp: (T, T) -> int, S: set<T>, x: T)
    requires s != [] && Sorted(s, cmp) && TotalPreorder(S, cmp) && s[0] in S && x in s
    ensures cmp(s[0], x) <= 0
  {
    var i :| 0 <= i < |s| && s[i] == x;
  }

  /** What is left after the first step is above the item that it took. */
  lemma MergeAbove<T>(p: seq<T>, q: seq<T>, cmp: (T, T) -> int, S: set<T>, y: T)
    requires p != [] && q != [] && TotalPreorder(S, cmp) && (forall x :: x in p || x in q ==> x in S)
    requires Sorted(p, cmp) && Sorted(q, cmp) && (y in p || y in q)
    ensures cmp(if cmp(p[0], q[0]) <= 0 then p[0] else q[0], y) <= 0
  {
    hide Sorted;
    assert p[0] in p && q[0] in q;
    if y in p {
      HeadIsLeast(p, cmp, S, y);
    } else {
      HeadIsLeast(q, cmp, S, y);
    }
  }

  lemma SortedTail<T>(s: seq<T>, cmp: (T, T) -> int)
    requires s != [] && Sorted(s, cmp)
    ensures Sorted(s[1..], cmp)
  {
  }

  lemma {:induction false} MergeSorted<T>(p: seq<T>, q: seq<T>, cmp: (T, T) -> int, S: set<T>)
    requires TotalPreorder(S, cmp) && (forall x :: x in p || x in q ==> x in S)
    requires Sorted(p, cmp) && Sorted(q, cmp)
    ensures Sorted(Merge(p, q, cmp), cmp)
    decreases |p| + |q|
  {
    hide Merge, Sorted, TotalPreorder;
    if p == [] || q == [] {
      MergeEnd(p, q, cmp);
      assert p + q == if p == [] then q else p;
    } else {
      var fromP := cmp(p[0], q[0]) <= 0;
      var p', q' := if fromP then p[1..] else p, if fromP then q else q[1..];
      var m := Merge(p', q', cmp);
      SortedTail(if fromP then p else q, cmp);
      MergeSorted(p', q', cmp, S);
      forall y | y in m ensures cmp(if fromP then p[0] else q[0], y) <= 0 {
        MergeElements(p', q', cmp, y);
        MergeAbove(p, q, cmp, S, y);
      }
      SortedCons(if fromP then p[0] else q[0], m, cmp);
      MergeHead(p, q, cmp);
      assert Merge(p, q, cmp) == [if fromP then p[0] else q[0]] + m;
    }
  }

  lemma ClassCons<T>(y: T, s: seq<T>, x: T, cmp: (T, T) -> int)
    ensures Class([y] + s, x, cmp) == (if Equivalent(y, x, cmp) then [y] else []) + Class(s, x, cmp)
  {
    assert ([y] + s)[1..] == s;
  }

  lemma ClassNil<T>(t: seq<T>, x: T, cmp: (T, T) -> int)
    ensures Class([] + t, x, cmp) == Class([], x, cmp) + Class(t, x, cmp)
  {
    assert [] + t == t;
  }

  lemma {:induction false} ClassConcat<T>(s: seq<T>, t: seq<T>, x: T, cmp: (T, T) -> int)
    ensures Class(s + t, x, cmp) == Class(s, x, cmp) + Class(t, x, cmp)
  {
    hide Equivalent, Class;
    if s == [] {
      ClassNil(t, x, cmp);
    } else {
      var y, u := s[0], s[1..];
      ClassConcat(u, t, x, cmp);
      ClassCons(y, u, x, cmp);
      ClassCons(y, u + t, x, cmp);
      assert s == [y] + u && s + t == [y] + (u + t);
    }
  }

  lemma {:induction false} ClassEmpty<T>(s: seq<T>, x: T, cmp: (T, T) -> int)
    requires forall y :: y in s ==> !Equivalent(y, x, cmp)
    ensures Class(s, x, cmp) == []
  {
    if s != [] {
      ClassEmpty(s[1..], x, cmp);
    }
  }

  /** Nothing in a sorted run is equivalent to an item below its head. */
  lemma NoneBelow<T>(p: seq<T>, q0: T, cmp: (T, T) -> int, S: set<T>, x: T)
    requires p != [] && Sorted(p, cmp) && TotalPreorder(S, cmp) && (forall y :: y in p ==> y in S)
    requires q0 in S && x in S && cmp(p[0], q0) > 0 && Equivalent(q0, x, cmp)
    ensures Class(p, x, cmp) == []
  {
    hide Sorted, Class;
    assert p[0] in p;
    forall y | y in p ensures !Equivalent(y, x, cmp) {
      HeadIsLeast(p, cmp, S, y);
    }
    ClassEmpty(p, x, cmp);
  }

  /** Merging keeps equals in order, those of the first run before those of the second. */
  lemma {:induction false} MergeStable<T>(p: seq<T>, q: seq<T>, cmp: (T, T) -> int, S: set<T>, x: T)
    requires TotalPreorder(S, cmp) && x in S && (forall y :: y in p || y in q ==> y in S)
    requires Sorted(p, cmp)
    ensures Class(Merge(p, q, cmp), x, cmp) == Class(p, x, cmp) + Class(q, x, cmp)
    decreases |p| + |q|
  {
    hide Merge, Sorted, TotalPreorder, Class, Equivalent;
    if p == [] || q == [] {
      MergeEnd(p, q, cmp);
      ClassConcat(p, q, x, cmp);
    } else {
      var m := Merge(p, q, cmp);
      MergeHead(p, q, cmp);
      assert m == [m[0]] + m[1..] && p == [p[0]] + p[1..] && q == [q[0]] + q[1..];
      ClassCons(m[0], m[1..], x, cmp);
      if cmp(p[0], q[0]) <= 0 {
        SortedTail(p, cmp);
        MergeStable(p[1..], q, cmp, S, x);
        ClassCons(p[0], p[1..], x, cmp);
      } else {
        MergeStable(p, q[1..], cmp, S, x);
        ClassCons(q[0], q[1..], x, cmp);
        if Equivalent(q[0], x, cmp) {
          NoneBelow(p, q[0], cmp, S, x);
        }
      }
    }
  }

  // ----- one pass

  lemma {:induction false} PassPermutes<T>(s: seq<T>, k: nat, cmp: (T, T) -> int)
    requires 1 <= k
    ensures multiset(Pass(s, k, cmp)) == multiset(s)
    decreases |s|
  {
    hide Merge;
    if s != [] {
      var i, j := Min(k, |s|), Min(2 * k, |s|);
      MergePermutes(s[..i], s[i..j], cmp);
      PassPermutes(s[j..], k, cmp);
      CutContents(s, i, j);
    }
  }

  lemma CutContents<T>(s: seq<T>, i: nat, j: nat)
    requires i <= j <= |s|
    ensures multiset(s) == multiset(s[..i]) + multiset(s[i..j]) + multiset(s[j..])
  {
    assert s == s[..i] + s[i..j] + s[j..];
  }

  /** After a pass over sorted runs of length k, the runs of length 2k are sorted. */
  lemma {:induction false} PassSortsRuns<T>(s: seq<T>, k: nat, cmp: (T, T) -> int, S: set<T>)
    requires 1 <= k && RunsSorted(s, k, cmp)
    requires TotalPreorder(S, cmp) && forall x :: x in s ==> x in S
    ensures RunsSorted(Pass(s, k, cmp), 2 * k, cmp)
    decreases |s|
  {
    if s != [] {
      var i, j := Min(k, |s|), Min(2 * k, |s|);
      var p, q := s[..i], s[i..j];
      RunAfterRun(s, k, cmp);
      MergeSorted(p, q, cmp, S);
      PassSortsRuns(s[j..], k, cmp, S);
      var m, r := Merge(p, q, cmp), Pass(s[j..], k, cmp);
      assert (m + r)[..Min(2 * k, |s|)] == m;
      assert (m + r)[Min(2 * k, |s|)..] == r;
    }
  }

  lemma RunAfterRun<T>(s: seq<T>, k: nat, cmp: (T, T) -> int)
    requires 1 <= k && s != [] && RunsSorted(s, k, cmp)
    ensures var i, j := Min(k, |s|), Min(2 * k, |s|);
            Sorted(s[..i], cmp) && Sorted(s[i..j], cmp) && RunsSorted(s[j..], k, cmp)
  {
    hide Sorted, RunsSorted;
    var i, j := Min(k, |s|), Min(2 * k, |s|);
    FirstRun(s, k, i, cmp);
    FirstRun(s[i..], k, j - i, cmp);
    SliceSlice(s, i, j);
  }

  lemma FirstRun<T>(s: seq<T>, k: nat, i: nat, cmp: (T, T) -> int)
    requires 1 <= k && RunsSorted(s, k, cmp) && i == Min(k, |s|)
    ensures Sorted(s[..i], cmp) && RunsSorted(s[i..], k, cmp)
  {
  }

  lemma SliceSlice<T>(s: seq<T>, i: nat, j: nat)
    requires i <= j <= |s|
    ensures s[i..][..j - i] == s[i..j] && s[i..][j - i..] == s[j..]
  {
  }

  lemma ClassOfParts<T>(p: seq<T>, q: seq<T>, r: seq<T>, m: seq<T>, r': seq<T>, x: T, cmp: (T, T) -> int)
    requires Class(m, x, cmp) == Class(p, x, cmp) + Class(q, x, cmp)
    requires Class(r', x, cmp) == Class(r, x, cmp)
    ensures Class(m + r', x, cmp) == Class(p + q + r, x, cmp)
  {
    ClassConcat(m, r', x, cmp);
    ClassConcat(p, q, x, cmp);
    ClassConcat(p + q, r, x, cmp);
  }

  lemma PassParts<T>(s: seq<T>, k: nat, cmp: (T, T) -> int)
    returns (p: seq<T>, q: seq<T>, r: seq<T>)
    requires 1 <= k && s != [] && RunsSorted(s, k, cmp)
    ensures s == p + q + r && |r| < |s|
    ensures Sorted(p, cmp) && Sorted(q, cmp) && RunsSorted(r, k, cmp)
    ensures Pass(s, k, cmp) == Merge(p, q, cmp) + Pass(r, k, cmp)
  {
    var i, j := Min(k, |s|), Min(2 * k, |s|);
    RunAfterRun(s, k, cmp);
    p, q, r := s[..i], s[i..j], s[j..];
  }

  lemma {:induction false} PassStable<T>(s: seq<T>, k: nat, cmp: (T, T) -> int, S: set<T>, x: T)
    requires 1 <= k && RunsSorted(s, k, cmp)
    requires TotalPreorder(S, cmp) && x in S && forall y :: y in s ==> y in S
    ensures Class(Pass(s, k, cmp), x, cmp) == Class(s, x, cmp)
    decreases |s|
  {
    if s != [] {
      var p, q, r := PassParts(s, k, cmp);
      MergeStable(p, q, cmp, S, x);
      PassStable(r, k, cmp, S, x);
      ClassOfParts(p, q, r, Merge(p, q, cmp), Pass(r, k, cmp), x, cmp);
    }
  }

  // ----- the whole sort

  lemma {:induction false} SingletonRuns<T>(s: seq<T>, cmp: (T, T) -> int)
    ensures RunsSorted(s, 1, cmp)
  {
    if s != [] {
      SingletonRuns(s[1..], cmp);
    }
  }

  lemma {:induction false} PassesPermute<T>(s: seq<T>, k: nat, cmp: (T, T) -> int)
    requires 1 <= k
    ensures multiset(Passes(s, k, cmp)) == multiset(s)
    decreases if |s| > 2 * k then |s| - 2 * k else 0
  {
    PassPermutes(s, k, cmp);
    if |s| > 2 * k {
      PassesPermute(Pass(s, k, cmp), 2 * k, cmp);
    }
  }

  lemma SameMembers<T>(s: seq<T>, t: seq<T>, x: T)
    requires multiset(s) == multiset(t)
    ensures x in s <==> x in t
  {
    assert x in s <==> x in multiset(s);
    assert x in t <==> x in multiset(t);
  }

  lemma {:induction false} PassesSort<T>(s: seq<T>, k: nat, cmp: (T, T) -> int, S: set<T>)
    requires 1 <= k && RunsSorted(s, k, cmp)
    requires TotalPreorder(S, cmp) && forall x :: x in s ==> x in S
    ensures Sorted(Passes(s, k, cmp), cmp)
    ensures forall x :: x in S ==> Class(Passes(s, k, cmp), x, cmp) == Class(s, x, cmp)
    decreases if |s| > 2 * k then |s| - 2 * k else 0
  {
    var t := Pass(s, k, cmp);
    PassSortsRuns(s, k, cmp, S);
    forall x | x in S ensures Class(t, x, cmp) == Class(s, x, cmp) {
      PassStable(s, k, cmp, S, x);
    }
    if |s| <= 2 * k {
      assert t[..|t|] == t;
    } else {
      PassPermutes(s, k, cmp);
      forall x | x in t ensures x in S {
        SameMembers(s, t, x);
      }
      PassesSort(t, 2 * k, cmp, S);
    }
  }

  lemma PassesOfTwo<T>(a: T, b: T, cmp: (T, T) -> int)
    ensures Passes([a, b], 1, cmp) == if cmp(a, b) <= 0 then [a, b] else [b, a]
  {
    var s := [a, b];
    assert s[..1] == [a] && s[1..2] == [b] && s[2..] == [];
    assert Merge([a], [b], cmp) == if cmp(a, b) <= 0 then [a] + Merge([], [b], cmp) else [b] + Merge([a], [], cmp);
    assert Pass(s, 1, cmp) == Merge([a], [b], cmp) + Pass([], 1, cmp);
  }

  /** HASH_SRT is a stable sort. */
  lemma PassesIsStableSort<T>(s: seq<T>, cmp: (T, T) -> int)
    requires TotalPreorder((set x | x in s), cmp)
    ensures StableSort(s, Passes(s, 1, cmp), cmp)
  {
    var S := set x | x in s;
    SingletonRuns(s, cmp);
    PassesPermute(s, 1, cmp);
    PassesSort(s, 1, cmp, S);
  }
}
