/** Small facts about sequences shared by the container models. */
module Sequences {

  ghost predicate Distinct<T>(s: seq<T>)
  {
    forall i, j :: 0 <= i < j < |s| ==> s[i] != s[j]
  }

  /** `s` without the element at position k. */
  function Without<T>(s: seq<T>, k: nat): (r: seq<T>)
    requires k < |s|
  {
    s[..k] + s[k + 1..]
  }

  lemma WithoutIndex<T>(s: seq<T>, k: nat, i: nat)
    requires k < |s| && i < |s| - 1
    ensures |Without(s, k)| == |s| - 1 && Without(s, k)[i] == s[if i < k then i else i + 1]
  {
  }

  lemma WithoutEnds<T>(s: seq<T>, k: nat)
    requires k < |s|
    ensures var t := Without(s, k);
            && |t| == |s| - 1
            && (t != [] ==> t[0] == s[if k == 0 then 1 else 0])
            && (t != [] ==> t[|t| - 1] == s[if k == |s| - 1 then k - 1 else |s| - 1])
  {
  }

  lemma WithoutDistinct<T>(s: seq<T>, k: nat)
    requires Distinct(s) && k < |s|
    ensures |Without(s, k)| == |s| - 1 && Distinct(Without(s, k))
  {
    var t := Without(s, k);
    forall i, j | 0 <= i < j < |t| ensures t[i] != t[j] {
      WithoutIndex(s, k, i);
      WithoutIndex(s, k, j);
    }
  }

  /** `s` without the first occurrence of x. */
  ghost function Minus<T>(s: seq<T>, x: T): (r: seq<T>)
  {
    if s == [] then [] else if s[0] == x then s[1..] else [s[0]] + Minus(s[1..], x)
  }

  lemma {:induction false} MinusIsWithout<T>(s: seq<T>, k: nat)
    requires k < |s| && Distinct(s)
    ensures Minus(s, s[k]) == Without(s, k)
  {
    if k > 0 {
      assert s[0] != s[k];
      MinusIsWithout(s[1..], k - 1);
      assert Without(s, k) == [s[0]] + Without(s[1..], k - 1);
    }
  }

  ghost function Elements<T>(s: seq<T>): set<T>
  {
    set x | x in s
  }

  lemma WithoutContents<T>(v: seq<T>, k: nat, x: T)
    requires k < |v| && Distinct(v)
    ensures x in Without(v, k) <==> x in v && x != v[k]
  {
    if x in v && x != v[k] {
      var i :| 0 <= i < |v| && v[i] == x;
      assert Without(v, k)[if i < k then i else i - 1] == x;
    }
  }

  lemma WithoutElements<T>(v: seq<T>, k: nat)
    requires k < |v| && Distinct(v)
    ensures Elements(Without(v, k)) == Elements(v) - {v[k]}
  {
    forall x {
      WithoutContents(v, k, x);
    }
  }

  lemma DistinctConcat<T>(s: seq<T>, t: seq<T>)
    requires Distinct(s) && Distinct(t)
    requires forall x :: x in t ==> x !in s
    ensures Distinct(s + t)
  {
    var r := s + t;
    forall i, j | 0 <= i < j < |r| ensures r[i] != r[j] {
      if i < |s| <= j {
        assert r[i] in s && r[j] in t;
      }
    }
  }

  lemma {:induction false} DistinctCardinality<T>(s: seq<T>)
    requires Distinct(s)
    ensures |Elements(s)| == |s|
  {
    if s != [] {
      var t, l := s[..|s| - 1], s[|s| - 1];
      assert Distinct(t) && l !in t && s == t + [l];
      hide Distinct;
      DistinctCardinality(t);
      assert Elements(t + [l]) == Elements(t) + {l};
    } else {
      assert Elements(s) == {};
    }
  }

  lemma DistinctWithin<T>(s: seq<T>, S: set<T>)
    requires Distinct(s) && forall x :: x in s ==> x in S
    ensures |s| <= |S|
  {
    DistinctCardinality(s);
    SubsetCardinality(Elements(s), S);
  }

  lemma {:induction false} SubsetCardinality<T>(s: set<T>, t: set<T>)
    requires s <= t
    ensures |s| <= |t|
  {
    if s != {} {
      var x :| x in s;
      SubsetCardinality(s - {x}, t - {x});
    }
  }

  /** Two sequences without repetition and with the same elements are permutations. */
  lemma {:induction false} SameElements<T>(s: seq<T>, t: seq<T>)
    requires Distinct(s) && Distinct(t)
    requires forall x :: x in s <==> x in t
    ensures |s| == |t|
    ensures multiset(s) == multiset(t)
  {
    assert Elements(s) == Elements(t);
    DistinctCardinality(s);
    DistinctCardinality(t);
    forall x ensures multiset(s)[x] == multiset(t)[x] {
      DistinctMultiplicity(s, x);
      DistinctMultiplicity(t, x);
    }
  }

  lemma {:induction false} DistinctMultiplicity<T>(s: seq<T>, x: T)
    requires Distinct(s)
    ensures multiset(s)[x] == if x in s then 1 else 0
  {
    if s != [] {
      var t := s[..|s| - 1];
      assert s == t + [s[|s| - 1]];
      DistinctMultiplicity(t, x);
    }
  }

  lemma {:induction false} MultiplicityDistinct<T>(s: seq<T>)
    requires forall x :: multiset(s)[x] <= 1
    ensures Distinct(s)
  {
    if s != [] {
      var t, y := s[..|s| - 1], s[|s| - 1];
      assert s == t + [y];
      forall x ensures multiset(t)[x] <= 1 {
        assert multiset(s)[x] <= 1;
      }
      MultiplicityDistinct(t);
      assert multiset(s)[y] <= 1;
      assert y !in multiset(t);
    }
  }

  lemma PermutedDistinct<T>(s: seq<T>, t: seq<T>)
    requires Distinct(s) && multiset(s) == multiset(t)
    ensures Distinct(t)
  {
    forall x ensures multiset(t)[x] <= 1 {
      DistinctMultiplicity(s, x);
    }
    MultiplicityDistinct(t);
  }
}
