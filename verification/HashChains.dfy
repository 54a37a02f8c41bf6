/** The mathematics of bucket chains: where a bucket doubling sends the items
    of a chain, and how it measures the unevenness of the result. */
module HashChains {
  import opened Sequences
  import opened Handles
  import opened Bits

  /** The bucket of m that holds an item. */
  function Slot(h: Handle, hash: int -> nat, m: nat): (b: nat)
    requires 1 <= m
    ensures b < m
  {
    hash(h.key) % m
  }

  /** The items of chain `v` that belong to bucket j of m, in the order in which
      pushing them one after the other on the front of a new chain leaves them. */
  ghost function Redistribute(v: seq<Handle>, hash: int -> nat, m: nat, j: nat): (r: seq<Handle>)
    requires 1 <= m
  {
    if v == [] then []
    else
      var h, rest := v[|v| - 1], Redistribute(v[..|v| - 1], hash, m, j);
      if Slot(h, hash, m) == j then [h] + rest else rest
  }

  lemma {:induction false} RedistributeContents(v: seq<Handle>, hash: int -> nat, m: nat, j: nat)
    requires 1 <= m
    ensures forall h :: h in Redistribute(v, hash, m, j) <==> h in v && Slot(h, hash, m) == j
    ensures |Redistribute(v, hash, m, j)| <= |v|
  {
    if v != [] {
      var h, w := v[|v| - 1], v[..|v| - 1];
      assert v == w + [h];
      RedistributeContents(w, hash, m, j);
    }
  }

  /** x stands somewhere in front of y. */
  ghost predicate InFront(x: Handle, y: Handle, s: seq<Handle>)
  {
    exists p, q :: 0 <= p < q < |s| && s[p] == x && s[q] == y
  }

  lemma InFrontPush(h: Handle, x: Handle, y: Handle, s: seq<Handle>)
    ensures InFront(x, y, s) ==> InFront(x, y, [h] + s)
    ensures y in s ==> InFront(h, y, [h] + s)
  {
    var t := [h] + s;
    if InFront(x, y, s) {
      var p, q :| 0 <= p < q < |s| && s[p] == x && s[q] == y;
      assert t[p + 1] == x && t[q + 1] == y;
    }
    if y in s {
      var q :| 0 <= q < |s| && s[q] == y;
      assert t[0] == h && t[q + 1] == y;
    }
  }

  /** An item that is pushed later stands in front: of two items of a chain that go to the same
      new bucket, the one behind comes first. */
  lemma {:induction false} RedistributeReverses(v: seq<Handle>, hash: int -> nat, m: nat, j: nat, a: nat, b: nat)
    requires 1 <= m && a < b < |v| && hash(v[a].key) % m == hash(v[b].key) % m == j
    ensures InFront(v[b], v[a], Redistribute(v, hash, m, j))
  {
    hide InFront;
    var h, w := v[|v| - 1], v[..|v| - 1];
    var rest := Redistribute(w, hash, m, j);
    InFrontPush(h, v[b], v[a], rest);
    if b < |w| {
      RedistributeReverses(w, hash, m, j, a, b);
    } else {
      RedistributeContents(w, hash, m, j);
      assert w[a] in w;
    }
  }

  /** The bucket of n whose items go to bucket j of 2n. */
  function Origin(j: nat, n: nat): (i: nat)
    requires j < 2 * n
    ensures i < n
  {
    if j < n then j else j - n
  }

  lemma SlotHalves(h: Handle, hash: int -> nat, n: nat)
    requires 1 <= n
    ensures Origin(Slot(h, hash, 2 * n), n) == Slot(h, hash, n)
  {
    var x := hash(h.key);
    var q, r := x / (2 * n), x % (2 * n);
    assert x == 2 * n * q + r;
    if r < n {
      DivUnique(x, n, 2 * q, r);
    } else {
      assert n * (2 * q + 1) == 2 * n * q + n;
      DivUnique(x, n, 2 * q + 1, r - n);
    }
  }

  /** Every item of bucket i of n lands in bucket i or bucket i + n of 2n, and in
      only one of them; nothing is lost or duplicated. */
  lemma {:induction false} SplitConserves(v: seq<Handle>, hash: int -> nat, n: nat, i: nat)
    requires i < n
    requires forall h :: h in v ==> Slot(h, hash, n) == i
    ensures multiset(Redistribute(v, hash, 2 * n, i)) + multiset(Redistribute(v, hash, 2 * n, i + n))
         == multiset(v)
    ensures forall j :: 0 <= j < 2 * n && Origin(j, n) != i ==> Redistribute(v, hash, 2 * n, j) == []
  {
    hide Slot;
    if v != [] {
      var h, w := v[|v| - 1], v[..|v| - 1];
      assert v == w + [h];
      SplitConserves(w, hash, n, i);
      SlotHalves(h, hash, n);
    }
  }

  // ----- unevenness

  function Excess(count: nat, ideal: nat): nat
  {
    if count > ideal then count - ideal else 0
  }

  /** The number of items whose chain position exceeds `ideal`. */
  ghost function TotalExcess(c: seq<seq<Handle>>, ideal: nat): nat
  {
    if c == [] then 0 else Excess(|c[0]|, ideal) + TotalExcess(c[1..], ideal)
  }

  lemma {:induction false} TotalExcessUpdate(c: seq<seq<Handle>>, b: nat, v: seq<Handle>, ideal: nat)
    requires b < |c|
    ensures TotalExcess(c[b := v], ideal) == TotalExcess(c, ideal) - Excess(|c[b]|, ideal) + Excess(|v|, ideal)
  {
    if b == 0 {
      assert c[b := v][1..] == c[1..];
    } else {
      TotalExcessUpdate(c[1..], b - 1, v, ideal);
      assert c[b := v][1..] == c[1..][b - 1 := v];
    }
  }

  lemma {:induction false} TotalExcessOfEmpty(c: seq<seq<Handle>>, ideal: nat)
    requires forall b :: 0 <= b < |c| ==> c[b] == []
    ensures TotalExcess(c, ideal) == 0
  {
    if c != [] {
      TotalExcessOfEmpty(c[1..], ideal);
    }
  }

  /** The number of items that have fewer than `ideal` others in front of them. */
  ghost function WithinIdeal(c: seq<seq<Handle>>, ideal: nat): nat
  {
    if c == [] then 0 else (if |c[0]| < ideal then |c[0]| else ideal) + WithinIdeal(c[1..], ideal)
  }

  /** What exceeds the ideal length and what does not is everything. */
  lemma {:induction false} ExcessSplits(c: seq<seq<Handle>>, ideal: nat)
    ensures TotalExcess(c, ideal) + WithinIdeal(c, ideal) == |Flatten(c)|
  {
    if c != [] {
      ExcessSplits(c[1..], ideal);
      FlattenCons(c);
    }
  }

  lemma {:induction false} FlattenCons(c: seq<seq<Handle>>)
    requires c != []
    ensures Flatten(c) == c[0] + Flatten(c[1..])
  {
    hide Flatten;
    var d, l := c[..|c| - 1], c[|c| - 1];
    FlattenSnoc(d, l);
    assert c == d + [l];
    if d == [] {
      FlattenNone();
      assert c[1..] == [];
    } else {
      FlattenCons(d);
      FlattenSnoc(d[1..], l);
      assert c[1..] == d[1..] + [l];
    }
  }

  // ----- both views hold the same number of items

  ghost function Flatten(c: seq<seq<Handle>>): seq<Handle>
  {
    if c == [] then [] else Flatten(c[..|c| - 1]) + c[|c| - 1]
  }

  lemma FlattenNone()
    ensures Flatten([]) == []
  {
  }

  lemma FlattenSnoc(c: seq<seq<Handle>>, v: seq<Handle>)
    ensures Flatten(c + [v]) == Flatten(c) + v
  {
    assert (c + [v])[..|c|] == c;
  }

  lemma {:induction false} FlattenSlice(c: seq<seq<Handle>>, b: nat)
    requires b < |c|
    ensures var n := |Flatten(c[..b])|;
            && |Flatten(c[..b + 1])| == n + |c[b]| <= |Flatten(c)|
            && Flatten(c)[..n] == Flatten(c[..b])
            && Flatten(c)[n..n + |c[b]|] == c[b]
  {
    assert c[..b + 1][..b] == c[..b];
    if b + 1 == |c| {
      assert c[..b + 1] == c;
    } else {
      var d := c[..|c| - 1];
      FlattenSlice(d, b);
      assert d[..b] == c[..b] && d[..b + 1] == c[..b + 1];
    }
  }

  /** One chain lost h, and is otherwise in the same order. */
  ghost predicate Unchained(h: Handle, c: seq<seq<Handle>>, c': seq<seq<Handle>>)
  {
    exists b, k :: 0 <= b < |c| && 0 <= k < |c[b]| && c[b][k] == h && c' == c[b := Without(c[b], k)]
  }

  lemma IsUnchained(h: Handle, c: seq<seq<Handle>>, b: nat, k: nat)
    requires b < |c| && k < |c[b]| && c[b][k] == h
    ensures Unchained(h, c, c[b := Without(c[b], k)])
  {
  }

  lemma {:induction false} FlattenWithout(c: seq<seq<Handle>>, b: nat, k: nat) returns (j: nat)
    requires b < |c| && k < |c[b]|
    ensures j < |Flatten(c)| && Flatten(c)[j] == c[b][k]
    ensures Flatten(c[b := Without(c[b], k)]) == Without(Flatten(c), j)
  {
    var n := |c| - 1;
    var d, c' := c[..n], c[b := Without(c[b], k)];
    if b == n {
      j := |Flatten(d)| + k;
      assert c'[..n] == d;
    } else {
      j := FlattenWithout(d, b, k);
      assert c'[..n] == d[b := Without(d[b], k)];
    }
  }

  /** The bucket order loses h and is otherwise the same. */
  lemma FlattenUnchained(h: Handle, c: seq<seq<Handle>>, c': seq<seq<Handle>>)
    requires Unchained(h, c, c') && Distinct(Flatten(c))
    ensures Flatten(c') == Minus(Flatten(c), h)
  {
    hide Flatten, Minus, Without;
    var b, k :| 0 <= b < |c| && 0 <= k < |c[b]| && c[b][k] == h && c' == c[b := Without(c[b], k)];
    var j := FlattenWithout(c, b, k);
    MinusIsWithout(Flatten(c), j);
  }

  ghost predicate Holds(c: seq<seq<Handle>>, h: Handle)
  {
    exists b :: 0 <= b < |c| && h in c[b]
  }

  lemma {:induction false} FlattenContents(c: seq<seq<Handle>>, h: Handle)
    ensures h in Flatten(c) <==> Holds(c, h)
  {
    if c != [] {
      var d := c[..|c| - 1];
      FlattenContents(d, h);
      if h in Flatten(d) {
        var b :| 0 <= b < |d| && h in d[b];
        assert h in c[b];
      }
      if Holds(c, h) {
        var b :| 0 <= b < |c| && h in c[b];
        if b < |d| {
          assert h in d[b];
        }
      }
    }
  }

  /** Chains whose items are told apart by their bucket never overlap. */
  ghost predicate Placed(c: seq<seq<Handle>>, hash: int -> nat, m: nat)
    requires 1 <= m
  {
    forall b, h {:trigger h in c[b]} :: 0 <= b < |c| && h in c[b] ==> Slot(h, hash, m) == b
  }

  lemma PlacedApart(c: seq<seq<Handle>>, hash: int -> nat, m: nat, i: nat, j: nat, h: Handle)
    requires 1 <= m && Placed(c, hash, m) && i < |c| && j < |c| && i != j
    requires h in c[j]
    ensures h !in c[i]
  {
  }

  lemma {:induction false} FlattenDistinct(c: seq<seq<Handle>>, hash: int -> nat, m: nat)
    requires 1 <= m && Placed(c, hash, m)
    requires forall b :: 0 <= b < |c| ==> Distinct(c[b])
    ensures Distinct(Flatten(c))
  {
    if c != [] {
      var d, l := c[..|c| - 1], c[|c| - 1];
      forall b: int, h: Handle | 0 <= b < |d| && h in d[b] ensures Slot(h, hash, m) == b {
        assert h in c[b];
      }
      FlattenDistinct(d, hash, m);
      assert Distinct(l);
      forall h: Handle | h in l ensures h !in Flatten(d) {
        FlattenContents(d, h);
        assert h in c[|c| - 1];
      }
      DistinctConcat(Flatten(d), l);
    }
  }

  /** The bucket counts add up to the number of items: HASH_FSCK's count. */
  lemma ChainsHoldAll(c: seq<seq<Handle>>, hash: int -> nat, m: nat, items: seq<Handle>)
    requires 1 <= m && Placed(c, hash, m)
    requires forall b :: 0 <= b < |c| ==> Distinct(c[b])
    requires Distinct(items)
    requires forall h :: h in items <==> Holds(c, h)
    ensures |Flatten(c)| == |items|
    ensures multiset(Flatten(c)) == multiset(items)
  {
    FlattenDistinct(c, hash, m);
    forall h: Handle ensures h in Flatten(c) <==> h in items {
      FlattenContents(c, h);
    }
    SameElements(Flatten(c), items);
  }
}
