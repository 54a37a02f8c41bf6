/** The bucket array of a hash table: well-formedness, pushing an item on a
    bucket, and moving the items of one old chain into a doubled array. */
module Buckets {
  import opened Bits
  import opened Sequences
  import opened Handles
  import opened HashChains

  datatype Bucket = Bucket(head: Handle?, count: nat, expandMult: nat)

  /** HASH_TO_BKT */
  function ToBkt(hashv: nat, numBuckets: nat): nat
    requires 1 <= numBuckets
  {
    BitAnd(hashv, numBuckets - 1)
  }

  ghost predicate BucketOk(b: Bucket, v: seq<Handle>, S: set<Handle>)
    reads S`hhPrev, S`hhNext
  {
    && (forall h :: h in v ==> h in S)
    && ChainLinked(v)
    && b.head == At(v, 0)
    && b.count == |v|
  }

  /** Every handle of S is in the chain that its hash value selects. */
  ghost predicate Located(S: set<Handle>, c: seq<seq<Handle>>, hash: int -> nat)
  {
    1 <= |c| && forall h {:trigger h in S} :: h in S ==> h in c[Slot(h, hash, |c|)]
  }

  /** hashv is the hash value of the key. */
  ghost predicate Hashed(S: set<Handle>, hash: int -> nat)
    reads S`hashv
  {
    forall h :: h in S ==> h.hashv == hash(h.key)
  }

  /** Bucket b of the array holds exactly chain c[b]. */
  ghost predicate BucketsOk(a: seq<Bucket>, c: seq<seq<Handle>>, S: set<Handle>)
    reads S`hhPrev, S`hhNext
  {
    && |a| == |c|
    && forall b {:trigger c[b]} :: 0 <= b < |c| ==> BucketOk(a[b], c[b], S)
  }

  lemma LocatedHolds(S: set<Handle>, c: seq<seq<Handle>>, hash: int -> nat, h: Handle)
    requires Located(S, c, hash) && h in S
    ensures Holds(c, h)
  {
    hide Slot;
    assert h in c[Slot(h, hash, |c|)];
  }

  lemma KeyLocated(S: set<Handle>, c: seq<seq<Handle>>, hash: int -> nat, key: int)
    requires Located(S, c, hash)
    ensures forall h :: h in S && h.key == key ==> h in c[hash(key) % |c|]
  {
  }

  lemma BucketsHold(a: seq<Bucket>, c: seq<seq<Handle>>, S: set<Handle>, h: Handle)
    requires BucketsOk(a, c, S) && Holds(c, h)
    ensures h in S
  {
    var b :| 0 <= b < |c| && h in c[b];
    assert BucketOk(a[b], c[b], S);
  }

  lemma BucketDistinct(a: seq<Bucket>, c: seq<seq<Handle>>, S: set<Handle>, b: nat)
    requires BucketsOk(a, c, S) && b < |c|
    ensures Distinct(c[b])
  {
    assert BucketOk(a[b], c[b], S);
  }

  /** The linking part of HASH_ADD_TO_BKT and of HASH_EXPAND_BUCKETS. */
  method PushFront(a: array<Bucket>, b: nat, h: Handle,
                   ghost c: seq<seq<Handle>>, ghost S: set<Handle>, ghost hash: int -> nat)
    requires BucketsOk(a[..], c, S) && 1 <= |c| && Placed(c, hash, |c|)
    requires h in S && b < |c| && Slot(h, hash, |c|) == b && h !in c[b]
    modifies a, S`hhPrev, h`hhNext
    ensures BucketsOk(a[..], c[b := [h] + c[b]], S)
    ensures forall i :: 0 <= i < a.Length && i != b ==> a[i] == old(a[i])
    ensures a[b] == old(a[b]).(head := h, count := |c[b]| + 1)
  {
    hide Slot;
    ghost var c' := c[b := [h] + c[b]];
    assert BucketOk(a[b], c[b], S);
    ChainPush(h, a[b].head, c[b]);
    forall i | 0 <= i < |c| && i != b
      ensures ChainLinked(c[i])
    {
      assert old(BucketOk(a[i], c[i], S));
      forall k | 0 <= k < |c[i]|
        ensures c[i][k].hhNext == old(c[i][k].hhNext) && c[i][k].hhPrev == old(c[i][k].hhPrev)
      {
        assert c[i][k] in c[i];
        assert |c[b]| > 0 ==> c[b][0] in c[b];
      }
    }
    a[b] := a[b].(head := h, count := a[b].count + 1);
    assert BucketOk(a[b], c'[b], S);
  }

  lemma PlacedPush(c: seq<seq<Handle>>, b: nat, h: Handle, hash: int -> nat)
    requires 1 <= |c| && Placed(c, hash, |c|)
    requires b < |c| && Slot(h, hash, |c|) == b
    ensures Placed(c[b := [h] + c[b]], hash, |c|)
  {
    var c' := c[b := [h] + c[b]];
    forall i: int, x: Handle | 0 <= i < |c'| && x in c'[i] ensures Slot(x, hash, |c|) == i {
      if i == b && x != h {
        assert x in c[b];
      } else if i != b {
        assert x in c[i];
      }
    }
  }

  lemma PushLocated(S: set<Handle>, c: seq<seq<Handle>>, hash: int -> nat, b: nat, h: Handle)
    requires Located(S, c, hash) && b < |c| && b == Slot(h, hash, |c|)
    ensures Located(S + {h}, c[b := [h] + c[b]], hash)
  {
    hide Slot;
  }

  lemma BucketsGrow(a: seq<Bucket>, c: seq<seq<Handle>>, S: set<Handle>, h: Handle)
    requires BucketsOk(a, c, S) && h !in S
    ensures BucketsOk(a, c, S + {h})
    ensures forall b :: 0 <= b < |c| ==> h !in c[b]
  {
    forall b | 0 <= b < |c| ensures BucketOk(a[b], c[b], S + {h}) {
      assert BucketOk(a[b], c[b], S);
    }
  }

  lemma HashedRemove(S: set<Handle>, h: Handle, hash: int -> nat)
    requires Hashed(S, hash)
    ensures Hashed(S - {h}, hash)
  {
  }

  lemma HashedAdd(S: set<Handle>, h: Handle, hash: int -> nat)
    requires Hashed(S, hash) && h.hashv == hash(h.key)
    ensures Hashed(S + {h}, hash)
  {
  }

  lemma ChainFits(a: seq<Bucket>, c: seq<seq<Handle>>, S: set<Handle>, b: nat)
    requires BucketsOk(a, c, S) && b < |c|
    ensures a[b].count == |c[b]| <= |S|
  {
    assert BucketOk(a[b], c[b], S);
    DistinctWithin(c[b], S);
  }

  lemma EmptyBuckets(a: seq<Bucket>, c: seq<seq<Handle>>, hash: int -> nat)
    requires 1 <= |a| == |c|
    requires forall b :: 0 <= b < |a| ==> a[b].head == null && a[b].count == 0 && c[b] == []
    ensures BucketsOk(a, c, {}) && Placed(c, hash, |c|) && Located({}, c, hash)
  {
  }

  /** A chain and its head pointer before and after item k leaves it. */
  lemma HeadWithout(a: Bucket, v: seq<Handle>, S: set<Handle>, k: nat)
    requires BucketOk(a, v, S) && k < |v|
    ensures ChainLinked(v) && a.count == |v| && forall x :: x in v ==> x in S
    ensures At(Without(v, k), 0) == if a.head == v[k] then v[k].hhNext else a.head
    ensures |Without(v, k)| == |v| - 1 && forall x :: x in Without(v, k) ==> x in S - {v[k]}
  {
    forall x | x in Without(v, k) ensures x in S - {v[k]} {
      WithoutContents(v, k, x);
    }
    WithoutEnds(v, k);
  }

  /** HASH_DEL_IN_BKT; the handle is at position k of chain b. */
  method DelInBkt(a: array<Bucket>, b: nat, h: Handle,
                  ghost c: seq<seq<Handle>>, ghost S: set<Handle>, ghost hash: int -> nat, ghost k: nat)
    requires BucketsOk(a[..], c, S) && 1 <= |c| && Placed(c, hash, |c|)
    requires b < |c| && k < |c[b]| && h == c[b][k]
    modifies a, S`hhPrev, S`hhNext
    ensures BucketsOk(a[..], c[b := Without(c[b], k)], S - {h})
    ensures forall i :: 0 <= i < a.Length && i != b ==> a[i] == old(a[i])
    ensures a[b].count == old(a[b].count) - 1 && a[b].expandMult == old(a[b].expandMult)
  {
    hide Slot, Without, Distinct, ChainLinked;
    ghost var c' := c[b := Without(c[b], k)];
    HeadWithout(a[b], c[b], S, k);
    a[b] := a[b].(count := a[b].count - 1);
    if a[b].head == h {
      a[b] := a[b].(head := h.hhNext);
    }
    ChainUnlink(h, c[b], k);
    forall i | 0 <= i < |c'| ensures BucketOk(a[i], c'[i], S - {h}) {
      if i != b {
        assert old(BucketOk(a[i], c[i], S));
        forall j | 0 <= j < |c[i]|
          ensures c[i][j].hhNext == old(c[i][j].hhNext) && c[i][j].hhPrev == old(c[i][j].hhPrev)
        {
          PlacedApart(c, hash, |c|, b, i, c[i][j]);
        }
        PlacedApart(c, hash, |c|, i, b, h);
      }
    }
  }

  lemma PlacedRemove(c: seq<seq<Handle>>, b: nat, k: nat, hash: int -> nat)
    requires 1 <= |c| && Placed(c, hash, |c|) && b < |c| && k < |c[b]| && Distinct(c[b])
    ensures Placed(c[b := Without(c[b], k)], hash, |c|)
  {
    hide Slot;
    var c' := c[b := Without(c[b], k)];
    forall i: int, x: Handle | 0 <= i < |c'| && x in c'[i] ensures Slot(x, hash, |c|) == i {
      if i == b {
        WithoutContents(c[b], k, x);
        assert x in c[b];
      } else {
        assert x in c[i];
      }
    }
  }

  lemma LocatedRemove(S: set<Handle>, c: seq<seq<Handle>>, b: nat, k: nat, hash: int -> nat)
    requires Located(S, c, hash) && b < |c| && k < |c[b]| && Distinct(c[b])
    ensures Located(S - {c[b][k]}, c[b := Without(c[b], k)], hash)
  {
    hide Slot;
    var c' := c[b := Without(c[b], k)];
    forall x: Handle | x in S - {c[b][k]} ensures x in c'[Slot(x, hash, |c'|)] {
      if Slot(x, hash, |c|) == b {
        WithoutContents(c[b], k, x);
      }
    }
  }

  /** expand_mult as HASH_EXPAND_BUCKETS leaves it for a chain of `count` items. */
  function ExpandMult(count: nat, ideal: nat): (r: nat)
    requires 1 <= ideal
  {
    if count > ideal then count / ideal else 0
  }

  /** The multipliers and the nonideal count agree with the chains. */
  ghost predicate Measured(a: seq<Bucket>, c: seq<seq<Handle>>, ideal: nat, nonideal: nat)
    requires 1 <= ideal
  {
    && |a| == |c|
    && (forall b {:trigger c[b]} :: 0 <= b < |c| ==> a[b].expandMult == ExpandMult(|c[b]|, ideal))
    && nonideal == TotalExcess(c, ideal)
  }

  /** The measuring part of one turn of HASH_EXPAND_BUCKETS's inner loop: chain b
      is about to get one more item. */
  method NoteLonger(a: array<Bucket>, b: nat, ideal: nat, nonideal: nat)
    returns (nonideal': nat)
    requires b < a.Length && 1 <= ideal
    requires a[b].expandMult == ExpandMult(a[b].count, ideal)
    modifies a
    ensures forall i :: 0 <= i < a.Length && i != b ==> a[i] == old(a[i])
    ensures a[b] == old(a[b]).(expandMult := ExpandMult(old(a[b].count) + 1, ideal))
    ensures nonideal' - Excess(old(a[b].count) + 1, ideal) == nonideal - Excess(old(a[b].count), ideal)
  {
    var count := a[b].count + 1;
    nonideal' := nonideal;
    if count > ideal {
      nonideal' := nonideal' + 1;
      a[b] := a[b].(expandMult := count / ideal);
    }
  }

  lemma MaskOfSize(hashv: nat, size: nat)
    requires exists k: nat :: size == Pow2(k)
    ensures 1 <= size && ToBkt(hashv, size) == hashv % size
  {
    var k: nat :| size == Pow2(k);
    MaskIsMod(hashv, k);
  }

  lemma MeasuredAt(a: seq<Bucket>, c: seq<seq<Handle>>, ideal: nat, nonideal: nat, b: nat, S: set<Handle>)
    requires 1 <= ideal && Measured(a, c, ideal, nonideal) && BucketsOk(a, c, S) && b < |a|
    ensures |c| == |a| && a[b].count == |c[b]| && a[b].expandMult == ExpandMult(a[b].count, ideal)
  {
    hide ExpandMult;
    assert BucketOk(a[b], c[b], S);
  }

  lemma SameButMult(a: seq<Bucket>, a': seq<Bucket>, b: nat, c: seq<seq<Handle>>, S: set<Handle>)
    requires BucketsOk(a, c, S) && |a'| == |a| && b < |a| && a'[b] == a[b].(expandMult := a'[b].expandMult)
    requires forall i :: 0 <= i < |a| && i != b ==> a'[i] == a[i]
    ensures BucketsOk(a', c, S)
  {
    hide ChainLinked;
    forall i | 0 <= i < |c| ensures BucketOk(a'[i], c[i], S) {
      assert BucketOk(a[i], c[i], S);
    }
  }

  lemma MeasuredStep(a: seq<Bucket>, a': seq<Bucket>, c: seq<seq<Handle>>, b: nat, h: Handle, ideal: nat,
                     nonideal: nat, nonideal': nat)
    requires 1 <= ideal && Measured(a, c, ideal, nonideal) && b < |c| && |a'| == |a|
    requires forall i :: 0 <= i < |a| && i != b ==> a'[i] == a[i]
    requires a'[b].expandMult == ExpandMult(|c[b]| + 1, ideal)
    requires nonideal' - Excess(|c[b]| + 1, ideal) == nonideal - Excess(|c[b]|, ideal)
    ensures Measured(a', c[b := [h] + c[b]], ideal, nonideal')
  {
    hide Excess, ExpandMult, TotalExcess;
    TotalExcessUpdate(c, b, [h] + c[b], ideal);
    assert forall i :: 0 <= i < |c| && i != b ==> a[i].expandMult == ExpandMult(|c[i]|, ideal);
  }

  /** One turn of the inner loop of HASH_EXPAND_BUCKETS. */
  method MoveItem(h: Handle, a: array<Bucket>, ideal: nat, nonideal: nat,
                  ghost c: seq<seq<Handle>>, ghost S: set<Handle>, ghost hash: int -> nat)
    returns (nonideal': nat, ghost c': seq<seq<Handle>>)
    requires BucketsOk(a[..], c, S)
    requires exists k: nat :: a.Length == Pow2(k)
    requires Placed(c, hash, a.Length)
    requires 1 <= ideal && Measured(a[..], c, ideal, nonideal)
    requires h in S && h.hashv == hash(h.key) && h !in c[Slot(h, hash, a.Length)]
    modifies a, S`hhPrev, h`hhNext
    ensures BucketsOk(a[..], c', S) && Placed(c', hash, a.Length)
    ensures Measured(a[..], c', ideal, nonideal')
    ensures c' == var b := Slot(h, hash, a.Length); c[b := [h] + c[b]]
  {
    hide BucketsOk, Placed, Measured, ExpandMult, Excess;
    MaskOfSize(h.hashv, a.Length);
    var b := ToBkt(h.hashv, a.Length);
    ghost var was := a[..];
    MeasuredAt(was, c, ideal, nonideal, b, S);
    c' := c[b := [h] + c[b]];
    PlacedPush(c, b, h, hash);
    nonideal' := NoteLonger(a, b, ideal, nonideal);
    SameButMult(was, a[..], b, c, S);
    PushFront(a, b, h, c, S, hash);
    MeasuredStep(was, a[..], c, b, h, ideal, nonideal, nonideal');
  }

  /** The forward links of a chain, which are all that an expansion follows. */
  ghost predicate Forward(v: seq<Handle>)
    reads v`hhNext
  {
    forall i {:trigger v[i].hhNext} :: 0 <= i < |v| ==> v[i].hhNext == At(v, i + 1)
  }

  /** Chains `c'` are chains `c` after the items of `v` were moved to the front. */
  ghost predicate Distributed(c: seq<seq<Handle>>, v: seq<Handle>, c': seq<seq<Handle>>, hash: int -> nat)
  {
    && 1 <= |c| == |c'|
    && forall j {:trigger c[j]} {:trigger c'[j]} :: 0 <= j < |c| ==> c'[j] == Redistribute(v, hash, |c|, j) + c[j]
  }

  lemma DistributedStep(c: seq<seq<Handle>>, v: seq<Handle>, k: nat, c': seq<seq<Handle>>, hash: int -> nat)
    requires 1 <= |c| && k < |v|
    requires Distributed(c, v[..k], c', hash)
    ensures var b := Slot(v[k], hash, |c|); Distributed(c, v[..k + 1], c'[b := [v[k]] + c'[b]], hash)
  {
    assert v[..k + 1][..k] == v[..k];
  }

  /** The item to move next is not yet in its new bucket. */
  lemma NotYetMoved(c: seq<seq<Handle>>, v: seq<Handle>, k: nat, c': seq<seq<Handle>>, hash: int -> nat)
    requires 1 <= |c| && k < |v| && Distinct(v)
    requires Distributed(c, v[..k], c', hash)
    requires v[k] !in c[Slot(v[k], hash, |c|)]
    ensures v[k] !in c'[Slot(v[k], hash, |c|)]
  {
    var b := Slot(v[k], hash, |c|);
    RedistributeContents(v[..k], hash, |c|, b);
    assert v[k] !in v[..k];
  }

  /** The inner loop of HASH_EXPAND_BUCKETS: every item of old chain v moves to the
      front of its bucket in the new array. */
  method RehashChain(first: Handle?, a: array<Bucket>, ideal: nat, nonideal: nat,
                     ghost v: seq<Handle>, ghost c: seq<seq<Handle>>, ghost S: set<Handle>, ghost hash: int -> nat)
    returns (nonideal': nat, ghost c': seq<seq<Handle>>)
    requires BucketsOk(a[..], c, S)
    requires exists k: nat :: a.Length == Pow2(k)
    requires Placed(c, hash, a.Length)
    requires 1 <= |c| && 1 <= ideal && Measured(a[..], c, ideal, nonideal)
    requires Distinct(v) && Forward(v) && first == At(v, 0)
    requires forall h :: h in v ==> h in S && h.hashv == hash(h.key) && h !in c[Slot(h, hash, a.Length)]
    modifies a, S`hhPrev, v`hhNext
    ensures |c'| == |c| && BucketsOk(a[..], c', S) && Placed(c', hash, a.Length)
    ensures Measured(a[..], c', ideal, nonideal')
    ensures Distributed(c, v, c', hash)
  {
    hide Slot;
    var thh := first;
    ghost var k := 0;
    nonideal', c' := nonideal, c;
    while thh != null
      invariant k <= |v| && thh == At(v, k)
      invariant BucketsOk(a[..], c', S) && Placed(c', hash, a.Length)
      invariant Measured(a[..], c', ideal, nonideal')
      invariant forall i {:trigger v[i].hhNext} :: k <= i < |v| ==> v[i].hhNext == At(v, i + 1)
      invariant Distributed(c, v[..k], c', hash)
      decreases |v| - k
    {
      var next := thh.hhNext;
      DistributedStep(c, v, k, c', hash);
      NotYetMoved(c, v, k, c', hash);
      nonideal', c' := MoveItem(thh, a, ideal, nonideal', c', S, hash);
      thh, k := next, k + 1;
    }
    assert v[..k] == v;
  }

  /** Chains `c'` are what the first `done` chains of `c` give in twice as many buckets. */
  ghost predicate Doubled(c: seq<seq<Handle>>, done: nat, c': seq<seq<Handle>>, hash: int -> nat)
  {
    && 1 <= |c| && |c'| == 2 * |c|
    && forall j {:trigger c'[j]} :: 0 <= j < |c'| ==>
         c'[j] == if Origin(j, |c|) < done then Redistribute(c[Origin(j, |c|)], hash, |c'|, j) else []
  }

  lemma DoubledStep(c: seq<seq<Handle>>, i: nat, d: seq<seq<Handle>>, d': seq<seq<Handle>>, hash: int -> nat)
    requires Doubled(c, i, d, hash) && i < |c| && Placed(c, hash, |c|)
    requires Distributed(d, c[i], d', hash)
    ensures Doubled(c, i + 1, d', hash)
  {
    SplitConserves(c[i], hash, |c|, i);
    forall j | 0 <= j < |d'|
      ensures d'[j] == if Origin(j, |c|) < i + 1 then Redistribute(c[Origin(j, |c|)], hash, |d'|, j) else []
    {
      assert d'[j] == Redistribute(c[i], hash, |d|, j) + d[j];
    }
  }

  lemma DoubledFresh(c: seq<seq<Handle>>, i: nat, d: seq<seq<Handle>>, hash: int -> nat, h: Handle)
    requires Doubled(c, i, d, hash) && i < |c| && h in c[i] && Placed(c, hash, |c|)
    ensures h !in d[Slot(h, hash, |d|)]
  {
    SlotHalves(h, hash, |c|);
  }

  /** An expansion keeps every item. */
  lemma DoubledHolds(S: set<Handle>, c: seq<seq<Handle>>, c': seq<seq<Handle>>, hash: int -> nat)
    requires Doubled(c, |c|, c', hash)
    requires Located(S, c, hash)
    ensures Located(S, c', hash)
  {
    forall h | h in S ensures h in c'[Slot(h, hash, |c'|)] {
      SlotHalves(h, hash, |c|);
      var j := Slot(h, hash, |c'|);
      RedistributeContents(c[Origin(j, |c|)], hash, |c'|, j);
    }
  }

  /** Where HASH_EXPAND_BUCKETS stands after the old buckets below i. */
  ghost predicate Rehashing(i: nat, c: seq<seq<Handle>>, a': seq<Bucket>, c': seq<seq<Handle>>,
                            ideal: nat, nonideal: nat, S: set<Handle>, hash: int -> nat)
    requires 1 <= ideal
    reads S`hhPrev, S`hhNext
  {
    && BucketsOk(a', c', S)
    && Doubled(c, i, c', hash)
    && Placed(c', hash, |c'|)
    && Measured(a', c', ideal, nonideal)
  }

  /** Old chains from i on are still there to be followed. */
  ghost predicate Pending(i: nat, c: seq<seq<Handle>>, S: set<Handle>)
    reads S`hhNext
  {
    forall b {:trigger c[b]} :: i <= b < |c| ==> (forall h :: h in c[b] ==> h in S) && Distinct(c[b]) && Forward(c[b])
  }

  /** HASH_EXPAND_BUCKETS allocates and clears twice as many buckets. */
  method StartRehash(a: array<Bucket>, ideal: nat, ghost c: seq<seq<Handle>>, ghost S: set<Handle>,
                     ghost hash: int -> nat)
    returns (a': array<Bucket>, ghost c': seq<seq<Handle>>)
    requires BucketsOk(a[..], c, S) && 1 <= |c| && 1 <= ideal
    ensures fresh(a') && a'.Length == 2 * a.Length
    ensures Rehashing(0, c, a'[..], c', ideal, 0, S, hash)
    ensures Pending(0, c, S)
  {
    a' := new Bucket[2 * a.Length](_ => Bucket(null, 0, 0));
    c' := seq(2 * |c|, _ => []);
    TotalExcessOfEmpty(c', ideal);
    forall b | 0 <= b < |c|
      ensures (forall h :: h in c[b] ==> h in S) && Distinct(c[b]) && Forward(c[b])
    {
      assert BucketOk(a[b], c[b], S);
    }
  }

  /** One turn of the outer loop of HASH_EXPAND_BUCKETS. */
  method RehashBucket(i: nat, first: Handle?, a': array<Bucket>, ideal: nat, nonideal: nat,
                      ghost c: seq<seq<Handle>>, ghost c': seq<seq<Handle>>, ghost S: set<Handle>,
                      ghost hash: int -> nat)
    returns (nonideal': nat, ghost c'': seq<seq<Handle>>)
    requires i < |c| && first == At(c[i], 0) && 1 <= ideal && |c'| == a'.Length == 2 * |c|
    requires Rehashing(i, c, a'[..], c', ideal, nonideal, S, hash)
    requires Pending(i, c, S) && Placed(c, hash, |c|)
    requires exists k: nat :: a'.Length == Pow2(k)
    requires Hashed(S, hash)
    modifies a', S`hhPrev, c[i]`hhNext
    ensures |c''| == |c'|
    ensures Rehashing(i + 1, c, a'[..], c'', ideal, nonideal', S, hash)
    ensures Pending(i + 1, c, S)
  {
    hide Slot, Placed, Doubled, Measured, BucketsOk;
    assert Forward(c[i]);
    forall h | h in c[i] ensures h !in c'[Slot(h, hash, |c'|)] {
      DoubledFresh(c, i, c', hash, h);
    }
    nonideal', c'' := RehashChain(first, a', ideal, nonideal, c[i], c', S, hash);
    DoubledStep(c, i, c', c'', hash);
    assert Pending(i + 1, c, S) by {
      forall b | i + 1 <= b < |c| ensures Forward(c[b]) {
        assert old(Forward(c[b]));
        forall k {:trigger c[b][k].hhNext} | 0 <= k < |c[b]| ensures c[b][k].hhNext == At(c[b], k + 1) {
          assert c[b][k] in c[b];
          PlacedApart(c, hash, |c|, i, b, c[b][k]);
        }
      }
    }
  }

  /** The two loops of HASH_EXPAND_BUCKETS. */
  method Rehash(a: array<Bucket>, ideal: nat, ghost c: seq<seq<Handle>>, ghost S: set<Handle>, ghost hash: int -> nat)
    returns (a': array<Bucket>, nonideal: nat, ghost c': seq<seq<Handle>>)
    requires BucketsOk(a[..], c, S) && 1 <= |c| && Placed(c, hash, |c|)
    requires exists k: nat :: 2 * a.Length == Pow2(k)
    requires Hashed(S, hash)
    requires 1 <= ideal
    modifies S`hhPrev, S`hhNext
    ensures fresh(a') && a'.Length == 2 * a.Length == |c'|
    ensures Rehashing(|c|, c, a'[..], c', ideal, nonideal, S, hash)
  {
    hide Slot;
    a', c' := StartRehash(a, ideal, c, S, hash);
    nonideal := 0;
    for i := 0 to a.Length
      invariant Rehashing(i, c, a'[..], c', ideal, nonideal, S, hash)
      invariant Pending(i, c, S)
    {
      assert old(BucketOk(a[i], c[i], S));
      nonideal, c' := RehashBucket(i, a[i].head, a', ideal, nonideal, c, c', S, hash);
    }
  }
}
