/** The uthash table: HASH_MAKE_TABLE, HASH_ADD_KEYPTR, HASH_FIND, HASH_DELETE,
    HASH_EXPAND_BUCKETS and the throttle that decides when to expand. */
module HashTables {
  import opened Bits
  import opened Sequences
  import opened Handles
  import opened HashChains
  import opened Buckets
  import opened MergeSort
  import opened FsckWalks
  import AppSort

  const INITIAL_NUM_BUCKETS: nat := 32
  const INITIAL_NUM_BUCKETS_LOG2: nat := 5
  const BKT_CAPACITY_THRESH: nat := 10

  function Max(x: nat, y: nat): nat { if x < y then y else x }

  /** The longest chain that bucket b may have. */
  function Bound(expandMult: nat, ideal: nat): nat
  {
    (expandMult + 1) * Max(10, ideal)
  }

  lemma BoundAfterExpansion(count: nat, ideal: nat)
    requires 1 <= ideal
    ensures count <= Bound(ExpandMult(count, ideal), ideal)
  {
    var m := Max(10, ideal);
    if count > ideal {
      var q := count / ideal;
      assert count < (q + 1) * ideal;
      assert (q + 1) * ideal <= (q + 1) * m;
    }
  }

  lemma MultiplierFits(count: nat, ideal: nat)
    requires 1 <= ideal
    ensures var mult := ExpandMult(count, ideal);
            if count > ideal then mult * ideal <= count < (mult + 1) * ideal else mult == 0
  {
    if count > ideal {
      var q := count / ideal;
      assert count == q * ideal + count % ideal;
      assert (q + 1) * ideal == q * ideal + ideal;
    }
  }

  lemma BoundBelowThreshold(count: nat, expandMult: nat, ideal: nat)
    requires count < (expandMult + 1) * 10
    ensures count <= Bound(expandMult, ideal)
  {
    var m := Max(10, ideal);
    assert (expandMult + 1) * 10 <= (expandMult + 1) * m;
  }

  /** The number of ineffective expansions at the end of a history. */
  ghost function Trailing(history: seq<bool>): nat
  {
    if history != [] && history[|history| - 1] then 1 + Trailing(history[..|history| - 1]) else 0
  }

  /** Until expansion is given up, no chain is longer than its bucket's bound. */
  ghost predicate Bounded(a: seq<Bucket>, ideal: nat, noexpand: bool)
  {
    !noexpand ==> forall b :: 0 <= b < |a| ==> a[b].count <= Bound(a[b].expandMult, ideal)
  }

  /** Expansion is given up exactly after two consecutive ineffective expansions, and
      from then on there are no more expansions. */
  ghost predicate Paced(log2: nat, ineff: nat, noexpand: bool, history: seq<bool>)
  {
    && log2 == 5 + |history|
    && ineff == Trailing(history)
    && (noexpand <==> ineff > 1)
    && (forall i :: 0 <= i && i + 2 < |history| ==> !(history[i] && history[i + 1]))
  }

  lemma BoundedAfterExpansion(a: seq<Bucket>, c: seq<seq<Handle>>, ideal: nat, nonideal: nat, noexpand: bool,
                              S: set<Handle>)
    requires 1 <= ideal && Measured(a, c, ideal, nonideal) && BucketsOk(a, c, S)
    ensures Bounded(a, ideal, noexpand)
  {
    forall b | 0 <= b < |a| ensures a[b].count <= Bound(a[b].expandMult, ideal) {
      assert BucketOk(a[b], c[b], S);
      BoundAfterExpansion(|c[b]|, ideal);
    }
  }

  lemma BoundedShrinks(a: seq<Bucket>, a': seq<Bucket>, b: nat, ideal: nat, noexpand: bool)
    requires Bounded(a, ideal, noexpand) && |a| == |a'| && b < |a|
    requires forall i :: 0 <= i < |a| && i != b ==> a'[i] == a[i]
    requires a'[b].count <= a[b].count && a'[b].expandMult == a[b].expandMult
    ensures Bounded(a', ideal, noexpand)
  {
    hide Bound;
  }

  lemma PacedAfterExpansion(log2: nat, ineff: nat, history: seq<bool>, bad: bool)
    requires Paced(log2, ineff, false, history)
    ensures var ineff' := if bad then ineff + 1 else 0;
            Paced(log2 + 1, ineff', ineff' > 1, history + [bad])
  {
    var history' := history + [bad];
    assert history'[..|history|] == history;
    TrailingTwo(history);
  }

  /** More than one trailing ineffective expansion means that the last two were. */
  lemma TrailingTwo(history: seq<bool>)
    ensures Trailing(history) > 1 <==> |history| >= 2 && history[|history| - 1] && history[|history| - 2]
  {
    if history != [] {
      var rest := history[..|history| - 1];
      assert rest != [] ==> rest[|rest| - 1] == history[|history| - 2];
    }
  }

  /** h is the first item of the chain with the key. */
  ghost predicate FirstWith(v: seq<Handle>, key: int, h: Handle)
  {
    h.key == key && exists k :: 0 <= k < |v| && v[k] == h && forall i :: 0 <= i < k ==> v[i].key != key
  }

  /** What putting h in its bucket does to the chains c and to the history: h goes to the
      front of its chain, and the table doubles exactly when the chain reaches its bucket's
      threshold and expansion has not been given up. `mult` is the bucket's expandMult,
      `ideal` and `excess` are the new idealChainMaxlen and nonidealItems: the ideal length and
      the number of items that have as many or more in front of them. */
  ghost predicate Placing(h: Handle, hash: int -> nat, mult: nat, noexpand: bool, numItems: nat, ideal: nat,
                          excess: nat,
                          c: seq<seq<Handle>>, c': seq<seq<Handle>>, history: seq<bool>, history': seq<bool>)
    requires 1 <= |c|
  {
    var b := Slot(h, hash, |c|);
    var pushed := c[b := [h] + c[b]];
    if noexpand || |pushed[b]| < (mult + 1) * 10 then
      c' == pushed && history' == history
    else
      && |c'| == 2 * |c| && Doubled(pushed, |c|, c', hash)
      && ideal == CeilDiv(numItems, |c'|) && excess + WithinIdeal(c', ideal) == |Flatten(c')|
      && history' == history + [excess > numItems / 2]
  }

  /** When the table doubles, without the words of the predicate. */
  lemma PlacingDoubles(h: Handle, hash: int -> nat, mult: nat, noexpand: bool, numItems: nat, ideal: nat, excess: nat,
                       c: seq<seq<Handle>>, c': seq<seq<Handle>>, history: seq<bool>, history': seq<bool>)
    requires 1 <= |c| && Placing(h, hash, mult, noexpand, numItems, ideal, excess, c, c', history, history')
    ensures |c'| == if !noexpand && |c[Slot(h, hash, |c|)]| + 1 >= (mult + 1) * 10 then 2 * |c| else |c|
    ensures |c'| == |c| ==> history' == history
  {
    hide Slot, Doubled, CeilDiv;
  }

  lemma InitialSize()
    ensures INITIAL_NUM_BUCKETS == Pow2(INITIAL_NUM_BUCKETS_LOG2)
  {
    assert Pow2(5) == 2 * Pow2(4) && Pow2(4) == 2 * Pow2(3) && Pow2(3) == 2 * Pow2(2);
  }

  /** The ah handles of the records in v that a condition selects. */
  ghost function Chosen(v: seq<Handle>, cond: Handle -> bool): seq<Handle>
  {
    if v == [] then []
    else
      var h := v[|v| - 1];
      Chosen(v[..|v| - 1], cond) + (if cond(h) && h.twin != null then [h.twin] else [])
  }

  /** What HASH_SELECT has selected after n items of the source's bucket order w. */
  ghost predicate Selection(w: seq<Handle>, n: nat, items: seq<Handle>, cond: Handle -> bool)
  {
    n <= |w| && items == Chosen(w[..n], cond)
  }

  /** T is the set of the ah handles of the records in w. */
  ghost predicate Twins(w: seq<Handle>, T: set<Handle>)
  {
    && (forall h :: h in w ==> h.twin != null && h.twin in T)
    && (forall t :: t in T ==> t.twin == null)
  }

  ghost function TwinSet(s: seq<Handle>): set<Handle>
  {
    set h: Handle | h in s && h.twin != null :: h.twin
  }

  lemma TwinsOf(s: seq<Handle>, w: seq<Handle>)
    requires Records(s, false) && multiset(s) == multiset(w)
    ensures Twins(w, TwinSet(s))
    ensures forall h :: h in s || h in w ==> h !in TwinSet(s)
  {
    forall h | h in s || h in w ensures h in s && h.twin != null && h.twin in TwinSet(s) && h !in TwinSet(s) {
      SameMembers(s, w, h);
      var i :| 0 <= i < |s| && s[i] == h;
      assert s[i].Kind(false);
    }
    forall t | t in TwinSet(s) ensures t.twin == null {
      var h: Handle :| h in s && h.twin == t;
      var i :| 0 <= i < |s| && s[i] == h;
      assert s[i].Kind(false);
    }
  }

  lemma SelectionDone(w: seq<Handle>, n: nat, items: seq<Handle>, cond: Handle -> bool)
    requires Selection(w, n, items, cond) && n == |w|
    ensures items == Chosen(w, cond)
  {
    assert w[..n] == w;
  }

  lemma NothingSelected(w: seq<Handle>, cond: Handle -> bool)
    ensures Selection(w, 0, [], cond) && Chosen([], cond) == []
  {
    assert w[..0] == [];
  }

  lemma {:induction false} ChosenFrom(v: seq<Handle>, cond: Handle -> bool, t: Handle)
    ensures t in Chosen(v, cond) <==> exists i :: 0 <= i < |v| && cond(v[i]) && v[i].twin == t
  {
    if v != [] {
      var u := v[..|v| - 1];
      ChosenFrom(u, cond, t);
      if t in Chosen(v, cond) {
        if t in Chosen(u, cond) {
          var i :| 0 <= i < |u| && cond(u[i]) && u[i].twin == t;
          assert v[i].twin == t;
        } else {
          assert v[|v| - 1].twin == t;
        }
      }
      if i :| 0 <= i < |v| && cond(v[i]) && v[i].twin == t {
        if i < |u| {
          assert u[i].twin == t;
        }
      }
    }
  }

  /** The next item of the source is new to the selection. */
  lemma SelectionStep(w: seq<Handle>, n: nat, items: seq<Handle>, cond: Handle -> bool)
    requires n < |w| && Selection(w, n, items, cond) && Records(w, false)
    ensures var t := w[n].twin;
            && t != null && t.key == w[n].key
            && NewRecord(t, items, true)
            && Selection(w, n + 1, if cond(w[n]) then items + [t] else items, cond)
  {
    var t := w[n].twin;
    assert w[n].Kind(false);
    assert w[..n + 1][..n] == w[..n];
    ChosenFrom(w[..n], cond, t);
  }

  lemma SelectionWithin(w: seq<Handle>, n: nat, items: seq<Handle>, cond: Handle -> bool, T: set<Handle>)
    requires n < |w| && Selection(w, n, items, cond) && Twins(w, T)
    ensures w[n].twin in T
    ensures forall t :: t in items ==> t in T
  {
    forall t | t in items ensures t in T {
      ChosenFrom(w[..n], cond, t);
      var i :| 0 <= i < n && w[i].twin == t;
      assert w[i] in w;
    }
  }

  class HashTable {
    const hash: int -> nat        // HASH_FCN
    const alt: bool               // which handle of a record this table uses
    var head: Handle?             // the caller's head pointer
    var tail: Handle?
    var numItems: nat
    var buckets: array<Bucket>
    var numBuckets: nat
    var log2NumBuckets: nat
    var idealChainMaxlen: nat
    var nonidealItems: nat
    var ineffExpands: nat
    var noexpand: bool

    ghost var items: seq<Handle>          // app order
    ghost var chains: seq<seq<Handle>>    // bucket order
    ghost var history: seq<bool>          // per expansion of this table: was it ineffective?

    /** The buckets hold exactly the handles of S, each where its hash value says. */
    ghost predicate Bucketed(S: set<Handle>)
      reads `buckets, `numBuckets, `log2NumBuckets, `chains, buckets, S`hhPrev, S`hhNext, S`hashv
    {
      && buckets.Length == numBuckets == |chains| == Pow2(log2NumBuckets)
      && BucketsOk(buckets[..], chains, S)
      && Placed(chains, hash, numBuckets)
      && Located(S, chains, hash)
      && Hashed(S, hash)
    }

    /** The adaptive throttle. */
    ghost predicate Throttled()
      reads `buckets, `log2NumBuckets, `idealChainMaxlen, `ineffExpands, `noexpand, `history, buckets
    {
      && Bounded(buckets[..], idealChainMaxlen, noexpand)
      && Paced(log2NumBuckets, ineffExpands, noexpand, history)
    }

    ghost predicate InAppOrder()
      reads `items, `head, items`prev, items`next
    {
      AppLinked(items) && head == At(items, 0)
    }

    /** The app order, but for the tail. */
    ghost predicate Listed()
      reads `items, `head, `numItems, items`prev, items`next
    {
      InAppOrder() && numItems == |items|
    }

    ghost predicate Ordered()
      reads `items, `head, `tail, `numItems, items`prev, items`next
    {
      Listed() && tail == At(items, |items| - 1)
    }

    /** What an expansion leaves: the multiplier of a bucket says how often the ideal length goes
        into its chain, or 0, and nonidealItems counts the items beyond the ideal length. */
    ghost predicate Remeasured()
      reads `buckets, `numBuckets, `chains, `idealChainMaxlen, `nonidealItems, buckets
    {
      && buckets.Length == numBuckets == |chains|
      && (forall b :: 0 <= b < numBuckets ==>
            var mult, len := buckets[b].expandMult, |chains[b]|;
            if len > idealChainMaxlen then mult * idealChainMaxlen <= len < (mult + 1) * idealChainMaxlen
            else mult == 0)
      && nonidealItems + WithinIdeal(chains, idealChainMaxlen) == |Flatten(chains)|
    }

    /** The multipliers, the ideal length and nonidealItems are what they were. */
    twostate predicate SameMeasures()
      reads `buckets, `idealChainMaxlen, `nonidealItems, buckets
    {
      && buckets == old(buckets)
      && idealChainMaxlen == old(idealChainMaxlen) && nonidealItems == old(nonidealItems)
      && forall b :: 0 <= b < buckets.Length ==> buckets[b].expandMult == old(buckets[b].expandMult)
    }

    /** Everything HASH_FSCK checks, and more, but for the tail. */
    ghost predicate ValidButTail()
      reads this, buckets, items
    {
      && (head == null <==> items == [])
      && Records(items, alt)
      && (items != [] ==> Listed() && Bucketed(Elements(items)) && Throttled())
    }

    /** The table invariant. */
    ghost predicate Valid()
      reads this, buckets, items
    {
      && (head == null <==> items == [])
      && Records(items, alt)
      && (items != [] ==> Ordered() && Bucketed(Elements(items)) && Throttled())
    }

    /** While the table may still expand, no chain outgrows its bucket's bound. */
    lemma ChainBound(b: nat)
      requires Valid() && items != [] && !noexpand && b < numBuckets
      ensures |chains[b]| <= (buckets[b].expandMult + 1) * Max(10, idealChainMaxlen)
    {
      hide Located, Placed, Hashed, Records, Ordered;
      assert BucketOk(buckets[b], chains[b], Elements(items));
    }

    /** The table gives up expanding exactly after two ineffective expansions in a row, and
        that pair is the last thing that its expansions ever do. */
    lemma GivesUpIff()
      requires Valid() && items != []
      ensures var n := |history|;
              && numBuckets == Pow2(5 + n) && ineffExpands == Trailing(history)
              && (noexpand <==> n >= 2 && history[n - 1] && history[n - 2])
              && forall i :: 0 <= i < n - 2 ==> !(history[i] && history[i + 1])
    {
      hide BucketsOk, Located, Placed, Hashed, Records, Ordered, Bounded;
      TrailingTwo(history);
    }

    constructor (hash: int -> nat, alt: bool)
      ensures Valid() && items == [] && this.hash == hash && this.alt == alt
      ensures fresh(buckets)
    {
      this.hash, this.alt := hash, alt;
      head, tail, numItems := null, null, 0;
      buckets, numBuckets, log2NumBuckets := new Bucket[0](_ => Bucket(null, 0, 0)), 0, 0;
      idealChainMaxlen, nonidealItems, ineffExpands, noexpand := 0, 0, 0, false;
      items, chains, history := [], [], [];
    }

    /** HASH_EXPAND_BUCKETS */
    method Expand(ghost S: set<Handle>)
      requires Bucketed(S) && !noexpand && 1 <= numItems
      requires Paced(log2NumBuckets, ineffExpands, noexpand, history)
      modifies `buckets, `numBuckets, `log2NumBuckets, `idealChainMaxlen, `nonidealItems, `ineffExpands, `noexpand
      modifies `chains, `history, S`hhPrev, S`hhNext
      ensures Bucketed(S) && Throttled() && fresh(buckets)
      ensures numBuckets == 2 * old(numBuckets)
      ensures Doubled(old(chains), old(numBuckets), chains, hash)
      ensures idealChainMaxlen == CeilDiv(numItems, numBuckets)
      ensures Remeasured()
      ensures history == old(history) + [nonidealItems > numItems / 2]
    {
      hide Bucketed, CeilDiv, Doubled, Measured, Bounded, Paced, Remeasured;
      Redouble(S);
      NoteExpansion();
      MeasuredBounded(S);
    }

    /** The throttle of HASH_EXPAND_BUCKETS. */
    method NoteExpansion()
      requires 1 <= log2NumBuckets && !noexpand && Paced(log2NumBuckets - 1, ineffExpands, noexpand, history)
      modifies `ineffExpands, `noexpand, `history
      ensures Paced(log2NumBuckets, ineffExpands, noexpand, history)
      ensures history == old(history) + [nonidealItems > numItems / 2]
    {
      hide Paced;
      ShiftIsDiv(numItems, 1);
      assert Pow2(1) == 2;
      PacedAfterExpansion(log2NumBuckets - 1, ineffExpands, history, nonidealItems > numItems / 2);
      ineffExpands := if nonidealItems > ShiftRight(numItems, 1) then ineffExpands + 1 else 0;
      history := history + [nonidealItems > numItems / 2];
      if ineffExpands > 1 {
        noexpand := true;
      }
    }

    lemma MeasuredBounded(S: set<Handle>)
      requires 1 <= idealChainMaxlen && Bucketed(S)
      requires Measured(buckets[..], chains, idealChainMaxlen, nonidealItems)
      ensures Bounded(buckets[..], idealChainMaxlen, noexpand) && Remeasured()
    {
      hide BucketsOk, Bounded, Placed, Located, Hashed, TotalExcess, WithinIdeal, Flatten, ExpandMult;
      BoundedAfterExpansion(buckets[..], chains, idealChainMaxlen, nonidealItems, noexpand, S);
      ExcessSplits(chains, idealChainMaxlen);
      forall b | 0 <= b < numBuckets
        ensures var mult, len := buckets[b].expandMult, |chains[b]|;
                if len > idealChainMaxlen then mult * idealChainMaxlen <= len < (mult + 1) * idealChainMaxlen
                else mult == 0
      {
        assert chains[b] == chains[b] && buckets[..][b] == buckets[b];
        MultiplierFits(|chains[b]|, idealChainMaxlen);
      }
    }

    /** The part of HASH_EXPAND_BUCKETS that replaces the bucket array. */
    method Redouble(ghost S: set<Handle>)
      requires Bucketed(S) && 1 <= numItems
      modifies `buckets, `numBuckets, `log2NumBuckets, `idealChainMaxlen, `nonidealItems, `chains, S`hhPrev, S`hhNext
      ensures Bucketed(S) && fresh(buckets)
      ensures numBuckets == 2 * old(numBuckets) && log2NumBuckets == old(log2NumBuckets) + 1
      ensures Doubled(old(chains), old(numBuckets), chains, hash)
      ensures idealChainMaxlen == CeilDiv(numItems, numBuckets) >= 1
      ensures Measured(buckets[..], chains, idealChainMaxlen, nonidealItems)
    {
      hide Bucketed, CeilDiv, Placed, Doubled, Measured, BucketsOk, Located, Hashed, Rehashing, Pow2;
      ghost var c := chains;
      TableShape(S);
      SetIdeal();
      buckets, nonidealItems, chains := Rehash(buckets, idealChainMaxlen, chains, S, hash);
      numBuckets := numBuckets * 2;
      log2NumBuckets := log2NumBuckets + 1;
      RedoubledOk(S, c);
    }

    lemma TableShape(S: set<Handle>)
      requires Bucketed(S)
      ensures buckets.Length == numBuckets == |chains| == Pow2(log2NumBuckets)
      ensures BucketsOk(buckets[..], chains, S) && Placed(chains, hash, numBuckets)
      ensures Located(S, chains, hash) && Hashed(S, hash)
      ensures 2 * numBuckets == Pow2(log2NumBuckets + 1)
    {
    }

    lemma RedoubledOk(S: set<Handle>, c: seq<seq<Handle>>)
      requires buckets.Length == numBuckets == |chains| == 2 * |c| == Pow2(log2NumBuckets) && 1 <= idealChainMaxlen
      requires Rehashing(|c|, c, buckets[..], chains, idealChainMaxlen, nonidealItems, S, hash)
      requires Located(S, c, hash) && Hashed(S, hash)
      ensures Bucketed(S) && Doubled(c, |c|, chains, hash)
      ensures Measured(buckets[..], chains, idealChainMaxlen, nonidealItems)
    {
      hide Placed, Doubled, Measured, BucketsOk, Located, Hashed;
      DoubledHolds(S, c, chains, hash);
    }

    method SetIdeal()
      requires numBuckets == Pow2(log2NumBuckets) && 1 <= numItems
      modifies `idealChainMaxlen
      ensures idealChainMaxlen == CeilDiv(numItems, 2 * numBuckets) >= 1
    {
      CeilByShiftAndMask(numItems, log2NumBuckets + 1);
      CeilPositive(numItems, 2 * numBuckets);
      idealChainMaxlen := ShiftRight(numItems, log2NumBuckets + 1) +
        (if BitAnd(numItems, numBuckets * 2 - 1) != 0 then 1 else 0);
    }

    /** HASH_ADD_TO_BKT: push on the bucket that the hash value selects, then expand
        if the chain has reached its bucket's threshold. */
    method AddToBkt(h: Handle, ghost S: set<Handle>)
      requires Bucketed(S) && Throttled() && h !in S && h.hashv == hash(h.key)
      requires |S| <= numItems
      modifies `buckets, `numBuckets, `log2NumBuckets, `idealChainMaxlen, `nonidealItems, `ineffExpands, `noexpand
      modifies `chains, `history, buckets, S`hhPrev, S`hhNext, h`hhPrev, h`hhNext
      ensures Bucketed(S + {h}) && Throttled()
      ensures old(noexpand) ==> noexpand
      ensures fresh(buckets) || buckets == old(buckets)
      ensures numBuckets == |chains| && old(numBuckets) == |old(chains)|
      ensures |old(chains)[Slot(h, hash, old(numBuckets))]| <= |S|
      ensures if numBuckets == old(numBuckets) then SameMeasures() else Remeasured()
      ensures Placing(h, hash, old(buckets[Slot(h, hash, numBuckets)].expandMult), old(noexpand), numItems,
                      idealChainMaxlen, nonidealItems, old(chains), chains, old(history), history)
    {
      hide Slot, CeilDiv, Doubled, Placed, Located, Hashed, Bound, TotalExcess, BucketsOk;
      var b := Push(h, S);
      if buckets[b].count >= (buckets[b].expandMult + 1) * BKT_CAPACITY_THRESH && !noexpand {
        Expand(S + {h});
      } else if !noexpand {
        BoundBelowThreshold(buckets[b].count, buckets[b].expandMult, idealChainMaxlen);
      }
    }

    /** HASH_TO_BKT on the stored hash value. */
    method BktOf(h: Handle) returns (b: nat)
      requires numBuckets == Pow2(log2NumBuckets) && h.hashv == hash(h.key)
      ensures b == Slot(h, hash, numBuckets) == hash(h.key) % numBuckets
    {
      MaskIsMod(h.hashv, log2NumBuckets);
      b := ToBkt(h.hashv, numBuckets);
    }

    /** The linking part of HASH_ADD_TO_BKT. */
    method Push(h: Handle, ghost S: set<Handle>) returns (b: nat)
      requires Bucketed(S) && h !in S && h.hashv == hash(h.key)
      modifies `chains, buckets, S`hhPrev, S`hhNext, h`hhPrev, h`hhNext
      ensures Bucketed(S + {h})
      ensures b == Slot(h, hash, numBuckets) && chains == old(chains)[b := [h] + old(chains)[b]]
      ensures buckets[b] == old(buckets[b]).(head := h, count := |chains[b]|)
      ensures forall i :: 0 <= i < numBuckets && i != b ==> buckets[i] == old(buckets[i])
      ensures |chains[b]| <= |S| + 1
    {
      hide Slot, Placed, Located, Hashed, BucketsOk;
      b := BktOf(h);
      PushLocated(S, chains, hash, b, h);
      BucketsGrow(buckets[..], chains, S, h);
      PushFront(buckets, b, h, chains, S + {h}, hash);
      PlacedPush(chains, b, h, hash);
      chains := chains[b := [h] + chains[b]];
      HashedAdd(S, h, hash);
      ChainFits(buckets[..], chains, S + {h}, b);
    }

    /** HASH_MAKE_TABLE, apart from the caller's head pointer. */
    method MakeTable(first: Handle)
      modifies this
      ensures head == old(head) && items == old(items)
      ensures fresh(buckets) && tail == first && numItems == 0
      ensures buckets.Length == numBuckets == |chains| == 32
      ensures Bucketed({}) && Throttled() && history == []
      ensures forall b :: 0 <= b < numBuckets ==> chains[b] == [] && buckets[b] == Bucket(null, 0, 0)
    {
      hide Bucketed, Throttled;
      ClearTable();
      tail := first;
      numBuckets, log2NumBuckets := INITIAL_NUM_BUCKETS, INITIAL_NUM_BUCKETS_LOG2;
      buckets := new Bucket[INITIAL_NUM_BUCKETS](_ => Bucket(null, 0, 0));
      chains := seq(INITIAL_NUM_BUCKETS, _ => []);
      NewTable();
    }

    /** HASH_MAKE_TABLE's first memset */
    method ClearTable()
      modifies `numItems, `idealChainMaxlen, `nonidealItems, `ineffExpands, `noexpand, `history
      ensures numItems == idealChainMaxlen == nonidealItems == ineffExpands == 0 && !noexpand && history == []
    {
      numItems, idealChainMaxlen, nonidealItems, ineffExpands, noexpand := 0, 0, 0, 0, false;
      history := [];
    }

    /** An empty table of the initial size. */
    lemma NewTable()
      requires buckets.Length == numBuckets == |chains| == INITIAL_NUM_BUCKETS
      requires log2NumBuckets == INITIAL_NUM_BUCKETS_LOG2
      requires forall b :: 0 <= b < numBuckets ==> buckets[b] == Bucket(null, 0, 0) && chains[b] == []
      requires idealChainMaxlen == ineffExpands == 0 && !noexpand && history == []
      ensures Bucketed({}) && Throttled()
    {
      hide BucketsOk, Placed, Located, Bound;
      InitialSize();
      EmptyBuckets(buckets[..], chains, hash);
    }

    /** A table of the initial size with nothing in its buckets. */
    ghost predicate NoItems()
      reads `buckets, `numBuckets, `chains, buckets
    {
      && buckets.Length == numBuckets == |chains| == 32
      && forall b :: 0 <= b < numBuckets ==> chains[b] == [] && buckets[b].expandMult == 0
    }

    /** HASH_ADD_KEYPTR when there is no table yet. */
    method AppendFirst(h: Handle)
      requires items == []
      modifies this, h`next, h`prev
      ensures items == [h] && head != null && fresh(buckets) && history == [] && NoItems()
      ensures Ordered() && Bucketed({}) && Throttled()
    {
      hide Bucketed, Throttled;
      h.next := null;
      head := h;
      h.prev := null;
      MakeTable(h);
      assert NoItems();
      numItems := numItems + 1;
      items := [h];
    }

    /** HASH_ADD_KEYPTR's append to the app order of an existing table. */
    method AppendLast(h: Handle)
      requires items != [] && Ordered() && h !in items
      modifies `tail, `numItems, `items, items`next, h`next, h`prev
      ensures items == old(items) + [h] && Ordered()
    {
      h.next := null;
      AppAppend(h, tail, items);
      tail := h;
      numItems := numItems + 1;
      items := items + [h];
    }

    /** The part of HASH_ADD_KEYPTR that appends to the app order. */
    method AppendItem(h: Handle)
      requires Valid() && h !in items
      modifies this, items`next, h`next, h`prev, h`hashv
      ensures items == old(items) + [h] && numItems == |items| && h.hashv == hash(h.key)
      ensures Ordered() && Bucketed(Elements(old(items))) && Throttled() && head != null
      ensures old(head) != null ==>
                && buckets == old(buckets) && numBuckets == old(numBuckets) && noexpand == old(noexpand)
                && chains == old(chains) && history == old(history)
                && idealChainMaxlen == old(idealChainMaxlen) && nonidealItems == old(nonidealItems)
      ensures old(head) == null ==> fresh(buckets) && history == [] && NoItems()
    {
      hide Bucketed, Throttled, AppLinked, Records;
      if head == null {
        assert Elements(items) == {};
        AppendFirst(h);
      } else {
        AppendLast(h);
      }
      h.hashv := hash(h.key);
    }

    /** HASH_ADD_KEYPTR */
    method Add(h: Handle)
      requires Valid() && NewRecord(h, items, alt)
      modifies this, buckets
      modifies items`prev, items`next, items`hhPrev, items`hhNext
      modifies h`prev, h`next, h`hhPrev, h`hhNext, h`hashv
      ensures Valid() && items == old(items) + [h]
      ensures fresh(buckets) || buckets == old(buckets)
      ensures old(head) != null && old(noexpand) ==> noexpand && numBuckets == old(numBuckets)
      ensures old(items) != [] ==>
                Placing(h, hash, old(buckets[Slot(h, hash, numBuckets)].expandMult), old(noexpand), |items|,
                        idealChainMaxlen, nonidealItems, old(chains), chains, old(history), history)
      ensures old(items) != [] ==>
                && numBuckets == (if !old(noexpand) && |old(chains)[Slot(h, hash, old(numBuckets))]| + 1
                                       >= (old(buckets[Slot(h, hash, numBuckets)].expandMult) + 1) * 10
                                  then 2 * old(numBuckets) else old(numBuckets))
                && if numBuckets == old(numBuckets) then SameMeasures() else Remeasured()
      ensures old(items) == [] ==> history == [] && OneItem(h)
      ensures 1 < |items| < 10 ==> numBuckets == old(numBuckets) && history == old(history)
    {
      hide Bucketed, Throttled, InAppOrder, Records, NewRecord, NoItems, OneItem, Placing, Remeasured;
      RecordsAppend(items, h, alt);
      AppendItem(h);
      PlaceLast(h, old(items));
    }

    /** HASH_ADD_TO_BKT on the last item, which may be the table's first. */
    method PlaceLast(h: Handle, ghost s: seq<Handle>)
      requires items == s + [h] && h !in s && |s| <= numItems && InAppOrder()
      requires Bucketed(Elements(s)) && Throttled() && h.hashv == hash(h.key)
      requires s == [] ==> NoItems() && history == []
      modifies `buckets, `numBuckets, `log2NumBuckets, `idealChainMaxlen, `nonidealItems, `ineffExpands, `noexpand
      modifies `chains, `history, buckets, items`hhPrev, items`hhNext
      ensures InAppOrder() && Bucketed(Elements(items)) && Throttled()
      ensures fresh(buckets) || buckets == old(buckets)
      ensures old(noexpand) ==> noexpand && numBuckets == old(numBuckets)
      ensures numBuckets == |chains| && old(numBuckets) == |old(chains)|
      ensures s != [] ==>
                Placing(h, hash, old(buckets[Slot(h, hash, numBuckets)].expandMult), old(noexpand), numItems,
                        idealChainMaxlen, nonidealItems, old(chains), chains, old(history), history)
      ensures s != [] ==>
                numBuckets == if !old(noexpand) && |old(chains)[Slot(h, hash, old(numBuckets))]| + 1
                                   >= (old(buckets[Slot(h, hash, numBuckets)].expandMult) + 1) * 10
                              then 2 * old(numBuckets) else old(numBuckets)
      ensures if numBuckets == old(numBuckets) then SameMeasures() else Remeasured()
      ensures s == [] ==> history == [] && OneItem(h)
      ensures |items| < 10 ==> numBuckets == old(numBuckets) && history == old(history)
    {
      hide Bucketed, Throttled, InAppOrder, NoItems, OneItem, Placing, Remeasured;
      ghost var c, full := chains, noexpand;
      FirstMult(h);
      ghost var mult := BucketLast(h, s);
      if s == [] {
        FirstPlaced(h, mult, full, c, numItems);
      }
    }

    /** The table after its first item: 32 buckets, with the item in its own. */
    ghost predicate OneItem(h: Handle)
      reads `numBuckets, `chains
    {
      && numBuckets == |chains| == 32
      && forall b :: 0 <= b < numBuckets ==> chains[b] == if b == Slot(h, hash, numBuckets) then [h] else []
    }

    lemma FirstMult(h: Handle)
      ensures NoItems() ==>
                && buckets[Slot(h, hash, numBuckets)].expandMult == 0
                && |chains| == 32 && forall b :: 0 <= b < |chains| ==> chains[b] == []
    {
    }

    lemma FirstPlaced(h: Handle, mult: nat, full: bool, c: seq<seq<Handle>>, n: nat)
      requires |c| == 32 && (forall b :: 0 <= b < |c| ==> c[b] == []) && mult == 0
      requires numBuckets == |chains|
      requires Placing(h, hash, mult, full, n, idealChainMaxlen, nonidealItems, c, chains, [], history)
      ensures history == [] && OneItem(h)
    {
      hide Slot, Doubled, CeilDiv, TotalExcess;
    }

    /** Put the last item of the app order in its bucket. */
    method BucketLast(h: Handle, ghost s: seq<Handle>) returns (ghost mult: nat)
      requires items == s + [h] && h !in s && |s| <= numItems && InAppOrder()
      requires Bucketed(Elements(s)) && Throttled() && h.hashv == hash(h.key)
      modifies `buckets, `numBuckets, `log2NumBuckets, `idealChainMaxlen, `nonidealItems, `ineffExpands, `noexpand
      modifies `chains, `history, buckets, items`hhPrev, items`hhNext
      ensures InAppOrder() && Bucketed(Elements(items)) && Throttled()
      ensures fresh(buckets) || buckets == old(buckets)
      ensures old(noexpand) ==> noexpand && numBuckets == old(numBuckets)
      ensures numBuckets == |chains| && old(numBuckets) == |old(chains)|
      ensures mult == old(buckets[Slot(h, hash, numBuckets)].expandMult)
      ensures numBuckets == if !old(noexpand) && |old(chains)[Slot(h, hash, old(numBuckets))]| + 1 >= (mult + 1) * 10
                            then 2 * old(numBuckets) else old(numBuckets)
      ensures if numBuckets == old(numBuckets) then SameMeasures() else Remeasured()
      ensures Placing(h, hash, mult, old(noexpand), numItems, idealChainMaxlen, nonidealItems,
                      old(chains), chains, old(history), history)
      ensures |items| < 10 ==> numBuckets == old(numBuckets) && history == old(history)
    {
      hide Slot, Placing, Bucketed, Throttled, InAppOrder, Remeasured;
      mult := MultOf(h, Elements(s));
      ghost var S := Elements(s);
      assert Elements(items) == S + {h};
      DistinctSize(s);
      ghost var c, full, was := chains, noexpand, history;
      AddToBkt(h, S);
      PlacingDoubles(h, hash, mult, full, numItems, idealChainMaxlen, nonidealItems, c, chains, was, history);
    }

    ghost function MultOf(h: Handle, S: set<Handle>): (m: nat)
      requires Bucketed(S)
      reads `buckets, `numBuckets, `log2NumBuckets, `chains, buckets, S`hhPrev, S`hhNext, S`hashv
      ensures m == buckets[Slot(h, hash, numBuckets)].expandMult
    {
      buckets[Slot(h, hash, numBuckets)].expandMult
    }

    lemma DistinctSize(s: seq<Handle>)
      ensures |Elements(s)| <= |s|
    {
      if s != [] {
        DistinctSize(s[..|s| - 1]);
        assert Elements(s) == Elements(s[..|s| - 1]) + {s[|s| - 1]};
      }
    }

    /** Only the bucket of a key can hold items with that key. */
    lemma KeyInBucket(key: int)
      requires Valid() && items != []
      ensures 1 <= |chains| == numBuckets && ToBkt(hash(key), numBuckets) == hash(key) % |chains|
      ensures forall h :: h in items && h.key == key ==> h in chains[hash(key) % |chains|]
    {
      hide BucketsOk, Placed, Hashed, Throttled, Records, Ordered;
      MaskIsMod(hash(key), log2NumBuckets);
      KeyLocated(Elements(items), chains, hash, key);
    }

    /** HASH_FIND */
    method Find(key: int) returns (out: Handle?)
      requires Valid()
      ensures out == null <==> forall h :: h in items ==> h.key != key
      ensures out != null ==> out in items && out.key == key
      ensures out != null ==> 1 <= |chains| == numBuckets && FirstWith(chains[hash(key) % |chains|], key, out)
    {
      hide Throttled, Records, Ordered, Bucketed, ToBkt, Forward;
      out := null;
      if head != null {
        KeyInBucket(key);
        var b := ToBkt(hash(key), numBuckets);
        ChainFacts(b, Elements(items));
        out := FindInBkt(BucketHead(b), key, chains[b]);
      }
    }

    /** HASH_FIND_IN_BKT */
    static method FindInBkt(first: Handle?, key: int, ghost v: seq<Handle>) returns (out: Handle?)
      requires Forward(v) && first == At(v, 0)
      ensures out == null ==> forall h :: h in v ==> h.key != key
      ensures out != null ==> FirstWith(v, key, out)
    {
      out := first;
      ghost var k := 0;
      while out != null
        invariant k <= |v| && out == At(v, k)
        invariant forall i :: 0 <= i < k ==> v[i].key != key
        decreases |v| - k
      {
        if out.key == key { break; }
        out, k := out.hhNext, k + 1;
      }
    }

    /** HASH_DELETE */
    method Delete(h: Handle)
      requires Valid() && h in items
      modifies `head, `tail, `numItems, `items, `chains, buckets
      modifies items`prev, items`next, items`hhPrev, items`hhNext
      ensures Valid() && items == Minus(old(items), h) && BucketSeq() == Minus(old(BucketSeq()), h)
      ensures items != [] ==> Unchained(h, old(chains), chains)
      ensures SameMeasures()
      ensures buckets == old(buckets) && numBuckets == old(numBuckets) && noexpand == old(noexpand)
          && history == old(history)
    {
      hide Bucketed, Throttled, Records, Ordered, Minus, Without, Flatten, Distinct, Unchained;
      ghost var c := chains;
      ghost var k := ItemFacts(h);
      if h.prev == null && h.next == null {
        head := null;
        items := [];
      } else {
        DeleteOther(h, k);
        FlattenUnchained(h, c, chains);
      }
    }

    /** What HASH_DELETE needs to know of an item. */
    lemma ItemFacts(h: Handle) returns (k: nat)
      requires Valid() && h in items
      ensures k < |items| && items[k] == h && Ordered() && Bucketed(Elements(items)) && Throttled()
      ensures Minus(items, h) == Without(items, k) && Records(Without(items, k), alt) && Distinct(Flatten(chains))
      ensures h.prev == null && h.next == null ==>
                Without(items, k) == [] && Minus(Flatten(chains), h) == [] && Records([], alt)
    {
      hide Bucketed, Throttled, Records, Flatten;
      k :| k < |items| && items[k] == h;
      ItemsMinus(k);
      RecordsWithout(items, k, alt);
      BucketOrder();
      if h.prev == null && h.next == null {
        LastOne(k);
        NoRecords(alt);
        OnlyOne(Flatten(chains), h);
      }
    }

    /** The else branch of HASH_DELETE. */
    method DeleteOther(h: Handle, ghost k: nat)
      requires items != [] && Ordered() && Bucketed(Elements(items)) && Throttled()
      requires k < |items| && items[k] == h && (h.prev != null || h.next != null)
      modifies `head, `tail, `numItems, `items, `chains, buckets
      modifies items`prev, items`next, items`hhPrev, items`hhNext
      ensures items == Without(old(items), k) && items != [] && head != null
      ensures Ordered() && Bucketed(Elements(items)) && Throttled() && Unchained(h, old(chains), chains)
      ensures SameMeasures()
    {
      hide Bucketed, Throttled, Ordered, Listed;
      ghost var S := Elements(items);
      UnlinkElements(h, k);
      UnlinkItem(h, k);
      RemoveFromBkt(h, S);
    }

    lemma ItemsMinus(k: nat)
      requires Listed() && k < |items|
      ensures Minus(items, items[k]) == Without(items, k)
    {
      MinusIsWithout(items, k);
    }

    lemma LastOne(k: nat)
      requires items != [] && Ordered() && k < |items| && items[k].prev == null && items[k].next == null
      ensures |items| == 1
    {
    }

    lemma OnlyOne(w: seq<Handle>, h: Handle)
      requires multiset(w) == multiset(items) && items == [h]
      ensures Minus(w, h) == []
    {
      assert multiset(w)[h] == 1 && |multiset(w)| == |w|;
    }

    lemma UnlinkElements(h: Handle, k: nat)
      requires Ordered() && k < |items| && items[k] == h
      ensures h in Elements(items) && Elements(Without(items, k)) == Elements(items) - {h}
    {
      WithoutElements(items, k);
    }

    /** The part of HASH_DELETE that patches the app order. */
    method UnlinkItem(h: Handle, ghost k: nat)
      requires items != [] && Ordered() && k < |items| && items[k] == h && (h.prev != null || h.next != null)
      modifies `head, `tail, `numItems, `items, items`prev, items`next
      ensures items == Without(old(items), k) && items != [] && head != null
      ensures Ordered()
    {
      hide Without, Ordered, AppLinked, Distinct;
      ItemEnds(k);
      WithoutEnds(items, k);
      if h == tail {
        tail := h.prev;
      }
      if h.prev == null {
        head := h.next;
      }
      AppUnlink(h, items, k);
      items := Without(items, k);
      numItems := numItems - 1;
      NowOrdered();
    }

    lemma ItemEnds(k: nat)
      requires Ordered() && k < |items|
      ensures AppLinked(items) && head == items[0] && tail == items[|items| - 1] && numItems == |items|
      ensures items[k].prev == At(items, k - 1) && items[k].next == At(items, k + 1)
      ensures items[k] == tail ==> k == |items| - 1
    {
    }

    /** The part of HASH_DELETE that patches the bucket. */
    method RemoveFromBkt(h: Handle, ghost S: set<Handle>)
      requires Bucketed(S) && Throttled() && h in S
      modifies `chains, buckets, S`hhPrev, S`hhNext
      ensures Bucketed(S - {h}) && Throttled() && Unchained(h, old(chains), chains) && SameMeasures()
    {
      hide Slot, BucketsOk, Located, Placed, Hashed, Bounded, Paced, Without, Distinct, Unchained;
      ghost var k := InChain(h, S);
      ghost var c, a := chains, buckets[..];
      var b := BktOf(h);
      LocatedRemove(S, chains, b, k, hash);
      PlacedRemove(chains, b, k, hash);
      HashedRemove(S, h, hash);
      DelInBkt(buckets, b, h, chains, S, hash, k);
      chains := chains[b := Without(chains[b], k)];
      BoundedShrinks(a, buckets[..], b, idealChainMaxlen, noexpand);
      IsUnchained(h, c, b, k);
    }

    lemma InChain(h: Handle, S: set<Handle>) returns (k: nat)
      requires Bucketed(S) && h in S
      ensures 1 <= numBuckets == |chains| && h.hashv == hash(h.key)
      ensures var b := Slot(h, hash, numBuckets); k < |chains[b]| && chains[b][k] == h && Distinct(chains[b])
    {
      hide Slot;
      var b := Slot(h, hash, numBuckets);
      assert h in chains[b];
      k :| k < |chains[b]| && chains[b][k] == h;
      assert BucketOk(buckets[b], chains[b], S);
    }

    /** HASH_SELECT's links in the app order of the selection; there is no table yet
        when the first item comes. */
    method SelectAppend(h: Handle, hashv: nat, last: Handle?)
      requires ValidButTail() && h !in items && last == At(items, |items| - 1)
      modifies this, items`next, h`next, h`prev, h`hashv
      ensures items == old(items) + [h] && numItems == |old(items)| && head != null
      ensures old(items) == [] ==> history == [] && NoItems()
      ensures old(items) != [] ==>
                && chains == old(chains) && history == old(history) && noexpand == old(noexpand)
                && numBuckets == old(numBuckets) && buckets == old(buckets)
                && idealChainMaxlen == old(idealChainMaxlen) && nonidealItems == old(nonidealItems)
      ensures InAppOrder() && tail == (if old(head) == null then h else old(tail)) && h.hashv == hashv
      ensures Bucketed(Elements(old(items))) && Throttled()
      ensures fresh(buckets) || buckets == old(buckets)
    {
      hide Bucketed, Throttled, Records;
      h.hashv := hashv;
      if last != null {
        AppAppend(h, last, items);
      } else {
        assert items == [] && Elements(items) == {};
        h.prev := null;
        h.next := null;
        head := h;
        MakeTable(h);
        assert NoItems();
      }
      items := items + [h];
    }

    /** One selected item of HASH_SELECT. */
    method SelectItem(h: Handle, hashv: nat, last: Handle?)
      requires ValidButTail() && NewRecord(h, items, alt) && last == At(items, |items| - 1)
      requires hashv == hash(h.key)
      modifies this, buckets
      modifies items`prev, items`next, items`hhPrev, items`hhNext
      modifies h`prev, h`next, h`hhPrev, h`hhNext, h`hashv
      ensures ValidButTail() && items == old(items) + [h]
      ensures tail == if old(head) == null then h else old(tail)
      ensures fresh(buckets) || buckets == old(buckets)
      ensures old(items) != [] ==>
                Placing(h, hash, old(buckets[Slot(h, hash, numBuckets)].expandMult), old(noexpand), |old(items)|,
                        idealChainMaxlen, nonidealItems, old(chains), chains, old(history), history)
      ensures old(items) != [] ==>
                && numBuckets == (if !old(noexpand) && |old(chains)[Slot(h, hash, old(numBuckets))]| + 1
                                       >= (old(buckets[Slot(h, hash, numBuckets)].expandMult) + 1) * 10
                                  then 2 * old(numBuckets) else old(numBuckets))
                && if numBuckets == old(numBuckets) then SameMeasures() else Remeasured()
      ensures old(items) == [] ==> history == [] && OneItem(h)
    {
      hide Bucketed, Throttled, Records, NewRecord, InAppOrder, Listed, NoItems, OneItem, Placing, Remeasured;
      RecordsAppend(items, h, alt);
      SelectAppend(h, hashv, last);
      PlaceSelected(h, old(items));
    }

    /** HASH_SELECT's HASH_ADD_TO_BKT and what follows it. */
    method PlaceSelected(h: Handle, ghost s: seq<Handle>)
      requires items == s + [h] && h !in s && |s| == numItems && InAppOrder()
      requires Bucketed(Elements(s)) && Throttled() && h.hashv == hash(h.key)
      requires s == [] ==> NoItems() && history == []
      modifies `buckets, `numBuckets, `log2NumBuckets, `idealChainMaxlen, `nonidealItems, `ineffExpands, `noexpand
      modifies `chains, `history, `numItems, buckets, items`hhPrev, items`hhNext
      ensures Listed() && Bucketed(Elements(items)) && Throttled()
      ensures fresh(buckets) || buckets == old(buckets)
      ensures numBuckets == |chains| && old(numBuckets) == |old(chains)|
      ensures s != [] ==>
                Placing(h, hash, old(buckets[Slot(h, hash, numBuckets)].expandMult), old(noexpand), |s|,
                        idealChainMaxlen, nonidealItems, old(chains), chains, old(history), history)
      ensures s != [] ==>
                numBuckets == if !old(noexpand) && |old(chains)[Slot(h, hash, old(numBuckets))]| + 1
                                   >= (old(buckets[Slot(h, hash, numBuckets)].expandMult) + 1) * 10
                              then 2 * old(numBuckets) else old(numBuckets)
      ensures if numBuckets == old(numBuckets) then SameMeasures() else Remeasured()
      ensures s == [] ==> history == [] && OneItem(h)
    {
      hide Bucketed, Throttled, InAppOrder, NoItems, OneItem, Placing, Remeasured;
      PlaceLast(h, s);
      numItems := numItems + 1;
    }

    /** One turn of HASH_SELECT's inner loop: item n of the source's bucket order w. */
    method SelectStep(srcHh: Handle, cond: Handle -> bool, last: Handle?,
                      ghost w: seq<Handle>, ghost n: nat, ghost T: set<Handle>)
      returns (last': Handle?)
      requires ValidButTail() && alt && Selection(w, n, items, cond) && last == At(items, |items| - 1)
      requires n < |w| && srcHh == w[n] && Records(w, false) && Twins(w, T) && srcHh.hashv == hash(srcHh.key)
      requires items != [] ==> tail == items[0]
      modifies this, buckets
      modifies T`prev, T`next, T`hhPrev, T`hhNext, T`hashv
      ensures ValidButTail() && Selection(w, n + 1, items, cond) && last' == At(items, |items| - 1)
      ensures items != [] ==> tail == items[0]
      ensures fresh(buckets) || buckets == old(buckets)
    {
      hide Selection, Records, Twins, NewRecord, Bucketed, Throttled, Listed;
      last' := last;
      SelectionStep(w, n, items, cond);
      SelectionWithin(w, n, items, cond, T);
      if cond(srcHh) {
        SelectItem(srcHh.twin, srcHh.hashv, last');
        last' := srcHh.twin;
      }
    }

    /** HASH_SELECT's loop over one source bucket, which holds items n and on of the
        source's bucket order w. */
    method SelectChain(first: Handle?, cond: Handle -> bool, last: Handle?,
                       ghost v: seq<Handle>, ghost w: seq<Handle>, ghost n: nat, ghost T: set<Handle>)
      returns (last': Handle?)
      requires ValidButTail() && alt && Selection(w, n, items, cond) && last == At(items, |items| - 1)
      requires n + |v| <= |w| && w[n..n + |v|] == v
      requires Records(w, false) && Twins(w, T)
      requires Forward(v) && first == At(v, 0) && forall h :: h in v ==> h !in T && h.hashv == hash(h.key)
      requires items != [] ==> tail == items[0]
      modifies this, buckets
      modifies T`prev, T`next, T`hhPrev, T`hhNext, T`hashv
      ensures ValidButTail() && Selection(w, n + |v|, items, cond) && last' == At(items, |items| - 1)
      ensures items != [] ==> tail == items[0]
      ensures fresh(buckets) || buckets == old(buckets)
    {
      hide Selection, Records, Twins, ValidButTail;
      var srcHh := first;
      last' := last;
      ghost var k := 0;
      while srcHh != null
        invariant k <= |v| && srcHh == At(v, k)
        invariant ValidButTail() && Selection(w, n + k, items, cond) && last' == At(items, |items| - 1)
        invariant items != [] ==> tail == items[0]
        invariant fresh(buckets) || buckets == old(buckets)
        decreases |v| - k
      {
        assert srcHh == w[n..n + |v|][k] == w[n + k];
        assert srcHh in v;
        last' := SelectStep(srcHh, cond, last', w, n + k, T);
        srcHh, k := srcHh.hhNext, k + 1;
      }
    }

    /** One turn of HASH_SELECT's loop over the source's buckets. */
    method SelectBucket(src: HashTable, b: nat, cond: Handle -> bool, last: Handle?,
                        ghost w: seq<Handle>, ghost n: nat, ghost S: set<Handle>, ghost T: set<Handle>)
      returns (last': Handle?)
      requires src != this && src.hash == hash && src.buckets != buckets && src.Bucketed(S) && b < |src.chains|
      requires w == Flatten(src.chains) && Records(w, false) && Twins(w, T) && S !! T
      requires n == |Flatten(src.chains[..b])|
      requires ValidButTail() && alt && Selection(w, n, items, cond) && last == At(items, |items| - 1)
      requires items != [] ==> tail == items[0]
      modifies this, buckets
      modifies T`prev, T`next, T`hhPrev, T`hhNext, T`hashv
      ensures src.Bucketed(S)
      ensures var n' := |Flatten(src.chains[..b + 1])|;
              ValidButTail() && Selection(w, n', items, cond) && last' == At(items, |items| - 1)
      ensures items != [] ==> tail == items[0]
      ensures fresh(buckets) || buckets == old(buckets)
    {
      hide Selection, Records, Twins, Flatten, Chosen, ValidButTail, Bucketed;
      FlattenSlice(src.chains, b);
      src.ChainFacts(b, S);
      last' := SelectChain(src.BucketHead(b), cond, last, src.chains[b], w, n, T);
    }

    function BucketHead(b: nat): Handle?
      requires b < buckets.Length
      reads `buckets, buckets
    {
      buckets[b].head
    }

    /** HASH_SELECT into an empty selection. */
    method Select(src: HashTable, cond: Handle -> bool)
      requires src.Valid() && !src.alt && src.hash == hash
      requires ValidButTail() && items == [] && alt && src != this && src.buckets != buckets
      modifies this, buckets
      modifies TwinSet(src.items)`prev, TwinSet(src.items)`next, TwinSet(src.items)`hhPrev, TwinSet(src.items)`hhNext
      modifies TwinSet(src.items)`hashv
      ensures ValidButTail() && src.Valid()
      ensures items == Chosen(src.BucketSeq(), cond)
      ensures items != [] ==> tail == items[0]
    {
      hide Selection, Records, Twins, Flatten, Chosen, Bucketed, Throttled, Listed, TwinSet;
      if src.head != null {
        ghost var T, S, w := TwinSet(src.items), Elements(src.items), Flatten(src.chains);
        src.SourceFacts();
        NothingSelected(w, cond);
        var last: Handle? := null;
        for b := 0 to src.numBuckets
          invariant src.Bucketed(S)
          invariant ValidButTail() && Selection(w, |Flatten(src.chains[..b])|, items, cond)
              && last == At(items, |items| - 1)
          invariant items != [] ==> tail == items[0]
          invariant fresh(buckets) || buckets == old(buckets)
        {
          last := SelectBucket(src, b, cond, last, w, |Flatten(src.chains[..b])|, S, T);
        }
        assert src.chains[..src.numBuckets] == src.chains;
        SelectionDone(w, |w|, items, cond);
      } else {
        NothingSelected([], cond);
      }
    }

    /** What HASH_SELECT needs to know of its source. */
    lemma SourceFacts()
      requires Valid() && head != null && !alt
      ensures var w, T := Flatten(chains), TwinSet(items);
              && |chains| == numBuckets && BucketSeq() == w
              && Records(w, false) && Twins(w, T) && Elements(items) !! T
              && Flatten(chains[..0]) == []
    {
      BucketOrder();
      TwinsOf(items, Flatten(chains));
      assert chains[..0] == [];
    }

    /** A chain of a table, as the loops over it see it. */
    lemma ChainFacts(b: nat, S: set<Handle>)
      requires Bucketed(S) && b < |chains|
      ensures b < buckets.Length && Forward(chains[b]) && BucketHead(b) == At(chains[b], 0)
      ensures forall h :: h in chains[b] ==> h in S && h.hashv == hash(h.key)
    {
      assert BucketOk(buckets[b], chains[b], S);
    }

    /** The items in the order in which HASH_SELECT meets them. */
    ghost function BucketSeq(): seq<Handle>
      reads `items, `chains
    {
      if items == [] then [] else Flatten(chains)
    }

    lemma BucketSeqPermutes()
      requires Valid()
      ensures multiset(BucketSeq()) == multiset(items)
    {
      if items != [] {
        BucketOrder();
      }
    }

    lemma ListedDistinct()
      requires Ordered()
      ensures Distinct(items) && numItems == |items|
    {
    }

    /** Both views hold the same items: the bucket order is a permutation of the app order. */
    lemma BucketOrder()
      requires Valid() && items != []
      ensures multiset(Flatten(chains)) == multiset(items) && |Flatten(chains)| == numItems
      ensures Records(Flatten(chains), alt) && Distinct(Flatten(chains))
    {
      hide BucketsOk, Placed, Located, Hashed, Throttled, Records, Ordered, Holds;
      var S := Elements(items);
      ListedDistinct();
      forall b | 0 <= b < |chains| ensures Distinct(chains[b]) {
        BucketDistinct(buckets[..], chains, S, b);
      }
      forall h ensures h in items <==> Holds(chains, h) {
        if h in items { LocatedHolds(S, chains, hash, h); }
        if Holds(chains, h) { BucketsHold(buckets[..], chains, S, h); }
      }
      ChainsHoldAll(chains, hash, numBuckets, items);
      FlattenDistinct(chains, hash, numBuckets);
      RecordsPermuted(items, Flatten(chains), alt);
    }

    /** The bucket array is there, and neither head pointers nor forward links lead out of S. */
    ghost predicate Within(S: set<Handle>)
      reads `head, `buckets, `numBuckets, buckets, S`next, S`hhNext
    {
      && buckets.Length == numBuckets
      && (head == null || head in S) && OrderClosed(S) && ChainClosed(S)
      && forall b :: 0 <= b < numBuckets ==> buckets[b].head == null || buckets[b].head in S
    }

    /** The buckets hold the chains c with the right counts, num_items in all. */
    ghost predicate ChainsIntact(c: seq<seq<Handle>>)
      reads *
    {
      && |c| == numBuckets == buckets.Length && |Flatten(c)| == numItems
      && forall b :: 0 <= b < numBuckets ==> ChainIntact(b, c[b])
    }

    ghost predicate ChainIntact(b: nat, v: seq<Handle>)
      requires b < buckets.Length
      reads `buckets, buckets, v`hhPrev, v`hhNext
    {
      ChainLinked(v) && buckets[b].head == At(v, 0) && buckets[b].count == |v|
    }

    /** The app order is v, num_items items. */
    ghost predicate OrderIntact(v: seq<Handle>)
      reads `head, `numItems, v`prev, v`next
    {
      AppLinked(v) && head == At(v, 0) && |v| == numItems
    }

    /** HASH_FSCK's walk along one bucket, with the count that it checks. */
    method FsckBucket(b: nat, ghost S: set<Handle>) returns (ok: bool, count: nat, ghost v: seq<Handle>)
      requires Within(S) && b < numBuckets
      ensures ok ==> ChainIntact(b, v) && count == |v| == buckets[b].count
      ensures !ok ==> forall v' :: !ChainIntact(b, v')
    {
      hide ChainLinked;
      ok, count, v := FsckChain(buckets[b].head, S);
      if ok && buckets[b].count != count {
        forall v' | ChainIntact(b, v') ensures false {
          OneChain(v', v, S);
        }
        ok := false;
      }
    }

    /** HASH_FSCK's loop over the buckets. */
    method FsckBuckets(ghost S: set<Handle>) returns (ok: bool, ghost c: seq<seq<Handle>>)
      requires Within(S)
      ensures ok ==> ChainsIntact(c)
      ensures !ok ==> forall c' :: !ChainsIntact(c')
    {
      hide ChainIntact, Flatten;
      c := [];
      FlattenNone();
      var count := 0;
      for b := 0 to numBuckets
        invariant |c| == b && count == |Flatten(c)|
        invariant forall i :: 0 <= i < b ==> ChainIntact(i, c[i])
      {
        ghost var v;
        var bktCount;
        ok, bktCount, v := FsckBucket(b, S);
        if !ok {
          forall c' | ChainsIntact(c') ensures false {
            ChainOf(c', b);
          }
          return;
        }
        FlattenSnoc(c, v);
        c, count := c + [v], count + bktCount;
      }
      ok := count == numItems;
      if !ok {
        forall c' | ChainsIntact(c') ensures c' == c {
          forall b | 0 <= b < numBuckets ensures c'[b] == c[b] {
            OneChainIntact(b, c'[b], c[b], S);
          }
        }
      }
    }

    lemma ChainOf(c: seq<seq<Handle>>, b: nat)
      requires ChainsIntact(c) && b < numBuckets
      ensures ChainIntact(b, c[b])
    {
    }

    lemma OneChainIntact(b: nat, v: seq<Handle>, w: seq<Handle>, S: set<Handle>)
      requires Within(S) && b < numBuckets && ChainIntact(b, v) && ChainIntact(b, w)
      ensures v == w
    {
      hide ChainLinked;
      OneChain(v, w, S);
    }

    /** HASH_FSCK: whatever the links and counts are, it passes if and only if there are chains
        and an app order that they describe. */
    method Fsck(ghost S: set<Handle>) returns (ok: bool, ghost c: seq<seq<Handle>>, ghost v: seq<Handle>)
      requires Within(S)
      ensures ok && head != null ==> ChainsIntact(c) && OrderIntact(v)
      ensures ok && head != null ==> && |c| == numBuckets && (forall b :: 0 <= b < |c| ==> buckets[b].count == |c[b]|)
                                     && |Flatten(c)| == |v| == numItems && head == v[0]
      ensures !ok ==> head != null && ((forall c' :: !ChainsIntact(c')) || forall v' :: !OrderIntact(v'))
    {
      hide ChainsIntact, AppLinked;
      ok, c, v := true, [], [];
      if head != null {
        ok, c := FsckBuckets(S);
        if ok {
          var count;
          ok, count, v := FsckOrder(head, S);
          if ok && count != numItems {
            forall v' | OrderIntact(v') ensures false {
              OneOrder(v', v, S);
            }
            ok := false;
          }
          if ok { CountsIntact(c, v); }
        }
      }
    }

    lemma CountsIntact(c: seq<seq<Handle>>, v: seq<Handle>)
      requires ChainsIntact(c) && OrderIntact(v) && head != null
      ensures |c| == numBuckets == buckets.Length && forall b :: 0 <= b < |c| ==> buckets[b].count == |c[b]|
      ensures |Flatten(c)| == |v| == numItems && |v| > 0 && head == v[0]
    {
      hide Flatten, AppLinked, ChainLinked;
      forall b | 0 <= b < |c| ensures buckets[b].count == |c[b]| {
        assert ChainIntact(b, c[b]);
      }
    }

    /** A valid table passes, with its own chains and app order. */
    lemma ValidIntact()
      requires Valid() && head != null
      ensures Within(Elements(items)) && ChainsIntact(chains) && OrderIntact(items)
    {
      hide Throttled, Placed, Located, Hashed, Slot, Records, Flatten;
      var S := Elements(items);
      BucketOrder();
      forall b | 0 <= b < numBuckets
        ensures ChainIntact(b, chains[b]) && (buckets[b].head == null || buckets[b].head in S)
      {
        assert BucketOk(buckets[b], chains[b], S);
      }
      forall h | h in S ensures (h.next == null || h.next in S) && (h.hhNext == null || h.hhNext in S) {
        var i :| 0 <= i < |items| && items[i] == h;
        assert h.next == At(items, i + 1);
        NextInChain(h);
      }
    }

    lemma NextInChain(h: Handle)
      requires Valid() && h in items
      ensures h.hhNext == null || h.hhNext in items
    {
      hide Throttled, Placed, Hashed, Slot, Records;
      LocatedHolds(Elements(items), chains, hash, h);
      var b :| 0 <= b < |chains| && h in chains[b];
      assert BucketOk(buckets[b], chains[b], Elements(items));
      var k :| 0 <= k < |chains[b]| && chains[b][k] == h;
      assert h.hhNext == At(chains[b], k + 1);
      assert k + 1 < |chains[b]| ==> chains[b][k + 1] in chains[b];
    }

    /** HASH_SRT: sorts the app order, repairs the tail, and touches no bucket chain. */
    method Sort(cmp: (Handle, Handle) -> int)
      requires ValidButTail()
      modifies `head, `tail, `items, items`next, items`prev
      ensures Valid() && items == Passes(old(items), 1, cmp)
    {
      hide Bucketed, Throttled, Records, Passes, Listed, Ordered;
      if head != null {
        ghost var S := Elements(items);
        SortItems(cmp);
        assert Elements(items) == S;
        assert forall o :: o in S ==> o.hhPrev == old(o.hhPrev) && o.hhNext == old(o.hhNext) && o.hashv == old(o.hashv);
      } else {
        assert items == [];
        PassesOfNothing(cmp);
      }
    }

    method SortItems(cmp: (Handle, Handle) -> int)
      requires items != [] && Listed() && Records(items, alt)
      modifies `head, `tail, `items, items`next, items`prev
      ensures items == Passes(old(items), 1, cmp) && items != [] && head != null
      ensures Records(items, alt) && Elements(items) == Elements(old(items))
      ensures Ordered()
    {
      hide Records, Passes, Listed, Ordered, AppLinked, Distinct;
      ListedHead();
      head, tail := AppSort.Sort(head, cmp, items);
      SortedRecords(items, cmp, alt);
      items := Passes(items, 1, cmp);
      NowOrdered();
    }

    lemma NowOrdered()
      requires AppLinked(items) && head == At(items, 0) && tail == At(items, |items| - 1) && numItems == |items|
      ensures Ordered()
    {
    }

    /** HASH_SRT leaves a table of other handles alone. */
    method SortBeside(other: HashTable, cmp: (Handle, Handle) -> int)
      requires other.Valid() && ValidButTail() && other != this
      requires forall h :: h in items ==> h !in other.items
      modifies `head, `tail, `items, items`next, items`prev
      ensures other.Valid()
      ensures Valid() && items == Passes(old(items), 1, cmp)
    {
      hide Bucketed, Throttled, Records, Passes, AppLinked;
      Sort(cmp);
      assert forall o :: o in other.items ==> o.next == old(o.next) && o.prev == old(o.prev);
    }

    lemma ListedHead()
      requires Listed() && items != []
      ensures AppLinked(items) && Distinct(items) && head == items[0] && numItems == |items|
    {
    }
  }

  lemma PassesOfNothing(cmp: (Handle, Handle) -> int)
    ensures Passes<Handle>([], 1, cmp) == []
  {
  }

  lemma SortedRecords(s: seq<Handle>, cmp: (Handle, Handle) -> int, alt: bool)
    requires Records(s, alt) && Distinct(s)
    ensures var t := Passes(s, 1, cmp);
            Distinct(t) && Records(t, alt) && Elements(t) == Elements(s) && multiset(t) == multiset(s)
  {
    var t := Passes(s, 1, cmp);
    PassesPermute(s, 1, cmp);
    PermutedDistinct(s, t);
    RecordsPermuted(s, t, alt);
    forall x {
      SameMembers(s, t, x);
    }
  }
}
