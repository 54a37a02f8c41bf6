/** The device registry: the integer-keyed operations built on the hash table. */
module DeviceRegistry {
  import opened Sequences
  import opened Handles
  import opened HashChains
  import opened HashTables
  import opened MergeSort

  const INT_MAX: int := 0x7FFF_FFFF
  const INT_MIN: int := -0x8000_0000

  predicate IsInt(x: int) { INT_MIN <= x <= INT_MAX }

  /** The value that 32-bit two's complement arithmetic leaves in an int. */
  function WrapInt(x: int): (r: int)
    ensures IsInt(r)
  {
    (x - INT_MIN) % 0x1_0000_0000 + INT_MIN
  }

  // ----- the comparator and the range condition

  function IdCmp(a: int, b: int): int { WrapInt(a - b) }

  function HandleCmp(a: Handle, b: Handle): int { IdCmp(a.key, b.key) }

  predicate InRange(h: Handle, startId: int, endId: int) { startId <= h.key <= endId }

  /** Subtracting ids orders two of them correctly exactly when the difference fits an int. */
  lemma IdCmpSign(a: int, b: int)
    requires IsInt(a) && IsInt(b)
    ensures (IdCmp(a, b) <= 0 <==> a <= b) <==> IsInt(a - b)
  {
  }

  ghost predicate Ascending(ids: seq<int>)
  {
    forall i, j :: 0 <= i < j < |ids| ==> ids[i] <= ids[j]
  }

  ghost predicate AllBetween(ids: seq<int>, lo: int, hi: int)
  {
    forall i :: 0 <= i < |ids| ==> lo <= ids[i] <= hi
  }

  /** A comparator that subtracts keys is a total preorder on those of a narrow range. */
  lemma NarrowRangeSorts<T>(s: seq<T>, key: T -> int, cmp: (T, T) -> int, lo: int, hi: int)
    requires IsInt(lo) && IsInt(hi) && hi - lo <= INT_MAX
    requires (forall x :: x in s ==> lo <= key(x) <= hi) && forall a, b :: cmp(a, b) == IdCmp(key(a), key(b))
    ensures var t := Passes(s, 1, cmp);
            StableSort(s, t, cmp) && forall i, j :: 0 <= i < j < |t| ==> key(t[i]) <= key(t[j])
  {
    hide Passes;
    var S := set x | x in s;
    forall a, b | a in S && b in S ensures cmp(a, b) <= 0 <==> key(a) <= key(b) {
      IdCmpSign(key(a), key(b));
    }
    PassesIsStableSort(s, cmp);
    var t := Passes(s, 1, cmp);
    forall i | 0 <= i < |t| ensures t[i] in S {
      SameMembers(s, t, t[i]);
    }
  }

  lemma WideRangeFails(lo: int, hi: int)
    requires IsInt(lo) && IsInt(hi) && hi - lo > INT_MAX
    ensures AllBetween([hi, lo], lo, hi) && !Ascending(Passes([hi, lo], 1, IdCmp))
  {
    IdCmpSign(hi, lo);
    PassesOfTwo(hi, lo, IdCmp);
  }

  /** Sorting the ids of a range with idcmp_int puts them in ascending order, for all
      lists of such ids, exactly when the range is no wider than INT_MAX. */
  lemma RangeSortsIff(lo: int, hi: int)
    requires IsInt(lo) && IsInt(hi)
    ensures (forall ids :: AllBetween(ids, lo, hi) ==> Ascending(Passes(ids, 1, IdCmp))) <==> hi - lo <= INT_MAX
  {
    if hi - lo <= INT_MAX {
      forall ids | AllBetween(ids, lo, hi) ensures Ascending(Passes(ids, 1, IdCmp)) {
        NarrowRangeSorts(ids, x => x, IdCmp, lo, hi);
      }
    } else {
      WideRangeFails(lo, hi);
    }
  }

  ghost predicate AscendingKeys(s: seq<Handle>)
  {
    forall i, j :: 0 <= i < j < |s| ==> s[i].key <= s[j].key
  }

  lemma NarrowSelectionSorts(s: seq<Handle>, lo: int, hi: int)
    requires IsInt(lo) && IsInt(hi) && hi - lo <= INT_MAX
    requires forall h :: h in s ==> InRange(h, lo, hi)
    ensures AscendingKeys(Passes(s, 1, HandleCmp)) && StableSort(s, Passes(s, 1, HandleCmp), HandleCmp)
  {
    NarrowRangeSorts(s, (h: Handle) => h.key, HandleCmp, lo, hi);
  }

  /** `sel` holds the ah of every record of `src` in the range, once, and nothing else. */
  ghost predicate SelectionOf(src: seq<Handle>, sel: seq<Handle>, startId: int, endId: int)
  {
    && Distinct(sel)
    && (forall h :: h in src && startId <= h.key <= endId ==> h.twin in sel)
    && (forall t :: t in sel ==> exists h :: h in src && startId <= h.key <= endId && h.twin == t)
  }

  /** inter_evenint with the range of gSelCrriNode */
  function InterEven(startId: int, endId: int): Handle -> bool
  {
    (h: Handle) => InRange(h, startId, endId)
  }

  /** HASH_SELECT with inter_evenint chooses ah handles of records in the range. */
  lemma ChosenInRange(src: seq<Handle>, w: seq<Handle>, chosen: seq<Handle>, startId: int, endId: int)
    requires Records(src, false) && multiset(src) == multiset(w)
    requires chosen == Chosen(w, InterEven(startId, endId))
    ensures forall t :: t in chosen ==>
              && InRange(t, startId, endId) && t in TwinSet(src) && t !in src
              && exists h :: h in src && InRange(h, startId, endId) && h.twin == t
  {
    var cond := InterEven(startId, endId);
    forall t | t in chosen
      ensures InRange(t, startId, endId) && t in TwinSet(src) && t !in src
      ensures exists h :: h in src && InRange(h, startId, endId) && h.twin == t
    {
      ChosenFrom(w, cond, t);
      var i :| 0 <= i < |w| && cond(w[i]) && w[i].twin == t;
      SameMembers(src, w, w[i]);
      RecordKind(src, w[i]);
      if t in src {
        RecordKind(src, t);
      }
    }
  }

  /** What selectcond_int returns, from the source's app order and bucket order. */
  lemma SelectedAll(src: seq<Handle>, w: seq<Handle>, chosen: seq<Handle>, sel: seq<Handle>, startId: int, endId: int)
    requires Records(src, false) && multiset(src) == multiset(w)
    requires chosen == Chosen(w, InterEven(startId, endId))
    requires multiset(sel) == multiset(chosen) && Distinct(sel)
    ensures SelectionOf(src, sel, startId, endId)
  {
    var cond := InterEven(startId, endId);
    ChosenInRange(src, w, chosen, startId, endId);
    forall h | h in src && InRange(h, startId, endId) ensures h.twin in sel {
      SameMembers(src, w, h);
      RecordKind(src, h);
      var i :| 0 <= i < |w| && w[i] == h;
      ChosenFrom(w, cond, h.twin);
      assert cond(w[i]) && w[i].twin == h.twin;
      SameMembers(sel, chosen, h.twin);
    }
    forall t | t in sel ensures t in chosen {
      SameMembers(sel, chosen, t);
    }
  }

  lemma RecordKind(s: seq<Handle>, h: Handle)
    requires Records(s, false) && h in s
    ensures h.twin != null && h.twin.twin == null && h.twin.key == h.key
  {
    var k :| 0 <= k < |s| && s[k] == h;
    assert s[k].Kind(false);
  }

  lemma SortedSelection(chosen: seq<Handle>, startId: int, endId: int)
    requires IsInt(startId) && IsInt(endId)
    requires forall t :: t in chosen ==> InRange(t, startId, endId)
    ensures multiset(Passes(chosen, 1, HandleCmp)) == multiset(chosen)
    ensures endId - startId <= INT_MAX ==> AscendingKeys(Passes(chosen, 1, HandleCmp))
  {
    PassesPermute(chosen, 1, HandleCmp);
    if endId - startId <= INT_MAX {
      NarrowSelectionSorts(chosen, startId, endId);
    }
  }

  lemma ItemsDistinct(t: HashTable)
    requires t.Valid()
    ensures Distinct(t.items) && Records(t.items, t.alt)
  {
  }

  /** selectcond_int */
  method SelectCond(users: HashTable, startId: int, endId: int) returns (ausers: HashTable)
    requires users.Valid() && !users.alt && IsInt(startId) && IsInt(endId)
    modifies TwinSet(users.items)`prev, TwinSet(users.items)`next, TwinSet(users.items)`hhPrev
    modifies TwinSet(users.items)`hhNext, TwinSet(users.items)`hashv
    ensures users.Valid() && fresh(ausers) && ausers.Valid()
    ensures SelectionOf(users.items, ausers.items, startId, endId)
    ensures endId - startId <= INT_MAX ==> AscendingKeys(ausers.items)
    ensures ausers.items == Passes(Chosen(users.BucketSeq(), InterEven(startId, endId)), 1, HandleCmp)
  {
    hide HashTable.Bucketed, HashTable.Throttled, HashTable.Ordered, HashTable.Listed, Records, SelectionOf, Passes,
      Chosen, TwinSet;
    ghost var src, w := users.items, users.BucketSeq();
    ItemsDistinct(users);
    users.BucketSeqPermutes();
    ausers := new HashTable(users.hash, true);
    ausers.Select(users, InterEven(startId, endId));
    ghost var chosen := ausers.items;
    ChosenInRange(src, w, chosen, startId, endId);
    ausers.SortBeside(users, HandleCmp);
    ItemsDistinct(ausers);
    PassesPermute(chosen, 1, HandleCmp);
    SelectedAll(src, w, chosen, ausers.items, startId, endId);
    SortedSelection(chosen, startId, endId);
  }

  // ----- the map that a table with distinct keys represents

  ghost function View(s: seq<Handle>): map<int, Handle>
  {
    if s == [] then map[] else View(s[..|s| - 1])[s[|s| - 1].key := s[|s| - 1]]
  }

  ghost predicate DistinctKeys(s: seq<Handle>)
  {
    forall i, j :: 0 <= i < j < |s| ==> s[i].key != s[j].key
  }

  lemma {:induction false} ViewKeys(s: seq<Handle>, key: int)
    ensures key in View(s) <==> exists h :: h in s && h.key == key
    ensures key in View(s) ==> View(s)[key] in s && View(s)[key].key == key
  {
    if s != [] {
      var t, l := s[..|s| - 1], s[|s| - 1];
      assert s == t + [l];
      ViewKeys(t, key);
    }
  }

  /** With distinct keys, finding any item with the key is looking the key up. */
  lemma ViewLookup(s: seq<Handle>, key: int, out: Handle?)
    requires DistinctKeys(s)
    requires out == null <==> forall h :: h in s ==> h.key != key
    requires out != null ==> out in s && out.key == key
    ensures out == if key in View(s) then View(s)[key] else null
  {
    ViewKeys(s, key);
    if out != null {
      assert key in View(s);
      var h := View(s)[key];
      var i :| 0 <= i < |s| && s[i] == h;
      var j :| 0 <= j < |s| && s[j] == out;
    }
  }

  lemma ViewAppend(s: seq<Handle>, h: Handle)
    requires DistinctKeys(s) && h.key !in View(s)
    ensures DistinctKeys(s + [h]) && View(s + [h]) == View(s)[h.key := h]
  {
    ViewKeys(s, h.key);
    assert (s + [h])[..|s|] == s;
  }

  lemma {:induction false} ViewWithout(s: seq<Handle>, k: nat)
    requires DistinctKeys(s) && k < |s|
    ensures DistinctKeys(Without(s, k)) && View(Without(s, k)) == View(s) - {s[k].key}
  {
    hide View;
    var t, l := s[..|s| - 1], s[|s| - 1];
    ViewSnoc(t, l);
    assert s == t + [l];
    if k == |s| - 1 {
      assert Without(s, k) == t;
      ViewKeys(t, l.key);
      assert View(t)[l.key := l] - {l.key} == View(t);
    } else {
      ViewWithout(t, k);
      assert Without(s, k) == Without(t, k) + [l];
      ViewSnoc(Without(t, k), l);
      assert (View(t) - {s[k].key})[l.key := l] == View(t)[l.key := l] - {s[k].key};
      KeysWithout(s, k);
    }
  }

  lemma ViewSnoc(t: seq<Handle>, l: Handle)
    ensures View(t + [l]) == View(t)[l.key := l]
  {
    assert (t + [l])[..|t|] == t;
  }

  lemma KeysWithout(s: seq<Handle>, k: nat)
    requires DistinctKeys(s) && k < |s|
    ensures DistinctKeys(Without(s, k))
  {
    forall i, j | 0 <= i < j < |Without(s, k)| ensures Without(s, k)[i].key != Without(s, k)[j].key {
      assert Without(s, k)[i] == s[if i < k then i else i + 1];
      assert Without(s, k)[j] == s[if j < k then j else j + 1];
    }
  }

  // ----- the operations

  /** add_user_int: a new record, whatever ids the table already has. */
  method AddUser(users: HashTable, id: int, val: int) returns (ghost node: Handle)
    requires users.Valid() && !users.alt
    modifies users, users.buckets, users.items
    ensures users.Valid() && fresh(node) && node.key == id && node.val == val
    ensures node.twin != null && fresh(node.twin)
    ensures fresh(users.buckets) || users.buckets == old(users.buckets)
    ensures users.items == old(users.items) + [node]
    ensures old(users.items) == [] ==> users.history == [] && users.OneItem(node)
    ensures old(users.items) != [] ==>
              && 1 <= old(users.numBuckets) == old(users.buckets.Length) == |old(users.chains)|
              && Placing(node, users.hash, old(users.buckets[users.hash(id) % users.numBuckets].expandMult),
                         old(users.noexpand), |users.items|, users.idealChainMaxlen, users.nonidealItems,
                         old(users.chains), users.chains, old(users.history), users.history)
    ensures old(users.items) != [] ==>
              && users.numBuckets == (if !old(users.noexpand)
                                         && |old(users.chains)[users.hash(id) % old(users.numBuckets)]| + 1
                                         >= (old(users.buckets[users.hash(id) % users.numBuckets].expandMult) + 1) * 10
                                      then 2 * old(users.numBuckets) else old(users.numBuckets))
              && if users.numBuckets == old(users.numBuckets) then users.SameMeasures() else users.Remeasured()
    ensures 1 < |users.items| < 10 ==>
              users.numBuckets == old(users.numBuckets) && users.history == old(users.history)
    ensures DistinctKeys(old(users.items)) && id !in View(old(users.items)) ==>
              DistinctKeys(users.items) && View(users.items) == View(old(users.items))[id := node]
  {
    var ah := new Handle.Ah(id, val);
    var h := new Handle.Hh(id, val, ah);
    node := h;
    users.Add(h);
    ghost var s := old(users.items);
    if DistinctKeys(s) && id !in View(s) {
      ViewAppend(s, h);
    }
  }

  /** find_user_int */
  method FindUser(users: HashTable, id: int) returns (node: Handle?)
    requires users.Valid()
    ensures node == null <==> forall h :: h in users.items ==> h.key != id
    ensures node != null ==> node in users.items && node.key == id
    // of several records with the id, the one that its chain meets first
    ensures node != null ==> 1 <= |users.chains| && FirstWith(users.chains[users.hash(id) % |users.chains|], id, node)
    ensures DistinctKeys(users.items) ==> node == if id in View(users.items) then View(users.items)[id] else null
  {
    node := users.Find(id);
    if DistinctKeys(users.items) {
      ViewLookup(users.items, id, node);
    }
  }

  /** delete_user_int; freeing the record is the caller's last use of it. */
  method DeleteUser(users: HashTable, user: Handle)
    requires users.Valid() && user in users.items
    modifies users, users.buckets, users.items
    ensures users.Valid() && users.items == Minus(old(users.items), user)
    ensures users.BucketSeq() == Minus(old(users.BucketSeq()), user)
    ensures DistinctKeys(old(users.items)) ==>
              DistinctKeys(users.items) && View(users.items) == View(old(users.items)) - {user.key}
  {
    ghost var s := users.items;
    ghost var k: nat :| k < |s| && s[k] == user;
    ItemsDistinct(users);
    MinusIsWithout(s, k);
    users.Delete(user);
    if DistinctKeys(s) {
      ViewWithout(s, k);
    }
  }

  lemma MinusFirst(s: seq<Handle>)
    requires s != []
    ensures Minus(s, s[0]) == s[1..] && s == [s[0]] + s[1..]
  {
  }

  /** One turn of delete_all_int. */
  method DeleteHead(users: HashTable, el: Handle, ghost S: set<Handle>)
    requires users.Valid() && el == users.head && forall h :: h in users.items ==> h in S
    modifies users, users.buckets, S
    ensures users.Valid() && users.buckets == old(users.buckets)
    ensures |old(users.items)| > 0 && users.items == old(users.items)[1..]
    ensures forall h :: h in users.items ==> h in S
    ensures users.head == At(users.items, 0)
    ensures users.items != [] ==> users.items[0].next == At(users.items, 1)
  {
    hide HashTable.Valid, Minus;
    Front(users);
    MinusFirst(users.items);
    users.Delete(el);
    Front(users);
  }

  /** delete_all_int: HASH_ITER reads the next item before the current one is freed. */
  method DeleteAll(users: HashTable) returns (ghost freed: seq<Handle>)
    requires users.Valid()
    modifies users, users.buckets, users.items
    ensures users.Valid() && users.items == [] && users.head == null
    ensures freed == old(users.items) && Distinct(freed)
  {
    hide HashTable.Valid, Distinct;
    ghost var S, all := Elements(users.items), users.items;
    freed := [];
    ItemsDistinct(users);
    Front(users);
    var el := users.head;
    var tmp := if users.head != null then users.head.next else null;
    while el != null
      invariant users.Valid() && users.buckets == old(users.buckets)
      invariant |freed| <= |all| && freed == all[..|freed|] && users.items == all[|freed|..]
      invariant forall h :: h in users.items ==> h in S
      invariant users.head == el == At(users.items, 0) && tmp == At(users.items, 1)
      decreases |users.items|
    {
      DeleteHead(users, el, S);
      freed := freed + [el];
      el := tmp;
      tmp := if tmp != null then tmp.next else null;
    }
    assert users.items == [] && freed == all;
  }

  /** The head pointer and the first next pointer of a table. */
  lemma Front(users: HashTable)
    requires users.Valid()
    ensures users.head == At(users.items, 0)
    ensures users.items != [] ==> users.items[0].next == At(users.items, 1)
  {
  }

  lemma NextOf(users: HashTable, k: nat)
    requires users.Valid() && k < |users.items|
    ensures users.items[k].next == At(users.items, k + 1)
  {
  }

  // ----- a table that selectcond_int does not sort

  /** Chains that hold nothing but x in bucket a and y in bucket b, or nothing but x. */
  lemma {:induction false} FlattenTwo(c: seq<seq<Handle>>, a: nat, b: nat)
    requires a <= b < |c| && forall i :: 0 <= i < |c| && i != a && i != b ==> c[i] == []
    ensures Flatten(c) == if a == b then c[a] else c[a] + c[b]
  {
    var d := c[..|c| - 1];
    if b < |d| {
      FlattenTwo(d, a, b);
    } else if a < b {
      FlattenTwo(d, a, a);
    } else {
      FlattenNothing(d);
    }
  }

  lemma {:induction false} FlattenNothing(c: seq<seq<Handle>>)
    requires forall b :: 0 <= b < |c| ==> c[b] == []
    ensures Flatten(c) == []
  {
    if c != [] {
      FlattenNothing(c[..|c| - 1]);
    }
  }

  /** Two records at the ends of a range that is too wide: at 2^31, the two compare as equal
      and stay in their order; beyond it, the higher one comes first in either order. */
  lemma WidePair(lo: Handle, hi: Handle)
    requires IsInt(lo.key) && IsInt(hi.key) && hi.key - lo.key > INT_MAX
    ensures Passes([hi, lo], 1, HandleCmp) == [hi, lo]
    ensures Passes([lo, hi], 1, HandleCmp) == if hi.key - lo.key == INT_MAX + 1 then [lo, hi] else [hi, lo]
    ensures AscendingKeys([lo, hi]) && !AscendingKeys([hi, lo])
  {
    assert [hi, lo][0] == hi && [hi, lo][1] == lo;
    PassesOfTwo(hi, lo, HandleCmp);
    PassesOfTwo(lo, hi, HandleCmp);
  }

  lemma ChosenPair(hi: Handle, lo: Handle, cond: Handle -> bool)
    requires cond(hi) && cond(lo) && hi.twin != null && lo.twin != null
    ensures Chosen([hi, lo], cond) == [hi.twin, lo.twin]
  {
    assert [hi, lo][..1] == [hi] && [hi][..0] == [];
    assert Chosen([], cond) == [] && Chosen([hi], cond) == [hi.twin];
  }

  /** A table of two records, one at each end of the range; in bucket order the one in the
      lower bucket comes first, and in one bucket the later one does. */
  method TwoRecords(startId: int, endId: int, hash: int -> nat)
    returns (users: HashTable, ghost lo: Handle, ghost hi: Handle)
    ensures fresh(users) && users.Valid() && !users.alt && users.hash == hash
    ensures fresh(users.items) && fresh(TwinSet(users.items))
    ensures users.items == [lo, hi] && lo.key == startId && hi.key == endId
    ensures users.BucketSeq() == if hash(startId) % 32 < hash(endId) % 32 then [lo, hi] else [hi, lo]
  {
    hide HashTable.Valid, Placing, HashTable.OneItem, View, DistinctKeys, Flatten;
    users := new HashTable(hash, false);
    lo := AddUser(users, startId, 0);
    ghost var c, full := users.chains, users.noexpand;
    OneInTable(users, lo);
    ghost var mult := users.buckets[hash(endId) % 32].expandMult;
    hi := AddUser(users, endId, 0);
    SecondInTable(lo, hi, hash, mult, full, users.idealChainMaxlen, users.nonidealItems, c, users.chains, [],
        users.history);
  }

  lemma OneInTable(users: HashTable, h: Handle)
    requires users.Valid() && users.OneItem(h) && users.items == [h]
    ensures users.numBuckets == users.buckets.Length == |users.chains| == 32
    ensures OneChained(users.chains, h, users.hash)
  {
  }

  ghost predicate OneChained(c: seq<seq<Handle>>, h: Handle, hash: int -> nat)
  {
    |c| == 32 && forall b :: 0 <= b < 32 ==> c[b] == if b == Slot(h, hash, 32) then [h] else []
  }

  lemma SecondInTable(g: Handle, h: Handle, hash: int -> nat, mult: nat, full: bool, ideal: nat, excess: nat,
                      c: seq<seq<Handle>>, c': seq<seq<Handle>>, history: seq<bool>, history': seq<bool>)
    requires OneChained(c, g, hash)
    requires Placing(h, hash, mult, full, 2, ideal, excess, c, c', history, history')
    ensures Flatten(c') == if Slot(g, hash, 32) < Slot(h, hash, 32) then [g, h] else [h, g]
  {
    hide Flatten;
    var i, j := Slot(g, hash, 32), Slot(h, hash, 32);
    assert c' == c[j := [h] + c[j]];
    FlattenTwo(c', if i < j then i else j, if i < j then j else i);
  }

  /** For this table selectcond_int is in ascending order if and only if the range is no wider
      than INT_MAX, or exactly one wider with the two ids in buckets of that order; by
      SelectCond it is for every table if the range is no wider than INT_MAX. */
  method SelectCondSortsIff(startId: int, endId: int, hash: int -> nat) returns (users: HashTable, ausers: HashTable)
    requires IsInt(startId) && IsInt(endId)
    ensures fresh(users) && users.Valid() && fresh(ausers) && ausers.Valid() && users.hash == hash
    ensures SelectionOf(users.items, ausers.items, startId, endId)
    ensures AscendingKeys(ausers.items) <==>
              || endId - startId <= INT_MAX
              || (endId - startId == INT_MAX + 1 && hash(startId) % 32 < hash(endId) % 32)
  {
    hide HashTable.Valid, SelectionOf, Passes, Chosen;
    ghost var lo, hi;
    users, lo, hi := TwoRecords(startId, endId, hash);
    PairOf(users, lo, hi);
    ausers := SelectCond(users, startId, endId);
    if endId - startId > INT_MAX {
      ChosenPair(hi, lo, InterEven(startId, endId));
      ChosenPair(lo, hi, InterEven(startId, endId));
      WidePair(lo.twin, hi.twin);
    }
  }

  lemma PairOf(users: HashTable, lo: Handle, hi: Handle)
    requires users.Valid() && !users.alt && users.items == [lo, hi]
    ensures lo.twin != null && lo.twin.key == lo.key && hi.twin != null && hi.twin.key == hi.key
  {
    ItemsDistinct(users);
    RecordKind(users.items, lo);
    RecordKind(users.items, hi);
  }

  /** count_users_int */
  method CountUsers(users: HashTable) returns (n: nat)
    requires users.Valid()
    ensures n == |users.items|
  {
    n := if users.head != null then users.numItems else 0;
  }

  /** find_all_int: the loop ends with its cursor past the last item, so the result is
      NULL whatever the table holds. */
  method FindAll(users: HashTable) returns (el: Handle?)
    requires users.Valid()
    ensures el == null
  {
    ghost var k := 0;
    Front(users);
    el := users.head;
    var tmp := if users.head != null then users.head.next else null;
    while el != null
      invariant k <= |users.items| && el == At(users.items, k) && tmp == At(users.items, k + 1)
      decreases |users.items| - k
    {
      el := tmp;
      if k + 1 < |users.items| { NextOf(users, k + 1); }
      tmp := if tmp != null then tmp.next else null;
      k := k + 1;
    }
  }
}
