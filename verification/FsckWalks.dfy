/** HASH_FSCK's two walks, along a bucket chain and along the app order: each passes if and
    only if the links make up a doubly linked list from its head. */
module FsckWalks {
  import opened Sequences
  import opened Handles

  /** One pair of links of every handle in memory. */
  datatype Links = Links(next: map<Handle, Handle?>, prev: map<Handle, Handle?>)

  /** Every link leads to a handle in memory or nowhere. */
  ghost predicate Closed(L: Links)
  {
    L.next.Keys == L.prev.Keys && forall h :: h in L.next ==> L.next[h] == null || L.next[h] in L.next
  }

  ghost predicate LinkedBy(v: seq<Handle>, L: Links)
  {
    && Distinct(v)
    && forall i {:trigger v[i]} :: 0 <= i < |v| ==>
         v[i] in L.next && v[i] in L.prev && L.next[v[i]] == At(v, i + 1) && L.prev[v[i]] == At(v, i - 1)
  }

  /** A walk from first has passed the handles w, each of which leads back to the one before
      it, and has come to thh. */
  ghost predicate Walk(first: Handle?, w: seq<Handle>, thh: Handle?, L: Links)
  {
    && Distinct(w) && first == (if w == [] then thh else w[0]) && (thh == null || thh in L.next)
    && forall i {:trigger w[i]} :: 0 <= i < |w| ==>
         && w[i] in L.next && w[i] in L.prev
         && L.next[w[i]] == (if i + 1 < |w| then w[i + 1] else thh) && L.prev[w[i]] == At(w, i - 1)
  }

  lemma NothingSeen(first: Handle?, L: Links)
    requires first == null || first in L.next
    ensures Walk(first, [], first, L)
  {
  }

  /** No handle is met twice, because its link back would lead to two handles. */
  lemma NeverTwice(first: Handle?, w: seq<Handle>, thh: Handle, L: Links)
    requires Walk(first, w, thh, L) && thh in L.prev && L.prev[thh] == At(w, |w| - 1)
    ensures thh !in w
  {
  }

  lemma WalkStep(first: Handle?, w: seq<Handle>, thh: Handle, L: Links)
    requires Closed(L) && Walk(first, w, thh, L) && L.prev[thh] == At(w, |w| - 1)
    ensures Walk(first, w + [thh], L.next[thh], L) && |w| < |L.next.Keys|
  {
    var w' := w + [thh];
    NeverTwice(first, w, thh, L);
    forall i | 0 <= i < |w'|
      ensures w'[i] in L.next && w'[i] in L.prev && L.prev[w'[i]] == At(w', i - 1)
      ensures L.next[w'[i]] == if i + 1 < |w'| then w'[i + 1] else L.next[thh]
    {
      assert i < |w| ==> w'[i] == w[i];
    }
    DistinctWithin(w', L.next.Keys);
  }

  /** One step along a walk and along a list. */
  lemma NextOnWalk(first: Handle?, w: seq<Handle>, thh: Handle?, L: Links, i: nat)
    requires Walk(first, w, thh, L) && i < |w|
    ensures w[i] in L.next && L.next[w[i]] == if i + 1 < |w| then w[i + 1] else thh
  {
  }

  lemma NextInList(v: seq<Handle>, L: Links, i: nat)
    requires LinkedBy(v, L) && i < |v|
    ensures v[i] in L.next && v[i] in L.prev && L.next[v[i]] == At(v, i + 1) && L.prev[v[i]] == At(v, i - 1)
  {
  }

  lemma WalkStarts(first: Handle?, w: seq<Handle>, thh: Handle?, L: Links)
    requires Walk(first, w, thh, L)
    ensures first == if w == [] then thh else w[0]
  {
  }

  /** A list from the same head begins with what the walk has seen. */
  lemma {:induction false} Seen(first: Handle?, w: seq<Handle>, thh: Handle?, L: Links, v: seq<Handle>, n: nat)
    requires Walk(first, w, thh, L) && LinkedBy(v, L) && first == At(v, 0) && n <= |w|
    ensures n <= |v| && At(v, n) == if n < |w| then w[n] else thh
    ensures n > 0 ==> v[n - 1] == w[n - 1]
  {
    hide Walk, LinkedBy;
    if n == 0 {
      WalkStarts(first, w, thh, L);
    } else {
      Seen(first, w, thh, L, v, n - 1);
      NextOnWalk(first, w, thh, L, n - 1);
      NextInList(v, L, n - 1);
    }
  }

  /** A wrong link back means that there is no list. */
  lemma Broken(first: Handle?, w: seq<Handle>, thh: Handle, L: Links, v: seq<Handle>)
    requires Walk(first, w, thh, L) && thh in L.prev && L.prev[thh] != At(w, |w| - 1)
    requires LinkedBy(v, L)
    ensures first != At(v, 0)
  {
    hide Walk, LinkedBy;
    if first == At(v, 0) {
      Seen(first, w, thh, L, v, |w|);
      NextInList(v, L, |w|);
    }
  }

  lemma AllSeen(first: Handle?, w: seq<Handle>, L: Links)
    requires Walk(first, w, null, L)
    ensures LinkedBy(w, L) && first == At(w, 0)
  {
  }

  lemma ListIsWalk(w: seq<Handle>, L: Links)
    requires LinkedBy(w, L)
    ensures Walk(At(w, 0), w, null, L)
  {
  }

  /** There is only one list from a head. */
  lemma OneList(v: seq<Handle>, w: seq<Handle>, L: Links)
    requires LinkedBy(v, L) && LinkedBy(w, L) && At(v, 0) == At(w, 0)
    ensures v == w
  {
    hide Walk, LinkedBy;
    ListIsWalk(w, L);
    Seen(At(w, 0), w, null, L, v, |w|);
    forall i | 0 <= i < |w| ensures v[i] == w[i] {
      Seen(At(w, 0), w, null, L, v, i);
    }
  }

  // ----- bucket chains

  ghost predicate ChainClosed(S: set<Handle>)
    reads S`hhNext
  {
    forall h :: h in S ==> h.hhNext == null || h.hhNext in S
  }

  ghost function ChainLinks(S: set<Handle>): Links
    reads S`hhNext, S`hhPrev
  {
    Links(map h | h in S :: h.hhNext, map h | h in S :: h.hhPrev)
  }

  lemma {:induction false} ChainWithin(v: seq<Handle>, S: set<Handle>, n: nat)
    requires ChainLinked(v) && ChainClosed(S) && (v == [] || v[0] in S) && n < |v|
    ensures v[n] in S
  {
    if n > 0 {
      ChainWithin(v, S, n - 1);
      assert v[n - 1].hhNext == v[n];
    }
  }

  lemma ChainIsList(v: seq<Handle>, S: set<Handle>)
    requires ChainClosed(S) && (v == [] || v[0] in S)
    ensures ChainLinked(v) <==> LinkedBy(v, ChainLinks(S))
  {
    if ChainLinked(v) {
      forall i | 0 <= i < |v| ensures v[i] in S {
        ChainWithin(v, S, i);
      }
    }
  }

  lemma OneChain(v: seq<Handle>, w: seq<Handle>, S: set<Handle>)
    requires ChainLinked(v) && ChainLinked(w) && At(v, 0) == At(w, 0)
    requires ChainClosed(S) && (v == [] || v[0] in S)
    ensures v == w
  {
    hide ChainLinked, LinkedBy;
    ChainIsList(v, S);
    ChainIsList(w, S);
    OneList(v, w, ChainLinks(S));
  }

  /** The walk along one bucket. */
  method FsckChain(first: Handle?, ghost S: set<Handle>) returns (ok: bool, count: nat, ghost w: seq<Handle>)
    requires ChainClosed(S) && (first == null || first in S)
    ensures ok ==> ChainLinked(w) && first == At(w, 0) && count == |w|
    ensures !ok ==> forall v :: ChainLinked(v) ==> first != At(v, 0)
  {
    hide Walk, ChainLinked, LinkedBy;
    ghost var L := ChainLinks(S);
    var thh, prev: Handle? := first, null;
    count, w := 0, [];
    NothingSeen(first, L);
    while thh != null
      invariant count == |w| && prev == At(w, count - 1) && Walk(first, w, thh, L) && (thh == null || thh in S)
      decreases |S| - |w|
    {
      if prev != thh.hhPrev {
        forall v | ChainLinked(v) ensures first != At(v, 0) {
          if first == At(v, 0) {
            ChainIsList(v, S);
            Broken(first, w, thh, L, v);
          }
        }
        return false, count, w;
      }
      WalkStep(first, w, thh, L);
      assert L.next.Keys == S;
      count, w := count + 1, w + [thh];
      prev := thh;
      thh := thh.hhNext;
    }
    AllSeen(first, w, L);
    ChainIsList(w, S);
    ok := true;
  }

  // ----- the app order

  ghost predicate OrderClosed(S: set<Handle>)
    reads S`next
  {
    forall h :: h in S ==> h.next == null || h.next in S
  }

  ghost function OrderLinks(S: set<Handle>): Links
    reads S`next, S`prev
  {
    Links(map h | h in S :: h.next, map h | h in S :: h.prev)
  }

  lemma {:induction false} OrderWithin(v: seq<Handle>, S: set<Handle>, n: nat)
    requires AppLinked(v) && OrderClosed(S) && (v == [] || v[0] in S) && n < |v|
    ensures v[n] in S
  {
    if n > 0 {
      OrderWithin(v, S, n - 1);
      assert v[n - 1].next == v[n];
    }
  }

  lemma OrderIsList(v: seq<Handle>, S: set<Handle>)
    requires OrderClosed(S) && (v == [] || v[0] in S)
    ensures AppLinked(v) <==> LinkedBy(v, OrderLinks(S))
  {
    if AppLinked(v) {
      forall i | 0 <= i < |v| ensures v[i] in S {
        OrderWithin(v, S, i);
      }
    }
  }

  lemma OneOrder(v: seq<Handle>, w: seq<Handle>, S: set<Handle>)
    requires AppLinked(v) && AppLinked(w) && At(v, 0) == At(w, 0)
    requires OrderClosed(S) && (v == [] || v[0] in S)
    ensures v == w
  {
    hide AppLinked, LinkedBy;
    OrderIsList(v, S);
    OrderIsList(w, S);
    OneList(v, w, OrderLinks(S));
  }

  /** The walk along the app order. */
  method FsckOrder(first: Handle?, ghost S: set<Handle>) returns (ok: bool, count: nat, ghost w: seq<Handle>)
    requires OrderClosed(S) && (first == null || first in S)
    ensures ok ==> AppLinked(w) && first == At(w, 0) && count == |w|
    ensures !ok ==> forall v :: AppLinked(v) ==> first != At(v, 0)
  {
    hide Walk, AppLinked, LinkedBy;
    ghost var L := OrderLinks(S);
    var thh, prev: Handle? := first, null;
    count, w := 0, [];
    NothingSeen(first, L);
    while thh != null
      invariant count == |w| && prev == At(w, count - 1) && Walk(first, w, thh, L) && (thh == null || thh in S)
      decreases |S| - |w|
    {
      count := count + 1;
      if prev != thh.prev {
        forall v | AppLinked(v) ensures first != At(v, 0) {
          if first == At(v, 0) {
            OrderIsList(v, S);
            Broken(first, w, thh, L, v);
          }
        }
        return false, count, w;
      }
      WalkStep(first, w, thh, L);
      assert L.next.Keys == S;
      w := w + [thh];
      prev := thh;
      thh := thh.next;
    }
    AllSeen(first, w, L);
    OrderIsList(w, S);
    ok := true;
  }
}
