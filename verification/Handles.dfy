/** UT_hash_handle with its two pairs of links. A registry record embeds two
    handles, hh and ah, at constant offsets, so a pointer to the record and a
    pointer to one of its handles determine each other (ELMT_FROM_HH): here a
    handle stands for the pointer, carries the record's id and value, and its
    `twin` leads from a record's hh to its ah. */
module Handles {
  import opened Sequences

  class Handle {
    const key: int          // the record's id, which is its key
    const val: int          // the record's value
    const twin: Handle?     // the ah of the same record; null for an ah
    var prev: Handle?       // app order
    var next: Handle?
    var hhPrev: Handle?     // bucket order
    var hhNext: Handle?
    var hashv: nat

    constructor Ah(key: int, val: int)
      ensures this.key == key && this.val == val && twin == null
    {
      this.key, this.val, twin := key, val, null;
      prev, next, hhPrev, hhNext, hashv := null, null, null, null, 0;
    }

    constructor Hh(key: int, val: int, ah: Handle)
      ensures this.key == key && this.val == val && twin == ah
    {
      this.key, this.val, twin := key, val, ah;
      prev, next, hhPrev, hhNext, hashv := null, null, null, null, 0;
    }

    /** Is this the hh (or, for a table of selected records, the ah) of a record? */
    ghost predicate Kind(alt: bool)
    {
      if alt then twin == null
      else twin != null && twin.twin == null && twin.key == key && twin.val == val
    }
  }

  /** Handles of one kind, all of different records. */
  ghost predicate Records(s: seq<Handle>, alt: bool)
  {
    && (forall i {:trigger s[i]} :: 0 <= i < |s| ==> s[i].Kind(alt))
    && (!alt ==> forall i, j :: 0 <= i < j < |s| ==> s[i].twin != s[j].twin)
  }

  /** `h` belongs to none of the records in `s`. */
  ghost predicate NewRecord(h: Handle, s: seq<Handle>, alt: bool)
  {
    && h !in s
    && h.Kind(alt)
    && (!alt ==> forall i :: 0 <= i < |s| ==> s[i].twin != h.twin)
  }

  lemma NoRecords(alt: bool)
    ensures Records([], alt)
  {
  }

  lemma RecordsAppend(s: seq<Handle>, h: Handle, alt: bool)
    requires Records(s, alt) && NewRecord(h, s, alt)
    ensures Records(s + [h], alt) && h !in s
  {
  }

  lemma RecordsWithout(s: seq<Handle>, k: nat, alt: bool)
    requires Records(s, alt) && k < |s|
    ensures Records(Without(s, k), alt)
  {
    var t := Without(s, k);
    assert forall i :: 0 <= i < |t| ==> t[i] == s[if i < k then i else i + 1];
  }

  lemma RecordsPermuted(s: seq<Handle>, t: seq<Handle>, alt: bool)
    requires Records(s, alt) && Distinct(t) && multiset(s) == multiset(t)
    ensures Records(t, alt)
  {
    forall i | 0 <= i < |t| ensures t[i] in s {
      assert t[i] in multiset(t);
    }
    forall i, j | 0 <= i < j < |t| && !alt ensures t[i].twin != t[j].twin {
      var m :| 0 <= m < |s| && s[m] == t[i];
      var n :| 0 <= n < |s| && s[n] == t[j];
      assert m != n;
    }
  }

  function At(s: seq<Handle>, i: int): (h: Handle?)
  {
    if 0 <= i < |s| then s[i] else null
  }

  /** `s` is a doubly linked list in app order. */
  ghost predicate AppLinked(s: seq<Handle>)
    reads s`prev, s`next
  {
    && Distinct(s)
    && (forall i {:trigger s[i].next} :: 0 <= i < |s| ==> s[i].next == At(s, i + 1))
    && (forall i {:trigger s[i].prev} :: 0 <= i < |s| ==> s[i].prev == At(s, i - 1))
  }

  /** `s` is a bucket chain. */
  ghost predicate ChainLinked(s: seq<Handle>)
    reads s`hhPrev, s`hhNext
  {
    && Distinct(s)
    && (forall i {:trigger s[i].hhNext} :: 0 <= i < |s| ==> s[i].hhNext == At(s, i + 1))
    && (forall i {:trigger s[i].hhPrev} :: 0 <= i < |s| ==> s[i].hhPrev == At(s, i - 1))
  }

  method AppAppend(h: Handle, tail: Handle, ghost s: seq<Handle>)
    requires AppLinked(s) && s != [] && tail == s[|s| - 1] && h !in s
    modifies tail`next, h`next, h`prev
    ensures AppLinked(s + [h])
  {
    h.next := null;
    tail.next := h;
    h.prev := tail;
  }

  method AppUnlink(h: Handle, ghost s: seq<Handle>, ghost k: nat)
    requires AppLinked(s) && k < |s| && h == s[k]
    modifies s`next, s`prev
    ensures AppLinked(Without(s, k))
  {
    if h.prev != null {
      h.prev.next := h.next;
    }
    if h.next != null {
      h.next.prev := h.prev;
    }
    ghost var t := Without(s, k);
    forall i | 0 <= i < |t|
      ensures t[i].next == At(t, i + 1) && t[i].prev == At(t, i - 1)
    {
      WithoutIndex(s, k, i);
    }
  }

  method ChainPush(h: Handle, head: Handle?, ghost s: seq<Handle>)
    requires ChainLinked(s) && head == At(s, 0) && h !in s
    modifies h`hhNext, h`hhPrev, (if head == null then {} else {head})`hhPrev
    ensures ChainLinked([h] + s)
  {
    h.hhNext := head;
    h.hhPrev := null;
    if head != null {
      head.hhPrev := h;
    }
  }

  method ChainUnlink(h: Handle, ghost s: seq<Handle>, ghost k: nat)
    requires ChainLinked(s) && k < |s| && h == s[k]
    modifies s`hhNext, s`hhPrev
    ensures ChainLinked(Without(s, k))
  {
    if h.hhPrev != null {
      h.hhPrev.hhNext := h.hhNext;
    }
    if h.hhNext != null {
      h.hhNext.hhPrev := h.hhPrev;
    }
    ghost var t := Without(s, k);
    forall i | 0 <= i < |t|
      ensures t[i].hhNext == At(t, i + 1) && t[i].hhPrev == At(t, i - 1)
    {
      WithoutIndex(s, k, i);
    }
  }
}
