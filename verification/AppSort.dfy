/** HASH_SRT in place: the merge sort relinks next and prev of the app-order list,
    and leaves every other field of every handle alone. */
module AppSort {
  import opened Sequences
  import opened Handles
  import opened MergeSort
  import opened Bits

  /** Reachable by following next, down to null. */
  ghost predicate NextLinked(s: seq<Handle>)
    reads s`next
  {
    forall i {:trigger s[i].next} :: 0 <= i < |s| ==> s[i].next == At(s, i + 1)
  }

  /** A run whose last item points anywhere. */
  ghost predicate Run(s: seq<Handle>)
    reads s`next
  {
    forall i {:trigger s[i].next} :: 0 <= i < |s| - 1 ==> s[i].next == s[i + 1]
  }

  /** The merged part of the list: complete but for the last next. */
  ghost predicate Output(d: seq<Handle>)
    reads d`next, d`prev
  {
    && Run(d)
    && forall i {:trigger d[i].prev} :: 0 <= i < |d| ==> d[i].prev == At(d, i - 1)
  }

  /** What is still to be merged: a run p, and a run q followed by the rest. */
  ghost predicate Input(p: seq<Handle>, q: seq<Handle>, r: seq<Handle>)
    reads p`next, q`next, r`next
  {
    Run(p) && NextLinked(q + r)
  }

  /** Append e to the merged part. */
  method Emit(e: Handle, list: Handle?, tail: Handle?, ghost d: seq<Handle>) returns (list': Handle?, tail': Handle?)
    requires Output(d) && Distinct(d) && e !in d && list == At(d, 0) && tail == At(d, |d| - 1)
    modifies e`prev, (if tail == null then {} else {tail})`next
    ensures Output(d + [e]) && list' == At(d + [e], 0) && tail' == e
  {
    list' := list;
    if tail != null {
      tail.next := e;
    } else {
      list' := e;
    }
    e.prev := tail;
    tail' := e;
  }

  lemma TakeP(d: seq<Handle>, p: seq<Handle>, q: seq<Handle>, r: seq<Handle>)
    requires Distinct(d + p + q + r) && p != []
    ensures Distinct(d + [p[0]] + p[1..] + q + r)
  {
    assert d + [p[0]] + p[1..] + q + r == d + p + q + r;
  }

  lemma TakeQ(d: seq<Handle>, p: seq<Handle>, q: seq<Handle>, r: seq<Handle>)
    requires Distinct(d + p + q + r) && q != []
    ensures Distinct(d + [q[0]] + p + q[1..] + r)
  {
    var s, t := d + p + q + r, d + [q[0]] + p + q[1..] + r;
    var n, m := |d|, |d| + |p|;
    forall i | 0 <= i < |t| ensures t[i] == s[if i < n || i > m then i else if i == n then m else i - 1] {
    }
  }

  lemma Apart(d: seq<Handle>, p: seq<Handle>, q: seq<Handle>, r: seq<Handle>, x: Handle)
    requires Distinct(d + p + q + r)
    ensures Distinct(d)
    ensures x in d ==> x !in p && x !in q && x !in r
    ensures x in p ==> x !in q && x !in r
  {
    var s := d + p + q + r;
    forall i | 0 <= i < |d| ensures d[i] == s[i] {
    }
    forall i | 0 <= i < |p| ensures p[i] == s[|d| + i] {
    }
    forall i | 0 <= i < |q| ensures q[i] == s[|d| + |p| + i] {
    }
    forall i | 0 <= i < |r| ensures r[i] == s[|d| + |p| + |q| + i] {
    }
  }

  /** The list between two turns of HASH_SRT's merge loop. */
  ghost predicate Merging(list: Handle?, tail: Handle?, d: seq<Handle>, P: seq<Handle>, Q: seq<Handle>, R: seq<Handle>)
    reads d`next, d`prev, P`next, Q`next, R`next
  {
    && Distinct(d + P + Q + R)
    && Output(d) && list == At(d, 0) && tail == At(d, |d| - 1)
    && Input(P, Q, R)
  }

  /** The branches of HASH_SRT's merge loop that take from the first run. */
  method EmitP(p: Handle, list: Handle?, tail: Handle?,
               ghost d: seq<Handle>, ghost P: seq<Handle>, ghost Q: seq<Handle>, ghost R: seq<Handle>)
    returns (p': Handle?, list': Handle?, tail': Handle?)
    requires Merging(list, tail, d, P, Q, R) && P != [] && p == P[0]
    modifies p`prev, (if tail == null then {} else {tail})`next
    ensures Merging(list', tail', d + [p], P[1..], Q, R) && (|P| > 1 ==> p' == P[1])
  {
    TakeP(d, P, Q, R);
    p' := p.next;
    Apart(d, P, Q, R, p);
    if tail != null {
      Apart(d, P, Q, R, tail);
    }
    list', tail' := Emit(p, list, tail, d);
    forall i | 0 <= i < |P[1..]| - 1 ensures P[1..][i].next == P[1..][i + 1] {
      assert P[i + 1] in P;
    }
    forall i | 0 <= i < |Q + R| ensures (Q + R)[i].next == At(Q + R, i + 1) {
      assert (Q + R)[i] in Q + R;
    }
  }

  /** The branches of HASH_SRT's merge loop that take from the second run. */
  method EmitQ(q: Handle, list: Handle?, tail: Handle?,
               ghost d: seq<Handle>, ghost P: seq<Handle>, ghost Q: seq<Handle>, ghost R: seq<Handle>)
    returns (q': Handle?, list': Handle?, tail': Handle?)
    requires Merging(list, tail, d, P, Q, R) && Q != [] && q == Q[0]
    modifies q`prev, (if tail == null then {} else {tail})`next
    ensures Merging(list', tail', d + [q], P, Q[1..], R) && q' == At(Q[1..] + R, 0)
  {
    TakeQ(d, P, Q, R);
    assert (Q + R)[0] == q && Q[1..] + R == (Q + R)[1..];
    q' := q.next;
    Apart(d, P, Q, R, q);
    if tail != null {
      Apart(d, P, Q, R, tail);
    }
    list', tail' := Emit(q, list, tail, d);
    forall i | 0 <= i < |P| - 1 ensures P[i].next == P[i + 1] {
      assert P[i] in P;
    }
    ghost var s := Q[1..] + R;
    forall i | 0 <= i < |s| ensures s[i].next == At(s, i + 1) {
      assert s[i] == (Q + R)[i + 1] && s[i] in Q + R;
    }
  }

  lemma MergeTakesP(d: seq<Handle>, P: seq<Handle>, Q: seq<Handle>, cmp: (Handle, Handle) -> int)
    requires P != [] && (Q == [] || cmp(P[0], Q[0]) <= 0)
    ensures d + Merge(P, Q, cmp) == d + [P[0]] + Merge(P[1..], Q, cmp)
  {
    MergeFront(P, Q, cmp);
    assert d + ([P[0]] + Merge(P[1..], Q, cmp)) == d + [P[0]] + Merge(P[1..], Q, cmp);
  }

  lemma MergeFront(P: seq<Handle>, Q: seq<Handle>, cmp: (Handle, Handle) -> int)
    requires P != [] && (Q == [] || cmp(P[0], Q[0]) <= 0)
    ensures Merge(P, Q, cmp) == [P[0]] + Merge(P[1..], Q, cmp)
  {
    if Q == [] {
      assert P == [P[0]] + P[1..];
      assert P[1..] == [] ==> Merge(P[1..], Q, cmp) == [];
    }
  }

  lemma MergeTakesQ(d: seq<Handle>, P: seq<Handle>, Q: seq<Handle>, cmp: (Handle, Handle) -> int)
    requires Q != [] && (P == [] || cmp(P[0], Q[0]) > 0)
    ensures d + Merge(P, Q, cmp) == d + [Q[0]] + Merge(P, Q[1..], cmp)
  {
    assert Q == [Q[0]] + Q[1..];
  }

  /** HASH_SRT's variables agree with the runs: psize and qsize count down, and the
      second run ends early only at the end of the list. */
  ghost predicate Cursors(p: Handle?, q: Handle?, psize: nat, qsize: nat, P: seq<Handle>, Q: seq<Handle>,
                          R: seq<Handle>)
  {
    && psize == |P| && (P != [] ==> p == P[0])
    && q == At(Q + R, 0)
    && |Q| <= qsize && (|Q| < qsize ==> R == [])
  }

  ghost predicate Within(s: seq<Handle>, S: set<Handle>)
  {
    forall i {:trigger s[i]} :: 0 <= i < |s| ==> s[i] in S
  }

  lemma TailOfOutput(list: Handle?, tail: Handle?, d: seq<Handle>, P: seq<Handle>, Q: seq<Handle>, R: seq<Handle>)
    requires Merging(list, tail, d, P, Q, R)
    ensures tail == At(d, |d| - 1)
  {
  }

  /** One turn of the merge loop. */
  method MergeStep(p: Handle?, q: Handle?, psize: nat, qsize: nat, list: Handle?, tail: Handle?,
                   cmp: (Handle, Handle) -> int,
                   ghost d: seq<Handle>, ghost P: seq<Handle>, ghost Q: seq<Handle>, ghost R: seq<Handle>,
                   ghost S: set<Handle>)
    returns (p': Handle?, q': Handle?, psize': nat, qsize': nat, list': Handle?, tail': Handle?,
             ghost d': seq<Handle>, ghost P': seq<Handle>, ghost Q': seq<Handle>)
    requires Merging(list, tail, d, P, Q, R) && Cursors(p, q, psize, qsize, P, Q, R)
    requires Within(d, S) && Within(P, S) && Within(Q, S)
    requires psize > 0 || (qsize > 0 && q != null)
    modifies S`next, S`prev
    ensures Merging(list', tail', d', P', Q', R) && Cursors(p', q', psize', qsize', P', Q', R)
    ensures Within(d', S) && Within(P', S) && Within(Q', S)
    ensures d' + Merge(P', Q', cmp) == d + Merge(P, Q, cmp)
    ensures |P'| + |Q'| < |P| + |Q|
  {
    hide Merging, Merge;
    p', q', psize', qsize', list', tail', d', P', Q' := p, q, psize, qsize, list, tail, d, P, Q;
    TailOfOutput(list, tail, d, P, Q, R);
    if psize == 0 || !(qsize == 0 || q == null || cmp(p, q) <= 0) {
      MergeTakesQ(d, P, Q, cmp);
      q', list', tail' := EmitQ(q, list, tail, d, P, Q, R);
      qsize' := qsize - 1;
      d', Q' := d + [q], Q[1..];
    } else {
      MergeTakesP(d, P, Q, cmp);
      p', list', tail' := EmitP(p, list, tail, d, P, Q, R);
      psize' := psize - 1;
      d', P' := d + [p], P[1..];
    }
  }

  /** The merge loop of HASH_SRT. */
  method MergeRuns(p0: Handle?, q0: Handle?, psize0: nat, insize: nat, list0: Handle?, tail0: Handle?,
                   cmp: (Handle, Handle) -> int, ghost d0: seq<Handle>,
                   ghost P0: seq<Handle>, ghost Q0: seq<Handle>, ghost R: seq<Handle>, ghost S: set<Handle>)
    returns (q: Handle?, list: Handle?, tail: Handle?)
    requires Merging(list0, tail0, d0, P0, Q0, R) && Cursors(p0, q0, psize0, insize, P0, Q0, R)
    requires Within(d0, S) && Within(P0, S) && Within(Q0, S)
    modifies S`next, S`prev
    ensures Merging(list, tail, d0 + Merge(P0, Q0, cmp), [], [], R)
    ensures Within(d0 + Merge(P0, Q0, cmp), S)
    ensures q == At(R, 0)
  {
    hide Merging, Merge, Within;
    ghost var d, P, Q := d0, P0, Q0;
    var p, psize, qsize := p0, psize0, insize;
    q, list, tail := q0, list0, tail0;
    while psize > 0 || (qsize > 0 && q != null)
      invariant Merging(list, tail, d, P, Q, R) && Cursors(p, q, psize, qsize, P, Q, R)
      invariant Within(d, S) && Within(P, S) && Within(Q, S)
      invariant d + Merge(P, Q, cmp) == d0 + Merge(P0, Q0, cmp)
      decreases |P| + |Q|
    {
      p, q, psize, qsize, list, tail, d, P, Q := MergeStep(p, q, psize, qsize, list, tail, cmp, d, P, Q, R, S);
    }
    assert P == [] && Q == [];
    MergeEmpty(cmp);
    assert d == d0 + Merge(P0, Q0, cmp);
    assert [] + R == R;
  }

  lemma MergeEmpty(cmp: (Handle, Handle) -> int)
    ensures Merge<Handle>([], [], cmp) == []
  {
  }

  /** The loop of HASH_SRT that finds where the second run starts. */
  method SplitRun(p: Handle, insize: nat, ghost s: seq<Handle>) returns (psize: nat, q: Handle?)
    requires NextLinked(s) && s != [] && p == s[0] && 1 <= insize
    ensures psize == Min(insize, |s|) && q == At(s, psize)
  {
    q, psize := p, 0;
    for i := 0 to insize
      invariant psize == i <= |s| && q == At(s, i) && q != null
    {
      psize := psize + 1;
      q := q.next;
      if q == null { break; }
    }
  }

  /** nmerges merges of two runs of k consumed `done` items; only the last can be short. */
  ghost predicate MergeCount(nmerges: nat, k: nat, done: nat, left: nat)
  {
    if left > 0 then done == nmerges * (2 * k)
    else nmerges >= 1 && (nmerges - 1) * (2 * k) < done <= nmerges * (2 * k)
  }

  lemma MergeCountStep(nmerges: nat, k: nat, done: nat, left: nat)
    requires 1 <= k && 1 <= left && MergeCount(nmerges, k, done, left)
    ensures var m := Min(2 * k, left); MergeCount(nmerges + 1, k, done + m, left - m)
  {
    assert (nmerges + 1) * (2 * k) == nmerges * (2 * k) + 2 * k;
  }

  /** The number of merges in a pass over n items. */
  lemma MergesInPass(n: nat, k: nat, nmerges: nat)
    requires 1 <= k && MergeCount(nmerges, k, n, 0)
    ensures nmerges == CeilDiv(n, 2 * k)
  {
    var b := 2 * k;
    DivUnique(n + b - 1, b, nmerges, n + b - 1 - nmerges * b);
  }

  /** The two runs that HASH_SRT merges next, and what is left after them. */
  lemma NextRuns(L: seq<Handle>, k: nat, cmp: (Handle, Handle) -> int)
    returns (P: seq<Handle>, Q: seq<Handle>, R: seq<Handle>)
    requires L != [] && 1 <= k
    ensures L == P + Q + R
    ensures |P| == Min(k, |L|) && |P + Q| == Min(2 * k, |L|)
    ensures Pass(L, k, cmp) == Merge(P, Q, cmp) + Pass(R, k, cmp)
  {
    var i, j := Min(k, |L|), Min(2 * k, |L|);
    P, Q, R := L[..i], L[i..j], L[j..];
  }

  /** Cutting the list into runs leaves the links as they are. */
  lemma Cut(list: Handle?, tail: Handle?, d: seq<Handle>, L: seq<Handle>, P: seq<Handle>, Q: seq<Handle>,
            R: seq<Handle>)
    requires Merging(list, tail, d, [], [], L) && L == P + Q + R
    ensures NextLinked(L)
    ensures Merging(list, tail, d, P, Q, R)
  {
    assert [] + L == L;
    assert d + [] + [] + L == d + P + Q + R;
    CutInput(L, P, Q, R);
  }

  lemma CutInput(L: seq<Handle>, P: seq<Handle>, Q: seq<Handle>, R: seq<Handle>)
    requires NextLinked(L) && L == P + Q + R
    ensures Input(P, Q, R)
  {
    var t, n := Q + R, |P|;
    assert forall k :: 0 <= k < |t| ==> t[k] == L[n + k];
    assert forall k :: 0 <= k < |P| ==> P[k] == L[k];
  }

  lemma CutCursors(p: Handle, q: Handle?, psize: nat, k: nat, L: seq<Handle>, P: seq<Handle>, Q: seq<Handle>,
                   R: seq<Handle>)
    requires 1 <= k && L != [] && p == L[0] && psize == Min(k, |L|) && q == At(L, psize)
    requires L == P + Q + R && |P| == Min(k, |L|) && |P + Q| == Min(2 * k, |L|)
    ensures Cursors(p, q, psize, k, P, Q, R)
  {
    assert L[|P|..] == Q + R;
  }

  lemma CutWithin(L: seq<Handle>, P: seq<Handle>, Q: seq<Handle>, R: seq<Handle>, S: set<Handle>)
    requires L == P + Q + R && Within(L, S)
    ensures Within(P, S) && Within(Q, S) && Within(R, S)
  {
    forall i | 0 <= i < |P| ensures P[i] in S {
      assert P[i] == L[i];
    }
    forall i | 0 <= i < |Q| ensures Q[i] in S {
      assert Q[i] == L[|P| + i];
    }
    forall i | 0 <= i < |R| ensures R[i] in S {
      assert R[i] == L[|P| + |Q| + i];
    }
  }

  /** The next two runs, ready to be merged behind the output. */
  lemma CutRuns(list: Handle?, tail: Handle?, d: seq<Handle>, L: seq<Handle>, k: nat, cmp: (Handle, Handle) -> int,
                S: set<Handle>)
    returns (P: seq<Handle>, Q: seq<Handle>, R: seq<Handle>)
    requires Merging(list, tail, d, [], [], L) && L != [] && 1 <= k && Within(L, S)
    ensures L == P + Q + R && |P| == Min(k, |L|) && |P + Q| == Min(2 * k, |L|)
    ensures Pass(L, k, cmp) == Merge(P, Q, cmp) + Pass(R, k, cmp)
    ensures NextLinked(L) && Merging(list, tail, d, P, Q, R)
    ensures Within(P, S) && Within(Q, S) && Within(R, S)
  {
    hide Merge, Pass, Merging, Within, NextLinked;
    P, Q, R := NextRuns(L, k, cmp);
    Cut(list, tail, d, L, P, Q, R);
    CutWithin(L, P, Q, R, S);
  }

  /** One turn of HASH_SRT's pass: split two runs off what is left and merge them. */
  method PassTurn(p: Handle, insize: nat, list: Handle?, tail: Handle?, cmp: (Handle, Handle) -> int,
                  ghost d: seq<Handle>, ghost L: seq<Handle>, ghost S: set<Handle>)
    returns (p': Handle?, list': Handle?, tail': Handle?, ghost d': seq<Handle>, ghost L': seq<Handle>)
    requires Merging(list, tail, d, [], [], L) && L != [] && p == L[0] && 1 <= insize
    requires Within(d, S) && Within(L, S)
    modifies S`next, S`prev
    ensures Merging(list', tail', d', [], [], L') && p' == At(L', 0)
    ensures Within(d', S) && Within(L', S)
    ensures |L'| == |L| - Min(2 * insize, |L|) && |d'| + |L'| == |d| + |L|
    ensures d' + Pass(L', insize, cmp) == d + Pass(L, insize, cmp)
  {
    hide Merge, Pass, Merging, Cursors, Within, NextLinked;
    ghost var P, Q;
    P, Q, L' := CutRuns(list, tail, d, L, insize, cmp, S);
    var psize, q := SplitRun(p, insize, L);
    CutCursors(p, q, psize, insize, L, P, Q, L');
    d' := d + Merge(P, Q, cmp);
    p', list', tail' := MergeRuns(p, q, psize, insize, list, tail, cmp, d, P, Q, L', S);
  }

  /** The list after nmerges merges of a pass over s. */
  ghost predicate InPass(list: Handle?, tail: Handle?, nmerges: nat, k: nat, cmp: (Handle, Handle) -> int,
                         d: seq<Handle>, L: seq<Handle>, s: seq<Handle>, S: set<Handle>)
    requires 1 <= k
    reads d`next, d`prev, L`next
  {
    && Merging(list, tail, d, [], [], L)
    && Within(d, S) && Within(L, S)
    && |d| + |L| == |s|
    && d + Pass(L, k, cmp) == Pass(s, k, cmp)
    && MergeCount(nmerges, k, |d|, |L|)
  }

  lemma StartPass(s: seq<Handle>, k: nat, cmp: (Handle, Handle) -> int, S: set<Handle>)
    requires NextLinked(s) && Distinct(s) && Within(s, S) && s != [] && 1 <= k
    ensures InPass(null, null, 0, k, cmp, [], s, s, S)
  {
    assert [] + s == s;
    assert [] + [] + [] + s == s;
    assert [] + Pass(s, k, cmp) == Pass(s, k, cmp);
  }

  method NextMerge(p: Handle, list: Handle?, tail: Handle?, nmerges: nat, k: nat, cmp: (Handle, Handle) -> int,
                   ghost d: seq<Handle>, ghost L: seq<Handle>, ghost s: seq<Handle>, ghost S: set<Handle>)
    returns (p': Handle?, list': Handle?, tail': Handle?, ghost d': seq<Handle>, ghost L': seq<Handle>)
    requires 1 <= k && InPass(list, tail, nmerges, k, cmp, d, L, s, S) && L != [] && p == L[0]
    modifies S`next, S`prev
    ensures InPass(list', tail', nmerges + 1, k, cmp, d', L', s, S) && p' == At(L', 0) && |L'| < |L|
  {
    hide MergeCount, Merging, Pass, Within;
    MergeCountStep(nmerges, k, |d|, |L|);
    p', list', tail', d', L' := PassTurn(p, k, list, tail, cmp, d, L, S);
  }

  /** HASH_SRT ends the merged list. */
  method EndPass(list: Handle?, tail: Handle?, ghost d: seq<Handle>) returns (list': Handle, tail': Handle)
    requires Merging(list, tail, d, [], [], []) && d != []
    modifies (if tail == null then {} else {tail})`next
    ensures AppLinked(d) && list' == list == d[0] && tail' == tail == d[|d| - 1]
  {
    assert d + [] + [] + [] == d;
    list', tail' := list, tail;
    tail'.next := null;
  }

  lemma PassDone(list: Handle?, tail: Handle?, nmerges: nat, k: nat, cmp: (Handle, Handle) -> int,
                 d: seq<Handle>, s: seq<Handle>, S: set<Handle>)
    requires 1 <= k && s != [] && InPass(list, tail, nmerges, k, cmp, d, [], s, S)
    ensures d == Pass(s, k, cmp) && Merging(list, tail, d, [], [], []) && d != [] && tail in S && Within(d, S)
    ensures nmerges == CeilDiv(|s|, 2 * k)
  {
    assert d + Pass([], k, cmp) == d;
    MergesInPass(|s|, k, nmerges);
  }

  /** One pass of HASH_SRT over the list, with its number of merges. */
  method SortPass(head: Handle, insize: nat, cmp: (Handle, Handle) -> int, ghost s: seq<Handle>, ghost S: set<Handle>)
    returns (list: Handle, tail: Handle, nmerges: nat)
    requires NextLinked(s) && Distinct(s) && s != [] && head == s[0] && 1 <= insize && Within(s, S)
    modifies S`next, S`prev
    ensures var t := Pass(s, insize, cmp);
            AppLinked(t) && list == t[0] && tail == t[|t| - 1] && Within(t, S)
    ensures nmerges == CeilDiv(|s|, 2 * insize)
  {
    hide InPass, CeilDiv, Pass, Merging, Within, NextLinked, Distinct;
    var p: Handle?, list': Handle?, tail': Handle? := head, null, null;
    ghost var d, L := [], s;
    nmerges := 0;
    StartPass(s, insize, cmp, S);
    while p != null
      invariant InPass(list', tail', nmerges, insize, cmp, d, L, s, S) && p == At(L, 0)
      decreases |L|
    {
      p, list', tail', d, L := NextMerge(p, list', tail', nmerges, insize, cmp, d, L, s, S);
      nmerges := nmerges + 1;
    }
    assert L == [];
    PassDone(list', tail', nmerges, insize, cmp, d, s, S);
    list, tail := EndPass(list', tail', d);
  }

  /** HASH_SRT: the caller's head and the table's tail after sorting. */
  method Sort(head: Handle, cmp: (Handle, Handle) -> int, ghost s: seq<Handle>)
    returns (head': Handle, tail': Handle)
    requires AppLinked(s) && s != [] && head == s[0]
    modifies s`next, s`prev
    ensures var t := Passes(s, 1, cmp); AppLinked(t) && head' == t[0] && tail' == t[|t| - 1]
  {
    hide AppLinked, Within, Pass, Passes, CeilDiv, NextLinked, Distinct;
    ghost var S, cur := Elements(s), s;
    AllWithin(s);
    var insize, looping := 1, true;
    head', tail' := head, head;
    while looping
      invariant 1 <= insize && insize <= 2 * |s|
      invariant |cur| == |s| && AppLinked(cur) && head' == cur[0] && Within(cur, S)
      invariant if looping then (insize == 1 || insize < |s|) && Passes(cur, insize, cmp) == Passes(s, 1, cmp)
                else cur == Passes(s, 1, cmp) && tail' == cur[|cur| - 1]
      decreases looping, 2 * |s| - insize
    {
      var nmerges;
      LinkedOneWay(cur);
      PassesStep(cur, insize, cmp);
      head', tail', nmerges := SortPass(head', insize, cmp, cur, S);
      OneMerge(|s|, insize);
      cur := Pass(cur, insize, cmp);
      if nmerges <= 1 {
        looping := false;
      }
      insize := insize * 2;
    }
  }

  lemma AllWithin(s: seq<Handle>)
    ensures Within(s, Elements(s))
  {
  }

  lemma LinkedOneWay(s: seq<Handle>)
    requires AppLinked(s)
    ensures NextLinked(s) && Distinct(s)
  {
  }

  lemma PassesStep(s: seq<Handle>, k: nat, cmp: (Handle, Handle) -> int)
    requires 1 <= k
    ensures |Pass(s, k, cmp)| == |s|
    ensures Passes(s, k, cmp) == if |s| <= 2 * k then Pass(s, k, cmp) else Passes(Pass(s, k, cmp), 2 * k, cmp)
  {
    hide Pass;
  }

  /** A pass makes at most one merge exactly when two runs cover the list. */
  lemma OneMerge(n: nat, k: nat)
    requires 1 <= k
    ensures CeilDiv(n, 2 * k) <= 1 <==> n <= 2 * k
  {
    CeilDivSplit(n, 2 * k);
    var q, r := n / (2 * k), n % (2 * k);
    assert n == 2 * k * q + r;
    if n <= 2 * k {
      if n == 2 * k {
        DivUnique(n, 2 * k, 1, 0);
      } else {
        DivUnique(n, 2 * k, 0, n);
      }
    } else {
      assert q >= 1;
    }
  }
}
