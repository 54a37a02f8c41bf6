/** The shrink path of set_max_connections: the loop that moves connections towards the front
    of the pool, when it stays inside the array, what it leaves, and when that is a pool. */
module ConnShrinks {
  import opened Wrappers
  import opened Timespecs
  import opened ConnSlots

  // ----- the loop

  /** ap_net_connection_copy: everything but the slot's own index. */
  function Copied(dst: Conn, src: Conn): Conn
  {
    src.(idx := dst.idx)
  }

  /** What the loop does to a slot after it was copied. */
  function Cleared(c: Conn): Conn
  {
    c.(state := c.state - {Connected}, fd := -1)
  }

  function Shifted(s: seq<Conn>, n: nat, i: nat): (r: seq<Conn>)
    requires n < |s| && i < |s|
    ensures |r| == |s|
  {
    var t := s[n := Copied(s[n], s[i])];
    t[i := Cleared(t[i])]
  }

  /** The first slot from n on that is not connected, or the end. */
  function NextFree(s: seq<Conn>, n: nat): (r: nat)
    requires n <= |s|
    ensures n <= r <= |s| && (r < |s| ==> !Live(s[r])) && forall j :: n <= j < r ==> Live(s[j])
    decreases |s| - n
  {
    if n == |s| || !Live(s[n]) then n else NextFree(s, n + 1)
  }

  /** The loop from slot i on, which looks for a free slot from n on each time and one further
      after it; None when the search leaves the array. */
  function Moved(s: seq<Conn>, i: nat, n: nat): (r: Option<seq<Conn>>)
    requires i <= |s| && n <= |s|
    ensures r.Some? ==> |r.value| == |s|
    decreases |s| - i
  {
    if i == |s| then Some(s)
    else
      var p := NextFree(s, n);
      if p == |s| then None else Moved(Shifted(s, p, i), i + 1, p + 1)
  }

  /** Its signals. */
  function MoveSignals(s: seq<Conn>, i: nat, n: nat): seq<Event>
    requires i <= |s| && n <= |s|
    decreases |s| - i
  {
    if i == |s| || NextFree(s, n) == |s| then []
    else
      var p := NextFree(s, n);
      [Event(MovedTo, p), Event(MovedFrom, i)] + MoveSignals(Shifted(s, p, i), i + 1, p + 1)
  }

  lemma MovedStep(s: seq<Conn>, i: nat, n: nat)
    requires i < |s| && n <= |s| && Moved(s, i, n).Some?
    ensures var p := NextFree(s, n);
            && p < |s| && Moved(s, i, n) == Moved(Shifted(s, p, i), i + 1, p + 1)
            && MoveSignals(s, i, n)
            == [Event(MovedTo, p), Event(MovedFrom, i)] + MoveSignals(Shifted(s, p, i), i + 1, p + 1)
  {
  }

  lemma MovedAll(s: seq<Conn>, n: nat)
    requires n <= |s|
    ensures Moved(s, |s|, n) == Some(s) && MoveSignals(s, |s|, n) == []
  {
  }

  // ----- when it stays inside the array

  /** The number of free slots below n. */
  ghost function Free(s: seq<Conn>, n: nat): (f: nat)
    requires n <= |s|
    ensures f <= n
  {
    n - Used(s[..n])
  }

  /** A free slot is left of the last one that stays, or there is nothing to move. */
  ghost predicate StaysInside(s: seq<Conn>, m: nat)
    requires 1 <= m <= |s|
  {
    Free(s, m - 1) > 0 || forall j :: m - 1 <= j < |s| ==> !Live(s[j])
  }

  lemma FreeStep(s: seq<Conn>, n: nat)
    requires n < |s|
    ensures Free(s, n + 1) == Free(s, n) + (if Live(s[n]) then 0 else 1) && Free(s, 0) == 0
  {
    assert s[..n + 1][..n] == s[..n];
  }

  lemma {:induction false} FreeGrows(s: seq<Conn>, i: nat, j: nat)
    requires i <= j <= |s|
    ensures Free(s, i) <= Free(s, j)
    ensures Free(s, i) == Free(s, j) <==> forall k :: i <= k < j ==> Live(s[k])
    decreases j
  {
    hide Free;
    if i < j {
      FreeStep(s, j - 1);
      FreeGrows(s, i, j - 1);
    }
  }

  /** Once the search has passed the slot to move, it stays ahead and leaves the array. */
  lemma {:induction false} Overtaken(s: seq<Conn>, i: nat, n: nat)
    requires i < n <= |s|
    ensures Moved(s, i, n) == None
    decreases |s| - i
  {
    var p := NextFree(s, n);
    if p < |s| {
      Overtaken(Shifted(s, p, i), i + 1, p + 1);
    }
  }

  /** With no free slot before slot i, a connection at i or behind it makes the search pass. */
  lemma {:induction false} Overtakes(s: seq<Conn>, i: nat, n: nat, k: nat)
    requires n <= i <= k < |s| && (forall j :: n <= j < i ==> Live(s[j])) && Live(s[k])
    ensures Moved(s, i, n) == None
    decreases |s| - i
  {
    var p := NextFree(s, n);
    if p < |s| {
      if p == i {
        Overtakes(Shifted(s, i, i), i + 1, i + 1, k);
      } else {
        Overtaken(Shifted(s, p, i), i + 1, p + 1);
      }
    }
  }

  // ----- what it leaves

  /** The slot whose contents end up in slot j, or -1. */
  ghost function Source(s: seq<Conn>, m: nat, j: nat): int
    requires 1 <= m <= |s| && j < |s|
  {
    if j < m - 1 then if Live(s[j]) || m - 1 + Free(s, j) >= |s| then -1 else m - 1 + Free(s, j)
    else if j + Free(s, m - 1) < |s| then j + Free(s, m - 1) else -1
  }

  /** Slot j when slots below i have been moved. */
  ghost function SlotAfter(s: seq<Conn>, m: nat, i: nat, j: nat): Conn
    requires 1 <= m <= |s| && j < |s|
  {
    var k := Source(s, m, j);
    if 0 <= k < i && k < |s| then Copied(s[j], s[k]) else if m - 1 <= j < i then Cleared(s[j]) else s[j]
  }

  ghost function After(s: seq<Conn>, m: nat, i: nat): (r: seq<Conn>)
    requires 1 <= m <= |s|
    ensures |r| == |s|
  {
    seq(|s|, j requires 0 <= j < |s| => SlotAfter(s, m, i, j))
  }

  /** The slots as the loop leaves them. */
  ghost function Defragmented(s: seq<Conn>, m: nat): (r: seq<Conn>)
    requires 1 <= m <= |s|
    ensures |r| == |s|
  {
    After(s, m, |s|)
  }

  ghost predicate Indexed(s: seq<Conn>)
  {
    forall j :: 0 <= j < |s| ==> s[j].idx == j && (!Live(s[j]) ==> s[j].fd == -1)
  }

  /** Where the search stands before slot i is moved: it fills the free slots of the front one
      after the other, and then the slots that were moved before. */
  ghost predicate Cursor(s: seq<Conn>, m: nat, i: nat, n: nat)
    requires 1 <= m <= |s| && n <= |s|
  {
    && m - 1 <= i <= |s|
    && var g := Free(s, m - 1);
       if i - (m - 1) <= g then n <= m - 1 && Free(s, n) == i - (m - 1) else n == i - g
  }

  lemma NextFreeIs(s: seq<Conn>, n: nat, q: nat)
    requires n <= q < |s| && !Live(s[q]) && forall j :: n <= j < q ==> Live(s[j])
    ensures NextFree(s, n) == q
  {
  }

  lemma MovedLater(s: seq<Conn>, m: nat, i: nat, j: nat)
    requires 1 <= m <= |s| && j < |s| && Source(s, m, j) >= i
    ensures SlotAfter(s, m, i, j) == if m - 1 <= j < i then Cleared(s[j]) else s[j]
  {
  }

  lemma StaysInPlace(s: seq<Conn>, m: nat, i: nat, j: nat)
    requires 1 <= m <= |s| && j < m - 1 && Live(s[j])
    ensures SlotAfter(s, m, i, j) == s[j]
  {
  }

  /** Where the search goes from there. */
  lemma CursorNext(s: seq<Conn>, m: nat, i: nat, n: nat)
    requires 1 <= m <= |s| && n <= |s| && StaysInside(s, m) && Cursor(s, m, i, n) && i < |s|
    ensures var p := NextFree(After(s, m, i), n);
            p <= i && Source(s, m, p) == i && Cursor(s, m, i + 1, p + 1)
  {
    hide Free, SlotAfter;
    var g, k, t := Free(s, m - 1), i - (m - 1), After(s, m, i);
    var p := if k < g then NextFree(s, n) else i - g;
    if k <= g {
      FreeGrows(s, n, m - 1);
    }
    if k < g {
      FreeGrows(s, n, p);
      FreeStep(s, p);
    }
    forall j | n <= j < p ensures Live(t[j]) {
      StaysInPlace(s, m, i, j);
    }
    MovedLater(s, m, i, p);
    NextFreeIs(t, n, p);
  }

  /** No slot is copied to two places. */
  lemma SourceOnce(s: seq<Conn>, m: nat, j: nat, k: nat)
    requires 1 <= m <= |s| && j < k < |s| && Source(s, m, j) != -1
    ensures Source(s, m, j) != Source(s, m, k)
  {
    hide Free;
    FreeStep(s, j);
    if k < m - 1 {
      FreeGrows(s, j + 1, k);
    } else if j < m - 1 {
      FreeGrows(s, j + 1, m - 1);
    }
  }

  lemma ClearedFree(c: Conn)
    requires !Live(c) && c.fd == -1
    ensures Cleared(c) == c
  {
    assert c.state - {Connected} == c.state;
  }

  /** Slot i is as it was when its turn comes, and is where it stays when it is its own place. */
  lemma OwnTurn(s: seq<Conn>, m: nat, i: nat)
    requires 1 <= m <= |s| && m - 1 <= i < |s|
    ensures SlotAfter(s, m, i, i) == s[i]
    ensures SlotAfter(s, m, i + 1, i) == if Source(s, m, i) == i then Copied(s[i], s[i]) else Cleared(s[i])
  {
  }

  lemma OtherTurn(s: seq<Conn>, m: nat, i: nat, j: nat)
    requires 1 <= m <= |s| && i < |s| && j < |s| && i != j && Source(s, m, j) != i
    ensures SlotAfter(s, m, i + 1, j) == SlotAfter(s, m, i, j)
  {
    hide Source;
  }

  lemma Filled(s: seq<Conn>, m: nat, i: nat, p: nat)
    requires 1 <= m <= |s| && i < |s| && p < |s| && Source(s, m, p) == i
    ensures SlotAfter(s, m, i + 1, p) == Copied(s[p], s[i]) && SlotAfter(s, m, i, p).idx == s[p].idx
  {
    hide Source;
  }

  /** One turn of the loop. */
  lemma AfterStep(s: seq<Conn>, m: nat, i: nat, n: nat)
    requires 1 <= m <= |s| && n <= |s| && StaysInside(s, m) && Indexed(s) && Cursor(s, m, i, n) && i < |s|
    ensures var t := After(s, m, i); var p := NextFree(t, n); p < |s| && Shifted(t, p, i) == After(s, m, i + 1)
  {
    hide Source, Cursor, StaysInside, SlotAfter;
    var t, u := After(s, m, i), After(s, m, i + 1);
    var p := NextFree(t, n);
    CursorNext(s, m, i, n);
    CursorAt(s, m, i, n);
    OwnTurn(s, m, i);
    Filled(s, m, i, p);
    if p == i { ClearedFree(s[i]); }
    var r := Shifted(t, p, i);
    forall j | 0 <= j < |s| ensures r[j] == u[j] {
      if j != p && j != i {
        if Source(s, m, j) == i {
          SourceOnce(s, m, if j < p then j else p, if j < p then p else j);
        }
        OtherTurn(s, m, i, j);
      } else if j == i != p && Source(s, m, i) == i {
        SourceOnce(s, m, p, i);
      }
    }
  }

  lemma CursorAt(s: seq<Conn>, m: nat, i: nat, n: nat)
    requires 1 <= m <= |s| && n <= |s| && Cursor(s, m, i, n)
    ensures m - 1 <= i
  {
  }

  lemma {:induction false} MovesOn(s: seq<Conn>, m: nat, i: nat, n: nat)
    requires 1 <= m <= |s| && n <= |s| && StaysInside(s, m) && Indexed(s) && Cursor(s, m, i, n) && i <= |s|
    ensures Moved(After(s, m, i), i, n) == Some(Defragmented(s, m))
    decreases |s| - i
  {
    hide Source, Cursor, StaysInside, SlotAfter, Indexed, NextFree, After, Shifted;
    if i < |s| {
      var p := NextFree(After(s, m, i), n);
      CursorNext(s, m, i, n);
      AfterStep(s, m, i, n);
      MovesOn(s, m, i + 1, p + 1);
    }
  }

  /** The loop stays inside the array if and only if a slot before the last one that stays is
      free or there is no connection from there on; and then this is what it leaves. */
  lemma StaysInsideIff(s: seq<Conn>, m: nat)
    requires 1 <= m <= |s| && Indexed(s)
    ensures Moved(s, m - 1, 0).Some? <==> StaysInside(s, m)
    ensures StaysInside(s, m) ==> Moved(s, m - 1, 0) == Some(Defragmented(s, m))
  {
    hide Free, Moved;
    FreeStep(s, 0);
    if StaysInside(s, m) {
      assert After(s, m, m - 1) == s;
      MovesOn(s, m, m - 1, 0);
    } else {
      FreeGrows(s, 0, m - 1);
      var k :| m - 1 <= k < |s| && Live(s[k]);
      Overtakes(s, m - 1, 0, k);
    }
  }

  /** MOVED_TO and MOVED_FROM of slot k, from the signal e on. */
  ghost predicate MoveAt(s: seq<Conn>, m: nat, k: nat, t: seq<Event>, e: nat)
    requires 1 <= m <= |s|
  {
    && e + 1 < |t| && t[e].signal == MovedTo && t[e].slot < |s| && Source(s, m, t[e].slot) == k
    && t[e + 1] == Event(MovedFrom, k)
  }

  /** The signals of the moves from slot i on. */
  ghost predicate Signalled(s: seq<Conn>, m: nat, i: nat, t: seq<Event>)
    requires 1 <= m <= |s|
  {
    |t| == 2 * (|s| - i) && forall k: nat, e: nat :: i <= k < |s| && e == 2 * (k - i) ==> MoveAt(s, m, k, t, e)
  }

  lemma SignalledStep(s: seq<Conn>, m: nat, i: nat, p: nat, t: seq<Event>)
    requires 1 <= m <= |s| && i < |s| && p < |s| && Source(s, m, p) == i && Signalled(s, m, i + 1, t)
    ensures Signalled(s, m, i, [Event(MovedTo, p), Event(MovedFrom, i)] + t)
  {
    hide Source;
    var u := [Event(MovedTo, p), Event(MovedFrom, i)] + t;
    forall k: nat, e: nat | i <= k < |s| && e == 2 * (k - i) ensures MoveAt(s, m, k, u, e) {
      if k > i {
        assert MoveAt(s, m, k, t, e - 2);
      }
    }
  }

  lemma {:induction false} SignalsOn(s: seq<Conn>, m: nat, i: nat, n: nat)
    requires 1 <= m <= |s| && n <= |s| && StaysInside(s, m) && Indexed(s) && Cursor(s, m, i, n) && i <= |s|
    ensures Signalled(s, m, i, MoveSignals(After(s, m, i), i, n))
    decreases |s| - i
  {
    hide Source, Cursor, StaysInside, SlotAfter, Indexed, NextFree, After, Shifted;
    if i < |s| {
      var p := NextFree(After(s, m, i), n);
      CursorNext(s, m, i, n);
      AfterStep(s, m, i, n);
      SignalsOn(s, m, i + 1, p + 1);
      SignalledStep(s, m, i, p, MoveSignals(After(s, m, i + 1), i + 1, p + 1));
    }
  }

  /** For each slot k that is moved the callback is told first of the slot that now has its
      contents and then of slot k, in the order of the slots, and of nothing else. */
  lemma MoveSignalled(s: seq<Conn>, m: nat, k: nat)
    requires 1 <= m <= |s| && Indexed(s) && StaysInside(s, m) && m - 1 <= k < |s|
    ensures var t, e := MoveSignals(s, m - 1, 0), 2 * (k - (m - 1));
            && |t| == 2 * (|s| - (m - 1))
            && t[e] == Event(MovedTo, t[e].slot) && t[e + 1] == Event(MovedFrom, k)
            && t[e].slot < |s| && Defragmented(s, m)[t[e].slot] == s[k].(idx := s[t[e].slot].idx)
  {
    hide Free, MoveSignals, Source, SlotAfter, Defragmented, StaysInside;
    FreeStep(s, 0);
    StartsAt(s, m);
    SignalsOn(s, m, m - 1, 0);
    var t := MoveSignals(s, m - 1, 0);
    assert MoveAt(s, m, k, t, 2 * (k - (m - 1)));
    InTheEnd(s, m, t[2 * (k - (m - 1))].slot);
  }

  lemma StartsAt(s: seq<Conn>, m: nat)
    requires 1 <= m <= |s|
    ensures After(s, m, m - 1) == s && Cursor(s, m, m - 1, 0)
  {
    hide Free;
    FreeStep(s, 0);
    assert After(s, m, m - 1) == s;
  }

  // ----- whether that is a pool

  /** What slot j holds in the end. */
  lemma InTheEnd(s: seq<Conn>, m: nat, j: nat)
    requires 1 <= m <= |s| && j < |s|
    ensures var k, c := Source(s, m, j), Defragmented(s, m)[j];
            && -1 <= k < |s|
            && c == if k != -1 then Copied(s[j], s[k]) else if j < m - 1 then s[j] else Cleared(s[j])
  {
  }

  /** The number of connections in the first n slots of s, or in all of them. */
  ghost function UsedBelow(s: seq<Conn>, n: nat): nat
  {
    if n < |s| then Used(s[..n]) else Used(s)
  }

  lemma UsedBelowStep(s: seq<Conn>, n: nat)
    ensures UsedBelow(s, n + 1) == UsedBelow(s, n) + if n < |s| && Live(s[n]) then 1 else 0
  {
    assert s[..|s|] == s;
    if n < |s| {
      assert s[..n + 1][..n] == s[..n];
    }
  }

  lemma {:induction false} UsedFront(s: seq<Conn>, m: nat, n: nat)
    requires 1 <= m <= |s| && n <= m - 1
    ensures UsedBelow(Defragmented(s, m), n)
         == UsedBelow(s, n) + UsedBelow(s, m - 1 + Free(s, n)) - UsedBelow(s, m - 1)
  {
    hide Free, Defragmented, UsedBelow;
    FreeStep(s, 0);
    if n == 0 {
      NoneBelow(s);
      NoneBelow(Defragmented(s, m));
    } else {
      UsedFront(s, m, n - 1);
      FreeStep(s, n - 1);
      InTheEnd(s, m, n - 1);
      UsedBelowStep(s, n - 1);
      UsedBelowStep(Defragmented(s, m), n - 1);
      UsedBelowStep(s, m - 1 + Free(s, n - 1));
    }
  }

  lemma NoneBelow(s: seq<Conn>)
    ensures UsedBelow(s, 0) == 0
  {
    assert s[..0] == [];
  }

  /** The first n slots have the connections of as many slots, and of those that were moved
      into the free ones of the front. */
  lemma {:induction false} UsedKept(s: seq<Conn>, m: nat, n: nat)
    requires 1 <= m <= |s| && m - 1 <= n <= |s|
    ensures UsedBelow(Defragmented(s, m), n) == UsedBelow(s, n + Free(s, m - 1))
  {
    hide Free, Defragmented, UsedBelow;
    if n == m - 1 {
      UsedFront(s, m, n);
    } else {
      UsedKept(s, m, n - 1);
      InTheEnd(s, m, n - 1);
      UsedBelowStep(Defragmented(s, m), n - 1);
      UsedBelowStep(s, n - 1 + Free(s, m - 1));
    }
  }

  lemma {:induction false} UsedBelowAll(s: seq<Conn>, n: nat)
    ensures UsedBelow(s, n) == Used(s) <==> forall i :: n <= i < |s| ==> !Live(s[i])
    ensures UsedBelow(s, n) <= Used(s)
    decreases if n < |s| then |s| - n else 0
  {
    if n < |s| {
      UsedBelowAll(s, n + 1);
      UsedBelowStep(s, n);
    }
  }

  /** No connection is behind the first n slots and the free ones of the front together, and
      no slot that was moved away and not filled again was to be dropped. */
  ghost predicate Keeps(s: seq<Conn>, m: nat, n: nat)
    requires 1 <= m <= n <= |s|
  {
    var g := Free(s, m - 1);
    && (forall i :: n + g <= i < |s| ==> !Live(s[i]))
    && (forall j :: m - 1 <= j < n && j + g >= |s| ==> !Leaving(s[j]))
  }

  lemma ClearedOk(c: Conn, j: nat)
    requires SlotOk(c, j) && Resting(c)
    ensures SlotOk(Cleared(c), j) && Resting(Cleared(c)) <==> !Leaving(c)
  {
    if Leaving(c) {
      assert Disconnection in Cleared(c).state;
    } else {
      assert Cleared(c).state == {};
    }
  }

  /** The first n slots are slots of a pool with all of its connections in exactly that case. */
  lemma KeepsIff(s: seq<Conn>, m: nat, n: nat)
    requires 1 <= m <= n <= |s| && SlotsOk(s) && AtRest(s)
    ensures var f := Defragmented(s, m)[..n];
            Keeps(s, m, n) <==> SlotsOk(f) && AtRest(f) && Used(f) == Used(s)
  {
    hide Free, Defragmented, UsedBelow, Used, SlotOk, Resting;
    var d, g := Defragmented(s, m), Free(s, m - 1);
    var f := d[..n];
    UsedKept(s, m, n);
    UsedBelowAll(s, n + g);
    UsedOfFirst(d, n);
    forall j | 0 <= j < n
      ensures SlotOk(f[j], j) && Resting(f[j]) <==> (m - 1 <= j && j + g >= |s| ==> !Leaving(s[j]))
    {
      assert f[j] == d[j] && SlotOk(s[j], j) && Resting(s[j]);
      InTheEnd(s, m, j);
      CopiedOk(s, m, j);
      ClearedOk(s[j], j);
    }
  }

  lemma UsedOfFirst(s: seq<Conn>, n: nat)
    requires n <= |s|
    ensures Used(s[..n]) == UsedBelow(s, n)
  {
    assert s[..|s|] == s;
  }

  lemma CopiedOk(s: seq<Conn>, m: nat, j: nat)
    requires 1 <= m <= |s| && j < |s| && SlotsOk(s) && AtRest(s)
    ensures var k := Source(s, m, j);
            && (0 <= k < |s| ==> SlotOk(Copied(s[j], s[k]), j) && Resting(Copied(s[j], s[k])))
            && (k == -1 <==> if j < m - 1 then Live(s[j]) || m - 1 + Free(s, j) >= |s| else j + Free(s, m - 1) >= |s|)
  {
    hide Free;
    var k := Source(s, m, j);
    if 0 <= k < |s| {
      assert SlotOk(s[k], k) && SlotOk(s[j], j) && Resting(s[k]);
    }
  }

  lemma {:induction false} HoleAt(s: seq<Conn>, n: nat, k: nat) returns (j: nat)
    requires n <= |s| && k < Free(s, n)
    ensures j < n && !Live(s[j]) && Free(s, j) == k
  {
    hide Free;
    FreeStep(s, 0);
    FreeStep(s, n - 1);
    if k < Free(s, n - 1) {
      j := HoleAt(s, n - 1, k);
    } else {
      j := n - 1;
    }
  }

  /** Every connection is somewhere among the slots that are kept. */
  lemma GoesTo(s: seq<Conn>, m: nat, n: nat, i: nat) returns (j: nat)
    requires 1 <= m <= n <= |s| && Keeps(s, m, n) && i < |s| && Live(s[i])
    ensures j < n && Defragmented(s, m)[j] == s[i].(idx := s[j].idx)
  {
    hide Free;
    var g := Free(s, m - 1);
    if i < m - 1 {
      j := i;
    } else if i - (m - 1) < g {
      j := HoleAt(s, m - 1, i - (m - 1));
    } else {
      j := i - g;
    }
    InTheEnd(s, m, j);
  }

  /** Where the descriptor of a slot comes from. */
  lemma ComesFrom(s: seq<Conn>, m: nat, j: nat) returns (i: nat)
    requires 1 <= m <= |s| && j < |s| && Defragmented(s, m)[j].fd != -1
    ensures i < |s| && s[i].fd == Defragmented(s, m)[j].fd
    ensures i == if Source(s, m, j) == -1 then j else Source(s, m, j)
    ensures Source(s, m, j) == -1 ==> j < m - 1
  {
    InTheEnd(s, m, j);
    i := if Source(s, m, j) == -1 then j else Source(s, m, j);
  }

  lemma SourceBehind(s: seq<Conn>, m: nat, j: nat)
    requires 1 <= m <= |s| && j < |s|
    ensures Source(s, m, j) == -1 || Source(s, m, j) >= m - 1
  {
  }

  /** Then the pool owns and polls the same descriptors as before. */
  lemma KeepsOwned(s: seq<Conn>, m: nat, n: nat, listener: int, open: set<int>, foreign: set<int>, watched: set<int>)
    requires 1 <= m <= n <= |s| && Keeps(s, m, n) && SlotsOk(s)
    requires Owned(s, listener, open, foreign) && Polled(s, listener, watched)
    ensures var f := Defragmented(s, m)[..n]; Owned(f, listener, open, foreign) && Polled(f, listener, watched)
  {
    hide Free, Defragmented, Keeps, Source;
    var f := Defragmented(s, m)[..n];
    forall j, k | 0 <= j < k < n && f[j].fd != -1 ensures f[j].fd != f[k].fd {
      if f[j].fd == f[k].fd {
        FromOnce(s, m, j, k, listener, open, foreign);
      }
    }
    forall fd | fd != -1 ensures Has(f, fd) <==> Has(s, fd) {
      SameDescriptors(s, m, n, fd);
    }
    forall fd | fd in watched && fd != listener ensures Watchable(f, fd) {
      var i :| 0 <= i < |s| && s[i].fd == fd && Live(s[i]) && !Leaving(s[i]);
      var j := GoesTo(s, m, n, i);
      assert f[j].fd == fd;
    }
    SameOwners(s, f, listener, open, foreign);
  }

  lemma FromOnce(s: seq<Conn>, m: nat, j: nat, k: nat, listener: int, open: set<int>, foreign: set<int>)
    requires 1 <= m <= |s| && j < k < |s| && Owned(s, listener, open, foreign)
    requires Defragmented(s, m)[j].fd != -1
    ensures Defragmented(s, m)[j].fd != Defragmented(s, m)[k].fd
  {
    hide Free, Defragmented, Source, Owned;
    if Defragmented(s, m)[j].fd == Defragmented(s, m)[k].fd {
      var a := ComesFrom(s, m, j);
      var b := ComesFrom(s, m, k);
      OneOwner(s, listener, open, foreign, a, b);
      SourceBehind(s, m, j);
      SourceBehind(s, m, k);
      if Source(s, m, j) != -1 { SourceOnce(s, m, j, k); }
    }
  }

  lemma SameDescriptors(s: seq<Conn>, m: nat, n: nat, fd: int)
    requires 1 <= m <= n <= |s| && Keeps(s, m, n) && SlotsOk(s) && fd != -1
    ensures Has(Defragmented(s, m)[..n], fd) <==> Has(s, fd)
  {
    hide Free, Defragmented, Keeps, Source;
    var f := Defragmented(s, m)[..n];
    if Has(f, fd) {
      var j :| 0 <= j < n && f[j].fd == fd;
      var i := ComesFrom(s, m, j);
    }
    if Has(s, fd) {
      var i :| 0 <= i < |s| && s[i].fd == fd;
      NoDescriptor(s, i);
      var j := GoesTo(s, m, n, i);
      assert f[j].fd == fd;
    }
  }

  lemma SameOwners(s: seq<Conn>, f: seq<Conn>, listener: int, open: set<int>, foreign: set<int>)
    requires Owned(s, listener, open, foreign) && forall fd :: fd != -1 ==> (Has(f, fd) <==> Has(s, fd))
    requires forall j, k :: 0 <= j < k < |f| && f[j].fd != -1 ==> f[j].fd != f[k].fd
    ensures Owned(f, listener, open, foreign)
  {
    forall j | 0 <= j < |f| && f[j].fd != -1 ensures f[j].fd in open && f[j].fd != listener {
      assert Has(f, f[j].fd);
      var i :| 0 <= i < |s| && s[i].fd == f[j].fd;
    }
  }

  function Unused(i: nat): Conn
  {
    Conn(i, -1, {}, Timespec(0, 0), 0, 0)
  }

  /** One connection in two slots, or in four: shrinking to one slot leaves the array, and
      shrinking to two loses the connection. */
  lemma ShrinkFails(fd: nat)
    ensures var s := [Taken(0, fd, Timespec(0, 0)), Unused(1)];
            SlotsOk(s) && AtRest(s) && Used(s) == 1 && Moved(s, 0, 0) == None
    ensures var s := [Unused(0), Unused(1), Unused(2), Taken(3, fd, Timespec(0, 0))];
            SlotsOk(s) && AtRest(s) && Used(s) == 1 && StaysInside(s, 2) && !Keeps(s, 2, 2)
  {
    var c, f := Taken(0, fd, Timespec(0, 0)), Unused(0);
    var t, s := [c, Unused(1)], [f, Unused(1), Unused(2), Taken(3, fd, Timespec(0, 0))];
    OneOfFour(s);
    FreeStep(t, 0);
    UsedBelowStep(t, 0);
    UsedBelowStep(t, 1);
    NoneBelow(t);
    assert Live(t[0]);
    StaysInsideIff(t, 1);
  }

  lemma OneOfFour(s: seq<Conn>)
    requires |s| == 4 && !Live(s[0]) && !Live(s[1]) && !Live(s[2]) && Live(s[3])
    ensures Used(s) == 1 && Free(s, 1) == 1
  {
    hide Live;
    FreeStep(s, 0);
    NoneBelow(s);
    UsedBelowStep(s, 0);
    UsedBelowStep(s, 1);
    UsedBelowStep(s, 2);
    UsedBelowStep(s, 3);
  }

  // ----- between the locks

  lemma UnlockedFirst(s: seq<Conn>, n: nat)
    requires n <= |s|
    ensures Unlocked(s[..n]) == Unlocked(s)[..n]
  {
  }

  lemma {:induction false} SameFree(s: seq<Conn>, t: seq<Conn>, n: nat)
    requires |s| == |t| && n <= |s| && forall j :: 0 <= j < |s| ==> (Live(s[j]) <==> Live(t[j]))
    ensures Free(s, n) == Free(t, n)
  {
    hide Free, Live;
    if n == 0 {
      NoneFree(s);
      NoneFree(t);
    } else {
      SameFree(s, t, n - 1);
      FreeStep(s, n - 1);
      FreeStep(t, n - 1);
    }
  }

  lemma NoneFree(s: seq<Conn>)
    ensures Free(s, 0) == 0
  {
  }

  lemma {:induction false} SameMoveSignals(s: seq<Conn>, t: seq<Conn>, i: nat, n: nat)
    requires |s| == |t| && i <= |s| && n <= |s| && forall j :: 0 <= j < |s| ==> (Live(s[j]) <==> Live(t[j]))
    ensures MoveSignals(s, i, n) == MoveSignals(t, i, n)
    decreases |s| - i
  {
    hide Live, Shifted, NextFree;
    SameNextFree(s, t, n);
    if i < |s| && NextFree(s, n) < |s| {
      var p := NextFree(s, n);
      SameShifted(s, t, p, i);
      SameMoveSignals(Shifted(s, p, i), Shifted(t, p, i), i + 1, p + 1);
    }
  }

  lemma SameShifted(s: seq<Conn>, t: seq<Conn>, p: nat, i: nat)
    requires |s| == |t| && p < |s| && i < |s| && forall j :: 0 <= j < |s| ==> (Live(s[j]) <==> Live(t[j]))
    ensures forall j :: 0 <= j < |s| ==> (Live(Shifted(s, p, i)[j]) <==> Live(Shifted(t, p, i)[j]))
  {
  }

  lemma {:induction false} SameNextFree(s: seq<Conn>, t: seq<Conn>, n: nat)
    requires |s| == |t| && n <= |s| && forall j :: 0 <= j < |s| ==> (Live(s[j]) <==> Live(t[j]))
    ensures NextFree(s, n) == NextFree(t, n)
    decreases |s| - n
  {
    hide Live;
    if n < |s| && Live(s[n]) {
      SameNextFree(s, t, n + 1);
    }
  }

  lemma LockedSlots(s: seq<Conn>, m: nat)
    requires SlotsOk(s) && AtRest(s) && 1 <= m <= |s|
    ensures var t := Locked(s);
            && Indexed(t) && (StaysInside(t, m) <==> StaysInside(s, m))
            && Unlocked(Defragmented(t, m)) == Defragmented(s, m)
            && MoveSignals(t, m - 1, 0) == MoveSignals(s, m - 1, 0)
  {
    hide Free, Defragmented, MoveSignals;
    var t := Locked(s);
    forall j | 0 <= j < |s| ensures t[j].idx == j && (!Live(t[j]) ==> t[j].fd == -1) && (Live(s[j]) <==> Live(t[j])) {
      ConnOk(s, j);
    }
    forall n | 0 <= n <= |s| ensures Free(s, n) == Free(t, n) {
      SameFree(s, t, n);
    }
    SameMoveSignals(s, t, m - 1, 0);
    forall j | 0 <= j < |s| ensures Unlocked(Defragmented(t, m))[j] == Defragmented(s, m)[j] {
      LockedSlot(s, m, j);
    }
  }

  lemma LockedSlot(s: seq<Conn>, m: nat, j: nat)
    requires AtRest(s) && 1 <= m <= |s| && j < |s| && forall n :: 0 <= n <= |s| ==> Free(s, n) == Free(Locked(s), n)
    ensures Unlocked(Defragmented(Locked(s), m))[j] == Defragmented(s, m)[j]
  {
    hide Free, Defragmented;
    var t := Locked(s);
    InTheEnd(s, m, j);
    InTheEnd(t, m, j);
    var k := Source(s, m, j);
    assert Resting(s[j]) && s[j].state + {Busy} - {Busy} == s[j].state;
    assert s[j].state + {Busy} - {Connected} - {Busy} == s[j].state - {Connected};
    if k != -1 {
      assert Resting(s[k]) && s[k].state + {Busy} - {Busy} == s[k].state;
    }
  }

  // ----- the signals

  /** DESTROYING for the slots from m up to n. */
  ghost function Destroyings(m: nat, n: nat): (t: seq<Event>)
    requires m <= n
    ensures |t| == n - m && forall k :: 0 <= k < |t| ==> t[k] == Event(Destroying, m + k)
  {
    if m == n then [] else Destroyings(m, n - 1) + [Event(Destroying, n - 1)]
  }

  lemma DestroyingStep(m: nat, n: nat)
    requires m <= n
    ensures Destroyings(m, n + 1) == Destroyings(m, n) + [Event(Destroying, n)] && Destroyings(m, m) == []
  {
  }

  ghost predicate Neutral(u: seq<Event>)
  {
    Disciplined(u) && Closings(u) == 0
  }

  lemma NeutralConcat(u: seq<Event>, v: seq<Event>)
    requires Neutral(u) && Neutral(v)
    ensures Neutral(u + v)
  {
    ClosingsConcat(u, v);
    DisciplinedConcat(u, v);
  }

  lemma NeutralAfter(t: seq<Event>, u: seq<Event>)
    requires Neutral(u)
    ensures Closings(t + u) == Closings(t) && (Disciplined(t) ==> Disciplined(t + u))
  {
    ClosingsConcat(t, u);
    if Disciplined(t) { DisciplinedConcat(t, u); }
  }

  lemma NeutralOne(signal: Signal, slot: nat)
    requires signal in {MovedTo, MovedFrom, Destroying}
    ensures Neutral([Event(signal, slot)]) && Neutral([])
  {
    OneSignal([], signal, slot);
    assert [] + [Event(signal, slot)] == [Event(signal, slot)];
  }

  /** The signals of shrinking close nothing and leave the order of the others alone. */
  lemma {:induction false} MovesNeutral(s: seq<Conn>, i: nat, n: nat)
    requires i <= |s| && n <= |s|
    ensures Neutral(MoveSignals(s, i, n))
    decreases |s| - i
  {
    hide Neutral, Shifted;
    NeutralOne(MovedTo, 0);
    if i < |s| && NextFree(s, n) < |s| {
      var p := NextFree(s, n);
      MovesNeutral(Shifted(s, p, i), i + 1, p + 1);
      NeutralOne(MovedTo, p);
      NeutralOne(MovedFrom, i);
      NeutralConcat([Event(MovedTo, p)], [Event(MovedFrom, i)]);
      assert [Event(MovedTo, p)] + [Event(MovedFrom, i)] == [Event(MovedTo, p), Event(MovedFrom, i)];
      NeutralConcat([Event(MovedTo, p), Event(MovedFrom, i)], MoveSignals(Shifted(s, p, i), i + 1, p + 1));
    }
  }

  lemma {:induction false} DestroyingsNeutral(m: nat, n: nat)
    requires m <= n
    ensures Neutral(Destroyings(m, n))
    decreases n
  {
    hide Neutral;
    NeutralOne(Destroying, 0);
    if m < n {
      DestroyingsNeutral(m, n - 1);
      NeutralOne(Destroying, n - 1);
      NeutralConcat(Destroyings(m, n - 1), [Event(Destroying, n - 1)]);
    }
  }
}
