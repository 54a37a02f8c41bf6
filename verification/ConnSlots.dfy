/** The slots of a connection pool and its signal trace, as values: what the pool keeps
    true of them and what each kind of update does to it. */
module ConnSlots {
  import opened Timespecs

  /** AP_NET_ST_* */
  datatype Bit = Error | Connected | Busy | In | Expired | Disconnection

  /** struct ap_net_connection_t */
  datatype Conn = Conn(idx: int, fd: int, state: set<Bit>, expire: Timespec, bufpos: int, buffill: int)

  /** AP_NET_SIGNAL_CONN_* */
  datatype Signal = Created | Accepted | Closing | DataIn | CanSend | TimedOut | DataLeft | MovedTo | MovedFrom
                  | Destroying

  /** One call of the callback. */
  datatype Event = Event(signal: Signal, slot: nat)

  predicate Live(c: Conn)
  {
    Connected in c.state
  }

  predicate Leaving(c: Conn)
  {
    Disconnection in c.state
  }

  /** The slot after its connection was closed. */
  function Closed(c: Conn): Conn
  {
    c.(state := {}, fd := -1)
  }

  /** A slot that was just taken. */
  function Taken(i: nat, fd: int, expire: Timespec): Conn
  {
    Conn(i, fd, {Connected}, expire, 0, 0)
  }

  /** When a connection that is taken now expires: zero is never. */
  function ExpiryOf(now: Timespec, ttl: Timespec): Timespec
  {
    if IsSet(ttl) then Add(now, ttl) else Timespec(0, 0)
  }

  /** What polling may do to a connection: nothing, close it, or mark it to be dropped; an
      expiry that is set is never put off. */
  ghost predicate Evolved(c: Conn, c': Conn)
  {
    && (Live(c') ==> Live(c) && c'.fd == c.fd)
    && (IsSet(c.expire) ==> c'.expire == c.expire)
  }

  // ----- the slots

  ghost predicate SlotOk(c: Conn, i: int)
  {
    && c.idx == i && -1 <= c.fd
    && (!Live(c) ==> c.state == {} && c.fd == -1)
    && (Live(c) ==> OnClock(c.expire))
    && (Leaving(c) ==> IsSet(c.expire))
    && c.buffill == 0 && 0 <= c.bufpos
  }

  ghost predicate SlotsOk(s: seq<Conn>)
  {
    forall i :: 0 <= i < |s| ==> SlotOk(s[i], i)
  }

  /** Between calls a slot is free, connected, or connected and to be dropped. */
  ghost predicate Resting(c: Conn)
  {
    c.state == {} || c.state == {Connected} || c.state == {Connected, Disconnection}
  }

  ghost predicate AtRest(s: seq<Conn>)
  {
    forall i :: 0 <= i < |s| ==> Resting(s[i])
  }

  ghost predicate AtRestBut(s: seq<Conn>, k: int)
  {
    forall i :: 0 <= i < |s| && i != k ==> Resting(s[i])
  }

  lemma RestUpdate(s: seq<Conn>, i: nat, c: Conn)
    requires AtRestBut(s, i) && i < |s| && Resting(c)
    ensures AtRest(s[i := c])
  {
  }

  lemma RestBut(s: seq<Conn>, i: nat, c: Conn)
    requires AtRest(s) && i < |s|
    ensures AtRestBut(s, i) && AtRestBut(s[i := c], i)
  {
  }

  lemma RestClosed(s: seq<Conn>, i: nat)
    requires i < |s|
    ensures AtRest(s) ==> AtRest(s[i := Closed(s[i])])
  {
  }

  lemma StillRestBut(s: seq<Conn>, i: nat, c: Conn)
    requires AtRestBut(s, i) && i < |s|
    ensures AtRestBut(s[i := c], i)
  {
  }

  lemma LeavingIsLive(s: seq<Conn>, i: nat)
    requires AtRest(s) && i < |s|
    ensures Leaving(s[i]) ==> Live(s[i])
  {
    assert Resting(s[i]);
  }

  ghost predicate Has(s: seq<Conn>, fd: int)
  {
    exists i :: 0 <= i < |s| && s[i].fd == fd
  }

  /** The descriptors of the slots are open, distinct, and not the listener's. What else is
      open is `foreign`: it was opened by other parts of the process, so none is leaked. */
  ghost predicate Owned(s: seq<Conn>, listener: int, open: set<int>, foreign: set<int>)
  {
    && -1 <= listener && (listener != -1 ==> listener in open)
    && (forall i :: 0 <= i < |s| && s[i].fd != -1 ==> s[i].fd in open && s[i].fd != listener)
    && (forall i, j :: 0 <= i < j < |s| && s[i].fd != -1 ==> s[i].fd != s[j].fd)
    && (forall fd :: fd in open ==> 0 <= fd && (fd in foreign || fd == listener || Has(s, fd)))
    && (forall fd :: fd in foreign ==> fd in open && fd != listener && !Has(s, fd))
  }

  ghost predicate Watchable(s: seq<Conn>, fd: int)
  {
    exists i :: 0 <= i < |s| && s[i].fd == fd && Live(s[i]) && !Leaving(s[i])
  }

  /** Only the listener and connections that are not to be dropped are polled. */
  ghost predicate Polled(s: seq<Conn>, listener: int, watched: set<int>)
  {
    forall fd :: fd in watched ==> 0 <= fd && (fd == listener || Watchable(s, fd))
  }

  /** Whatever is up and not to be dropped in s' was so in s, with the same descriptor. */
  ghost predicate Wanes(s: seq<Conn>, s': seq<Conn>)
  {
    && |s| == |s'|
    && forall i {:trigger s'[i]} :: 0 <= i < |s| && Live(s'[i]) && !Leaving(s'[i]) ==>
         s'[i].fd == s[i].fd && Live(s[i]) && !Leaving(s[i])
  }

  /** What was polled and is still the listener or a connection that is not to be dropped is
      polled. */
  ghost predicate StillPolls(watched: set<int>, watched': set<int>, s': seq<Conn>, listener: int)
  {
    forall fd :: fd in watched && (fd == listener || Watchable(s', fd)) ==> fd in watched'
  }

  lemma StillPollsOn(watched: set<int>, watched': set<int>, watched'': set<int>, s': seq<Conn>, s'': seq<Conn>,
                     listener: int)
    requires StillPolls(watched, watched', s', listener) && StillPolls(watched', watched'', s'', listener)
    requires Wanes(s', s'')
    ensures StillPolls(watched, watched'', s'', listener)
  {
    forall fd | Watchable(s'', fd) ensures Watchable(s', fd) {
      var i :| 0 <= i < |s''| && s''[i].fd == fd && Live(s''[i]) && !Leaving(s''[i]);
      assert s'[i].fd == fd;
    }
  }

  lemma StillPollsSame(watched: set<int>, s: seq<Conn>, listener: int)
    ensures StillPolls(watched, watched, s, listener)
  {
  }

  lemma StillPollsLess(watched: set<int>, watched': set<int>, watched'': set<int>, s'': seq<Conn>, listener: int)
    requires watched <= watched' && StillPolls(watched', watched'', s'', listener)
    ensures StillPolls(watched, watched'', s'', listener)
  {
  }

  /** Connection i may stop being polled when it is closed or marked. */
  lemma StillPollsBut(s: seq<Conn>, i: nat, c: Conn, listener: int, open: set<int>, foreign: set<int>,
                      watched: set<int>)
    requires Owned(s, listener, open, foreign) && Polled(s, listener, watched) && i < |s|
    requires !Live(c) || Leaving(c)
    ensures StillPolls(watched, watched - {s[i].fd}, s[i := c], listener)
  {
    var s' := s[i := c];
    if s[i].fd in watched {
      assert s[i].fd != -1 && s[i].fd != listener;
      forall j: nat | j < |s| && s[j].fd == s[i].fd ensures j == i {
        OneOwner(s, listener, open, foreign, j, i);
      }
    }
  }

  /** It is what may happen to connection i, and the others are polled as before. */
  lemma StillPollsAfter(s: seq<Conn>, i: nat, s': seq<Conn>, listener: int, open: set<int>, foreign: set<int>,
                        watched: set<int>, watched': set<int>)
    requires Owned(s, listener, open, foreign) && Polled(s, listener, watched) && i < |s| == |s'|
    requires s' == s[i := s'[i]] && watched - {s[i].fd} <= watched'
    requires Live(s'[i]) && !Leaving(s'[i]) ==> watched' == watched
    ensures StillPolls(watched, watched', s', listener)
  {
    if !Live(s'[i]) || Leaving(s'[i]) {
      StillPollsBut(s, i, s'[i], listener, open, foreign, watched);
    }
  }

  /** The number of connected slots. */
  ghost function Used(s: seq<Conn>): (n: nat)
    ensures n <= |s|
  {
    if s == [] then 0 else Used(s[..|s| - 1]) + if Live(s[|s| - 1]) then 1 else 0
  }

  lemma {:induction false} UsedUpdate(s: seq<Conn>, i: nat, c: Conn)
    requires i < |s|
    ensures Used(s[i := c]) == Used(s) - (if Live(s[i]) then 1 else 0) + (if Live(c) then 1 else 0)
  {
    hide Live;
    var n := |s| - 1;
    if i == n {
      assert s[i := c][..n] == s[..n];
    } else {
      UsedUpdate(s[..n], i, c);
      assert s[i := c][..n] == s[..n][i := c];
    }
  }

  /** Every slot is in use exactly when the count says so. */
  lemma {:induction false} UsedAllIff(s: seq<Conn>)
    ensures Used(s) == |s| <==> forall i :: 0 <= i < |s| ==> Live(s[i])
  {
    if s != [] {
      UsedAllIff(s[..|s| - 1]);
      assert forall i :: 0 <= i < |s| - 1 ==> s[i] == s[..|s| - 1][i];
    }
  }

  lemma {:induction false} UsedFree(s: seq<Conn>, t: seq<Conn>)
    requires forall i :: 0 <= i < |t| ==> !Live(t[i])
    ensures Used(s + t) == Used(s)
    decreases |t|
  {
    if t == [] {
      assert s + t == s;
    } else {
      UsedFree(s, t[..|t| - 1]);
      assert (s + t)[..|s + t| - 1] == s + t[..|t| - 1];
    }
  }

  /** A live descriptor has one owner, so an event is for at most one slot. */
  lemma OneOwner(s: seq<Conn>, listener: int, open: set<int>, foreign: set<int>, i: nat, j: nat)
    requires Owned(s, listener, open, foreign) && i < |s| && j < |s|
    requires s[i].fd == s[j].fd != -1
    ensures i == j
  {
  }

  /** Connections to be dropped are not polled any more. */
  lemma LeavingNotPolled(s: seq<Conn>, listener: int, open: set<int>, foreign: set<int>, watched: set<int>, i: nat)
    requires Owned(s, listener, open, foreign) && Polled(s, listener, watched) && i < |s|
    requires s[i].fd == -1 || Leaving(s[i])
    ensures s[i].fd !in watched
  {
  }

  lemma WatchSlot(s: seq<Conn>, listener: int, watched: set<int>, i: nat)
    requires Polled(s, listener, watched) && i < |s| && Live(s[i]) && !Leaving(s[i]) && 0 <= s[i].fd
    ensures Polled(s, listener, watched + {s[i].fd})
  {
    assert Watchable(s, s[i].fd);
  }

  // ----- updates of one slot

  lemma HasUpdate(s: seq<Conn>, i: nat, c: Conn, fd: int)
    requires i < |s|
    ensures Has(s[i := c], fd) ==> c.fd == fd || Has(s, fd)
    ensures Has(s, fd) && (s[i].fd == fd ==> c.fd == fd) ==> Has(s[i := c], fd)
    ensures c.fd == fd ==> Has(s[i := c], fd)
  {
    var s' := s[i := c];
    assert s'[i] == c;
    if Has(s, fd) && (s[i].fd == fd ==> c.fd == fd) {
      var j :| 0 <= j < |s| && s[j].fd == fd;
      assert s'[j].fd == fd;
    }
  }

  lemma OwnedSame(s: seq<Conn>, i: nat, c: Conn, listener: int, open: set<int>, foreign: set<int>)
    requires Owned(s, listener, open, foreign) && i < |s| && c.fd == s[i].fd
    ensures Owned(s[i := c], listener, open, foreign)
  {
    forall fd ensures Has(s[i := c], fd) <==> Has(s, fd) {
      HasUpdate(s, i, c, fd);
      HasUpdate(s[i := c], i, s[i], fd);
      assert s[i := c][i := s[i]] == s;
    }
  }

  lemma OwnedClosed(s: seq<Conn>, i: nat, c: Conn, listener: int, open: set<int>, foreign: set<int>)
    requires Owned(s, listener, open, foreign) && i < |s| && c.fd == -1
    ensures Owned(s[i := c], listener, open - {s[i].fd}, foreign)
  {
    assert s[i].fd in foreign ==> Has(s, s[i].fd);
    forall fd ensures Has(s[i := c], fd) ==> fd == -1 || Has(s, fd)
              ensures Has(s, fd) && fd != s[i].fd ==> Has(s[i := c], fd) {
      HasUpdate(s, i, c, fd);
    }
  }

  lemma OwnedOpened(s: seq<Conn>, i: nat, c: Conn, listener: int, open: set<int>, foreign: set<int>)
    requires Owned(s, listener, open, foreign) && i < |s| && s[i].fd == -1 && 0 <= c.fd && c.fd !in open
    ensures Owned(s[i := c], listener, open + {c.fd}, foreign)
  {
    forall fd ensures Has(s[i := c], fd) ==> fd == c.fd || Has(s, fd)
              ensures (Has(s, fd) && fd != -1) || fd == c.fd ==> Has(s[i := c], fd) {
      HasUpdate(s, i, c, fd);
    }
  }

  lemma NewIsForeign(s: seq<Conn>, fd: int, listener: int, open: set<int>, foreign: set<int>)
    requires Owned(s, listener, open, foreign) && 0 <= fd && fd !in open
    ensures Owned(s, listener, open + {fd}, foreign + {fd})
  {
  }

  lemma StillPolled(s: seq<Conn>, i: nat, c: Conn, listener: int, watched: set<int>, watched': set<int>)
    requires Polled(s, listener, watched) && watched' <= watched && i < |s|
    requires s[i].fd in watched' ==> c.fd == s[i].fd && Live(c) && !Leaving(c)
    ensures Polled(s[i := c], listener, watched')
  {
    var s' := s[i := c];
    forall fd | fd in watched' && fd != listener ensures Watchable(s', fd) {
      var j :| 0 <= j < |s| && s[j].fd == fd && Live(s[j]) && !Leaving(s[j]);
      assert s'[j] == if j == i then c else s[j];
    }
  }

  lemma CloseSlot(s: seq<Conn>, i: nat, listener: int, open: set<int>, foreign: set<int>, watched: set<int>)
    requires SlotsOk(s) && Owned(s, listener, open, foreign) && Polled(s, listener, watched)
    requires i < |s| && Live(s[i])
    ensures var s' := s[i := Closed(s[i])];
            && SlotsOk(s') && Used(s') == Used(s) - 1
            && Owned(s', listener, open - {s[i].fd}, foreign) && Polled(s', listener, watched - {s[i].fd})
  {
    hide Owned, Polled, Used;
    UsedUpdate(s, i, Closed(s[i]));
    OwnedClosed(s, i, Closed(s[i]), listener, open, foreign);
    StillPolled(s, i, Closed(s[i]), listener, watched, watched - {s[i].fd});
  }

  lemma FreeSlot(s: seq<Conn>, i: nat)
    requires SlotsOk(s) && i < |s| && !Live(s[i])
    ensures s[i].idx == i && s[i].fd == -1 && s[i].state == {}
  {
  }

  lemma TakenOk(i: nat, now: Timespec, ttl: Timespec)
    requires OnClock(now) && 0 <= ttl.sec && 0 <= ttl.nsec
    ensures SlotOk(Taken(i, -1, ExpiryOf(now, ttl)), i)
  {
    AddExact(now, ttl);
    CarriedExact(now.sec + ttl.sec, now.nsec + ttl.nsec);
  }

  /** Setting and clearing a transient bit of a resting connection. */
  lemma BitsOk(s: seq<Conn>, i: nat, b: Bit)
    requires SlotsOk(s) && AtRest(s) && i < |s| && Live(s[i]) && b in {Error, In, Expired}
    ensures var c := s[i].(state := s[i].state + {b});
            && SlotOk(s[i], i) && SlotOk(c, i) && Live(c) && (Leaving(c) <==> Leaving(s[i]))
            && c.(state := c.state - {b}) == s[i] && Closed(c) == Closed(s[i])
  {
    assert Resting(s[i]);
    assert s[i].state + {b} - {b} == s[i].state;
  }

  /** A free slot becomes a connected one, still without a descriptor. */
  lemma TakeSlot(s: seq<Conn>, i: nat, c: Conn, listener: int, open: set<int>, foreign: set<int>, watched: set<int>)
    requires SlotsOk(s) && Owned(s, listener, open, foreign) && Polled(s, listener, watched)
    requires i < |s| && !Live(s[i]) && c.state == {Connected} && c.fd == -1 && SlotOk(c, i)
    ensures var s' := s[i := c];
            && SlotsOk(s') && Used(s') == Used(s) + 1
            && Owned(s', listener, open, foreign) && Polled(s', listener, watched)
  {
    hide Owned, Polled, Used;
    UsedUpdate(s, i, c);
    OwnedSame(s, i, c, listener, open, foreign);
    WatchedExist(s, listener, watched);
    StillPolled(s, i, c, listener, watched, watched);
  }

  lemma WatchedExist(s: seq<Conn>, listener: int, watched: set<int>)
    requires Polled(s, listener, watched)
    ensures -1 !in watched
  {
  }

  /** The slot gets the descriptor that accept returned. */
  lemma ConnectSlot(s: seq<Conn>, i: nat, fd: int, listener: int, open: set<int>, foreign: set<int>, watched: set<int>)
    requires SlotsOk(s) && Owned(s, listener, open, foreign) && Polled(s, listener, watched)
    requires i < |s| && Live(s[i]) && s[i].fd == -1 && 0 <= fd && fd !in open
    ensures var s' := s[i := s[i].(fd := fd)];
            && SlotsOk(s') && Used(s') == Used(s)
            && Owned(s', listener, open + {fd}, foreign) && Polled(s', listener, watched)
  {
    hide Owned, Polled, Used;
    var c := s[i].(fd := fd);
    UsedUpdate(s, i, c);
    OwnedOpened(s, i, c, listener, open, foreign);
    WatchedExist(s, listener, watched);
    StillPolled(s, i, c, listener, watched, watched);
  }

  /** Status bits and expiry of a connection change; one to be dropped is not polled. */
  lemma MarkSlot(s: seq<Conn>, i: nat, c: Conn, listener: int, open: set<int>, foreign: set<int>, watched: set<int>)
    requires SlotsOk(s) && Owned(s, listener, open, foreign) && Polled(s, listener, watched)
    requires i < |s| && Live(s[i]) && Live(c) && c.fd == s[i].fd && SlotOk(c, i)
    requires Leaving(c) ==> c.fd !in watched
    ensures var s' := s[i := c];
            && SlotsOk(s') && Used(s') == Used(s)
            && Owned(s', listener, open, foreign) && Polled(s', listener, watched)
  {
    hide Owned, Polled, Used;
    UsedUpdate(s, i, c);
    OwnedSame(s, i, c, listener, open, foreign);
    StillPolled(s, i, c, listener, watched, watched);
  }

  predicate NewSlot(c: Conn, i: int)
  {
    c.idx == i && c.fd == -1 && c.state == {} && c.bufpos == c.buffill == 0
  }

  lemma FreeSlots(s: seq<Conn>, m: nat)
    requires m <= |s| && forall i :: m <= i < |s| ==> NewSlot(s[i], i)
    ensures var t := s[m..];
            forall i :: 0 <= i < |t| ==> SlotOk(t[i], m + i) && t[i].state == {} && t[i].fd == -1
  {
    var t := s[m..];
    forall i | 0 <= i < |t| ensures SlotOk(t[i], m + i) && t[i].state == {} && t[i].fd == -1 {
      assert NewSlot(s[m + i], m + i);
    }
  }

  /** All slots are locked, or unlocked. */
  function Locked(s: seq<Conn>): (r: seq<Conn>)
    ensures |r| == |s|
  {
    seq(|s|, j requires 0 <= j < |s| => s[j].(state := s[j].state + {Busy}))
  }

  function Unlocked(s: seq<Conn>): (r: seq<Conn>)
    ensures |r| == |s|
  {
    seq(|s|, j requires 0 <= j < |s| => s[j].(state := s[j].state - {Busy}))
  }

  /** Slots that were locked, joined by new ones and unlocked. */
  lemma GrownSlots(s: seq<Conn>, grown: seq<Conn>)
    requires AtRest(s) && |s| <= |grown| && grown[..|s|] == Locked(s)
    requires forall i :: |s| <= i < |grown| ==> NewSlot(grown[i], i)
    ensures var done := Unlocked(grown);
            done == s + done[|s|..] && forall i :: |s| <= i < |done| ==> NewSlot(done[i], i)
  {
    var done := Unlocked(grown);
    forall i | 0 <= i < |s| ensures done[i] == s[i] {
      assert Resting(s[i]) && s[i].state + {Busy} - {Busy} == s[i].state;
      assert grown[i] == grown[..|s|][i] == Locked(s)[i];
    }
    forall i | |s| <= i < |grown| ensures NewSlot(done[i], i) {
      assert NewSlot(grown[i], i) && grown[i].state - {Busy} == {};
    }
  }

  lemma OwnedGrow(s: seq<Conn>, t: seq<Conn>, listener: int, open: set<int>, foreign: set<int>)
    requires Owned(s, listener, open, foreign) && forall i :: 0 <= i < |t| ==> t[i].fd == -1
    ensures Owned(s + t, listener, open, foreign)
  {
    var w := s + t;
    forall fd | fd != -1 ensures Has(w, fd) <==> Has(s, fd) {
      if Has(s, fd) {
        var j :| 0 <= j < |s| && s[j].fd == fd;
        assert w[j].fd == fd;
      }
    }
    assert forall i :: 0 <= i < |w| && w[i].fd != -1 ==> i < |s| && w[i] == s[i];
  }

  /** New slots are free. */
  lemma GrowSlots(s: seq<Conn>, t: seq<Conn>, listener: int, open: set<int>, foreign: set<int>, watched: set<int>)
    requires SlotsOk(s) && Owned(s, listener, open, foreign) && Polled(s, listener, watched)
    requires forall i :: 0 <= i < |t| ==> SlotOk(t[i], |s| + i) && t[i].state == {} && t[i].fd == -1
    ensures SlotsOk(s + t) && Used(s + t) == Used(s)
    ensures Owned(s + t, listener, open, foreign) && Polled(s + t, listener, watched)
    ensures AtRest(s) ==> AtRest(s + t)
  {
    hide Owned, Used;
    var w := s + t;
    UsedFree(s, t);
    OwnedGrow(s, t, listener, open, foreign);
    forall i | 0 <= i < |w| ensures SlotOk(w[i], i) && (AtRest(s) ==> Resting(w[i])) {
      assert w[i] == if i < |s| then s[i] else t[i - |s|];
    }
    forall fd | fd in watched && fd != listener ensures Watchable(w, fd) {
      var j :| 0 <= j < |s| && s[j].fd == fd && Live(s[j]) && !Leaving(s[j]);
      assert w[j] == s[j];
    }
  }

  /** A new descriptor becomes the listener, or the listener is closed. */
  lemma ListenerChanges(s: seq<Conn>, fd: int, open: set<int>, foreign: set<int>, watched: set<int>)
    ensures SlotsOk(s) && Owned(s, -1, open, foreign) && Polled(s, -1, watched) && 0 <= fd && fd !in open ==>
              Owned(s, fd, open + {fd}, foreign) && Polled(s, fd, watched)
    ensures Owned(s, fd, open, foreign) && Polled(s, fd, watched) && 0 <= fd ==>
              Owned(s, -1, open - {fd}, foreign) && Polled(s, -1, watched - {fd})
  {
  }

  // ----- the signals

  ghost function Closings(trace: seq<Event>): nat
  {
    if trace == [] then 0
    else Closings(trace[..|trace| - 1]) + if trace[|trace| - 1].signal == Closing then 1 else 0
  }

  lemma {:induction false} ClosingsConcat(t: seq<Event>, u: seq<Event>)
    ensures Closings(t + u) == Closings(t) + Closings(u)
  {
    if u == [] {
      assert t + u == t;
    } else {
      assert (t + u)[..|t + u| - 1] == t + u[..|u| - 1];
      ClosingsConcat(t, u[..|u| - 1]);
    }
  }

  /** Each TIMED_OUT is directly followed by CLOSING for the same slot, and DATA_LEFT is
      never signalled. */
  ghost predicate Disciplined(trace: seq<Event>)
  {
    forall k :: 0 <= k < |trace| ==> InOrder(trace, k)
  }

  ghost predicate InOrder(trace: seq<Event>, k: nat)
    requires k < |trace|
  {
    && trace[k].signal != DataLeft
    && (trace[k].signal == TimedOut ==> k + 1 < |trace| && trace[k + 1] == Event(Closing, trace[k].slot))
  }

  lemma DisciplinedConcat(t: seq<Event>, u: seq<Event>)
    requires Disciplined(t) && Disciplined(u)
    ensures Disciplined(t + u)
  {
    var w := t + u;
    forall k | 0 <= k < |w| ensures InOrder(w, k) {
      if k < |t| {
        assert InOrder(t, k);
      } else {
        assert InOrder(u, k - |t|);
      }
    }
  }

  lemma OneSignal(t: seq<Event>, signal: Signal, slot: nat)
    ensures Closings(t + [Event(signal, slot)]) == Closings(t) + if signal == Closing then 1 else 0
    ensures Disciplined(t) && signal != TimedOut && signal != DataLeft ==> Disciplined(t + [Event(signal, slot)])
  {
    ClosingsConcat(t, [Event(signal, slot)]);
    assert [Event(signal, slot)][..0] == [];
    if Disciplined(t) && signal != TimedOut && signal != DataLeft {
      DisciplinedConcat(t, [Event(signal, slot)]);
    }
  }

  /** The CLOSING signals for the slots of s that are to be dropped, in slot order. */
  ghost function Drops(s: seq<Conn>): (t: seq<Event>)
    ensures forall k :: 0 <= k < |t| ==> t[k].slot < |s|
    ensures forall j, k :: 0 <= j < k < |t| ==> t[j].slot < t[k].slot
  {
    if s == [] then []
    else Drops(s[..|s| - 1]) + if Leaving(s[|s| - 1]) then [Event(Closing, |s| - 1)] else []
  }

  /** Each connection to be dropped is signalled exactly once, and no other. */
  lemma {:induction false} DropsOnce(s: seq<Conn>, i: nat)
    ensures multiset(Drops(s))[Event(Closing, i)] == if i < |s| && Leaving(s[i]) then 1 else 0
  {
    hide Leaving;
    if s != [] {
      hide Drops;
      var n := |s| - 1;
      var last := if Leaving(s[n]) then [Event(Closing, n)] else [];
      DropsOnce(s[..n], i);
      LastDrop(s);
      CountConcat(Drops(s[..n]), last, Event(Closing, i));
    }
  }

  lemma LastDrop(s: seq<Conn>)
    requires s != []
    ensures var n := |s| - 1; Drops(s) == Drops(s[..n]) + if Leaving(s[n]) then [Event(Closing, n)] else []
  {
  }

  lemma CountConcat(t: seq<Event>, u: seq<Event>, e: Event)
    ensures multiset(t + u)[e] == multiset(t)[e] + multiset(u)[e]
  {
  }

  /** The slots of s after those to be dropped were closed. */
  ghost function Dropped(s: seq<Conn>): (r: seq<Conn>)
    ensures |r| == |s|
  {
    seq(|s|, i requires 0 <= i < |s| => if Leaving(s[i]) then Closed(s[i]) else s[i])
  }

  /** TIMED_OUT and CLOSING for the slots that were live in s and are free in s'. */
  ghost function Expiries(s: seq<Conn>, s': seq<Conn>): (t: seq<Event>)
    requires |s| == |s'|
    ensures forall k :: 0 <= k < |t| ==> t[k].slot < |s|
    ensures forall j, k :: 0 <= j < k < |t| ==> t[j].slot <= t[k].slot
  {
    if s == [] then []
    else
      var n := |s| - 1;
      Expiries(s[..n], s'[..n]) + if Live(s[n]) && !Live(s'[n]) then [Event(TimedOut, n), Event(Closing, n)] else []
  }

  /** The slots and the signals when the sweep has passed the first n slots. */
  ghost function DroppedTo(s: seq<Conn>, n: nat): (r: seq<Conn>)
    ensures |r| == |s|
  {
    seq(|s|, i requires 0 <= i < |s| => if i < n && Leaving(s[i]) then Closed(s[i]) else s[i])
  }

  ghost function DropsTo(s: seq<Conn>, n: nat): seq<Event>
    requires n <= |s|
  {
    Drops(s[..n])
  }

  lemma DropEnds(s: seq<Conn>)
    ensures DroppedTo(s, 0) == s && DropsTo(s, 0) == []
    ensures DroppedTo(s, |s|) == Dropped(s) && DropsTo(s, |s|) == Drops(s)
  {
    assert s[..|s|] == s && s[..0] == [];
  }

  lemma DropStep(s: seq<Conn>, n: nat)
    requires n < |s|
    ensures var u := DroppedTo(s, n);
            && u[n] == s[n]
            && DroppedTo(s, n + 1) == if Leaving(s[n]) then u[n := Closed(s[n])] else u
    ensures DropsTo(s, n + 1) == DropsTo(s, n) + if Leaving(s[n]) then [Event(Closing, n)] else []
  {
    assert s[..n + 1][..n] == s[..n];
  }

  lemma ExpiryDisciplined(t: seq<Event>, i: nat)
    requires Disciplined(t)
    ensures Disciplined(t + [Event(TimedOut, i), Event(Closing, i)])
  {
    DisciplinedConcat(t, [Event(TimedOut, i), Event(Closing, i)]);
  }

  /** What the expiry sweep does to a slot between the times t0 and t1. */
  ghost predicate Swept(c: Conn, c': Conn, t0: int, t1: int)
  {
    if Live(c') then c' == c && (IsSet(c.expire) ==> t0 < Total(c.expire))
    else if Live(c) then c' == Closed(c) && IsSet(c.expire) && Total(c.expire) <= t1
    else c' == c
  }

  /** The expiry sweep has passed the first n slots. */
  ghost predicate SweptTo(s: seq<Conn>, s': seq<Conn>, n: nat, t0: int, t1: int)
  {
    && |s| == |s'|
    && forall i :: 0 <= i < |s| ==> if i < n then Swept(s[i], s'[i], t0, t1) else s'[i] == s[i]
  }

  ghost function ExpiriesTo(s: seq<Conn>, s': seq<Conn>, n: nat): seq<Event>
    requires n <= |s| == |s'|
  {
    Expiries(s[..n], s'[..n])
  }

  lemma SweepStarts(s: seq<Conn>, t: int)
    ensures SweptTo(s, s, 0, t, t) && ExpiriesTo(s, s, 0) == []
  {
  }

  lemma SweepStep(s: seq<Conn>, u: seq<Conn>, u': seq<Conn>, n: nat, t0: int, t: int, t1: int)
    requires SweptTo(s, u, n, t0, t) && t0 <= t <= t1 && n < |s|
    requires |u'| == |u| && u' == u[n := u'[n]] && Swept(u[n], u'[n], t, t1)
    ensures SweptTo(s, u', n + 1, t0, t1)
    ensures ExpiriesTo(s, u', n + 1)
         == ExpiriesTo(s, u, n) + if Live(u[n]) && !Live(u'[n]) then [Event(TimedOut, n), Event(Closing, n)] else []
  {
    assert s[..n + 1][..n] == s[..n] && u'[..n + 1][..n] == u[..n] && u[n] == s[n];
    forall i | 0 <= i < n ensures Swept(s[i], u'[i], t0, t1) {
      assert Swept(s[i], u[i], t0, t);
    }
  }

  lemma OneWanes(s: seq<Conn>, s': seq<Conn>, i: nat, t0: int, t1: int)
    requires i < |s| == |s'| && s' == s[i := s'[i]] && Swept(s[i], s'[i], t0, t1)
    ensures Wanes(s, s')
  {
    assert forall j :: 0 <= j < |s| && j != i ==> s'[j] == s[j];
  }

  lemma SweepEnds(s: seq<Conn>, s': seq<Conn>, t0: int, t1: int)
    requires SweptTo(s, s', |s|, t0, t1)
    ensures ExpiriesTo(s, s', |s|) == Expiries(s, s')
    ensures forall i :: 0 <= i < |s| ==> Swept(s[i], s'[i], t0, t1)
  {
    assert s[..|s|] == s && s'[..|s|] == s';
  }

  /** A readable connection that was shut down is marked to be dropped. */
  function Marked(c: Conn, expire: Timespec): Conn
  {
    c.(state := c.state + {Disconnection}, expire := expire)
  }

  lemma MarkedOk(s: seq<Conn>, i: nat, expire: Timespec)
    requires SlotsOk(s) && AtRest(s) && i < |s| && Live(s[i]) && IsSet(expire) && OnClock(expire)
    ensures SlotOk(Marked(s[i], expire), i) && Live(Marked(s[i], expire)) && Resting(Marked(s[i], expire))
  {
    assert Resting(s[i]) && SlotOk(s[i], i);
    assert s[i].state + {Disconnection} == {Connected, Disconnection};
  }

  lemma ConnOk(s: seq<Conn>, i: nat)
    requires SlotsOk(s) && i < |s|
    ensures SlotOk(s[i], i)
  {
  }

  lemma NoDescriptor(s: seq<Conn>, i: nat)
    requires SlotsOk(s) && i < |s|
    ensures !Live(s[i]) ==> s[i].fd == -1
  {
    assert SlotOk(s[i], i);
  }

  lemma SoleOwner(s: seq<Conn>, i: nat, listener: int, open: set<int>, foreign: set<int>)
    requires Owned(s, listener, open, foreign) && i < |s|
    ensures s[i].fd != -1 ==> forall j :: 0 <= j < |s| && s[j].fd == s[i].fd ==> j == i
  {
  }
}
