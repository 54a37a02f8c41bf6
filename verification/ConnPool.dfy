/** The TCP connection pool of src/api_net/connection_pool: its slots, what it polls, and
    the signals that its callback gets. The callback does not touch the pool. */
module ConnPools {
  import opened Timespecs
  import opened Kernels
  import opened ConnSlots
  import opened ConnEvents
  import opened ConnShrinks
  import opened Wrappers

  class Pool {
    const kernel: Kernel
    const callback: bool         // is callback_func set?
    const async: bool            // AP_NET_POOL_FLAGS_ASYNC
    var conns: array<Conn>
    var maxConnections: nat
    var usedSlots: int
    var busy: bool               // the lock bit of pool->state
    var poller: bool             // has a poller been created?
    var events: seq<Ready>       // the poller's last events
    var maxConnTtl: Timespec
    var listener: int            // listener.sock
    var connCount: nat
    var activeConnCount: int
    var queueFullCount: nat
    ghost var trace: seq<Event>  // the calls of the callback
    ghost var foreign: set<int>  // the open descriptors that are not the pool's

    ghost function Slots(): seq<Conn>
      requires maxConnections <= conns.Length
      reads `conns, `maxConnections, conns
    {
      conns[..maxConnections]
    }

    ghost predicate Valid()
      reads this, conns, kernel
    {
      && maxConnections <= conns.Length
      && kernel.Valid()
      && SlotsOk(Slots())
      && usedSlots == Used(Slots())
      && Owned(Slots(), listener, kernel.open, foreign)
      && Polled(Slots(), listener, kernel.watched)
      && 0 <= maxConnTtl.sec && 0 <= maxConnTtl.nsec
      && Counted()
    }

    /** Every connection that was ever taken is still there or was signalled as closing. */
    ghost predicate Counted()
      reads `trace, `usedSlots, `connCount
    {
      if callback then Closings(trace) + usedSlots == connCount else trace == []
    }

    ghost function Setup(): Config
      reads `listener, `maxConnTtl
    {
      Config(listener, maxConnTtl, callback, async)
    }

    /** What holds between calls. */
    ghost predicate Sound()
      reads this, conns, kernel
    {
      Valid() && AtRest(Slots()) && Disciplined(trace)
    }

    /** The memory that ap_net_conn_pool_create gets from malloc, with the fields it sets
        before the slots exist; pool->state is not one of them. */
    constructor Allocated(kernel: Kernel, callback: bool, async: bool)
      requires kernel.Valid() && kernel.watched == {}
      ensures Sound() && maxConnections == usedSlots == connCount == 0 && listener == -1 && !poller
      ensures fresh(conns) && trace == [] && foreign == kernel.open
      ensures this.kernel == kernel && this.callback == callback && this.async == async
    {
      this.kernel, this.callback, this.async := kernel, callback, async;
      conns := new Conn[0];
      maxConnections, usedSlots := 0, 0;
      busy := *;
      poller, events := false, [];
      maxConnTtl := Timespec(0, 0);
      listener := -1;
      connCount, activeConnCount, queueFullCount := 0, 0, 0;
      trace, foreign := [], kernel.open;
    }

    lemma Sized()
      requires Sound()
      ensures maxConnections <= conns.Length && Valid() && AtRest(Slots()) && Disciplined(trace)
    {
    }

    lemma Fits()
      requires Valid()
      ensures maxConnections <= conns.Length && usedSlots == Used(Slots())
      ensures kernel.Valid() && 0 <= maxConnTtl.sec && 0 <= maxConnTtl.nsec
    {
    }

    /** Call the callback, if there is one. */
    ghost method Signal(signal: Signal, slot: nat)
      modifies `trace
      ensures trace == old(trace) + if callback then [Event(signal, slot)] else []
      ensures Closings(trace) == Closings(old(trace)) + if callback && signal == Closing then 1 else 0
      ensures Disciplined(old(trace)) && signal != TimedOut && signal != DataLeft ==> Disciplined(trace)
    {
      hide Closings, Disciplined;
      if callback {
        trace := trace + [Event(signal, slot)];
        OneSignal(old(trace), signal, slot);
      }
    }

    /** Call the callback about a connection that stays. */
    ghost method Notify(signal: Signal, slot: nat)
      requires Sound() && signal != Closing && signal != TimedOut && signal != DataLeft
      modifies `trace
      ensures Sound() && trace == old(trace) + if callback then [Event(signal, slot)] else []
    {
      hide SlotsOk, Owned, Polled, AtRest, Closings, Disciplined, Used;
      Signal(signal, slot);
    }

    // ----- utilities

    /** ap_net_conn_pool_get_conn_by_fd: the first slot with the descriptor, or -1. */
    method GetConnByFd(fd: int) returns (r: int)
      requires maxConnections <= conns.Length
      ensures r == -1 ==> forall i :: 0 <= i < maxConnections ==> conns[i].fd != fd
      ensures r != -1 ==> 0 <= r < maxConnections && conns[r].fd == fd && forall i :: 0 <= i < r ==> conns[i].fd != fd
    {
      var i := 0;
      while i < maxConnections
        invariant i <= maxConnections
        invariant forall j :: 0 <= j < i ==> conns[j].fd != fd
      {
        if conns[i].fd == fd { return i; }
        i := i + 1;
      }
      return -1;
    }

    /** ap_net_conn_pool_find_free_slot: the lowest free slot, or -1 exactly when all are in use. */
    method FindFreeSlot() returns (r: int)
      requires Valid()
      modifies `queueFullCount
      ensures Valid() && (old(Sound()) ==> Sound())
      ensures r == -1 <==> forall i :: 0 <= i < maxConnections ==> Live(conns[i])
      ensures r == -1 <==> usedSlots == maxConnections
      ensures r != -1 ==> 0 <= r < maxConnections && !Live(conns[r]) && forall i :: 0 <= i < r ==> Live(conns[i])
      ensures queueFullCount == old(queueFullCount) + if r == -1 then 1 else 0
    {
      hide SlotsOk, Owned, Polled, Closings, Used, Disciplined, AtRest;
      UsedAllIff(Slots());
      assert forall i :: 0 <= i < maxConnections ==> conns[i] == Slots()[i];
      if usedSlots == maxConnections {
        queueFullCount := queueFullCount + 1;
        return -1;
      }
      r := 0;
      while r < maxConnections
        invariant 0 <= r <= maxConnections
        invariant forall i :: 0 <= i < r ==> Live(conns[i])
      {
        if !Live(conns[r]) { return; }
        r := r + 1;
      }
      assert false;
    }

    // ----- the poller

    /** ap_net_conn_pool_poller_remove_conn */
    method RemoveConn(i: nat)
      requires maxConnections <= conns.Length && i < maxConnections && kernel.Valid()
      modifies kernel`watched
      ensures kernel.Valid() && kernel.watched == old(kernel.watched) - if poller then {conns[i].fd} else {}
    {
      if poller {
        kernel.Unwatch(conns[i].fd);
      }
    }

    /** ap_net_conn_pool_poller_add_conn */
    method AddConn(i: nat) returns (ok: bool, ghost answers: seq<Answer>)
      requires Valid() && i < maxConnections && Live(conns[i]) && !Leaving(conns[i]) && Error !in conns[i].state
      modifies `poller, kernel`watched, kernel`log
      ensures Valid()
      ensures ok ==> poller && conns[i].fd in kernel.watched
      ensures old(poller) ==> poller && kernel.watched == old(kernel.watched) + if ok then {conns[i].fd} else {}
      ensures kernel.log == old(kernel.log) + answers && (ok <==> !AnyRefused(answers))
      ensures old(poller) ==> answers == [Watching(conns[i].fd, ok)]
      decreases if poller then 0 else 2
    {
      hide AnyRefused, Closings, Used;
      if !poller {
        ok, answers := PollerCreate();
        return;
      }
      ghost var s := Slots();
      assert s[i] == conns[i];
      ok := kernel.Watch(conns[i].fd);
      if ok { WatchSlot(s, listener, old(kernel.watched), i); }
      answers := [Watching(conns[i].fd, ok)];
      RefusedOne(Watching(conns[i].fd, ok));
    }

    ghost predicate Pollable(c: Conn)
    {
      Live(c) && !Leaving(c) && Error !in c.state
    }

    /** ap_net_conn_pool_poller_create: watch the listener and every connection that is up. */
    method PollerCreate() returns (ok: bool, ghost answers: seq<Answer>)
      requires Valid()
      modifies `poller, kernel`watched, kernel`log
      ensures Valid()
      ensures ok ==> poller && (listener != -1 ==> listener in kernel.watched)
      ensures ok ==> forall i :: 0 <= i < maxConnections && Pollable(conns[i]) ==> conns[i].fd in kernel.watched
      ensures kernel.log == old(kernel.log) + answers && (ok <==> !AnyRefused(answers))
      decreases 1
    {
      hide AnyRefused, SlotsOk, Owned, Polled, Closings, Used;
      ok, answers := CreateOn();
      poller := ok;
      if !poller { return; }
      var i := 0;
      while i < maxConnections
        invariant 0 <= i <= maxConnections && Valid() && poller
        invariant listener != -1 ==> listener in kernel.watched
        invariant forall j :: 0 <= j < i && Pollable(conns[j]) ==> conns[j].fd in kernel.watched
        invariant kernel.log == old(kernel.log) + answers && !AnyRefused(answers)
      {
        if !(!Live(conns[i]) || Error in conns[i].state || Leaving(conns[i])) {
          ghost var more;
          ok, more := AddConn(i);
          RefusedConcat(answers, more);
          answers := answers + more;
          if !ok { return; }
        }
        i := i + 1;
      }
      ok := true;
    }

    /** ap_net_poller_create */
    method CreateOn() returns (ok: bool, ghost answers: seq<Answer>)
      requires Valid()
      modifies kernel`watched, kernel`log
      ensures Valid()
      ensures ok && listener != -1 ==> listener in kernel.watched
      ensures kernel.log == old(kernel.log) + answers && (ok <==> !AnyRefused(answers))
    {
      hide AnyRefused, Closings, Used;
      ok := kernel.EpollCreate();
      answers := [EpollMade(ok)];
      RefusedOne(EpollMade(ok));
      if ok && 0 <= listener {
        ok := kernel.Watch(listener);
        RefusedConcat(answers, [Watching(listener, ok)]);
        RefusedOne(Watching(listener, ok));
        answers := answers + [Watching(listener, ok)];
      }
    }

    // ----- locks

    /** lock() in a single thread: nobody clears a lock that is held, so waiting fails. */
    method LockConn(i: nat) returns (ok: bool)
      requires i < conns.Length
      modifies conns
      ensures ok <==> Busy !in old(conns[i].state)
      ensures conns[..] == if ok then old(conns[..])[i := old(conns[i]).(state := old(conns[i].state) + {Busy})]
                           else old(conns[..])
    {
      if Busy in conns[i].state { return false; }
      conns[i] := conns[i].(state := conns[i].state + {Busy});
      return true;
    }

    /** ap_net_connection_unlock */
    method UnlockConn(i: nat)
      requires i < conns.Length
      modifies conns
      ensures conns[..] == old(conns[..])[i := old(conns[i]).(state := old(conns[i].state) - {Busy})]
      ensures Busy !in old(conns[i].state) ==> conns[..] == old(conns[..])
    {
      assert Busy !in conns[i].state ==> conns[i].state - {Busy} == conns[i].state;
      conns[i] := conns[i].(state := conns[i].state - {Busy});
    }

    // ----- one connection

    /** ap_net_conn_pool_close_connection */
    method CloseConnection(i: nat)
      requires Valid() && i < maxConnections
      modifies conns, `usedSlots, `trace, kernel`open, kernel`watched
      ensures Valid()
      ensures var c := old(Slots())[i];
              Slots() == if Live(c) then old(Slots())[i := c.(state := {}, fd := -1)] else old(Slots())
      ensures trace == old(trace) + if callback && Live(old(Slots())[i]) then [Event(Closing, i)] else []
      ensures Disciplined(old(trace)) ==> Disciplined(trace)
      ensures old(Sound()) ==> Sound()
      ensures usedSlots == old(usedSlots) - if Live(old(Slots())[i]) then 1 else 0
      ensures var fds := if Live(old(Slots())[i]) then {old(Slots())[i].fd} else {};
              kernel.open == old(kernel.open) - fds && kernel.watched == old(kernel.watched) - fds
    {
      hide SlotsOk, Owned, Polled, Closings, Disciplined, Used, AtRest;
      ghost var s := Slots();
      assert s[i] == conns[i];
      if !Live(conns[i]) { return; }
      RestClosed(s, i);
      CloseSlot(s, i, listener, kernel.open, foreign, kernel.watched);
      ghost var w := kernel.watched;
      Signal(Closing, i);
      RemoveConn(i);
      ReleaseSlot(i);
      assert kernel.watched == w - {s[i].fd};
    }

    /** The connection's descriptor is closed and its slot becomes free. */
    method ReleaseSlot(i: nat)
      requires maxConnections <= conns.Length && i < maxConnections && kernel.Valid()
      modifies conns, `usedSlots, kernel`open, kernel`watched
      ensures kernel.Valid() && usedSlots == old(usedSlots) - 1
      ensures Slots() == old(Slots())[i := Closed(old(Slots())[i])]
      ensures var fd := old(Slots())[i].fd;
              kernel.open == old(kernel.open) - {fd} && kernel.watched == old(kernel.watched) - {fd}
    {
      ghost var s := Slots();
      var fd := conns[i].fd;
      conns[i] := conns[i].(state := {});
      kernel.Close(fd);
      conns[i] := conns[i].(fd := -1);
      usedSlots := usedSlots - 1;
      assert Slots() == s[i := Closed(s[i])];
    }

    /** ap_net_conn_pool_connection_pre_connect, for a TCP connection */
    method PreConnect(i: nat)
      requires Valid() && i < maxConnections && !Live(conns[i])
      modifies conns, `usedSlots, `connCount, `activeConnCount, kernel`clock
      ensures Valid() && Total(old(kernel.clock)) <= Total(kernel.clock)
      ensures Slots() == old(Slots())[i := Taken(i, -1, ExpiryOf(kernel.clock, maxConnTtl))]
      ensures Slots()[i] == Conn(i, -1, {Connected}, Slots()[i].expire, 0, 0)
      ensures usedSlots == old(usedSlots) + 1 && connCount == old(connCount) + 1
      ensures activeConnCount == old(activeConnCount) + usedSlots
    {
      hide SlotsOk, Owned, Polled, Closings, Used, IsSet, Add;
      ghost var s := Slots();
      assert s[i] == conns[i];
      FreeSlot(s, i);
      InitSlot(i);
      usedSlots := usedSlots + 1;
      connCount := connCount + 1;
      activeConnCount := activeConnCount + usedSlots;
      TakenOk(i, kernel.clock, maxConnTtl);
      TakeSlot(s, i, Taken(i, -1, ExpiryOf(kernel.clock, maxConnTtl)), listener, kernel.open, foreign, kernel.watched);
    }

    /** The part of pre_connect that sets the slot. */
    method InitSlot(i: nat)
      requires maxConnections <= conns.Length && i < maxConnections && kernel.Valid()
      requires conns[i].idx == i && conns[i].fd == -1 && conns[i].state == {}
      modifies conns, kernel`clock
      ensures kernel.Valid() && Total(old(kernel.clock)) <= Total(kernel.clock)
      ensures Slots() == old(Slots())[i := Taken(i, -1, ExpiryOf(kernel.clock, maxConnTtl))]
    {
      hide IsSet, Add;
      ghost var s := Slots();
      var locked := LockConn(i);
      var created := kernel.Now();
      if IsSet(maxConnTtl) {
        conns[i] := conns[i].(expire := Add(created, maxConnTtl));
      } else {
        conns[i] := conns[i].(expire := Timespec(0, 0));
      }
      conns[i] := conns[i].(fd := -1);
      conns[i] := conns[i].(bufpos := 0, buffill := 0);
      conns[i] := conns[i].(state := {Connected});
      assert Slots() == s[i := Taken(i, -1, ExpiryOf(created, maxConnTtl))];
    }

    /** The callback is asked about a connection that is polled, and decides. */
    ghost function Asked(error: ErrorCode, r: int): seq<Answer>
    {
      if !callback || (error == NoError && r == -1) then [] else [Allowed(r != -1)]
    }

    /** ap_net_conn_pool_accept_connection, TCP branch: the new slot or -1. */
    method Accept() returns (r: int, error: ErrorCode, ghost a: Accepting)
      requires Sound()
      modifies conns, `usedSlots, `connCount, `activeConnCount, `queueFullCount, `poller, `trace, kernel
      ensures Sound() && (old(poller) ==> poller)
      ensures AcceptRan(a, old(Slots()), Slots(), Setup()) && a.r == r && a.error == error
      ensures kernel.log == old(kernel.log) + AcceptAnswers(a, Setup())
      ensures trace == old(trace) + AcceptSignals(a, Setup())
      ensures Total(old(kernel.clock)) <= Total(kernel.clock)
      ensures if error == ListFull then kernel.clock == old(kernel.clock) == a.now else kernel.clock == a.now
      ensures r != -1 ==> a.fd !in old(kernel.open) && a.fd in kernel.watched
      ensures old(poller) ==> WatchedOnce(a) && old(kernel.watched) <= kernel.watched
      ensures connCount == old(connCount) + (if error == ListFull then 0 else 1)
      ensures activeConnCount == old(activeConnCount) + (if error == ListFull then 0 else old(usedSlots) + 1)
      ensures queueFullCount == old(queueFullCount) + (if error == ListFull then 1 else 0)
      // accept() failed: the slot is lost if and only if the pool has no timeout
      ensures error == System ==> (Lost(Slots()[a.slot]) <==> !IsSet(maxConnTtl))
    {
      hide Valid, Sound, Closings, Disciplined, Used, AtRest, AtRestBut, ExpiryOf, AnyRefused, Lost, IsSet, AcceptRan,
        AcceptAnswers, AcceptSignals, WatchedOnce, Total;
      Sized();
      Fits();
      ghost var s, cfg := Slots(), Setup();
      r := FindFreeSlot();
      if r == -1 {
        a := Accepting(-1, ListFull, 0, -1, kernel.clock, Timespec(0, 0), []);
        PoolFull(a, s, cfg);
        return -1, ListFull, a;
      }
      assert forall j :: 0 <= j < maxConnections ==> s[j] == conns[j];
      r, error, a := AcceptAt(r);
      Sized();
      TookSlot(a, s, Slots(), cfg);
      if error == System { FailedAcceptLosesIff(a, s, Slots(), cfg); }
    }

    /** The TCP branch, with the slot that was found. */
    method AcceptAt(i: nat) returns (r: int, error: ErrorCode, ghost a: Accepting)
      requires Sound() && i < maxConnections && !Live(conns[i])
      modifies conns, `usedSlots, `connCount, `activeConnCount, `poller, `trace, kernel
      ensures Sound() && error != ListFull && (old(poller) ==> poller)
      ensures a == Accepting(r, error, i, a.fd, kernel.clock, ExpiryOf(kernel.clock, maxConnTtl), a.watch)
      ensures kernel.log == old(kernel.log) + AcceptAnswers(a, Setup())
      ensures trace == old(trace) + AcceptSignals(a, Setup())
      ensures Total(old(kernel.clock)) <= Total(kernel.clock) && OnClock(kernel.clock)
      ensures connCount == old(connCount) + 1 && activeConnCount == old(activeConnCount) + old(usedSlots) + 1
      ensures error == System <==> a.fd == -1
      ensures error == System || (AnyRefused(a.watch) <==> error == NoError && r == -1)
      ensures old(poller) ==> WatchedOnce(a) && old(kernel.watched) <= kernel.watched
      ensures error == AcceptDenied ==> callback
      ensures r != -1 ==> error == NoError && r == i && 0 <= a.fd && a.fd !in old(kernel.open) && a.fd in kernel.watched
      ensures Slots() == old(Slots())[i := Taken(i, -1, a.expire)]
                                     [i := if error == System || r != -1 then Taken(i, a.fd, a.expire)
                                           else Closed(Taken(i, -1, a.expire))]
    {
      hide Valid, Sound, Closings, Disciplined, Used, AtRest, AtRestBut, ExpiryOf, AnyRefused, AcceptAnswers,
        AcceptSignals, WatchedOnce, Total;
      Sized();
      ghost var s := Slots();
      PreConnect(i);
      Fits();
      ghost var now, expire := kernel.clock, ExpiryOf(kernel.clock, maxConnTtl);
      RestBut(s, i, Taken(i, -1, expire));
      r, error, a := AcceptInto(i, now, expire);
    }

    /** The TCP branch from accept() on. */
    method AcceptInto(i: nat, ghost now: Timespec, ghost expire: Timespec)
      returns (r: int, error: ErrorCode, ghost a: Accepting)
      requires Valid() && Disciplined(trace) && AtRestBut(Slots(), i)
      requires i < maxConnections && conns[i] == Taken(i, -1, expire)
      modifies conns, `usedSlots, `poller, `trace, kernel`open, kernel`watched, kernel`log
      ensures Sound() && error != ListFull && (old(poller) ==> poller)
      ensures a == Accepting(r, error, i, a.fd, now, expire, a.watch)
      ensures kernel.log == old(kernel.log) + AcceptAnswers(a, Setup())
      ensures trace == old(trace) + AcceptSignals(a, Setup())
      ensures error == System <==> a.fd == -1
      ensures error == System || (AnyRefused(a.watch) <==> error == NoError && r == -1)
      ensures old(poller) ==> WatchedOnce(a) && old(kernel.watched) <= kernel.watched
      ensures error == AcceptDenied ==> callback
      ensures r != -1 ==> error == NoError && r == i && 0 <= a.fd && a.fd !in old(kernel.open) && a.fd in kernel.watched
      ensures Slots() == old(Slots())[i := if error == System || r != -1 then Taken(i, a.fd, expire)
                                           else Closed(Taken(i, -1, expire))]
    {
      hide Valid, Sound, Closings, Disciplined, Used, AtRestBut, AnyRefused, AcceptAnswers, AcceptSignals, Asked,
        WatchedOnce;
      Fits();
      ghost var s, log := Slots(), kernel.log;
      assert s[i] == conns[i];
      var newSock := Attach(i);
      if newSock == -1 {
        NoSocket(i, now, expire);
        return -1, System, Accepting(-1, System, i, -1, now, expire, []);
      }
      ghost var watch;
      r, error, watch := Admit(i);
      a := Accepting(r, error, i, newSock, now, expire, watch);
      AcceptedAs(a);
      assert kernel.log == log + ([Descriptor(newSock)] + watch + Asked(error, r));
      SetTwice(s, i, Taken(i, newSock, expire), Closed(Taken(i, newSock, expire)));
    }

    lemma NoSocket(i: nat, now: Timespec, expire: Timespec)
      ensures var a := Accepting(-1, System, i, -1, now, expire, []);
              AcceptAnswers(a, Setup()) == [Descriptor(-1)] && AcceptSignals(a, Setup()) == [] && WatchedOnce(a)
    {
    }

    lemma AcceptedAs(a: Accepting)
      requires a.error == NoError || (a.error == AcceptDenied && a.r == -1 && callback)
      ensures AcceptAnswers(a, Setup()) == [Descriptor(a.fd)] + a.watch + Asked(a.error, a.r)
      ensures AcceptSignals(a, Setup()) == if !callback then []
                                           else if a.r != -1 then [Event(Accepted, a.slot)]
                                           else if a.error == NoError then [Event(Closing, a.slot)]
                                           else [Event(Accepted, a.slot), Event(Closing, a.slot)]
      ensures WatchedOnce(a) <==> a.watch == [Watching(a.fd, a.r != -1 || a.error == AcceptDenied)]
    {
    }

    lemma SetTwice(s: seq<Conn>, i: nat, c: Conn, c': Conn)
      requires i < |s|
      ensures s[i := c][i := c'] == s[i := c'] && s[i := c][i] == c
    {
    }

    /** accept(), and what it returns becomes the connection's descriptor. */
    method Attach(i: nat) returns (fd: int)
      requires Valid() && AtRestBut(Slots(), i) && i < maxConnections
      requires conns[i].state == {Connected} && conns[i].fd == -1
      modifies conns, kernel`open, kernel`log
      ensures Valid() && AtRestBut(Slots(), i) && kernel.log == old(kernel.log) + [Descriptor(fd)]
      ensures Slots() == old(Slots())[i := old(Slots())[i].(fd := fd)] && -1 <= fd
      ensures if fd == -1 then Disciplined(trace) ==> Sound() else fd !in old(kernel.open)
    {
      hide SlotsOk, Owned, Polled, Closings, Disciplined, Used, AtRest, AtRestBut, SlotOk;
      ghost var s, open := Slots(), kernel.open;
      assert s[i] == conns[i];
      fd := kernel.NewDescriptor();
      if fd == -1 {
        UnlockConn(i);
        RestUpdate(s, i, s[i]);
        assert s[i := s[i]] == s && s[i].(fd := -1) == s[i];
        return;
      }
      StillRestBut(s, i, s[i].(fd := fd));
      SetFd(i, fd, open);
    }

    /** The rest of the TCP branch: poll the connection and ask the user. */
    method Admit(i: nat) returns (r: int, error: ErrorCode, ghost watch: seq<Answer>)
      requires Valid() && Disciplined(trace) && AtRestBut(Slots(), i)
      requires i < maxConnections && conns[i].state == {Connected}
      modifies conns, `usedSlots, `poller, `trace, kernel`open, kernel`watched, kernel`log
      ensures old(poller) ==> poller && old(kernel.watched) - {old(Slots())[i].fd} <= kernel.watched
      ensures kernel.log == old(kernel.log) + watch + Asked(error, r)
      ensures AnyRefused(watch) <==> error == NoError && r == -1
      ensures old(poller) ==> watch == [Watching(old(Slots())[i].fd, r != -1 || error == AcceptDenied)]
      ensures Sound() && (error == NoError || (error == AcceptDenied && r == -1 && callback))
      ensures r == -1 ==> Slots() == old(Slots())[i := Closed(old(Slots())[i])]
      ensures r != -1 ==> r == i && Slots() == old(Slots()) && Slots()[i].fd in kernel.watched
      ensures trace == old(trace) + if !callback then []
                                    else if r != -1 then [Event(Accepted, i)]
                                    else if error == NoError then [Event(Closing, i)]
                                    else [Event(Accepted, i), Event(Closing, i)]
    {
      hide Valid, Sound, Closings, Disciplined, Used, AtRestBut, AnyRefused;
      Fits();
      ghost var s := Slots();
      assert s[i] == conns[i];
      var ok;
      ok, watch := AddConn(i);
      if !ok {
        DropNew(i);
        return -1, NoError, watch;
      }
      var allowed := AskUser(i);
      if !allowed { return -1, AcceptDenied, watch; }
      return i, NoError, watch;
    }

    /** Signal that the connection was accepted; the user may refuse it. */
    method AskUser(i: nat) returns (allowed: bool)
      requires Valid() && Disciplined(trace) && AtRestBut(Slots(), i)
      requires i < maxConnections && conns[i].state == {Connected}
      modifies conns, `usedSlots, `trace, kernel`open, kernel`watched, kernel`log
      ensures Sound() && (!callback ==> allowed)
      ensures kernel.log == old(kernel.log) + if callback then [Allowed(allowed)] else []
      ensures Slots() == if allowed then old(Slots()) else old(Slots())[i := Closed(old(Slots())[i])]
      ensures trace == old(trace) + if !callback then []
                                    else if allowed then [Event(Accepted, i)]
                                    else [Event(Accepted, i), Event(Closing, i)]
      ensures kernel.watched == old(kernel.watched) - if allowed then {} else {old(Slots())[i].fd}
    {
      hide SlotsOk, Owned, Polled, Closings, Disciplined, Used, AtRest, AtRestBut;
      ghost var s := Slots();
      assert s[i] == conns[i];
      Signal(Accepted, i);
      allowed := true;
      if callback {
        allowed := kernel.Allow();
        if !allowed {
          DropNew(i);
          return;
        }
      }
      UnlockConn(i);
      RestUpdate(s, i, s[i]);
      assert s[i := s[i]] == s;
    }

    /** Close a connection that was just taken. */
    method DropNew(i: nat)
      requires Valid() && Disciplined(trace) && AtRestBut(Slots(), i) && i < maxConnections && Live(conns[i])
      modifies conns, `usedSlots, `trace, kernel`open, kernel`watched
      ensures Sound() && Slots() == old(Slots())[i := Closed(old(Slots())[i])]
      ensures kernel.watched == old(kernel.watched) - {old(Slots())[i].fd}
      ensures trace == old(trace) + if callback then [Event(Closing, i)] else []
    {
      hide SlotsOk, Owned, Polled, Closings, Disciplined, Used, AtRest, AtRestBut;
      ghost var s := Slots();
      assert s[i] == conns[i];
      CloseConnection(i);
      RestUpdate(s, i, Closed(s[i]));
    }

    /** `conn->fd = new_sock`, for a descriptor that was just opened */
    method SetFd(i: nat, fd: int, ghost open: set<int>)
      requires maxConnections <= conns.Length && i < maxConnections && Live(conns[i]) && conns[i].fd == -1
      requires SlotsOk(Slots()) && Owned(Slots(), listener, open, foreign) && Polled(Slots(), listener, kernel.watched)
      requires 0 <= fd && fd !in open
      modifies conns
      ensures Slots() == old(Slots())[i := old(conns[i]).(fd := fd)]
      ensures SlotsOk(Slots()) && Used(Slots()) == Used(old(Slots()))
      ensures Owned(Slots(), listener, open + {fd}, foreign) && Polled(Slots(), listener, kernel.watched)
    {
      ghost var s := Slots();
      assert s[i] == conns[i];
      ConnectSlot(s, i, fd, listener, open, foreign, kernel.watched);
      conns[i] := conns[i].(fd := fd);
      assert Slots() == s[i := s[i].(fd := fd)];
    }

    /** Set or clear status bits of a connection, or set its expiry. */
    method Update(i: nat, c: Conn)
      requires Valid() && i < maxConnections && Live(conns[i]) && Live(c) && c.fd == conns[i].fd && SlotOk(c, i)
      requires Leaving(c) ==> c.fd !in kernel.watched
      modifies conns
      ensures Valid() && Slots() == old(Slots())[i := c]
    {
      hide SlotsOk, Owned, Polled, Closings, Used, SlotOk;
      ghost var s := Slots();
      assert s[i] == conns[i];
      MarkSlot(s, i, c, listener, kernel.open, foreign, kernel.watched);
      conns[i] := c;
      assert Slots() == s[i := c];
    }

    /** The bound test of ap_net_conn_pool_recv. */
    static predicate OutOfBounds(idx: int, maxConnections: int)
    {
      idx < 0 || idx > maxConnections
    }

    /** It lets through an index that no slot has, and the only one is the number of slots. */
    static lemma BoundTestMissesIff(idx: int, maxConnections: nat)
      ensures !OutOfBounds(idx, maxConnections) && !(0 <= idx < maxConnections) <==> idx == maxConnections
    {
    }

    /** ap_net_conn_pool_recv on a TCP connection, for any index but the one that its bound test
        misses. */
    method Recv(idx: int) returns (r: int, ghost n: int, ghost again: bool)
      requires Sound() && idx != maxConnections
      modifies conns, `usedSlots, `trace, kernel`open, kernel`watched, kernel`log
      ensures Sound() && -2 <= r
      ensures if 0 <= idx < maxConnections && Live(old(Slots())[idx]) then
                && kernel.log == old(kernel.log) + [Received(old(Slots())[idx].fd, n, again)]
                && -1 <= n && r == (if n == 0 && !again then -2 else n)
              else r == -1 && kernel.log == old(kernel.log)
      ensures r != -1 ==> 0 <= idx < maxConnections && Live(Slots()[idx]) && Slots() == old(Slots())
                          && trace == old(trace) && kernel.watched == old(kernel.watched)
      ensures var closes := r == -1 && 0 <= idx < maxConnections && Live(old(Slots())[idx]);
              && Slots() == (if closes then old(Slots())[idx := Closed(old(Slots())[idx])] else old(Slots()))
              && trace == old(trace) + (if closes && callback then [Event(Closing, idx)] else [])
              && kernel.open == old(kernel.open) - (if closes then {old(Slots())[idx].fd} else {})
              && kernel.watched == old(kernel.watched) - (if closes then {old(Slots())[idx].fd} else {})
    {
      hide Valid, Sound, Used, Closings, Disciplined;
      Sized();
      ghost var s := Slots();
      if OutOfBounds(idx, maxConnections) || !Live(conns[idx]) { return -1, 0, false; }
      assert s[idx] == conns[idx];
      var got, errnoAgain := ReadSocket(idx);
      n, again := got, errnoAgain;
      if got == 0 && !errnoAgain { return -2, n, again; }
      if got == -1 {
        CloseConnection(idx);
        return -1, n, again;
      }
      return got, n, again;
    }

    /** The call of recv, with the status bit IN set around it. */
    method ReadSocket(i: nat) returns (n: int, again: bool)
      requires Sound() && i < maxConnections && Live(conns[i])
      modifies conns, kernel`log
      ensures Sound() && Valid() && Slots() == old(Slots()) && -1 <= n
      ensures kernel.log == old(kernel.log) + [Received(old(Slots())[i].fd, n, again)]
    {
      hide SlotsOk, Owned, Polled, Closings, Used, SlotOk, Disciplined, AtRest;
      ghost var s := Slots();
      assert s[i] == conns[i];
      BitsOk(s, i, In);
      if Leaving(s[i]) { LeavingNotPolled(s, listener, kernel.open, foreign, kernel.watched, i); }
      Update(i, conns[i].(state := conns[i].state + {In}));
      n, again := kernel.Recv(conns[i].fd);
      Update(i, conns[i].(state := conns[i].state - {In}));
      assert Slots() == s;
    }

    // ----- setting up

    /** ap_net_conn_pool_lock in a single thread. pool->state is not set before the first
        call, so the lock bit may be there from the start. */
    method LockPool() returns (ok: bool)
      modifies `busy
      ensures ok == !old(busy) && busy
    {
      if busy { return false; }
      busy := true;
      return true;
    }

    /** Lock every slot; between calls no slot is locked, so this never fails and the undo
        loop of set_max_connections is never entered. */
    method LockConns()
      requires maxConnections <= conns.Length && AtRest(Slots())
      modifies conns
      ensures Slots() == Locked(old(Slots()))
    {
      var i := 0;
      while i < maxConnections
        invariant 0 <= i <= maxConnections
        invariant forall j :: 0 <= j < i ==> conns[j] == old(conns[j]).(state := old(conns[j].state) + {Busy})
        invariant forall j :: i <= j < maxConnections ==> conns[j] == old(conns[j])
      {
        assert Resting(old(Slots())[i]);
        var ok := LockConn(i);
        assert ok;
        i := i + 1;
      }
      assert Slots() == Locked(old(Slots()));
    }

    method UnlockConns()
      requires maxConnections <= conns.Length
      modifies conns
      ensures Slots() == Unlocked(old(Slots()))
    {
      var n := 0;
      while n < maxConnections
        invariant 0 <= n <= maxConnections
        invariant forall j :: 0 <= j < n ==> conns[j] == old(conns[j]).(state := old(conns[j].state) - {Busy})
        invariant forall j :: n <= j < conns.Length ==> conns[j] == old(conns[j])
      {
        UnlockConn(n);
        n := n + 1;
      }
      assert Slots() == Unlocked(old(Slots()));
    }

    /** set_max_connections, the growth path: `born` slots were signalled as created. */
    method Grow(newMax: nat) returns (r: bool, ghost born: nat, ghost answers: seq<Answer>)
      requires maxConnections <= conns.Length && maxConnections < newMax && kernel.Valid()
      modifies `conns, `maxConnections, `trace, kernel`log
      ensures kernel.Valid() && kernel.log == old(kernel.log) + answers && (r <==> !AnyRefused(answers))
      ensures maxConnections == (if r then newMax else old(maxConnections)) <= conns.Length
      ensures conns == old(conns) || fresh(conns)
      ensures forall i :: 0 <= i < old(maxConnections) ==> conns[i] == old(conns[i])
      ensures forall i :: old(maxConnections) <= i < maxConnections ==>
                NewSlot(conns[i], i)
      ensures old(maxConnections) <= born <= newMax && (r ==> born == newMax)
      ensures trace == old(trace) + if callback then Births(old(maxConnections), born) else []
    {
      hide Births, Closings, Disciplined, NewSlot, AnyRefused;
      born := maxConnections;
      NoBirths(born);
      var got := kernel.Allocate();
      answers := [Memory(got)];
      RefusedOne(Memory(got));
      if !got { return false, born, answers; }
      var mem := Enlarged(newMax);
      ghost var m, kept := maxConnections, conns[..maxConnections];
      conns := mem;
      var i := maxConnections;
      while i < newMax
        modifies mem, `trace, kernel`log
        invariant kernel.Valid() && kernel.log == old(kernel.log) + answers && !AnyRefused(answers)
        invariant m <= i <= newMax && born == i
        invariant forall j :: 0 <= j < m ==> mem[j] == kept[j]
        invariant forall j :: m <= j < i ==> NewSlot(mem[j], j)
        invariant trace == old(trace) + if callback then Births(m, born) else []
      {
        got := CreateSlot(mem, i);
        BirthStep(m, i);
        OneMore(answers, Memory(got));
        answers := answers + [Memory(got)];
        if !got { return false, born, answers; }
        i, born := i + 1, born + 1;
      }
      maxConnections := newMax;
      r := true;
    }

    /** realloc: the old slots, and behind them whatever the memory held. */
    method Enlarged(newMax: nat) returns (mem: array<Conn>)
      requires maxConnections <= conns.Length && maxConnections <= newMax
      ensures fresh(mem) && mem.Length == newMax && forall j :: 0 <= j < maxConnections ==> mem[j] == conns[j]
    {
      var junk: Conn := *;
      mem := new Conn[newMax](_ => junk);
      forall j | 0 <= j < maxConnections { mem[j] := conns[j]; }
    }

    lemma OneMore(answers: seq<Answer>, a: Answer)
      ensures AnyRefused(answers + [a]) <==> AnyRefused(answers) || Refused(a)
    {
      RefusedConcat(answers, [a]);
      RefusedOne(a);
    }

    /** A new slot, with a receive buffer if there is memory for it. */
    method CreateSlot(mem: array<Conn>, i: nat) returns (got: bool)
      requires i < mem.Length && kernel.Valid()
      modifies mem, `trace, kernel`log
      ensures NewSlot(mem[i], i) && forall j :: 0 <= j < mem.Length && j != i ==> mem[j] == old(mem[j])
      ensures kernel.Valid() && kernel.log == old(kernel.log) + [Memory(got)]
      ensures trace == old(trace) + if got && callback then [Event(Created, i)] else []
    {
      mem[i] := mem[i].(fd := -1, idx := i, state := {}, bufpos := 0, buffill := 0);
      got := kernel.Allocate();
      if got { Signal(Created, i); }
    }

    /** Is a new maximum one to shrink to? */
    predicate Shrinks(newMax: int)
      reads `usedSlots, `maxConnections, `busy
    {
      usedSlots <= newMax < maxConnections && !busy
    }

    /** ap_net_conn_pool_set_max_connections. When it shrinks the pool, it must stay inside the
        array, and the pool is sound afterwards exactly when no connection is lost. */
    method SetMaxConnections(newMax: int) returns (r: bool, ghost answers: seq<Answer>)
      requires Sound() && (Shrinks(newMax) ==> 1 <= newMax && StaysInside(Slots(), newMax))
      modifies `conns, `maxConnections, `busy, `trace, conns, kernel`log
      ensures kernel.log == old(kernel.log) + answers
      ensures r <==> || newMax == old(maxConnections)
                     || (old(usedSlots) <= newMax && !old(busy) && !AnyRefused(answers))
      ensures busy == old(busy) && (conns == old(conns) || fresh(conns)) && maxConnections <= conns.Length
      ensures maxConnections == (if r then newMax else old(maxConnections))
      ensures !old(Shrinks(newMax)) ==>
                && Sound() && old(maxConnections) <= maxConnections
                && Slots()[..old(maxConnections)] == old(Slots())
                && (forall i :: old(maxConnections) <= i < maxConnections ==>
                      Slots()[i].state == {} && Slots()[i].fd == -1)
                && old(trace) <= trace
                && (r && callback ==> trace == old(trace) + Births(old(maxConnections), maxConnections))
      ensures old(Shrinks(newMax)) ==>
                && Slots() == Defragmented(old(Slots()), newMax)[..maxConnections]
                && (Sound() <==> Keeps(old(Slots()), newMax, maxConnections))
                && trace == old(trace) + if callback then MoveSignals(old(Slots()), newMax - 1, 0)
                                                          + Destroyings(newMax, old(maxConnections)) else []
    {
      hide SlotsOk, Owned, Polled, Closings, Used, Disciplined, AtRest, Births, AnyRefused, Keeps, StaysInside,
        Defragmented;
      UsedWithin();
      answers := [];
      RefusedOne(Memory(true));
      if newMax == maxConnections {
        NoBirths(maxConnections);
        return true, answers;
      }
      if newMax < usedSlots { return false, answers; }
      var locked := LockPool();
      if !locked { return false, answers; }
      if newMax < maxConnections {
        r := ShrinkLocked(newMax);
        answers := [Memory(r)];
        RefusedOne(Memory(r));
      } else {
        r, answers := GrowLocked(newMax);
      }
      busy := false;
    }

    /** Shrinking with all slots locked. */
    method ShrinkLocked(newMax: nat) returns (r: bool)
      requires Sound() && 1 <= newMax < maxConnections && StaysInside(Slots(), newMax)
      modifies `conns, `maxConnections, `trace, conns, kernel`log
      ensures kernel.log == old(kernel.log) + [Memory(r)]
      ensures conns == old(conns) || fresh(conns)
      ensures maxConnections == (if r then newMax else old(maxConnections)) <= conns.Length
      ensures Slots() == Defragmented(old(Slots()), newMax)[..maxConnections]
      ensures Sound() <==> Keeps(old(Slots()), newMax, maxConnections)
      ensures trace == old(trace) + if callback then MoveSignals(old(Slots()), newMax - 1, 0)
                                                     + Destroyings(newMax, old(maxConnections)) else []
    {
      hide SlotsOk, Owned, Polled, Closings, Used, Disciplined, AtRest, Keeps, StaysInside, Defragmented, MoveSignals,
        Destroyings;
      ghost var s, t := Slots(), trace;
      r := MoveLocked(newMax);
      KeepsIff(s, newMax, maxConnections);
      if Keeps(s, newMax, maxConnections) {
        KeepsOwned(s, newMax, maxConnections, listener, kernel.open, foreign, kernel.watched);
      }
      ShrinkSignals(t, s, newMax);
    }

    /** Slots are locked, moved, destroyed, cut off and unlocked. */
    method MoveLocked(newMax: nat) returns (r: bool)
      requires maxConnections <= conns.Length && SlotsOk(Slots()) && AtRest(Slots()) && kernel.Valid()
      requires 1 <= newMax < maxConnections && StaysInside(Slots(), newMax)
      modifies `conns, `maxConnections, `trace, conns, kernel`log
      ensures kernel.Valid() && kernel.log == old(kernel.log) + [Memory(r)]
      ensures conns == old(conns) || fresh(conns)
      ensures maxConnections == (if r then newMax else old(maxConnections)) <= conns.Length
      ensures Slots() == Defragmented(old(Slots()), newMax)[..maxConnections]
      ensures trace == old(trace) + if callback then MoveSignals(old(Slots()), newMax - 1, 0)
                                                     + Destroyings(newMax, old(maxConnections)) else []
    {
      hide SlotsOk, AtRest, StaysInside, Defragmented, MoveSignals, Destroyings, Moved, Indexed, Locked, Unlocked;
      ghost var s := Slots();
      LockConns();
      ghost var locked := Slots();
      LockedSlots(s, newMax);
      StaysInsideIff(locked, newMax);
      MoveConns(newMax);
      DestroyConns(newMax);
      ghost var moved := Slots();
      r := CutOff(newMax);
      UnlockConns();
      UnlockedFirst(moved, maxConnections);
    }

    /** The loop that moves connections towards the front. */
    method MoveConns(newMax: nat)
      requires maxConnections <= conns.Length && 1 <= newMax <= maxConnections
      requires Moved(Slots(), newMax - 1, 0).Some?
      modifies conns, `trace
      ensures Slots() == Moved(old(Slots()), newMax - 1, 0).value
      ensures trace == old(trace) + if callback then MoveSignals(old(Slots()), newMax - 1, 0) else []
    {
      hide Moved, MoveSignals, NextFree, Shifted;
      ghost var s, t := Slots(), trace;
      var i, n := newMax - 1, -1;
      while i < maxConnections
        invariant newMax - 1 <= i <= maxConnections && -1 <= n < maxConnections
        invariant Moved(Slots(), i, n + 1) == Moved(s, newMax - 1, 0)
        invariant if callback then trace + MoveSignals(Slots(), i, n + 1) == t + MoveSignals(s, newMax - 1, 0)
                  else trace == t
      {
        MovedStep(Slots(), i, n + 1);
        n := SearchFree(n + 1);
        ghost var u, t' := Slots(), trace;
        MoveConn(n, i);
        Joined(t', [Event(MovedTo, n), Event(MovedFrom, i)], MoveSignals(Slots(), i + 1, n + 1), [], []);
        i := i + 1;
      }
      MovedAll(Slots(), n + 1);
    }

    /** The search for a free slot. */
    method SearchFree(n0: nat) returns (n: nat)
      requires maxConnections <= conns.Length && n0 <= maxConnections && NextFree(Slots(), n0) < maxConnections
      ensures n == NextFree(Slots(), n0)
    {
      n := n0;
      while Live(conns[n])
        invariant n0 <= n < maxConnections && NextFree(Slots(), n) == NextFree(Slots(), n0)
        decreases maxConnections - n
      {
        n := n + 1;
      }
    }

    /** Slot i is copied to slot n and cleared. */
    method MoveConn(n: nat, i: nat)
      requires maxConnections <= conns.Length && n < maxConnections && i < maxConnections
      modifies conns, `trace
      ensures Slots() == Shifted(old(Slots()), n, i)
      ensures trace == old(trace) + if callback then [Event(MovedTo, n), Event(MovedFrom, i)] else []
    {
      ghost var s, t := Slots(), trace;
      conns[n] := conns[i].(idx := conns[n].idx);
      conns[i] := conns[i].(state := conns[i].state - {Connected});
      conns[i] := conns[i].(fd := -1);
      assert Slots() == Shifted(s, n, i);
      Signal(MovedTo, n);
      Signal(MovedFrom, i);
    }

    /** ap_net_connection_destroy for the slots that are cut off. */
    method DestroyConns(newMax: nat)
      requires newMax <= maxConnections
      modifies `trace
      ensures trace == old(trace) + if callback then Destroyings(newMax, maxConnections) else []
    {
      hide Destroyings;
      DestroyingStep(newMax, newMax);
      for i := newMax to maxConnections
        invariant trace == old(trace) + if callback then Destroyings(newMax, i) else []
      {
        DestroyingStep(newMax, i);
        Signal(Destroying, i);
      }
    }

    /** realloc to fewer slots. */
    method CutOff(newMax: nat) returns (r: bool)
      requires newMax <= maxConnections <= conns.Length && kernel.Valid()
      modifies `conns, `maxConnections, kernel`log
      ensures kernel.Valid() && kernel.log == old(kernel.log) + [Memory(r)]
      ensures conns == old(conns) || fresh(conns)
      ensures maxConnections == (if r then newMax else old(maxConnections)) <= conns.Length
      ensures Slots() == old(Slots())[..maxConnections]
    {
      r := kernel.Allocate();
      if r {
        ghost var s := Slots();
        var mem := new Conn[newMax](i requires 0 <= i < newMax <= conns.Length reads this, conns => conns[i]);
        conns := mem;
        maxConnections := newMax;
        assert Slots() == s[..newMax];
      }
    }

    /** The signals of shrinking close nothing and keep the order of signals. */
    lemma ShrinkSignals(t: seq<Event>, s: seq<Conn>, newMax: nat)
      requires 1 <= newMax <= |s|
      ensures var u := t + if callback then MoveSignals(s, newMax - 1, 0) + Destroyings(newMax, |s|) else [];
              && Closings(u) == Closings(t) && (Disciplined(t) ==> Disciplined(u))
              && (!callback ==> u == t)
    {
      hide MoveSignals, Destroyings, Closings, Disciplined;
      if callback {
        MovesNeutral(s, newMax - 1, 0);
        DestroyingsNeutral(newMax, |s|);
        NeutralConcat(MoveSignals(s, newMax - 1, 0), Destroyings(newMax, |s|));
        NeutralAfter(t, MoveSignals(s, newMax - 1, 0) + Destroyings(newMax, |s|));
      } else {
        assert t + [] == t;
      }
    }

    lemma UsedWithin()
      requires Valid()
      ensures usedSlots <= maxConnections
    {
    }

    /** Growth with all slots locked. */
    method GrowLocked(newMax: nat) returns (r: bool, ghost answers: seq<Answer>)
      requires Sound() && maxConnections < newMax
      modifies `conns, `maxConnections, `trace, conns, kernel`log
      ensures kernel.log == old(kernel.log) + answers && (r <==> !AnyRefused(answers))
      ensures Sound() && (conns == old(conns) || fresh(conns))
      ensures old(maxConnections) <= maxConnections == (if r then newMax else old(maxConnections))
      ensures Slots()[..old(maxConnections)] == old(Slots())
      ensures forall i :: old(maxConnections) <= i < maxConnections ==> Slots()[i].state == {} && Slots()[i].fd == -1
      ensures old(trace) <= trace
      ensures r && callback ==> trace == old(trace) + Births(old(maxConnections), maxConnections)
    {
      hide SlotsOk, Owned, Polled, Closings, Used, Disciplined, AtRest, Births, AnyRefused, NewSlot;
      ghost var s, t := Slots(), trace;
      ghost var born;
      r, born, answers := CopyLocked(newMax);
      ghost var new' := Slots()[|s|..];
      FreeSlots(Slots(), |s|);
      assert forall i :: |s| <= i < maxConnections ==> Slots()[i] == new'[i - |s|];
      GrowSlots(s, new', listener, kernel.open, foreign, kernel.watched);
      BirthsOk(t, |s|, born);
    }

    /** The slots are locked, copied to a bigger array and unlocked. */
    method CopyLocked(newMax: nat) returns (r: bool, ghost born: nat, ghost answers: seq<Answer>)
      requires maxConnections <= conns.Length && maxConnections < newMax && kernel.Valid() && AtRest(Slots())
      modifies `conns, `maxConnections, `trace, conns, kernel`log
      ensures kernel.Valid() && kernel.log == old(kernel.log) + answers && (r <==> !AnyRefused(answers))
      ensures old(maxConnections) <= maxConnections == (if r then newMax else old(maxConnections)) <= conns.Length
      ensures conns == old(conns) || fresh(conns)
      ensures Slots() == old(Slots()) + Slots()[old(maxConnections)..]
      ensures forall i :: old(maxConnections) <= i < maxConnections ==> NewSlot(Slots()[i], i)
      ensures old(maxConnections) <= born <= newMax && (r ==> born == newMax)
      ensures trace == old(trace) + if callback then Births(old(maxConnections), born) else []
    {
      hide AtRest, Births, AnyRefused, NewSlot, Locked, Unlocked;
      ghost var s := Slots();
      LockConns();
      ghost var locked := Slots();
      r, born, answers := Grow(newMax);
      ghost var grown := Slots();
      assert grown[..|s|] == locked;
      UnlockConns();
      GrownSlots(s, grown);
    }

    /** ap_net_conn_pool_create. Whether the slots could be made is not reported. */
    static method Create(kernel: Kernel, async: bool, newMax: int, timeoutMs: int, callback: bool)
      returns (pool: Pool?, ghost got: bool, ghost answers: seq<Answer>)
      requires kernel.Valid() && kernel.watched == {}
      modifies kernel`log
      ensures kernel.Valid() && kernel.log == old(kernel.log) + [Memory(got)] + answers
      ensures pool == null <==> !got || timeoutMs < 0
      ensures pool != null ==>
                && fresh(pool) && fresh(pool.conns) && pool.Sound()
                && pool.kernel == kernel && pool.callback == callback && pool.async == async
                && pool.maxConnTtl == FromZero(timeoutMs)
                && pool.maxConnections == (if newMax > 0 && !pool.busy && !AnyRefused(answers) then newMax else 0)
                && pool.usedSlots == pool.connCount == 0 && pool.listener == -1 && !pool.poller
                && pool.foreign == kernel.open
    {
      hide Pool.Valid, Pool.Sound, AnyRefused;
      answers := [];
      var memory := kernel.Allocate();
      got := memory;
      if !memory { return null, got, answers; }
      pool := new Pool.Allocated(kernel, callback, async);
      var grown;
      grown, answers := pool.SetMaxConnections(newMax);
      if timeoutMs < 0 { return null, got, answers; }
      pool.SetTimeout(timeoutMs);
    }

    method SetTimeout(timeoutMs: nat)
      requires Sound()
      modifies `maxConnTtl
      ensures Sound() && maxConnTtl == FromZero(timeoutMs)
    {
      hide SlotsOk, Owned, Polled, Closings, Used, Disciplined, AtRest;
      maxConnTtl := FromZero(timeoutMs);
    }

    /** `close(listener.sock); listener.sock = -1` */
    method DropListener()
      requires Sound() && listener != -1
      modifies `listener, kernel`open, kernel`watched
      ensures Sound() && listener == -1 && kernel.open == old(kernel.open) - {old(listener)}
    {
      hide SlotsOk, Owned, Polled, Closings, Used, Disciplined, AtRest;
      ListenerIsDescriptor();
      ListenerChanges(Slots(), listener, kernel.open, foreign, kernel.watched);
      kernel.Close(listener);
      listener := -1;
    }

    lemma ListenerIsDescriptor()
      requires Valid()
      ensures -1 <= listener
    {
    }

    /** ap_net_conn_pool_listener_create, with one try to bind. */
    method ListenerCreate() returns (r: int, ghost answers: seq<Answer>)
      requires Sound()
      modifies `listener, `poller, kernel`open, kernel`watched, kernel`log
      ensures Sound() && kernel.log == old(kernel.log) + answers
      ensures old(listener) != -1 ==> r == -1 && listener == old(listener) && kernel.open == old(kernel.open)
      ensures old(listener) == -1 ==> r == listener && (r == -1 <==> AnyRefused(answers))
      ensures old(listener) == -1 && r == -1 ==> kernel.open == old(kernel.open)
      ensures r != -1 ==> r !in old(kernel.open) && r in kernel.open && r in kernel.watched && poller
    {
      hide SlotsOk, Owned, Polled, Closings, Used, Disciplined, AtRest, AnyRefused;
      answers := [];
      if listener != -1 { return -1, answers; }
      ListenerIsDescriptor();
      ghost var s, open, watched := Slots(), kernel.open, kernel.watched;
      listener := kernel.NewDescriptor();
      answers := [Descriptor(listener)];
      RefusedOne(Descriptor(listener));
      if listener == -1 { return -1, answers; }
      ListenerChanges(s, listener, open, foreign, watched);
      ghost var more;
      r, more := Listen();
      RefusedConcat(answers, more);
      answers := answers + more;
    }

    /** The listener's socket is bound, polled by a new poller and put to listen, or closed. */
    method Listen() returns (r: int, ghost answers: seq<Answer>)
      requires Sound() && listener != -1
      modifies `listener, `poller, kernel`open, kernel`watched, kernel`log
      ensures Sound() && kernel.log == old(kernel.log) + answers
      ensures r == listener && (r == -1 <==> AnyRefused(answers))
      ensures r == -1 ==> kernel.open == old(kernel.open) - {old(listener)}
      ensures r != -1 ==> r == old(listener) && kernel.open == old(kernel.open) && r in kernel.watched && poller
    {
      hide SlotsOk, Owned, Polled, Closings, Used, Disciplined, AtRest, AnyRefused;
      var ok := kernel.Bind();
      answers := [Bound(ok)];
      RefusedOne(Bound(ok));
      if !ok {
        DropListener();
        return -1, answers;
      }
      ghost var more;
      ok, more := RenewPoller();
      RefusedConcat(answers, more);
      answers := answers + more;
      if !ok {
        DropListener();
        return -1, answers;
      }
      ok := kernel.Listen();
      OneMore(answers, Listening(ok));
      answers := answers + [Listening(ok)];
      if !ok {
        DropListener();
        return -1, answers;
      }
      return listener, answers;
    }

    /** A new poller in place of an old one. */
    method RenewPoller() returns (ok: bool, ghost answers: seq<Answer>)
      requires Sound()
      modifies `poller, kernel`watched, kernel`log
      ensures Sound() && kernel.log == old(kernel.log) + answers && (ok <==> !AnyRefused(answers))
      ensures ok ==> poller && (listener != -1 ==> listener in kernel.watched)
    {
      hide SlotsOk, Owned, Polled, Closings, Used, Disciplined, AtRest, AnyRefused;
      if poller {
        PollNothing(Slots());
        kernel.EpollClose();
        poller := false;
      }
      ok, answers := PollerCreate();
    }

    lemma PollNothing(s: seq<Conn>)
      ensures Polled(s, listener, {})
    {
    }

    // ----- what holds between calls

    /** The books balance: the slots in use are counted, each closed connection was
        signalled once, and the rest of the connections are still there. */
    lemma Accounting()
      requires Sound()
      ensures usedSlots == Used(Slots()) <= maxConnections
      ensures usedSlots == maxConnections <==> forall i :: 0 <= i < maxConnections ==> Live(Slots()[i])
      ensures callback ==> Closings(trace) == connCount - usedSlots
      ensures forall i :: 0 <= i < maxConnections && !Live(Slots()[i]) ==> Slots()[i].fd == -1
    {
      UsedAllIff(Slots());
      forall i | 0 <= i < maxConnections && !Live(Slots()[i]) ensures Slots()[i].fd == -1 {
        NoDescriptor(Slots(), i);
      }
    }

    /** The pool leaks no descriptor and closes none that is not its own: what is open is the
        listener, the descriptors of connections, and exactly what others have opened. */
    lemma NoLeaks()
      requires Sound()
      ensures forall fd :: fd in kernel.open <==>
                fd in foreign || (fd == listener && fd != -1) || (fd != -1 && Has(Slots(), fd))
      ensures foreign !! (if listener == -1 then {} else {listener}) && forall fd :: fd in foreign ==> !Has(Slots(), fd)
    {
      forall fd | fd != -1 && Has(Slots(), fd) ensures fd in kernel.open {
        var i :| 0 <= i < maxConnections && Slots()[i].fd == fd;
      }
    }

    /** Another part of the process opens a descriptor. */
    method OpenElsewhere() returns (fd: int)
      requires Sound()
      modifies `foreign, kernel`open, kernel`log
      ensures Sound() && foreign == old(foreign) + if fd == -1 then {} else {fd}
    {
      hide SlotsOk, Polled, Closings, Used, Disciplined, AtRest;
      fd := kernel.NewDescriptor();
      if fd != -1 {
        NewIsForeign(Slots(), fd, listener, old(kernel.open), foreign);
        foreign := foreign + {fd};
      }
    }

    /** Another part of the process closes a descriptor of its own. */
    method CloseElsewhere(fd: int)
      requires Sound() && fd in foreign
      modifies `foreign, kernel`open, kernel`watched
      ensures Sound() && foreign == old(foreign) - {fd}
    {
      hide SlotsOk, Closings, Used, Disciplined, AtRest;
      kernel.Close(fd);
      foreign := foreign - {fd};
    }

    /** A connection that is to be dropped is not polled any more and has an expiry. Whatever
        the next poll does, its sweep signals the connection as closing exactly once and closes
        it, and if the slot is in use afterwards a new connection was accepted on it. */
    lemma DroppedByNextPoll(i: nat, run: Round, r: int, s': seq<Conn>)
      requires Sound() && i < maxConnections && Leaving(Slots()[i])
      requires PollRan(run, r, Slots(), s', Setup())
      ensures Live(Slots()[i]) && Slots()[i].fd !in kernel.watched && IsSet(Slots()[i].expire)
      ensures Dropped(Slots())[i] == Closed(Slots()[i]) && multiset(Drops(Slots()))[Event(Closing, i)] == 1
      ensures Live(s'[i]) ==> run.tries != [] && run.tries[0].slot == i && Live(run.accepted[i])
    {
      hide PollRan;
      LeavingNotPolled(Slots(), listener, kernel.open, foreign, kernel.watched, i);
      ConnOk(Slots(), i);
      LeavingIsLive(Slots(), i);
      DropsOnce(Slots(), i);
      SameSize(run, r, Slots(), s', Setup());
      LeavingIsGone(run, r, Slots(), s', Setup(), i);
    }

    /** Each TIMED_OUT is directly followed by CLOSING for the same connection, and
        DATA_LEFT, though documented, never comes: nothing fills the buffer it is about. */
    lemma SignalOrder(k: nat)
      requires Sound() && k < |trace|
      ensures trace[k].signal == TimedOut ==> k + 1 < |trace| && trace[k + 1] == Event(Closing, trace[k].slot)
      ensures trace[k].signal != DataLeft
    {
      assert InOrder(trace, k);
    }

    /** An event is for at most one connection. */
    lemma EventOwner(fd: int, i: nat, j: nat)
      requires Sound() && fd != -1 && i < maxConnections && j < maxConnections
      requires Slots()[i].fd == fd && Slots()[j].fd == fd
      ensures i == j && Live(Slots()[i]) && fd in kernel.open && fd != listener
    {
      OneOwner(Slots(), listener, kernel.open, foreign, i, j);
      NoDescriptor(Slots(), i);
    }

    // ----- poll

    /** One turn of the zombie sweep. */
    method DropSlot(i: nat)
      requires Sound() && i < maxConnections
      modifies conns, `usedSlots, `trace, kernel`open, kernel`watched
      ensures Sound() && kernel.watched == old(kernel.watched)
      ensures var s := old(Slots()); Slots() == if Leaving(s[i]) then s[i := Closed(s[i])] else s
      ensures trace == old(trace) + if callback && Leaving(old(Slots())[i]) then [Event(Closing, i)] else []
    {
      hide SlotsOk, Owned, Polled, Closings, Used, Disciplined, AtRest;
      ghost var s := Slots();
      assert s[i] == conns[i];
      if Leaving(conns[i]) {
        LeavingIsLive(s, i);
        LeavingNotPolled(s, listener, kernel.open, foreign, kernel.watched, i);
        RestBut(s, i, Closed(s[i]));
        RestUpdate(s, i, Closed(s[i]));
        CloseConnection(i);
      }
    }

    /** poll, the zombie sweep: close what the previous poll left to be dropped. */
    method Zombies()
      requires Sound()
      modifies conns, `usedSlots, `trace, kernel`open, kernel`watched
      ensures Sound() && Slots() == Dropped(old(Slots())) && kernel.watched == old(kernel.watched)
      ensures trace == old(trace) + if callback then Drops(old(Slots())) else []
    {
      hide Valid, Sound, Dropped, Drops, DroppedTo, DropsTo, Leaving;
      Sized();
      ghost var s, t := Slots(), trace;
      DropEnds(s);
      var i := 0;
      while i < maxConnections
        invariant 0 <= i <= maxConnections == |s| && maxConnections <= conns.Length && Sound()
        invariant Slots() == DroppedTo(s, i) && kernel.watched == old(kernel.watched)
        invariant trace == t + if callback then DropsTo(s, i) else []
      {
        DropStep(s, i);
        DropSlot(i);
        i := i + 1;
      }
    }

    /** One turn of poll's expiry loop. */
    method ExpireSlot(i: nat)
      requires Sound() && i < maxConnections
      modifies conns, `usedSlots, `trace, kernel`open, kernel`watched, kernel`clock
      ensures Sound() && Total(old(kernel.clock)) <= Total(kernel.clock)
      ensures Slots() == old(Slots())[i := Slots()[i]]
      ensures Swept(old(Slots())[i], Slots()[i], Total(old(kernel.clock)), Total(kernel.clock))
      ensures StillPolls(old(kernel.watched), kernel.watched, Slots(), listener)
      ensures trace == old(trace) + if callback && Live(old(Slots())[i]) && !Live(Slots()[i])
                                    then [Event(TimedOut, i), Event(Closing, i)] else []
    {
      hide SlotsOk, Owned, Polled, Closings, Used, Disciplined, AtRest, CmpToNow, IsSet, Total;
      ghost var s := Slots();
      assert s[i] == conns[i];
      if !Live(conns[i]) { return; }
      ConnOk(s, i);
      if !IsSet(conns[i].expire) { return; }
      var now := kernel.Now();
      CmpIsOrder(conns[i].expire, now);
      if 0 >= CmpToNow(conns[i].expire, now) {
        StillPollsBut(s, i, Closed(s[i]), listener, kernel.open, foreign, kernel.watched);
        TimeOut(i);
      }
    }

    /** An expired connection is signalled and closed. */
    method TimeOut(i: nat)
      requires Sound() && i < maxConnections && Live(conns[i])
      modifies conns, `usedSlots, `trace, kernel`open, kernel`watched
      ensures Sound() && Slots() == old(Slots())[i := Closed(old(Slots())[i])]
      ensures kernel.watched == old(kernel.watched) - {old(Slots())[i].fd}
      ensures trace == old(trace) + if callback then [Event(TimedOut, i), Event(Closing, i)] else []
    {
      hide SlotsOk, Owned, Polled, Closings, Used, Disciplined, AtRest;
      ghost var s, t := Slots(), trace;
      assert s[i] == conns[i];
      BitsOk(s, i, Expired);
      if Leaving(s[i]) { LeavingNotPolled(s, listener, kernel.open, foreign, kernel.watched, i); }
      Update(i, conns[i].(state := conns[i].state + {Expired}));
      Signal(TimedOut, i);
      CloseConnection(i);
      RestClosed(s, i);
      ExpiryDisciplined(t, i);
      if callback {
        assert trace == t + [Event(TimedOut, i), Event(Closing, i)];
      } else {
        assert trace == t;
      }
      assert Slots() == s[i := Closed(s[i])];
    }

    /** poll, the expiry sweep: on return no connection is up that had expired before it. */
    method ExpirySweep()
      requires Sound()
      modifies conns, `usedSlots, `trace, kernel`open, kernel`watched, kernel`clock
      ensures Sound() && Total(old(kernel.clock)) <= Total(kernel.clock)
      ensures AllSwept(old(Slots()), Slots(), old(kernel.clock), kernel.clock)
      ensures StillPolls(old(kernel.watched), kernel.watched, Slots(), listener)
      ensures trace == old(trace) + if callback then Expiries(old(Slots()), Slots()) else []
    {
      hide Valid, Sound, StillPolls, Wanes, Total, Swept, SweptTo, ExpiriesTo, Expiries;
      Sized();
      ghost var s, t, t0 := Slots(), trace, Total(kernel.clock);
      SweepStarts(s, t0);
      StillPollsSame(kernel.watched, s, listener);
      var i := 0;
      while i < maxConnections
        invariant 0 <= i <= maxConnections == |s| && maxConnections <= conns.Length && Sound()
        invariant t0 <= Total(kernel.clock) && SweptTo(s, Slots(), i, t0, Total(kernel.clock))
        invariant StillPolls(old(kernel.watched), kernel.watched, Slots(), listener)
        invariant trace == t + if callback then ExpiriesTo(s, Slots(), i) else []
      {
        ghost var u, middle, watched := Slots(), Total(kernel.clock), kernel.watched;
        ExpireSlot(i);
        OneWanes(u, Slots(), i, middle, Total(kernel.clock));
        StillPollsOn(old(kernel.watched), watched, kernel.watched, u, Slots(), listener);
        SweepStep(s, u, Slots(), i, t0, middle, Total(kernel.clock));
        i := i + 1;
      }
      SweepEnds(s, Slots(), t0, Total(kernel.clock));
    }

    /** poll, the listener pass: at most one connection is accepted. Returns whether poll
        goes on. */
    method ListenerPass() returns (go: bool, ghost tries: seq<Accepting>)
      requires Sound() && poller && Apart(events)
      modifies conns, `usedSlots, `connCount, `activeConnCount, `queueFullCount, `poller, `trace, kernel
      ensures Sound() && poller
      ensures ListenerRan(events, tries, old(Slots()), Slots(), Setup())
      ensures go <==> GoesOn(events, tries, Setup())
      ensures old(kernel.watched) + Polling(tries) <= kernel.watched
      ensures kernel.log == old(kernel.log) + if tries == [] then [] else AcceptAnswers(tries[0], Setup())
      ensures trace == old(trace) + if tries == [] then [] else AcceptSignals(tries[0], Setup())
      ensures Total(old(kernel.clock)) <= Total(kernel.clock)
      ensures tries != [] ==> Total(old(kernel.clock)) <= Total(tries[0].now) <= Total(kernel.clock)
    {
      hide Valid, Sound, Total, AcceptRan, AcceptAnswers, AcceptSignals, WatchedOnce, Lost, IsSet, Apart, ListenerRan,
        GoesOn;
      Sized();
      ghost var d, cfg := Slots(), Setup();
      tries := [];
      if listener != -1 {
        var k := 0;
        while k < |events|
          invariant 0 <= k <= |events|
          invariant forall j :: 0 <= j < k ==> events[j].fd != listener
        {
          if events[k].fd == listener {
            if events[k].bad {
              BadListenerEvent(events, k, d, cfg);
              return false, tries;
            }
            var r, error, a := Accept();
            Sized();
            GoodListenerEvent(events, k, a, d, Slots(), cfg);
            return r != -1 || error == AcceptDenied, [a];
          }
          k := k + 1;
        }
      }
      NoListenerEvent(events, d, cfg);
      return true, tries;
    }

    /** The connection's peer shut it down: stop polling it and let the next poll drop it. */
    method MarkForDrop(i: nat)
      requires Sound() && poller && i < maxConnections && Live(conns[i])
      modifies conns, kernel`watched, kernel`clock
      ensures Sound() && Total(old(kernel.clock)) <= Total(kernel.clock)
      ensures var c := old(Slots())[i];
              Slots() == old(Slots())[i := c.(state := c.state + {Disconnection}, expire := Slots()[i].expire)]
      ensures if IsSet(old(Slots())[i].expire) then Slots()[i].expire == old(Slots())[i].expire
              else Total(Slots()[i].expire) == Total(kernel.clock) + 2000 * 1_000_000
      ensures kernel.watched == old(kernel.watched) - {old(Slots())[i].fd}
      ensures Slots()[i].fd !in kernel.watched && IsSet(Slots()[i].expire)
    {
      hide SlotsOk, Owned, Polled, Closings, Used, Disciplined, AtRest, Total, IsSet, FromNow;
      ghost var s := Slots();
      assert s[i] == conns[i];
      ConnOk(s, i);
      RemoveConn(i);
      conns[i] := conns[i].(state := conns[i].state + {Disconnection});
      if !IsSet(conns[i].expire) {
        var now := kernel.Now();
        FromNowExact(now, 2000);
        conns[i] := conns[i].(expire := FromNow(now, 2000));
      }
      ghost var c := Marked(s[i], conns[i].expire);
      MarkedOk(s, i, c.expire);
      Unpolled(s, old(kernel.watched), s[i].fd);
      MarkSlot(s, i, c, listener, kernel.open, foreign, kernel.watched);
      RestBut(s, i, c);
      RestUpdate(s, i, c);
      assert Slots() == s[i := c];
    }

    lemma Unpolled(s: seq<Conn>, watched: set<int>, fd: int)
      requires Polled(s, listener, watched)
      ensures Polled(s, listener, watched - {fd})
    {
    }

    /** poll, the error branch of the event pass. */
    method CloseOnError(i: nat)
      requires Sound() && i < maxConnections && Live(conns[i])
      modifies conns, `usedSlots, `trace, kernel`open, kernel`watched
      ensures Sound() && Slots() == old(Slots())[i := Closed(old(Slots())[i])]
      ensures kernel.watched == old(kernel.watched) - {old(Slots())[i].fd}
      ensures trace == old(trace) + if callback then [Event(Closing, i)] else []
    {
      hide SlotsOk, Owned, Polled, Closings, Used, Disciplined, AtRest;
      ghost var s := Slots();
      assert s[i] == conns[i];
      BitsOk(s, i, Error);
      if Leaving(s[i]) { LeavingNotPolled(s, listener, kernel.open, foreign, kernel.watched, i); }
      Update(i, conns[i].(state := conns[i].state + {Error}));
      CloseConnection(i);
      RestBut(s, i, Closed(s[i]));
      RestUpdate(s, i, Closed(s[i]));
      assert Slots() == s[i := Closed(s[i])];
    }

    /** poll, an event for connection i. */
    method HandleConn(i: nat, ev: Ready) returns (go: bool, data: bool, ghost part: Part)
      requires Sound() && poller && i < maxConnections && Live(conns[i])
      modifies conns, `usedSlots, `trace, kernel
      ensures Sound() && Total(old(kernel.clock)) <= Total(kernel.clock)
      ensures kernel.log == old(kernel.log) + part.answers && trace == old(trace) + part.signals
      ensures Handled(ev, i, old(Slots()), Slots(), part, Setup())
      ensures old(kernel.watched) - {old(Slots())[i].fd} <= kernel.watched
      ensures Live(Slots()[i]) && !Leaving(Slots()[i]) ==> kernel.watched == old(kernel.watched)
      ensures go <==> !SomeBroken(part.answers)
      ensures data <==> SomeData(part.answers)
    {
      hide Valid, Sound, Total, Closings, Disciplined, HandledConn, SomeBroken, SomeData;
      Sized();
      NoAnswer();
      ghost var s := Slots();
      assert s[i] == conns[i];
      go, data, part := true, false, Part([], []);
      if ev.bad {
        CloseOnError(i);
        BadHandled(ev, i, s[i], Setup());
        part := Part([], if callback then [Event(Closing, i)] else []);
        return;
      }
      if ev.readable {
        var stays;
        stays, go, data, part := ReadConn(i, ev);
        if !stays { return; }
      }
      SentAfter(ev, i, s[i], part, Setup());
      if async && ev.writable {
        Notify(CanSend, i);
      }
      part := Part(part.answers, part.signals + if callback && async && ev.writable then [Event(CanSend, i)] else []);
    }

    /** poll, the readable branch of an event: may poll signal CAN_SEND for the connection? */
    method ReadConn(i: nat, ghost ev: Ready) returns (stays: bool, go: bool, data: bool, ghost part: Part)
      requires Sound() && poller && i < maxConnections && Live(conns[i]) && ev.readable && !ev.bad
      modifies conns, `usedSlots, `trace, kernel
      ensures Sound() && Total(old(kernel.clock)) <= Total(kernel.clock)
      ensures kernel.log == old(kernel.log) + part.answers && trace == old(trace) + part.signals
      ensures Handled(if stays then ev.(writable := false) else ev, i, old(Slots()), Slots(), part, Setup())
      ensures old(kernel.watched) - {old(Slots())[i].fd} <= kernel.watched
      ensures Live(Slots()[i]) && !Leaving(Slots()[i]) ==> kernel.watched == old(kernel.watched)
      ensures stays ==> Slots() == old(Slots())
      ensures stays ==> part.answers[0].n > 0 || (part.answers[0].n == 0 && part.answers[0].again)
      ensures go <==> !SomeBroken(part.answers)
      ensures data <==> SomeData(part.answers)
    {
      hide Valid, Sound, Total, Closings, Disciplined;
      Sized();
      ghost var s := Slots();
      assert s[i] == conns[i];
      stays, go, data := true, true, false;
      var n, got, again := Recv(i);
      ghost var answers := [Received(s[i].fd, got, again)];
      assert answers[0] in answers;
      if n > 0 {
        Notify(DataIn, i);
        data := true;
      } else if n == 0 {
      } else if n == -2 {
        MarkForDrop(i);
        NoDataLeft(i);
        if conns[i].buffill - conns[i].bufpos > 0 {
          assert false;  // DATA_LEFT would be signalled here
        }
        stays := false;
      } else {
        stays, go := false, false;
      }
      part := Part(answers, if !callback then [] else if n > 0 then [Event(DataIn, i)]
                            else if n == -1 then [Event(Closing, i)] else []);
    }

    /** poll, one event of the event pass. Returns whether poll goes on, and whether data came. */
    method HandleEvent(ev: Ready) returns (go: bool, data: bool, ghost part: Part)
      requires Sound() && poller && ev.fd != -1
      modifies conns, `usedSlots, `trace, kernel
      ensures Sound() && Total(old(kernel.clock)) <= Total(kernel.clock)
      ensures kernel.log == old(kernel.log) + part.answers && trace == old(trace) + part.signals
      ensures EventRan(ev, old(Slots()), Slots(), part, Setup())
      ensures StillPolls(old(kernel.watched), kernel.watched, Slots(), listener)
      ensures go <==> !SomeBroken(part.answers)
      ensures data <==> SomeData(part.answers)
    {
      hide SlotsOk, Owned, Polled, StillPolls, Closings, Used, Disciplined, AtRest, Total, HandledConn, EventRan;
      ghost var s := Slots();
      go, data, part := true, false, Part([], []);
      if ev.fd == listener {
        StillPollsSame(kernel.watched, s, listener);
        NothingRan(ev, s, Setup());
        return;
      }
      var i := GetConnByFd(ev.fd);
      assert forall j :: 0 <= j < maxConnections ==> s[j] == conns[j];
      if i == -1 || !Live(conns[i]) {
        Unpolled(s, kernel.watched, ev.fd);
        if i != -1 { NoDescriptor(s, i); }
        NothingRan(ev, s, Setup());
        NobodyPolls(s, kernel.watched, ev.fd);
        kernel.Unwatch(ev.fd);
        return;
      }
      SoleOwner(s, i, listener, kernel.open, foreign);
      ghost var watched, open := kernel.watched, kernel.open;
      go, data, part := HandleConn(i, ev);
      StillPollsAfter(s, i, Slots(), listener, open, foreign, watched, kernel.watched);
      HandledRan(ev, i, s, Slots(), part, Setup());
    }

    lemma NobodyPolls(s: seq<Conn>, watched: set<int>, fd: int)
      requires fd != listener && forall i :: 0 <= i < |s| ==> s[i].fd != fd
      ensures StillPolls(watched, watched - {fd}, s, listener)
    {
    }

    lemma NoDataLeft(i: nat)
      requires Sound() && i < maxConnections
      ensures conns[i].buffill <= conns[i].bufpos
    {
      assert SlotOk(Slots()[i], i);
    }

    /** poll, the event pass: 0 when it is given up, 2 when data came, else 1. */
    method EventPass() returns (r: int, ghost parts: seq<Part>)
      requires Sound() && poller && Apart(events) && forall k :: 0 <= k < |events| ==> events[k].fd != -1
      modifies conns, `usedSlots, `trace, kernel
      ensures Sound() && Total(old(kernel.clock)) <= Total(kernel.clock) && 0 <= r <= 2
      ensures PassRan(events, old(Slots()), Slots(), parts, Setup())
      ensures kernel.log == old(kernel.log) + AnswersOf(parts)
      ensures trace == old(trace) + SignalsOf(parts)
      ensures StillPolls(old(kernel.watched), kernel.watched, Slots(), listener)
      ensures r == 0 <==> SomeBroken(AnswersOf(parts))
      ensures r == 0 ==> BrokeOff(parts)
      ensures r != 0 ==> |parts| == |events| && (r == 2 <==> SomeData(AnswersOf(parts)))
    {
      hide Valid, Sound, StillPolls, Wanes, PassRan, EventRan, Total, Broken, BroughtData, Apart, AnswersOf, SignalsOf;
      Sized();
      ghost var s := Slots();
      PassStarts(events, s, Setup());
      StillPollsSame(kernel.watched, s, listener);
      r, parts := 1, [];
      var k := 0;
      while k < |events|
        invariant 0 <= k == |parts| <= |events| && Sound() && maxConnections <= conns.Length && 1 <= r <= 2
        invariant Total(old(kernel.clock)) <= Total(kernel.clock)
        invariant StillPolls(old(kernel.watched), kernel.watched, Slots(), listener)
        invariant PassRan(events, s, Slots(), parts, Setup())
        invariant kernel.log == old(kernel.log) + AnswersOf(parts)
        invariant trace == old(trace) + SignalsOf(parts)
        invariant !SomeBroken(AnswersOf(parts))
        invariant r == 2 <==> SomeData(AnswersOf(parts))
      {
        ghost var u, watched := Slots(), kernel.watched;
        var go, data, part := HandleEvent(events[k]);
        EventWanes(events[k], u, Slots(), part, Setup());
        StillPollsOn(old(kernel.watched), watched, kernel.watched, u, Slots(), listener);
        PassStep(events, s, u, Slots(), parts, part, Setup());
        PartsStep(parts, part);
        assert (parts + [part])[..|parts|] == parts;
        parts := parts + [part];
        if !go { return 0, parts; }
        if data { r := 2; }
        k := k + 1;
      }
    }

    /** epoll_wait into the poller's events; -1 leaves them alone. */
    method WaitForEvents() returns (count: int, ghost ready: seq<Ready>)
      requires Sound()
      modifies `events, kernel`log
      ensures Sound() && kernel.log == old(kernel.log) + [Waited(count, ready)]
      ensures events == if count == -1 then old(events) else ready
      ensures count != -1 ==> Apart(events) && forall k :: 0 <= k < |events| ==> events[k].fd != -1
    {
      var n, some := kernel.Wait();
      count, ready := n, some;
      if count != -1 { events := some; }
    }

    /** poll, the event pass and, unless it was given up, the expiry sweep. */
    method EventsAndExpiries(ghost start: Timespec) returns (r: int, ghost parts: seq<Part>, ghost handled: seq<Conn>)
      requires Sound() && poller && Apart(events) && forall k :: 0 <= k < |events| ==> events[k].fd != -1
      requires Total(start) <= Total(kernel.clock)
      modifies conns, `usedSlots, `trace, kernel
      ensures Sound() && Total(old(kernel.clock)) <= Total(kernel.clock) && 0 <= r <= 2
      ensures PassRan(events, old(Slots()), handled, parts, Setup()) && |handled| == |Slots()| == |old(Slots())|
      ensures kernel.log == old(kernel.log) + AnswersOf(parts)
      ensures trace == old(trace) + SignalsOf(parts) + if callback && r != 0 then Expiries(handled, Slots()) else []
      ensures StillPolls(old(kernel.watched), kernel.watched, Slots(), listener)
      ensures r == 0 <==> SomeBroken(AnswersOf(parts))
      ensures r == 0 ==> BrokeOff(parts) && Slots() == handled
      ensures r != 0 ==> |parts| == |events| && (r == 2 <==> SomeData(AnswersOf(parts)))
      ensures r != 0 ==> AllSwept(handled, Slots(), start, kernel.clock)
    {
      hide Valid, Sound, StillPolls, Wanes, PassRan, AllSwept, Total, Expiries, SomeBroken, SomeData, Apart, AnswersOf,
        SignalsOf, BrokeOff;
      r, parts := EventPass();
      Sized();
      ghost var middle, watched := kernel.clock, kernel.watched;
      handled := Slots();
      if r != 0 {
        ExpirySweep();
        SweptWanes(handled, Slots(), middle, kernel.clock);
        StillPollsOn(old(kernel.watched), watched, kernel.watched, handled, Slots(), listener);
        SweptFrom(handled, Slots(), start, middle, kernel.clock);
      }
    }

    /** poll after epoll_wait, which came after the zombie sweep of the slots s. */
    method Serve(count: int, ghost start: Timespec, ghost s: seq<Conn>, ghost log: seq<Answer>, ghost t: seq<Event>)
      returns (r: int, ghost run: Round)
      requires Sound() && poller && Slots() == Dropped(s)
      requires count != -1 && Apart(events) && forall k :: 0 <= k < |events| ==> events[k].fd != -1
      requires kernel.log == log + [Waited(count, events)] && Total(start) <= Total(kernel.clock)
      requires trace == t + if callback then Drops(s) else []
      modifies conns, `usedSlots, `connCount, `activeConnCount, `queueFullCount, `poller, `trace, kernel
      ensures Sound() && poller
      ensures PollRan(run, r, s, Slots(), Setup())
      ensures run.start == start && run.end == kernel.clock && run.count == count && run.ready == events
      ensures StillPolls(old(kernel.watched) + Polling(run.tries), kernel.watched, Slots(), listener)
      ensures kernel.log == log + PollAnswers(run, Setup())
      ensures trace == t + PollSignals(run, r, s, Slots(), Setup())
    {
      hide Valid, Sound, StillPolls, Polling, PollRan, PassRan, AcceptRan, AllSwept, Total, Dropped, Drops, Expiries,
        SomeBroken, SomeData, Apart, ListenerReady, ListenerBad, AnswersOf, SignalsOf, AcceptAnswers, AcceptSignals,
        PollAnswers, PollSignals, ListenerRan, GoesOn, BrokeOff;
      Sized();
      PassStarts([], [], Setup());
      var go, tries := ListenerPass();
      ghost var accepted, watched := Slots(), kernel.watched;
      StillPollsSame(watched, accepted, listener);
      if !go {
        run := Round(start, kernel.clock, count, events, tries, accepted, [], accepted);
        StillPollsLess(old(kernel.watched) + Polling(tries), kernel.watched, kernel.watched, Slots(), listener);
        RoundOfPasses(run, 0, s, Slots(), Setup(), log, t);
        return 0, run;
      }
      ghost var parts, handled;
      r, parts, handled := EventsAndExpiries(start);
      StillPollsLess(old(kernel.watched) + Polling(tries), watched, kernel.watched, Slots(), listener);
      run := Round(start, kernel.clock, count, events, tries, accepted, parts, handled);
      RoundOfPasses(run, r, s, Slots(), Setup(), log, t);
    }

    /** ap_net_conn_pool_poll: the slots, the result, the signals and what was asked of the
        system are those of the round `run`. */
    method Poll() returns (r: int, ghost run: Round)
      requires Sound() && poller
      modifies conns, `usedSlots, `connCount, `activeConnCount, `queueFullCount, `poller, `events, `trace, kernel
      ensures Sound() && poller
      ensures PollRan(run, r, old(Slots()), Slots(), Setup())
      ensures run.start == old(kernel.clock) && run.end == kernel.clock
      ensures events == if run.count == -1 then old(events) else run.ready
      // nobody who is still served stops being polled
      ensures StillPolls(old(kernel.watched) + Polling(run.tries), kernel.watched, Slots(), listener)
      ensures kernel.log == old(kernel.log) + PollAnswers(run, Setup())
      ensures trace == old(trace) + PollSignals(run, r, old(Slots()), Slots(), Setup())
    {
      hide Valid, Sound, StillPolls, Polling, PollRan, Total, Dropped, Drops, Apart, PollAnswers, PollSignals;
      Sized();
      ghost var s, start, log, t := Slots(), kernel.clock, kernel.log, trace;
      Zombies();
      ghost var d := Slots();
      var count, ready := WaitForEvents();
      if count == -1 {
        StillPollsSame(kernel.watched, d, listener);
        NoneTaken();
        assert old(kernel.watched) + {} == kernel.watched;
        RoundOfNothing(start, ready, s, Setup());
        return 0, Round(start, start, count, ready, [], d, [], d);
      }
      r, run := Serve(count, start, s, log, t);
    }
  }
}
