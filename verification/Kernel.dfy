/** The operating system as the connection pool sees it: descriptors, one epoll instance
    and the monotonic clock. Every answer is arbitrary within what the system promises. */
module Kernels {
  import opened Timespecs

  /** An epoll event; `bad` is EPOLLERR or EPOLLHUP. */
  datatype Ready = Ready(fd: int, bad: bool, readable: bool, writable: bool)

  /** An answer of the system, or of the user's callback when it is asked. */
  datatype Answer =
    | Descriptor(fd: int)
    | Waited(count: int, events: seq<Ready>)
    | Received(sock: int, n: int, again: bool)
    | Allowed(yes: bool)
    | EpollMade(ok: bool)
    | Watching(sock: int, ok: bool)
    | Bound(ok: bool)
    | Listening(ok: bool)
    | Memory(ok: bool)

  /** Data came in; the connection is broken. */
  predicate BroughtData(a: Answer) { a.Received? && a.n > 0 }

  predicate Broken(a: Answer) { a.Received? && a.n == -1 }

  /** The system did not give what it was asked for. */
  predicate Refused(a: Answer)
  {
    match a
    case Descriptor(fd) => fd == -1
    case EpollMade(ok) => !ok
    case Watching(_, ok) => !ok
    case Bound(ok) => !ok
    case Listening(ok) => !ok
    case Memory(ok) => !ok
    case _ => false
  }

  ghost predicate AnyRefused(answers: seq<Answer>)
  {
    exists a :: a in answers && Refused(a)
  }

  lemma RefusedConcat(s: seq<Answer>, t: seq<Answer>)
    ensures AnyRefused(s + t) <==> AnyRefused(s) || AnyRefused(t)
  {
    hide Refused;
  }

  lemma RefusedOne(a: Answer)
    ensures AnyRefused([a]) <==> Refused(a)
    ensures !AnyRefused([])
  {
    hide Refused;
    assert a in [a];
  }

  class Kernel {
    var open: set<int>      // the descriptors open in the process
    var watched: set<int>   // the interest set of the pool's epoll instance
    var clock: Timespec
    ghost var log: seq<Answer>

    ghost predicate Valid()
      reads this
    {
      && (forall fd :: fd in open ==> 0 <= fd)
      && watched <= open
      && OnClock(clock)
    }

    constructor ()
      ensures Valid() && watched == {}
    {
      open, watched, clock, log := {}, {}, Timespec(0, 0), [];
    }

    /** clock_gettime */
    method Now() returns (now: Timespec)
      requires Valid()
      modifies `clock
      ensures Valid() && now == clock && Total(old(clock)) <= Total(now)
    {
      var sec: int, nsec: int := *, *;
      if 0 <= sec && 0 <= nsec {
        AddExact(clock, Timespec(sec, nsec));
        clock := Add(clock, Timespec(sec, nsec));
      }
      now := clock;
    }

    /** socket and accept: never a descriptor that is already open. */
    method NewDescriptor() returns (fd: int)
      requires Valid()
      modifies `open, `log
      ensures Valid() && -1 <= fd && log == old(log) + [Descriptor(fd)]
      ensures fd == -1 ==> open == old(open)
      ensures fd != -1 ==> fd !in old(open) && open == old(open) + {fd}
    {
      fd := *;
      if fd < 0 || fd in open {
        fd := -1;
      } else {
        open := open + {fd};
      }
      log := log + [Descriptor(fd)];
    }

    /** close; epoll forgets a closed descriptor. */
    method Close(fd: int)
      requires Valid()
      modifies `open, `watched
      ensures Valid() && open == old(open) - {fd} && watched == old(watched) - {fd}
    {
      open := open - {fd};
      watched := watched - {fd};
    }

    /** epoll_create: a new instance watches nothing. */
    method EpollCreate() returns (ok: bool)
      requires Valid()
      modifies `watched, `log
      ensures Valid() && watched == (if ok then {} else old(watched)) && log == old(log) + [EpollMade(ok)]
    {
      ok := *;
      if ok { watched := {}; }
      log := log + [EpollMade(ok)];
    }

    /** Closing the epoll instance. */
    method EpollClose()
      requires Valid()
      modifies `watched
      ensures Valid() && watched == {}
    {
      watched := {};
    }

    /** EPOLL_CTL_ADD */
    method Watch(fd: int) returns (ok: bool)
      requires Valid()
      modifies `watched, `log
      ensures Valid() && watched == old(watched) + if ok then {fd} else {}
      ensures (ok ==> fd in open) && log == old(log) + [Watching(fd, ok)]
    {
      ok := *;
      if fd !in open || fd in watched { ok := false; }
      if ok { watched := watched + {fd}; }
      log := log + [Watching(fd, ok)];
    }

    /** EPOLL_CTL_DEL */
    method Unwatch(fd: int)
      requires Valid()
      modifies `watched
      ensures Valid() && watched == old(watched) - {fd}
    {
      watched := watched - {fd};
    }

    /** epoll_wait: -1, or one event for each of some watched descriptors. */
    method Wait() returns (count: int, events: seq<Ready>)
      requires Valid()
      modifies `log
      ensures Valid() && log == old(log) + [Waited(count, events)]
      ensures count == -1 || count == |events|
      ensures forall i :: 0 <= i < |events| ==> events[i].fd in watched
      ensures forall i, j :: 0 <= i < j < |events| ==> events[i].fd != events[j].fd
    {
      events := *;
      count := |events|;
      if (exists i | 0 <= i < |events| :: events[i].fd !in watched)
         || (exists i, j | 0 <= i < j < |events| :: events[i].fd == events[j].fd) {
        count, events := -1, [];
      }
      log := log + [Waited(count, events)];
    }

    /** recv: -1, 0 or a byte count; whether errno says to try again. */
    method Recv(fd: int) returns (n: int, again: bool)
      requires Valid()
      modifies `log
      ensures Valid() && log == old(log) + [Received(fd, n, again)]
      ensures -1 <= n && (fd !in open ==> n == -1)
    {
      n, again := *, *;
      if n < 0 || fd !in open { n := -1; }
      log := log + [Received(fd, n, again)];
    }

    /** The callback's answer to AP_NET_SIGNAL_CONN_ACCEPTED */
    method Allow() returns (yes: bool)
      requires Valid()
      modifies `log
      ensures Valid() && log == old(log) + [Allowed(yes)]
    {
      yes := *;
      log := log + [Allowed(yes)];
    }

    /** setsockopt and bind */
    method Bind() returns (ok: bool)
      requires Valid()
      modifies `log
      ensures Valid() && log == old(log) + [Bound(ok)]
    {
      ok := *;
      log := log + [Bound(ok)];
    }

    /** listen */
    method Listen() returns (ok: bool)
      requires Valid()
      modifies `log
      ensures Valid() && log == old(log) + [Listening(ok)]
    {
      ok := *;
      log := log + [Listening(ok)];
    }

    /** malloc and realloc */
    method Allocate() returns (ok: bool)
      requires Valid()
      modifies `log
      ensures Valid() && log == old(log) + [Memory(ok)]
    {
      ok := *;
      log := log + [Memory(ok)];
    }
  }
}
