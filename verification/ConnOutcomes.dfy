/** What one poll returns and what becomes of a connection, from what epoll, accept, recv and
    the callback answered during the poll. */
module ConnOutcomes {
  import opened Timespecs
  import opened Kernels
  import opened ConnSlots
  import opened ConnEvents

  // ----- the answers of the event pass

  lemma {:induction false} InAnswers(parts: seq<Part>, a: Answer)
    ensures a in AnswersOf(parts) <==> exists k :: 0 <= k < |parts| && a in parts[k].answers
  {
    if parts != [] {
      var n := |parts| - 1;
      InAnswers(parts[..n], a);
      if k :| 0 <= k < |parts| && a in parts[k].answers {
        assert k < n ==> a in parts[..n][k].answers;
      }
      if k :| 0 <= k < n && a in parts[..n][k].answers {
        assert a in parts[k].answers;
      }
    }
  }

  /** What an event asks of the system is one recv, on the descriptor of the event. */
  lemma OneRecv(ev: Ready, i: nat, c: Conn, c': Conn, part: Part, cfg: Config, a: Answer)
    requires HandledConn(ev, i, c, c', part, cfg) && a in part.answers
    ensures a.Received? && a.sock == c.fd && part.answers == [a] && !ev.bad && ev.readable
  {
    hide IsSet;
    assert part.answers == [part.answers[0]];
  }

  lemma OneRecvOf(events: seq<Ready>, s: seq<Conn>, s': seq<Conn>, parts: seq<Part>, cfg: Config, k: nat, a: Answer)
    requires PassRan(events, s, s', parts, cfg) && k < |parts| && a in parts[k].answers
    ensures a.Received? && a.sock == events[k].fd && a.sock != -1 && a.sock != cfg.listener && parts[k].answers == [a]
  {
    hide HandledConn;
    if i :| 0 <= i < |s| && ConnEvent(events[k], cfg.listener, s[i]) {
      OneRecv(events[k], i, s[i], s'[i], parts[k], cfg, a);
    }
  }

  lemma PassReceives(events: seq<Ready>, s: seq<Conn>, s': seq<Conn>, parts: seq<Part>, cfg: Config, a: Answer)
    requires PassRan(events, s, s', parts, cfg) && a in AnswersOf(parts)
    ensures a.Received?
  {
    hide HandledConn, PassRan, AnswersOf;
    InAnswers(parts, a);
    var k :| 0 <= k < |parts| && a in parts[k].answers;
    OneRecvOf(events, s, s', parts, cfg, k, a);
  }

  // ----- what poll returns

  /** accept() or epoll gave no connection, or recv failed. */
  ghost predicate SomeFailure(answers: seq<Answer>)
  {
    exists a :: a in answers && (a == Descriptor(-1) || (a.Watching? && !a.ok) || (a.Received? && a.n == -1))
  }

  ghost predicate SomeReceived(answers: seq<Answer>)
  {
    exists a :: a in answers && a.Received? && a.n > 0
  }

  /** Accepting failed at the listener before any system call. */
  ghost predicate Blocked(ready: seq<Ready>, listener: int, full: bool)
  {
    exists k :: 0 <= k < |ready| && ready[k].fd == listener != -1 && (ready[k].bad || full)
  }

  lemma FailureConcat(t: seq<Answer>, u: seq<Answer>)
    ensures SomeFailure(t + u) <==> SomeFailure(t) || SomeFailure(u)
    ensures SomeReceived(t + u) <==> SomeReceived(t) || SomeReceived(u)
  {
    if SomeFailure(t) {
      var a :| a in t && (a == Descriptor(-1) || (a.Watching? && !a.ok) || (a.Received? && a.n == -1));
      assert a in t + u;
    }
    if SomeFailure(u) {
      var a :| a in u && (a == Descriptor(-1) || (a.Watching? && !a.ok) || (a.Received? && a.n == -1));
      assert a in t + u;
    }
    if SomeReceived(t) {
      var a :| a in t && a.Received? && a.n > 0;
      assert a in t + u;
    }
    if SomeReceived(u) {
      var a :| a in u && a.Received? && a.n > 0;
      assert a in t + u;
    }
  }

  lemma PassFailures(events: seq<Ready>, s: seq<Conn>, s': seq<Conn>, parts: seq<Part>, cfg: Config)
    requires PassRan(events, s, s', parts, cfg)
    ensures SomeFailure(AnswersOf(parts)) <==> SomeBroken(AnswersOf(parts))
    ensures SomeReceived(AnswersOf(parts)) <==> SomeData(AnswersOf(parts))
  {
    hide PassRan, AnswersOf;
    forall a | a in AnswersOf(parts) ensures a.Received? {
      PassReceives(events, s, s', parts, cfg, a);
    }
  }

  /** accept_connection keeps the connection exactly if accept() gave a descriptor, epoll took
      it, and the user, when there is a callback to ask, allowed it. */
  lemma AcceptKeepsIff(a: Accepting, s: seq<Conn>, s': seq<Conn>, cfg: Config)
    requires AcceptRan(a, s, s', cfg) && WatchedOnce(a) && Used(s) < |s|
    ensures a.slot < |s| == |s'| && Descriptor(a.fd) in AcceptAnswers(a, cfg)
    ensures a.r == a.slot <==> && a.fd != -1 && Watching(a.fd, true) in AcceptAnswers(a, cfg)
                               && (cfg.callback ==> Allowed(true) in AcceptAnswers(a, cfg))
    ensures a.r != a.slot ==> a.r == -1
    ensures if a.fd == -1 then s'[a.slot] == Conn(a.slot, -1, {Connected}, a.expire, 0, 0)
            else s'[a.slot] == Conn(a.slot, if a.r == a.slot then a.fd else -1,
                                    if a.r == a.slot then {Connected} else {}, a.expire, 0, 0)
  {
    hide Used, ExpiryOf;
    var answers := AcceptAnswers(a, cfg);
    assert answers[0] == Descriptor(a.fd);
    if a.fd != -1 {
      RefusedOne(Watching(a.fd, a.r != -1 || a.error == AcceptDenied));
      assert answers[1] == Watching(a.fd, a.r != -1 || a.error == AcceptDenied);
    }
  }

  lemma AcceptFailures(a: Accepting, s: seq<Conn>, s': seq<Conn>, cfg: Config)
    requires AcceptRan(a, s, s', cfg) && WatchedOnce(a)
    ensures a.r != -1 || a.error == AcceptDenied <==> Used(s) != |s| && !SomeFailure(AcceptAnswers(a, cfg))
    ensures !SomeReceived(AcceptAnswers(a, cfg))
  {
    hide Used, ExpiryOf;
    var answers := AcceptAnswers(a, cfg);
    if a.error == System {
      assert answers[0] == Descriptor(-1) && answers[0] in answers;
    } else if a.error != ListFull {
      RefusedOne(Watching(a.fd, a.r != -1 || a.error == AcceptDenied));
      assert answers[1] == Watching(a.fd, a.r != -1 || a.error == AcceptDenied);
    }
  }

  /** A connection that is kept, and the slot of a failed accept(), expires the pool's timeout
      after it was taken, and never without one. */
  lemma AcceptExpires(a: Accepting, s: seq<Conn>, s': seq<Conn>, cfg: Config)
    requires AcceptRan(a, s, s', cfg) && Used(s) < |s| && 0 <= cfg.ttl.sec && 0 <= cfg.ttl.nsec
    ensures a.slot < |s'| && if cfg.ttl.sec > 0 || cfg.ttl.nsec > 0
            then Total(s'[a.slot].expire) == Total(a.now) + Total(cfg.ttl)
            else s'[a.slot].expire == Timespec(0, 0)
  {
    hide Used;
    AddExact(a.now, cfg.ttl);
  }

  /** Poll goes on after the listener pass unless the listener is bad, or a connection waits at
      it and the pool is full or the system gave no connection. */
  lemma GoesOnFrom(ready: seq<Ready>, tries: seq<Accepting>, d: seq<Conn>, accepted: seq<Conn>, cfg: Config)
    requires ListenerRan(ready, tries, d, accepted, cfg)
    ensures var answers := if tries == [] then [] else AcceptAnswers(tries[0], cfg);
            && (GoesOn(ready, tries, cfg) <==> !Blocked(ready, cfg.listener, Used(d) == |d|) && !SomeFailure(answers))
            && !SomeReceived(answers)
  {
    hide AcceptRan, AcceptAnswers, WatchedOnce, Used;
    if tries != [] {
      AcceptFailures(tries[0], d, accepted, cfg);
      var k :| 0 <= k < |ready| && ready[k].fd == cfg.listener;
    }
  }

  /** Poll returns 0 exactly if epoll_wait failed, the listener was bad or found the pool full,
      accept() or epoll gave no connection, or recv failed; otherwise 2 exactly if recv brought
      data, and 1 if not. */
  lemma PollResultIff(run: Round, r: int, s: seq<Conn>, s': seq<Conn>, cfg: Config)
    requires PollRan(run, r, s, s', cfg)
    ensures r == 0 <==> || run.count == -1
                        || Blocked(run.ready, cfg.listener, Used(Dropped(s)) == |s|)
                        || SomeFailure(PollAnswers(run, cfg))
    ensures r == 2 <==> r != 0 && SomeReceived(PollAnswers(run, cfg))
    ensures 0 <= r <= 2
  {
    hide Apart, ListenerRan, GoesOn, Used, Dropped, Total, PassRan, AnswersOf, AllSwept, AcceptAnswers, SomeFailure,
      SomeReceived, SomeBroken, SomeData, BrokeOff, Blocked;
    NoFailure(Waited(run.count, run.ready));
    var asked := if run.tries == [] then [] else AcceptAnswers(run.tries[0], cfg);
    FailureConcat([Waited(run.count, run.ready)], asked);
    FailureConcat([Waited(run.count, run.ready)] + asked, AnswersOf(run.parts));
    assert |Dropped(s)| == |s|;
    if run.count != -1 {
      GoesOnFrom(run.ready, run.tries, Dropped(s), run.accepted, cfg);
      if GoesOn(run.ready, run.tries, cfg) {
        PassFailures(run.ready, run.accepted, run.handled, run.parts, cfg);
      }
    }
  }

  lemma NoFailure(a: Answer)
    requires a.Waited?
    ensures !SomeFailure([a]) && !SomeReceived([a]) && !SomeFailure([]) && !SomeReceived([])
  {
  }

  // ----- what becomes of a connection

  /** What recv answered during the pass for the connection in slot i, it answered to the one
      event for it. */
  lemma AnswersFor(events: seq<Ready>, s: seq<Conn>, s': seq<Conn>, parts: seq<Part>, cfg: Config, i: nat, a: Answer)
    requires PassRan(events, s, s', parts, cfg) && i < |s| && a.Received? && a.sock == s[i].fd
    ensures a in AnswersOf(parts) <==>
              exists k :: 0 <= k < |parts| && ConnEvent(events[k], cfg.listener, s[i]) && parts[k].answers == [a]
  {
    hide HandledConn, AnswersOf;
    InAnswers(parts, a);
    if k :| 0 <= k < |parts| && a in parts[k].answers {
      OneRecvOf(events, s, s', parts, cfg, k, a);
    }
    if k :| 0 <= k < |parts| && ConnEvent(events[k], cfg.listener, s[i]) && parts[k].answers == [a] {
      assert a in parts[k].answers;
    }
  }

  /** One event closes the connection if it is bad or recv failed, marks it if recv found it
      shut down, and otherwise leaves it as it is; recv is called if it is readable. */
  lemma HandledFate(ev: Ready, i: nat, c: Conn, c': Conn, part: Part, cfg: Config)
    requires HandledConn(ev, i, c, c', part, cfg) && Live(c) && !Leaving(c)
    ensures part.answers != [] <==> !ev.bad && ev.readable
    ensures part.answers != [] ==> part.answers == [Received(c.fd, part.answers[0].n, part.answers[0].again)]
    ensures !Live(c') <==> ev.bad || (part.answers != [] && part.answers[0].n == -1)
    ensures Leaving(c') <==> part.answers == [Received(c.fd, 0, false)]
    ensures Live(c') && !Leaving(c') ==> c' == c
  {
    hide IsSet;
    if part.answers != [] {
      assert part.answers == [part.answers[0]];
    }
  }

  /** One of the first n events was for the descriptor and bad, or good and readable. */
  ghost predicate BadEvent(ready: seq<Ready>, n: nat, fd: int)
  {
    exists k :: 0 <= k < n <= |ready| && ready[k].fd == fd && ready[k].bad
  }

  ghost predicate ReadableEvent(ready: seq<Ready>, n: nat, fd: int)
  {
    exists k :: 0 <= k < n <= |ready| && ready[k].fd == fd && ready[k].readable && !ready[k].bad
  }

  /** recv failed on the descriptor, or was called on it at all. */
  ghost predicate FailedOn(answers: seq<Answer>, fd: int)
  {
    exists a :: a in answers && a.Received? && a.sock == fd && a.n == -1
  }

  ghost predicate CalledOn(answers: seq<Answer>, fd: int)
  {
    exists a :: a in answers && a.Received? && a.sock == fd
  }

  /** Event m is the only one for the descriptor. */
  lemma EventsAt(events: seq<Ready>, n: nat, fd: int, m: nat)
    requires Apart(events) && m < n <= |events| && events[m].fd == fd
    ensures BadEvent(events, n, fd) <==> events[m].bad
    ensures ReadableEvent(events, n, fd) <==> events[m].readable && !events[m].bad
  {
  }

  lemma AnswerAt(events: seq<Ready>, s: seq<Conn>, s': seq<Conn>, parts: seq<Part>, cfg: Config, i: nat, m: nat,
                 a: Answer)
    requires Apart(events) && PassRan(events, s, s', parts, cfg) && i < |s| && m < |parts|
    requires ConnEvent(events[m], cfg.listener, s[i]) && a.Received? && a.sock == s[i].fd
    ensures a in AnswersOf(parts) <==> parts[m].answers == [a]
  {
    hide HandledConn, AnswersOf;
    AnswersFor(events, s, s', parts, cfg, i, a);
  }

  lemma AnswersAt(events: seq<Ready>, s: seq<Conn>, s': seq<Conn>, parts: seq<Part>, cfg: Config, i: nat, m: nat)
    requires Apart(events) && PassRan(events, s, s', parts, cfg) && i < |s| && m < |parts| <= |events|
    requires ConnEvent(events[m], cfg.listener, s[i])
    ensures forall a: Answer :: a.Received? && a.sock == s[i].fd ==>
              (a in AnswersOf(parts) <==> parts[m].answers == [a])
  {
    hide PassRan, ConnEvent, Apart, AnswersOf;
    forall a: Answer | a.Received? && a.sock == s[i].fd ensures a in AnswersOf(parts) <==> parts[m].answers == [a] {
      AnswerAt(events, s, s', parts, cfg, i, m, a);
    }
  }

  /** Without an event for the descriptor there is no answer for it. */
  lemma NoAnswers(events: seq<Ready>, s: seq<Conn>, s': seq<Conn>, parts: seq<Part>, cfg: Config, i: nat)
    requires PassRan(events, s, s', parts, cfg) && i < |s| && s[i].fd != -1 && s[i].fd != cfg.listener
    requires forall k :: 0 <= k < |parts| ==> !ConnEvent(events[k], cfg.listener, s[i])
    ensures !CalledOn(AnswersOf(parts), s[i].fd) && s'[i] == s[i]
    ensures !BadEvent(events, |parts|, s[i].fd) && !ReadableEvent(events, |parts|, s[i].fd)
  {
    hide HandledConn, AnswersOf;
    forall a: Answer | a.Received? && a.sock == s[i].fd ensures a !in AnswersOf(parts) {
      AnswersFor(events, s, s', parts, cfg, i, a);
    }
  }

  lemma AnswerIs(all: seq<Answer>, answers: seq<Answer>, fd: int)
    requires forall a: Answer :: a.Received? && a.sock == fd ==> (a in all <==> answers == [a])
    requires answers != [] ==> answers[0].Received? && answers == [Received(fd, answers[0].n, answers[0].again)]
    ensures CalledOn(all, fd) <==> answers != []
    ensures FailedOn(all, fd) <==> answers != [] && answers[0].n == -1
  {
    if answers != [] {
      assert answers == [answers[0]] && answers[0] in all;
    }
  }

  /** What the event pass makes of a connection follows from the flags of its event and what
      recv answered on its descriptor. */
  lemma PassFate(events: seq<Ready>, s: seq<Conn>, s': seq<Conn>, parts: seq<Part>, cfg: Config, i: nat)
    requires Apart(events) && PassRan(events, s, s', parts, cfg) && i < |s| && Live(s[i]) && !Leaving(s[i])
    requires s[i].fd != -1 && s[i].fd != cfg.listener
    ensures var (fd, n, all) := (s[i].fd, |parts|, AnswersOf(parts));
            && (CalledOn(all, fd) <==> ReadableEvent(events, n, fd))
            && (!Live(s'[i]) <==> BadEvent(events, n, fd) || FailedOn(all, fd))
            && (Leaving(s'[i]) <==> Received(fd, 0, false) in all)
            && (Live(s'[i]) && !Leaving(s'[i]) ==> s'[i] == s[i])
  {
    hide HandledConn, AnswersOf, Live, Leaving, Apart, CalledOn, FailedOn, BadEvent, ReadableEvent;
    if m :| 0 <= m < |parts| && ConnEvent(events[m], cfg.listener, s[i]) {
      HandledFate(events[m], i, s[i], s'[i], parts[m], cfg);
      EventsAt(events, |parts|, s[i].fd, m);
      AnswersAt(events, s, s', parts, cfg, i, m);
      AnswerIs(AnswersOf(parts), parts[m].answers, s[i].fd);
    } else {
      NoAnswers(events, s, s', parts, cfg, i);
      NoShutDown(AnswersOf(parts), s[i].fd);
    }
  }

  lemma NoShutDown(all: seq<Answer>, fd: int)
    requires !CalledOn(all, fd)
    ensures !FailedOn(all, fd) && Received(fd, 0, false) !in all
  {
  }

  /** Nothing but the event pass calls recv. */
  lemma PollReceives(run: Round, cfg: Config, a: Answer)
    requires a.Received? && (run.tries != [] ==> WatchedOnce(run.tries[0]))
    ensures a in PollAnswers(run, cfg) <==> a in AnswersOf(run.parts)
  {
    hide AnswersOf;
  }

  lemma PollCalls(run: Round, cfg: Config, fd: int)
    requires run.tries != [] ==> WatchedOnce(run.tries[0])
    ensures CalledOn(PollAnswers(run, cfg), fd) <==> CalledOn(AnswersOf(run.parts), fd)
    ensures FailedOn(PollAnswers(run, cfg), fd) <==> FailedOn(AnswersOf(run.parts), fd)
  {
    hide PollAnswers, AnswersOf, WatchedOnce;
    forall a: Answer | a.Received? ensures a in PollAnswers(run, cfg) <==> a in AnswersOf(run.parts) {
      PollReceives(run, cfg, a);
    }
  }

  lemma WatchesOnce(run: Round, r: int, s: seq<Conn>, s': seq<Conn>, cfg: Config)
    requires PollRan(run, r, s, s', cfg)
    ensures run.tries != [] ==> WatchedOnce(run.tries[0])
  {
    hide EventsRan, ListenerReady, ListenerBad, AcceptRan, WatchedOnce, Apart, Total, Dropped;
  }

  /** In a poll recv is called for a connection exactly if its event was handled, readable and
      not bad. The connection is closed exactly if the event was bad or recv failed, is to be
      dropped exactly if recv found it shut down, and is otherwise as before, up to the expiry
      sweep. */
  lemma FateFollowsAnswers(run: Round, r: int, s: seq<Conn>, s': seq<Conn>, cfg: Config, i: nat)
    requires PollRan(run, r, s, s', cfg) && i < |s| && Live(s[i]) && !Leaving(s[i])
    requires s[i].fd != -1 && s[i].fd != cfg.listener
    ensures |run.handled| == |s|
    ensures var (c, fd, n, all) := (run.handled[i], s[i].fd, |run.parts|, PollAnswers(run, cfg));
            && (CalledOn(all, fd) <==> ReadableEvent(run.ready, n, fd))
            && (!Live(c) <==> BadEvent(run.ready, n, fd) || FailedOn(all, fd))
            && (Leaving(c) <==> Received(fd, 0, false) in all)
            && (Live(c) && !Leaving(c) ==> c == s[i])
  {
    hide ListenerRan, GoesOn, Apart, Total, PassRan, AllSwept, SomeBroken, SomeData, Live, Leaving, PollAnswers,
      WatchedOnce;
    WatchesOnce(run, r, s, s', cfg);
    KeptByListener(run, r, s, s', cfg, i);
    PollCalls(run, cfg, s[i].fd);
    PollReceives(run, cfg, Received(s[i].fd, 0, false));
    if run.count != -1 && GoesOn(run.ready, run.tries, cfg) {
      PassFate(run.ready, run.accepted, run.handled, run.parts, cfg, i);
    }
  }
}
