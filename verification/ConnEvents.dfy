/** One poll of a connection pool as a step on its slots: what accept_connection and each
    event do, what a whole poll does, and what follows for a connection. */
module ConnEvents {
  import opened Timespecs
  import opened Kernels
  import opened ConnSlots

  /** What ap_error_get reports. */
  datatype ErrorCode = NoError | System | ListFull | AcceptDenied

  /** What of a pool stays the same while it polls. */
  datatype Config = Config(listener: int, ttl: Timespec, callback: bool, async: bool)

  // ----- accept_connection

  /** A call of accept_connection: its result, the slot and descriptor that it took, when it
      took the slot and the expiry that it set, and what epoll answered. */
  datatype Accepting = Accepting(r: int, error: ErrorCode, slot: nat, fd: int, now: Timespec, expire: Timespec,
                                 watch: seq<Answer>)

  /** The slots after a call of accept_connection. */
  ghost predicate AcceptRan(a: Accepting, s: seq<Conn>, s': seq<Conn>, cfg: Config)
  {
    && (a.error == ListFull <==> Used(s) == |s|)
    && if a.error == ListFull then a.r == -1 && s' == s
       else
         && a.slot < |s| && !Live(s[a.slot]) && (forall j :: 0 <= j < a.slot ==> Live(s[j]))
         && OnClock(a.now) && a.expire == ExpiryOf(a.now, cfg.ttl)
         && (a.error == System <==> a.fd == -1)
         && (a.error == System || (AnyRefused(a.watch) <==> a.error == NoError && a.r == -1))
         && (a.error == AcceptDenied ==> cfg.callback)
         && (a.r != -1 ==> a.error == NoError && a.r == a.slot && 0 <= a.fd)
         && s' == s[a.slot := if a.error == System || a.r != -1 then Taken(a.slot, a.fd, a.expire)
                              else Closed(Taken(a.slot, -1, a.expire))]
  }

  /** What the system and the callback answered. */
  ghost function AcceptAnswers(a: Accepting, cfg: Config): seq<Answer>
  {
    match a.error
    case ListFull => []
    case System => [Descriptor(-1)]
    case _ =>
      [Descriptor(a.fd)] + a.watch +
      if !cfg.callback || (a.error == NoError && a.r == -1) then [] else [Allowed(a.r != -1)]
  }

  ghost function AcceptSignals(a: Accepting, cfg: Config): seq<Event>
  {
    if !cfg.callback || a.error == ListFull || a.error == System then []
    else if a.error == AcceptDenied then [Event(Accepted, a.slot), Event(Closing, a.slot)]
    else if a.r == -1 then [Event(Closing, a.slot)]
    else [Event(Accepted, a.slot)]
  }

  /** With a poller there, epoll was asked once about a new descriptor. */
  ghost predicate WatchedOnce(a: Accepting)
  {
    a.error == NoError || a.error == AcceptDenied ==>
      a.watch == [Watching(a.fd, a.r != -1 || a.error == AcceptDenied)]
  }

  lemma PoolFull(a: Accepting, s: seq<Conn>, cfg: Config)
    requires a.error == ListFull && a.r == -1 && Used(s) == |s|
    ensures AcceptRan(a, s, s, cfg) && WatchedOnce(a) && AcceptAnswers(a, cfg) == [] && AcceptSignals(a, cfg) == []
  {
  }

  /** The lowest free slot was taken, and then kept or closed. */
  lemma TookSlot(a: Accepting, s: seq<Conn>, s': seq<Conn>, cfg: Config)
    requires a.error != ListFull && Used(s) < |s| && a.slot < |s|
    requires !Live(s[a.slot]) && forall j :: 0 <= j < a.slot ==> Live(s[j])
    requires OnClock(a.now) && a.expire == ExpiryOf(a.now, cfg.ttl)
    requires a.error == System <==> a.fd == -1
    requires a.error == System || (AnyRefused(a.watch) <==> a.error == NoError && a.r == -1)
    requires a.error == AcceptDenied ==> cfg.callback
    requires a.r != -1 ==> a.error == NoError && a.r == a.slot && 0 <= a.fd
    requires s' == s[a.slot := Taken(a.slot, -1, a.expire)]
                    [a.slot := if a.error == System || a.r != -1 then Taken(a.slot, a.fd, a.expire)
                               else Closed(Taken(a.slot, -1, a.expire))]
    ensures AcceptRan(a, s, s', cfg)
  {
    hide Used, ExpiryOf, AnyRefused;
  }

  /** A connection that was up is not touched. */
  lemma AcceptKeeps(a: Accepting, s: seq<Conn>, s': seq<Conn>, cfg: Config)
    requires AcceptRan(a, s, s', cfg)
    ensures |s'| == |s| && forall i :: 0 <= i < |s| && Live(s[i]) ==> s'[i] == s[i]
    ensures forall i :: 0 <= i < |s| && (a.error == ListFull || i != a.slot) ==> s'[i] == s[i]
  {
  }

  /** A slot that holds a connection without a descriptor and without an expiry. */
  predicate Lost(c: Conn)
  {
    c.state == {Connected} && c.fd == -1 && !IsSet(c.expire)
  }

  /** After a failed accept() the slot is lost if and only if the pool has no timeout. */
  lemma FailedAcceptLosesIff(a: Accepting, s: seq<Conn>, s': seq<Conn>, cfg: Config)
    requires AcceptRan(a, s, s', cfg) && a.error == System && 0 <= cfg.ttl.sec && 0 <= cfg.ttl.nsec
    ensures s'[a.slot].state == {Connected} && s'[a.slot].fd == -1
    ensures Lost(s'[a.slot]) <==> !IsSet(cfg.ttl)
    ensures IsSet(cfg.ttl) ==> Total(s'[a.slot].expire) == Total(a.now) + Total(cfg.ttl)
  {
    AddExact(a.now, cfg.ttl);
  }

  // ----- one event

  /** What one event led to: what recv answered, and the signals. */
  datatype Part = Part(answers: seq<Answer>, signals: seq<Event>)

  predicate ConnEvent(ev: Ready, listener: int, c: Conn)
  {
    ev.fd == c.fd != -1 && ev.fd != listener
  }

  /** What an event does to connection i. */
  ghost predicate HandledConn(ev: Ready, i: nat, c: Conn, c': Conn, part: Part, cfg: Config)
  {
    var sent := if cfg.callback && cfg.async && ev.writable then [Event(CanSend, i)] else [];
    var closing := if cfg.callback then [Event(Closing, i)] else [];
    if ev.bad then
      c' == Closed(c) && part == Part([], closing)
    else if !ev.readable then
      c' == c && part == Part([], sent)
    else
      && |part.answers| == 1 && part.answers[0].Received? && part.answers[0].sock == c.fd && -1 <= part.answers[0].n
      && if part.answers[0].n > 0 then
           c' == c && part.signals == (if cfg.callback then [Event(DataIn, i)] else []) + sent
         else if part.answers[0].n == -1 then
           c' == Closed(c) && part.signals == closing
         else if part.answers[0].again then
           c' == c && part.signals == sent
         else
           && c' == Marked(c, c'.expire) && part.signals == []
           && IsSet(c'.expire) && (IsSet(c.expire) ==> c'.expire == c.expire)
  }

  lemma BadHandled(ev: Ready, i: nat, c: Conn, cfg: Config)
    requires ev.bad
    ensures HandledConn(ev, i, c, Closed(c), Part([], if cfg.callback then [Event(Closing, i)] else []), cfg)
  {
  }

  lemma NoAnswer()
    ensures !SomeBroken([]) && !SomeData([])
  {
  }

  /** CAN_SEND follows what the event led to before. */
  lemma SentAfter(ev: Ready, i: nat, c: Conn, part: Part, cfg: Config)
    requires !ev.bad && if ev.readable then HandledConn(ev.(writable := false), i, c, c, part, cfg)
                        else part == Part([], [])
    requires ev.readable ==> part.answers[0].n > 0 || (part.answers[0].n == 0 && part.answers[0].again)
    ensures var sent := if cfg.callback && cfg.async && ev.writable then [Event(CanSend, i)] else [];
            HandledConn(ev, i, c, c, Part(part.answers, part.signals + sent), cfg)
  {
  }

  ghost predicate Handled(ev: Ready, i: nat, s: seq<Conn>, s': seq<Conn>, part: Part, cfg: Config)
  {
    i < |s| == |s'| && HandledConn(ev, i, s[i], s'[i], part, cfg) && s' == s[i := s'[i]]
  }

  /** The event does what it does to the connection that owns its descriptor, or nothing. */
  ghost predicate EventRan(ev: Ready, s: seq<Conn>, s': seq<Conn>, part: Part, cfg: Config)
  {
    && |s| == |s'|
    && (forall i :: 0 <= i < |s| && ConnEvent(ev, cfg.listener, s[i]) ==> HandledConn(ev, i, s[i], s'[i], part, cfg))
    && (forall i :: 0 <= i < |s| && !ConnEvent(ev, cfg.listener, s[i]) ==> s'[i] == s[i])
    && ((forall i :: 0 <= i < |s| ==> !ConnEvent(ev, cfg.listener, s[i])) ==> part == Part([], []))
  }

  lemma HandledRan(ev: Ready, i: nat, s: seq<Conn>, s': seq<Conn>, part: Part, cfg: Config)
    requires Handled(ev, i, s, s', part, cfg) && ConnEvent(ev, cfg.listener, s[i])
    requires forall j :: 0 <= j < |s| && s[j].fd == s[i].fd ==> j == i
    ensures EventRan(ev, s, s', part, cfg)
  {
    hide HandledConn;
  }

  lemma EventWanes(ev: Ready, s: seq<Conn>, s': seq<Conn>, part: Part, cfg: Config)
    requires EventRan(ev, s, s', part, cfg)
    ensures Wanes(s, s')
  {
    hide HandledConn;
    forall i | 0 <= i < |s| && Live(s'[i]) && !Leaving(s'[i])
      ensures s'[i].fd == s[i].fd && Live(s[i]) && !Leaving(s[i])
    {
      if ConnEvent(ev, cfg.listener, s[i]) {
        HandledWanes(ev, i, s[i], s'[i], part, cfg);
      }
    }
  }

  lemma HandledWanes(ev: Ready, i: nat, c: Conn, c': Conn, part: Part, cfg: Config)
    requires HandledConn(ev, i, c, c', part, cfg) && Live(c') && !Leaving(c')
    ensures c'.fd == c.fd && Live(c) && !Leaving(c)
  {
    hide IsSet;
  }

  lemma NothingRan(ev: Ready, s: seq<Conn>, cfg: Config)
    requires forall i :: 0 <= i < |s| ==> !ConnEvent(ev, cfg.listener, s[i])
    ensures EventRan(ev, s, s, Part([], []), cfg)
  {
  }

  // ----- the event pass

  /** No two events are for the same descriptor. */
  ghost predicate Apart(events: seq<Ready>)
  {
    forall i, j :: 0 <= i < j < |events| ==> events[i].fd != events[j].fd
  }

  ghost function AnswersOf(parts: seq<Part>): seq<Answer>
  {
    if parts == [] then [] else AnswersOf(parts[..|parts| - 1]) + parts[|parts| - 1].answers
  }

  ghost function SignalsOf(parts: seq<Part>): seq<Event>
  {
    if parts == [] then [] else SignalsOf(parts[..|parts| - 1]) + parts[|parts| - 1].signals
  }

  lemma PartsStep(parts: seq<Part>, part: Part)
    ensures AnswersOf(parts + [part]) == AnswersOf(parts) + part.answers
    ensures SignalsOf(parts + [part]) == SignalsOf(parts) + part.signals
  {
    assert (parts + [part])[..|parts|] == parts;
  }

  /** The first events were handled, each with its part, and no other connection was touched. */
  ghost predicate PassRan(events: seq<Ready>, s: seq<Conn>, s': seq<Conn>, parts: seq<Part>, cfg: Config)
  {
    && |parts| <= |events| && |s| == |s'|
    && (forall i, k :: 0 <= i < |s| && 0 <= k < |parts| && ConnEvent(events[k], cfg.listener, s[i]) ==>
          HandledConn(events[k], i, s[i], s'[i], parts[k], cfg))
    && (forall i :: 0 <= i < |s| && (forall k :: 0 <= k < |parts| ==> !ConnEvent(events[k], cfg.listener, s[i])) ==>
          s'[i] == s[i])
    && (forall k :: 0 <= k < |parts| && (forall i :: 0 <= i < |s| ==> !ConnEvent(events[k], cfg.listener, s[i])) ==>
          parts[k] == Part([], []))
  }

  lemma PassStarts(events: seq<Ready>, s: seq<Conn>, cfg: Config)
    ensures PassRan(events, s, s, [], cfg) && AnswersOf([]) == [] && SignalsOf([]) == []
  {
  }

  /** Handling an event leaves the connection its descriptor or takes it away. */
  lemma KeepsFd(ev: Ready, i: nat, c: Conn, c': Conn, part: Part, cfg: Config)
    requires HandledConn(ev, i, c, c', part, cfg)
    ensures c'.fd == c.fd || c'.fd == -1
    ensures Live(c') ==> Live(c)
    ensures IsSet(c.expire) ==> c'.expire == c.expire
  {
  }

  /** Before its event a connection is as it was at the start of the pass. */
  lemma NotYetServed(events: seq<Ready>, s: seq<Conn>, u: seq<Conn>, parts: seq<Part>, cfg: Config, i: nat)
    requires Apart(events) && PassRan(events, s, u, parts, cfg) && |parts| < |events| && i < |s|
    ensures ConnEvent(events[|parts|], cfg.listener, u[i]) <==> ConnEvent(events[|parts|], cfg.listener, s[i])
    ensures ConnEvent(events[|parts|], cfg.listener, s[i]) ==> u[i] == s[i]
  {
    hide HandledConn;
    if k :| 0 <= k < |parts| && ConnEvent(events[k], cfg.listener, s[i]) {
      KeepsFd(events[k], i, s[i], u[i], parts[k], cfg);
    }
  }

  /** Events for different descriptors do not undo each other. */
  lemma PassStep(events: seq<Ready>, s: seq<Conn>, u: seq<Conn>, u': seq<Conn>, parts: seq<Part>, part: Part,
                 cfg: Config)
    requires Apart(events) && PassRan(events, s, u, parts, cfg) && |parts| < |events|
    requires EventRan(events[|parts|], u, u', part, cfg)
    ensures PassRan(events, s, u', parts + [part], cfg)
  {
    var n, all := |parts|, parts + [part];
    var ev, l := events[n], cfg.listener;
    hide HandledConn;
    forall i | 0 <= i < |s|
      ensures ConnEvent(ev, l, u[i]) <==> ConnEvent(ev, l, s[i])
      ensures ConnEvent(ev, l, s[i]) ==> u[i] == s[i]
    {
      NotYetServed(events, s, u, parts, cfg, i);
    }
    forall i, k | 0 <= i < |s| && 0 <= k <= n && ConnEvent(events[k], l, s[i])
      ensures HandledConn(events[k], i, s[i], u'[i], all[k], cfg)
    {
      if k < n {
        assert all[k] == parts[k] && !ConnEvent(ev, l, s[i]);
      }
    }
    forall i | 0 <= i < |s| && (forall k :: 0 <= k <= n ==> !ConnEvent(events[k], l, s[i])) ensures u'[i] == s[i] {
      assert !ConnEvent(events[n], l, s[i]);
    }
    forall k | 0 <= k <= n && (forall i :: 0 <= i < |s| ==> !ConnEvent(events[k], l, s[i]))
      ensures all[k] == Part([], [])
    {
      assert k < n ==> all[k] == parts[k];
    }
  }

  // ----- a whole poll

  /** Is a connection waiting at the listener, and did epoll report an error of it? */
  ghost predicate ListenerReady(events: seq<Ready>, listener: int)
  {
    listener != -1 && exists k :: 0 <= k < |events| && events[k].fd == listener
  }

  ghost predicate ListenerBad(events: seq<Ready>, listener: int)
  {
    exists k :: 0 <= k < |events| && events[k].fd == listener && events[k].bad
  }

  /** The descriptor that accept_connection added to what is polled. */
  function Polling(tries: seq<Accepting>): set<int>
  {
    if tries != [] && tries[0].r != -1 then {tries[0].fd} else {}
  }

  lemma NoneTaken()
    ensures Polling([]) == {}
  {
  }

  /** A poll: what epoll_wait answered, the call of accept_connection if there was one, the
      slots after it, the handled events, and the slots after those. */
  datatype Round = Round(start: Timespec, end: Timespec, count: int, ready: seq<Ready>, tries: seq<Accepting>,
                         accepted: seq<Conn>, parts: seq<Part>, handled: seq<Conn>)

  /** The listener pass, from the slots d that the zombie sweep left. */
  ghost predicate ListenerRan(ready: seq<Ready>, tries: seq<Accepting>, d: seq<Conn>, accepted: seq<Conn>, cfg: Config)
  {
    if !ListenerReady(ready, cfg.listener) || ListenerBad(ready, cfg.listener) then
      tries == [] && accepted == d
    else
      |tries| == 1 && AcceptRan(tries[0], d, accepted, cfg) && WatchedOnce(tries[0])
  }

  /** Does poll go on after the listener pass? */
  ghost predicate GoesOn(ready: seq<Ready>, tries: seq<Accepting>, cfg: Config)
  {
    ListenerReady(ready, cfg.listener) ==>
      && !ListenerBad(ready, cfg.listener) && tries != []
      && (tries[0].r != -1 || tries[0].error == AcceptDenied)
  }

  lemma NoListenerEvent(ready: seq<Ready>, d: seq<Conn>, cfg: Config)
    requires cfg.listener == -1 || forall j :: 0 <= j < |ready| ==> ready[j].fd != cfg.listener
    ensures ListenerRan(ready, [], d, d, cfg) && GoesOn(ready, [], cfg)
  {
  }

  lemma BadListenerEvent(ready: seq<Ready>, k: nat, d: seq<Conn>, cfg: Config)
    requires k < |ready| && ready[k].fd == cfg.listener != -1 && ready[k].bad
    ensures ListenerRan(ready, [], d, d, cfg) && !GoesOn(ready, [], cfg)
  {
  }

  lemma GoodListenerEvent(ready: seq<Ready>, k: nat, a: Accepting, d: seq<Conn>, accepted: seq<Conn>, cfg: Config)
    requires Apart(ready) && k < |ready| && ready[k].fd == cfg.listener != -1 && !ready[k].bad
    requires AcceptRan(a, d, accepted, cfg) && WatchedOnce(a)
    ensures ListenerRan(ready, [a], d, accepted, cfg)
    ensures GoesOn(ready, [a], cfg) <==> a.r != -1 || a.error == AcceptDenied
  {
    hide AcceptRan, WatchedOnce;
  }

  ghost predicate SomeBroken(answers: seq<Answer>)
  {
    exists a :: a in answers && Broken(a)
  }

  ghost predicate SomeData(answers: seq<Answer>)
  {
    exists a :: a in answers && BroughtData(a)
  }

  /** The last event that was handled, and no other, is one whose recv failed. */
  ghost predicate BrokeOff(parts: seq<Part>)
  {
    && parts != []
    && !SomeBroken(AnswersOf(parts[..|parts| - 1])) && SomeBroken(parts[|parts| - 1].answers)
  }

  /** What poll does after the listener pass, and what it returns. */
  ghost predicate EventsRan(run: Round, r: int, s': seq<Conn>, cfg: Config)
  {
    if !GoesOn(run.ready, run.tries, cfg) then
      r == 0 && run.parts == [] && run.accepted == run.handled == s'
    else
      && PassRan(run.ready, run.accepted, run.handled, run.parts, cfg)
      && (r == 0 <==> SomeBroken(AnswersOf(run.parts)))
      && (r != 0 ==> |run.parts| == |run.ready| && (r == 2 <==> SomeData(AnswersOf(run.parts))))
      && if r == 0 then BrokeOff(run.parts) && s' == run.handled else AllSwept(run.handled, s', run.start, run.end)
  }

  /** What ap_net_conn_pool_poll does to the slots, and what it returns. */
  ghost predicate PollRan(run: Round, r: int, s: seq<Conn>, s': seq<Conn>, cfg: Config)
  {
    && |run.handled| == |s'| == |s| && 0 <= r <= 2 && Total(run.start) <= Total(run.end)
    && if run.count == -1 then
         r == 0 && run.tries == [] && run.parts == [] && run.accepted == run.handled == s' == Dropped(s)
       else
         && Apart(run.ready) && ListenerRan(run.ready, run.tries, Dropped(s), run.accepted, cfg)
         && (run.tries != [] ==> Total(run.start) <= Total(run.tries[0].now) <= Total(run.end))
         && EventsRan(run, r, s', cfg)
  }

  ghost predicate AllSwept(s: seq<Conn>, s': seq<Conn>, start: Timespec, end: Timespec)
  {
    |s| == |s'| && forall i :: 0 <= i < |s| ==> Swept(s[i], s'[i], Total(start), Total(end))
  }

  /** What the system and the callback answered during a poll. */
  ghost function PollAnswers(run: Round, cfg: Config): seq<Answer>
  {
    [Waited(run.count, run.ready)]
    + (if run.tries == [] then [] else AcceptAnswers(run.tries[0], cfg))
    + AnswersOf(run.parts)
  }

  /** The signals of a poll: for the connections dropped, for the one accepted, for the
      events in order, and for the expired connections. */
  ghost function PollSignals(run: Round, r: int, s: seq<Conn>, s': seq<Conn>, cfg: Config): seq<Event>
    requires |run.handled| == |s'|
  {
    (if cfg.callback then Drops(s) else [])
    + (if run.tries == [] then [] else AcceptSignals(run.tries[0], cfg))
    + SignalsOf(run.parts)
    + (if cfg.callback && r != 0 then Expiries(run.handled, s') else [])
  }

  lemma RoundOfNothing(start: Timespec, ready: seq<Ready>, s: seq<Conn>, cfg: Config)
    ensures var run := Round(start, start, -1, ready, [], Dropped(s), [], Dropped(s));
            && PollRan(run, 0, s, Dropped(s), cfg)
            && PollAnswers(run, cfg) == [Waited(-1, ready)]
            && PollSignals(run, 0, s, Dropped(s), cfg) == if cfg.callback then Drops(s) else []
  {
    hide Total, Dropped, Drops, PassRan, ListenerRan, GoesOn;
    PassStarts([], [], cfg);
  }

  /** A poll that epoll_wait did not fail, from its passes. */
  lemma RoundOfPasses(run: Round, r: int, s: seq<Conn>, s': seq<Conn>, cfg: Config, log: seq<Answer>, trace: seq<Event>)
    requires run.count != -1 && Apart(run.ready) && |s'| == |s| == |run.handled|
    requires ListenerRan(run.ready, run.tries, Dropped(s), run.accepted, cfg)
    requires Total(run.start) <= Total(run.end) && 0 <= r <= 2
    requires run.tries != [] ==> Total(run.start) <= Total(run.tries[0].now) <= Total(run.end)
    requires EventsRan(run, r, s', cfg)
    ensures PollRan(run, r, s, s', cfg)
    ensures log + [Waited(run.count, run.ready)] + (if run.tries == [] then [] else AcceptAnswers(run.tries[0], cfg))
            + AnswersOf(run.parts)
         == log + PollAnswers(run, cfg)
    ensures trace + (if cfg.callback then Drops(s) else [])
            + (if run.tries == [] then [] else AcceptSignals(run.tries[0], cfg))
            + SignalsOf(run.parts)
            + (if cfg.callback && r != 0 then Expiries(run.handled, s') else [])
         == trace + PollSignals(run, r, s, s', cfg)
  {
    hide Total, Dropped, Drops, EventsRan, ListenerRan, Apart, AnswersOf, SignalsOf, AcceptAnswers, AcceptSignals,
      Expiries, PollRan;
    IsPoll(run, r, s, s', cfg);
    var asked := if run.tries == [] then [] else AcceptAnswers(run.tries[0], cfg);
    Joined(log, [Waited(run.count, run.ready)], asked, AnswersOf(run.parts), []);
    Joined(trace, if cfg.callback then Drops(s) else [],
           if run.tries == [] then [] else AcceptSignals(run.tries[0], cfg),
           SignalsOf(run.parts), if cfg.callback && r != 0 then Expiries(run.handled, s') else []);
  }

  lemma Joined<T>(a: seq<T>, b: seq<T>, c: seq<T>, d: seq<T>, e: seq<T>)
    ensures a + b + c + d == a + (b + c + d) && a + b + c + d + e == a + (b + c + d + e)
  {
  }

  lemma IsPoll(run: Round, r: int, s: seq<Conn>, s': seq<Conn>, cfg: Config)
    requires run.count != -1 && Apart(run.ready) && |s'| == |s| == |run.handled|
    requires ListenerRan(run.ready, run.tries, Dropped(s), run.accepted, cfg)
    requires Total(run.start) <= Total(run.end) && 0 <= r <= 2
    requires run.tries != [] ==> Total(run.start) <= Total(run.tries[0].now) <= Total(run.end)
    requires EventsRan(run, r, s', cfg)
    ensures PollRan(run, r, s, s', cfg)
  {
    hide Total, Dropped, EventsRan, ListenerRan, Apart;
  }

  // ----- what follows for a connection

  /** The event pass neither brings a connection up nor puts off its expiry. */
  lemma PassEvolves(events: seq<Ready>, s: seq<Conn>, s': seq<Conn>, parts: seq<Part>, cfg: Config, i: nat)
    requires PassRan(events, s, s', parts, cfg) && i < |s|
    ensures Evolved(s[i], s'[i])
    ensures s[i].fd == -1 ==> s'[i] == s[i]
  {
    hide HandledConn;
    if k :| 0 <= k < |parts| && ConnEvent(events[k], cfg.listener, s[i]) {
      HandledLives(events[k], i, s[i], s'[i], parts[k], cfg);
    }
  }

  lemma HandledLives(ev: Ready, i: nat, c: Conn, c': Conn, part: Part, cfg: Config)
    requires HandledConn(ev, i, c, c', part, cfg)
    ensures Evolved(c, c')
  {
    hide IsSet;
  }

  /** After the listener pass every connection that was up and not to be dropped is as before. */
  lemma KeptByListener(run: Round, r: int, s: seq<Conn>, s': seq<Conn>, cfg: Config, i: nat)
    requires PollRan(run, r, s, s', cfg) && i < |s| && Live(s[i]) && !Leaving(s[i])
    ensures |run.accepted| == |run.handled| == |s| && run.accepted[i] == s[i]
  {
    hide AcceptRan, PassRan, AllSwept, SomeBroken, SomeData, ListenerBad, ListenerReady, Apart, Total;
    assert Dropped(s)[i] == s[i];
    if run.tries != [] {
      AcceptKeeps(run.tries[0], Dropped(s), run.accepted, cfg);
    }
    if run.count != -1 && GoesOn(run.ready, run.tries, cfg) {
      SameLength(run.ready, run.accepted, run.handled, run.parts, cfg);
    }
  }

  lemma SameLength(events: seq<Ready>, s: seq<Conn>, s': seq<Conn>, parts: seq<Part>, cfg: Config)
    requires PassRan(events, s, s', parts, cfg)
    ensures |s| == |s'|
  {
  }

  /** A connection without an event stays as it is, until its expiry has come. */
  lemma QuietStays(run: Round, r: int, s: seq<Conn>, s': seq<Conn>, cfg: Config, i: nat)
    requires PollRan(run, r, s, s', cfg) && i < |s| && Live(s[i]) && !Leaving(s[i])
    requires forall k :: 0 <= k < |run.ready| ==> !ConnEvent(run.ready[k], cfg.listener, s[i])
    ensures s'[i] == s[i] || (s'[i] == Closed(s[i]) && IsSet(s[i].expire) && Total(s[i].expire) <= Total(run.end))
  {
    hide AcceptRan, SomeBroken, SomeData, ListenerBad, ListenerReady, Apart, Total, IsSet, HandledConn;
    KeptByListener(run, r, s, s', cfg, i);
  }

  /** The first poll that gets through after a connection's expiry closes it, whatever
      events it has; so does the poll after a failed accept() in a pool with a timeout. */
  lemma ExpiredIsClosed(run: Round, r: int, s: seq<Conn>, s': seq<Conn>, cfg: Config, i: nat)
    requires PollRan(run, r, s, s', cfg) && r != 0 && i < |s| && Live(s[i]) && !Leaving(s[i])
    requires IsSet(s[i].expire) && Total(s[i].expire) <= Total(run.start)
    ensures !Live(s'[i])
  {
    hide AcceptRan, SomeBroken, SomeData, ListenerBad, ListenerReady, Apart, Total, IsSet, HandledConn, PassRan;
    KeptByListener(run, r, s, s', cfg, i);
    PassEvolves(run.ready, run.accepted, run.handled, run.parts, cfg, i);
  }

  /** A lost slot is the same after every poll. */
  lemma LostStaysLost(run: Round, r: int, s: seq<Conn>, s': seq<Conn>, cfg: Config, i: nat)
    requires PollRan(run, r, s, s', cfg) && i < |s| && Lost(s[i])
    ensures s'[i] == s[i]
  {
    hide AcceptRan, SomeBroken, SomeData, ListenerBad, ListenerReady, Apart, Total, IsSet, HandledConn;
    KeptByListener(run, r, s, s', cfg, i);
  }

  /** A connection that was to be dropped is closed; if its slot is in use after the poll,
      accept_connection took it during the poll. */
  lemma LeavingIsGone(run: Round, r: int, s: seq<Conn>, s': seq<Conn>, cfg: Config, i: nat)
    requires PollRan(run, r, s, s', cfg) && i < |s| && Leaving(s[i])
    ensures Dropped(s)[i] == Closed(s[i])
    ensures Live(s'[i]) ==> run.tries != [] && run.tries[0].slot == i && Live(run.accepted[i])
  {
    hide SomeBroken, SomeData, ListenerBad, ListenerReady, Apart, Total, IsSet, HandledConn, PassRan;
    if run.tries != [] {
      AcceptKeeps(run.tries[0], Dropped(s), run.accepted, cfg);
    }
    if run.count != -1 && GoesOn(run.ready, run.tries, cfg) {
      SameLength(run.ready, run.accepted, run.handled, run.parts, cfg);
      PassEvolves(run.ready, run.accepted, run.handled, run.parts, cfg, i);
    }
  }

  /** A connection is to be dropped after a poll only if recv found it shut down in it. */
  lemma LeavingWasShutDown(run: Round, r: int, s: seq<Conn>, s': seq<Conn>, cfg: Config, i: nat)
    requires PollRan(run, r, s, s', cfg) && i < |s| && Leaving(s'[i])
    requires forall j :: 0 <= j < |s| && Leaving(s[j]) ==> Live(s[j])
    ensures exists k :: && 0 <= k < |run.parts| && ConnEvent(run.ready[k], cfg.listener, run.accepted[i])
                        && ShutDown(run.parts[k])
  {
    hide SomeBroken, SomeData, ListenerBad, ListenerReady, Apart, Total, IsSet;
    assert !Leaving(Dropped(s)[i]);
    if run.tries != [] {
      AcceptKeeps(run.tries[0], Dropped(s), run.accepted, cfg);
    }
    assert !Leaving(run.accepted[i]);
  }

  predicate ShutDown(part: Part)
  {
    |part.answers| == 1 && part.answers[0].Received? && part.answers[0].n == 0 && !part.answers[0].again
  }

  /** What recv finds shut down in a poll that gets through is to be dropped, or has expired. */
  lemma ShutDownLeaves(run: Round, r: int, s: seq<Conn>, s': seq<Conn>, cfg: Config, i: nat, k: nat)
    requires PollRan(run, r, s, s', cfg) && r != 0 && i < |s| && Live(s[i]) && !Leaving(s[i])
    requires k < |run.parts| && ConnEvent(run.ready[k], cfg.listener, s[i]) && ShutDown(run.parts[k])
    ensures |run.handled| == |s|
    ensures || Leaving(s'[i])
            || (s'[i] == Closed(run.handled[i])
                && IsSet(run.handled[i].expire) && Total(run.handled[i].expire) <= Total(run.end))
  {
    hide AcceptRan, SomeBroken, SomeData, ListenerBad, ListenerReady, Apart, Total, IsSet;
    KeptByListener(run, r, s, s', cfg, i);
    assert HandledConn(run.ready[k], i, s[i], run.handled[i], run.parts[k], cfg);
  }

  /** While the pool is full and a connection waits at the listener, poll gives up: nothing is
      read and nothing expires. */
  lemma FullPoolStarves(run: Round, r: int, s: seq<Conn>, s': seq<Conn>, cfg: Config)
    requires PollRan(run, r, s, s', cfg) && Used(Dropped(s)) == |s|
    requires run.count == -1 || ListenerReady(run.ready, cfg.listener)
    ensures r == 0 && s' == Dropped(s)
  {
    hide SomeBroken, SomeData, ListenerBad, ListenerReady, Apart, Total, IsSet, PassRan, AllSwept, Dropped, Used;
  }

  /** When accept() gives a descriptor and epoll takes it, poll goes on if and only if the pool
      had a free slot for it. */
  lemma GoesOnIff(run: Round, r: int, s: seq<Conn>, s': seq<Conn>, cfg: Config)
    requires PollRan(run, r, s, s', cfg) && run.count != -1
    requires ListenerReady(run.ready, cfg.listener) && !ListenerBad(run.ready, cfg.listener)
    ensures |run.tries| == 1
    ensures run.tries[0].error != System && !AnyRefused(run.tries[0].watch) ==>
              (GoesOn(run.ready, run.tries, cfg) <==> Used(Dropped(s)) < |s|)
  {
    hide EventsRan, ListenerBad, ListenerReady, Apart, Total, Used, AnyRefused, Dropped;
    assert |Dropped(s)| == |s|;
  }

  /** The two-poll life cycle: what one poll leaves to be dropped, the next signals as closing
      exactly once in its sweep and closes, whatever else it does. */
  lemma TwoPolls(run: Round, r: int, s: seq<Conn>, s': seq<Conn>, run': Round, r': int, s'': seq<Conn>, cfg: Config,
                 i: nat)
    requires PollRan(run, r, s, s', cfg) && PollRan(run', r', s', s'', cfg)
    requires i < |s| && Leaving(s'[i]) && forall j :: 0 <= j < |s| && Leaving(s[j]) ==> Live(s[j])
    ensures exists k :: && 0 <= k < |run.parts| && ConnEvent(run.ready[k], cfg.listener, run.accepted[i])
                        && ShutDown(run.parts[k])
    ensures multiset(Drops(s'))[Event(Closing, i)] == 1 && Dropped(s')[i] == Closed(s'[i])
    ensures Live(s''[i]) ==> run'.tries != [] && run'.tries[0].slot == i && Live(run'.accepted[i])
  {
    hide PollRan;
    LeavingWasShutDown(run, r, s, s', cfg, i);
    SameSize(run, r, s, s', cfg);
    DropsOnce(s', i);
    LeavingIsGone(run', r', s', s'', cfg, i);
  }

  lemma SameSize(run: Round, r: int, s: seq<Conn>, s': seq<Conn>, cfg: Config)
    requires PollRan(run, r, s, s', cfg)
    ensures |s| == |s'|
  {
  }

  lemma SweptWanes(s: seq<Conn>, s': seq<Conn>, start: Timespec, end: Timespec)
    requires AllSwept(s, s', start, end)
    ensures Wanes(s, s')
  {
    hide IsSet, Total;
  }

  lemma SweptFrom(s: seq<Conn>, s': seq<Conn>, start: Timespec, middle: Timespec, end: Timespec)
    requires AllSwept(s, s', middle, end) && Total(start) <= Total(middle)
    ensures AllSwept(s, s', start, end)
  {
    forall i | 0 <= i < |s| ensures Swept(s[i], s'[i], Total(start), Total(end)) {
      assert Swept(s[i], s'[i], Total(middle), Total(end));
    }
  }

  /** CREATED for the slots from m up to n. */
  ghost function Births(m: nat, n: nat): (t: seq<Event>)
    requires m <= n
    ensures |t| == n - m && forall k :: 0 <= k < |t| ==> t[k] == Event(Created, m + k)
  {
    if m == n then [] else Births(m, n - 1) + [Event(Created, n - 1)]
  }

  lemma BirthStep(m: nat, n: nat)
    requires m <= n
    ensures Births(m, n + 1) == Births(m, n) + [Event(Created, n)]
  {
  }

  lemma NoBirths(m: nat)
    ensures Births(m, m) == []
  {
  }

  lemma {:induction false} BirthsOk(t: seq<Event>, m: nat, n: nat)
    requires m <= n
    ensures Closings(t + Births(m, n)) == Closings(t)
    ensures Disciplined(t) ==> Disciplined(t + Births(m, n))
    decreases n
  {
    hide Closings, Disciplined;
    if m == n {
      assert t + Births(m, n) == t;
    } else {
      BirthsOk(t, m, n - 1);
      OneSignal(t + Births(m, n - 1), Created, n - 1);
      assert t + Births(m, n) == t + Births(m, n - 1) + [Event(Created, n - 1)];
    }
  }
}
