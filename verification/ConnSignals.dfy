/** What the callback is told in one poll: for each slot the exact sequence of its signals,
    from what the system answered and how the slot changed. */
module ConnSignals {
  import opened Timespecs
  import opened Kernels
  import opened ConnSlots
  import opened ConnEvents

  // ----- the signals of one slot

  /** The signals for slot i, in their order. */
  ghost function SignalsFor(t: seq<Event>, i: nat): seq<Signal>
  {
    if t == [] then []
    else SignalsFor(t[..|t| - 1], i) + if t[|t| - 1].slot == i then [t[|t| - 1].signal] else []
  }

  lemma {:induction false} ForConcat(t: seq<Event>, u: seq<Event>, i: nat)
    ensures SignalsFor(t + u, i) == SignalsFor(t, i) + SignalsFor(u, i)
  {
    if u == [] {
      assert t + u == t;
    } else {
      assert (t + u)[..|t + u| - 1] == t + u[..|u| - 1];
      ForConcat(t, u[..|u| - 1], i);
    }
  }

  lemma ForOne(signal: Signal, j: nat, i: nat)
    ensures SignalsFor([], i) == [] && SignalsFor([Event(signal, j)], i) == if j == i then [signal] else []
  {
    assert [Event(signal, j)][..0] == [];
  }

  lemma ForTwo(signal: Signal, signal': Signal, j: nat, i: nat)
    ensures SignalsFor([Event(signal, j), Event(signal', j)], i) == if j == i then [signal, signal'] else []
  {
    assert [Event(signal, j), Event(signal', j)] == [Event(signal, j)] + [Event(signal', j)];
    ForConcat([Event(signal, j)], [Event(signal', j)], i);
    ForOne(signal, j, i);
    ForOne(signal', j, i);
  }

  /** The trace has each signal for slot i as often as its sequence for the slot. */
  lemma {:induction false} ForCounts(t: seq<Event>, i: nat, signal: Signal)
    ensures multiset(t)[Event(signal, i)] == multiset(SignalsFor(t, i))[signal]
  {
    if t != [] {
      var n := |t| - 1;
      ForCounts(t[..n], i, signal);
      assert t == t[..n] + [t[n]];
    }
  }

  // ----- the sweeps

  lemma {:induction false} DropsFor(s: seq<Conn>, i: nat)
    ensures SignalsFor(Drops(s), i) == if i < |s| && Leaving(s[i]) then [Closing] else []
  {
    hide Leaving;
    ForOne(Closing, i, i);
    if s != [] {
      var n := |s| - 1;
      var last := if Leaving(s[n]) then [Event(Closing, n)] else [];
      hide Drops;
      LastDrop(s);
      DropsFor(s[..n], i);
      ForConcat(Drops(s[..n]), last, i);
      ForOne(Closing, n, i);
    }
  }

  lemma {:induction false} ExpiriesFor(s: seq<Conn>, s': seq<Conn>, i: nat)
    requires |s| == |s'|
    ensures SignalsFor(Expiries(s, s'), i)
         == if i < |s| && Live(s[i]) && !Live(s'[i]) then [TimedOut, Closing] else []
  {
    hide Live;
    ForOne(Closing, i, i);
    if s != [] {
      var n := |s| - 1;
      var last := if Live(s[n]) && !Live(s'[n]) then [Event(TimedOut, n), Event(Closing, n)] else [];
      ExpiriesFor(s[..n], s'[..n], i);
      ForConcat(Expiries(s[..n], s'[..n]), last, i);
      ForTwo(TimedOut, Closing, n, i);
    }
  }

  // ----- recv

  /** How often recv brought data from the descriptor. */
  ghost function Reads(answers: seq<Answer>, fd: int): nat
  {
    if answers == [] then 0
    else
      var a := answers[|answers| - 1];
      Reads(answers[..|answers| - 1], fd) + if a.Received? && a.sock == fd && a.n > 0 then 1 else 0
  }

  lemma {:induction false} ReadsConcat(t: seq<Answer>, u: seq<Answer>, fd: int)
    ensures Reads(t + u, fd) == Reads(t, fd) + Reads(u, fd)
  {
    if u == [] {
      assert t + u == t;
    } else {
      assert (t + u)[..|t + u| - 1] == t + u[..|u| - 1];
      ReadsConcat(t, u[..|u| - 1], fd);
    }
  }

  lemma {:induction false} NoReads(t: seq<Answer>, fd: int)
    requires forall k :: 0 <= k < |t| ==> !t[k].Received? || t[k].sock != fd
    ensures Reads(t, fd) == 0
  {
    if t != [] {
      NoReads(t[..|t| - 1], fd);
    }
  }

  // ----- the event pass

  /** The signals for a connection that was c before its event and is c' after it. */
  ghost function Served(c: Conn, c': Conn, received: nat, writable: bool, cfg: Config): seq<Signal>
  {
    if !cfg.callback then []
    else
      (if received > 0 then [DataIn] else [])
      + (if cfg.async && writable && c' == c then [CanSend] else [])
      + if Live(c) && !Live(c') then [Closing] else []
  }

  lemma NothingServed(c: Conn, cfg: Config)
    ensures Served(c, c, 0, false, cfg) == []
  {
  }

  lemma OneRead(a: Answer, fd: int)
    ensures Reads([], fd) == 0
    ensures Reads([a], fd) == if a.Received? && a.sock == fd && a.n > 0 then 1 else 0
  {
    assert [a][..0] == [];
  }

  lemma DataThenSend(data: bool, sent: bool, j: nat, i: nat)
    ensures SignalsFor((if data then [Event(DataIn, j)] else []) + if sent then [Event(CanSend, j)] else [], i)
         == if j == i then (if data then [DataIn] else []) + if sent then [CanSend] else [] else []
  {
    hide SignalsFor;
    ForConcat(if data then [Event(DataIn, j)] else [], if sent then [Event(CanSend, j)] else [], i);
    ForOne(DataIn, j, i);
    ForOne(CanSend, j, i);
  }

  lemma HandledFor(ev: Ready, i: nat, c: Conn, c': Conn, part: Part, cfg: Config)
    requires HandledConn(ev, i, c, c', part, cfg) && Live(c) && !Leaving(c)
    ensures SignalsFor(part.signals, i) == Served(c, c', Reads(part.answers, c.fd), ev.writable, cfg)
    ensures Reads(part.answers, c.fd) <= 1
  {
    hide SignalsFor, Reads, IsSet;
    ForOne(Closing, i, i);
    ForOne(CanSend, i, i);
    DataThenSend(cfg.callback, cfg.callback && cfg.async && ev.writable, i, i);
    assert Leaving(Marked(c, c'.expire)) && !Live(Closed(c));
    if part.answers == [] {
      OneRead(Waited(0, []), c.fd);
    } else {
      assert part.answers == [part.answers[0]];
      OneRead(part.answers[0], c.fd);
    }
  }

  /** An event says nothing of other slots, and reads from no other descriptor. */
  lemma OthersSilent(ev: Ready, j: nat, c: Conn, c': Conn, part: Part, cfg: Config, i: nat, fd: int)
    requires HandledConn(ev, j, c, c', part, cfg)
    ensures i != j ==> SignalsFor(part.signals, i) == []
    ensures fd != c.fd ==> Reads(part.answers, fd) == 0
  {
    hide SignalsFor, Reads, IsSet;
    ForOne(Closing, j, i);
    ForOne(CanSend, j, i);
    DataThenSend(cfg.callback, cfg.callback && cfg.async && ev.writable, j, i);
    if fd != c.fd {
      NoReads(part.answers, fd);
    }
  }

  ghost predicate Silent(part: Part, i: nat, fd: int)
  {
    SignalsFor(part.signals, i) == [] && Reads(part.answers, fd) == 0
  }

  /** Only part k says something of slot i. */
  lemma {:induction false} PartsFor(parts: seq<Part>, k: nat, i: nat, fd: int)
    requires forall j :: 0 <= j < |parts| && j != k ==> Silent(parts[j], i, fd)
    ensures SignalsFor(SignalsOf(parts), i) == if k < |parts| then SignalsFor(parts[k].signals, i) else []
    ensures Reads(AnswersOf(parts), fd) == if k < |parts| then Reads(parts[k].answers, fd) else 0
  {
    ForOne(Closing, i, i);
    OneRead(Waited(0, []), fd);
    hide SignalsFor, Reads;
    if parts != [] {
      var n := |parts| - 1;
      PartsFor(parts[..n], k, i, fd);
      ForConcat(SignalsOf(parts[..n]), parts[n].signals, i);
      ReadsConcat(AnswersOf(parts[..n]), parts[n].answers, fd);
      assert n != k ==> Silent(parts[n], i, fd);
    }
  }

  /** A part that is for another connection, or for none. */
  lemma OtherPart(events: seq<Ready>, s: seq<Conn>, s': seq<Conn>, parts: seq<Part>, cfg: Config, i: nat, k: nat)
    requires PassRan(events, s, s', parts, cfg) && i < |s| && k < |parts|
    requires !ConnEvent(events[k], cfg.listener, s[i])
    ensures Silent(parts[k], i, s[i].fd)
  {
    hide HandledConn, SignalsFor, Reads;
    if j :| 0 <= j < |s| && ConnEvent(events[k], cfg.listener, s[j]) {
      OthersSilent(events[k], j, s[j], s'[j], parts[k], cfg, i, s[i].fd);
    } else {
      assert parts[k] == Part([], []);
      ForOne(Closing, i, i);
      OneRead(Waited(0, []), s[i].fd);
    }
  }

  /** One of the events that were handled was for the connection, and said that it can send. */
  ghost predicate CouldSend(ready: seq<Ready>, parts: seq<Part>, c: Conn, listener: int)
  {
    exists k :: 0 <= k < |parts| <= |ready| && ConnEvent(ready[k], listener, c) && ready[k].writable
  }

  lemma PassFor(events: seq<Ready>, s: seq<Conn>, s': seq<Conn>, parts: seq<Part>, cfg: Config, i: nat)
    requires Apart(events) && PassRan(events, s, s', parts, cfg) && i < |s|
    requires s[i].fd != -1 ==> Live(s[i]) && !Leaving(s[i])
    ensures Reads(AnswersOf(parts), s[i].fd) <= 1
    ensures SignalsFor(SignalsOf(parts), i)
         == Served(s[i], s'[i], Reads(AnswersOf(parts), s[i].fd), CouldSend(events, parts, s[i], cfg.listener), cfg)
  {
    hide HandledConn, SignalsFor, Reads, AnswersOf, SignalsOf, IsSet;
    var c, l := s[i], cfg.listener;
    var k: nat := |parts|;
    if m :| 0 <= m < |parts| && ConnEvent(events[m], l, c) {
      k := m;
      HandledFor(events[k], i, c, s'[i], parts[k], cfg);
    }
    forall j | 0 <= j < |parts| && j != k ensures !ConnEvent(events[j], l, c) && Silent(parts[j], i, c.fd) {
      OtherPart(events, s, s', parts, cfg, i, j);
    }
    PartsFor(parts, k, i, c.fd);
  }

  // ----- a whole poll

  /** The signals for slot i from accept_connection, if it took the slot: the user is asked
      unless epoll refused the descriptor, and is told of the closing if it was not kept. */
  ghost function Admitted(tries: seq<Accepting>, d: seq<Conn>, i: nat, c: Conn, cfg: Config): seq<Signal>
  {
    if !cfg.callback || tries == [] || Used(d) == |d| || tries[0].slot != i || tries[0].fd == -1 then []
    else (if AnyRefused(tries[0].watch) then [] else [Accepted]) + if Live(c) then [] else [Closing]
  }

  lemma AcceptFor(a: Accepting, s: seq<Conn>, s': seq<Conn>, cfg: Config, i: nat)
    requires AcceptRan(a, s, s', cfg) && WatchedOnce(a) && i < |s| == |s'|
    ensures SignalsFor(AcceptSignals(a, cfg), i) == Admitted([a], s, i, s'[i], cfg)
    ensures Reads(AcceptAnswers(a, cfg), s'[i].fd) == 0
  {
    hide SignalsFor, Reads, ExpiryOf, IsSet, Used;
    RefusedOne(Watching(a.fd, a.r != -1 || a.error == AcceptDenied));
    ForOne(Closing, a.slot, i);
    ForOne(Accepted, a.slot, i);
    ForTwo(Accepted, Closing, a.slot, i);
    NoReads(AcceptAnswers(a, cfg), s'[i].fd);
  }

  lemma SignalsJoin(a: seq<Event>, b: seq<Event>, c: seq<Event>, d: seq<Event>, i: nat)
    ensures SignalsFor(a + b + c + d, i) == SignalsFor(a, i) + SignalsFor(b, i) + SignalsFor(c, i) + SignalsFor(d, i)
  {
    hide SignalsFor;
    ForConcat(a + b + c, d, i);
    ForConcat(a + b, c, i);
    ForConcat(a, b, i);
  }

  /** After the listener pass no connection is to be dropped. */
  lemma AcceptedSlots(run: Round, r: int, s: seq<Conn>, s': seq<Conn>, cfg: Config, i: nat)
    requires PollRan(run, r, s, s', cfg) && i < |s| && (s[i].fd != -1 ==> Live(s[i]))
    ensures |run.accepted| == |run.handled| == |s'| == |s|
    ensures run.accepted[i].fd != -1 ==> Live(run.accepted[i]) && !Leaving(run.accepted[i])
  {
    hide ListenerReady, ListenerBad, AnyRefused, WatchedOnce, SomeBroken, SomeData, AllSwept, Apart, Total, ExpiryOf,
      IsSet, Used, HandledConn;
  }

  lemma ListenerFor(run: Round, r: int, s: seq<Conn>, s': seq<Conn>, cfg: Config, i: nat)
    requires PollRan(run, r, s, s', cfg) && i < |s| == |run.accepted|
    ensures SignalsFor(if run.tries == [] then [] else AcceptSignals(run.tries[0], cfg), i)
         == Admitted(run.tries, Dropped(s), i, run.accepted[i], cfg)
    ensures Reads(if run.tries == [] then [] else AcceptAnswers(run.tries[0], cfg), run.accepted[i].fd) == 0
  {
    hide SignalsFor, Reads, AcceptRan, AcceptSignals, AcceptAnswers, WatchedOnce, EventsRan, ListenerReady, ListenerBad,
      Apart, Total, Used, Dropped, AnyRefused, Live;
    ForOne(Closing, i, i);
    OneRead(Waited(0, []), run.accepted[i].fd);
    if run.tries != [] {
      AcceptFor(run.tries[0], Dropped(s), run.accepted, cfg, i);
      assert run.tries == [run.tries[0]];
    }
  }

  lemma EventsFor(run: Round, r: int, s: seq<Conn>, s': seq<Conn>, cfg: Config, i: nat)
    requires PollRan(run, r, s, s', cfg) && i < |s| == |run.accepted| == |run.handled|
    requires run.accepted[i].fd != -1 ==> Live(run.accepted[i]) && !Leaving(run.accepted[i])
    ensures var c, got := run.accepted[i], Reads(AnswersOf(run.parts), run.accepted[i].fd);
            && got <= 1
            && SignalsFor(SignalsOf(run.parts), i)
            == Served(c, run.handled[i], got, CouldSend(run.ready, run.parts, c, cfg.listener), cfg)
  {
    hide SignalsFor, Reads, ListenerRan, GoesOn, Apart, Total, Dropped, PassRan, HandledConn, AllSwept, SomeBroken,
      SomeData;
    if run.count != -1 && GoesOn(run.ready, run.tries, cfg) {
      PassFor(run.ready, run.accepted, run.handled, run.parts, cfg, i);
    } else {
      ForOne(Closing, i, i);
      NothingServed(run.accepted[i], cfg);
      OneRead(Waited(0, []), run.accepted[i].fd);
    }
  }

  lemma SweepFor(run: Round, r: int, s: seq<Conn>, s': seq<Conn>, cfg: Config, i: nat)
    requires PollRan(run, r, s, s', cfg) && i < |s| == |run.handled| == |s'|
    ensures SignalsFor(if cfg.callback && r != 0 then Expiries(run.handled, s') else [], i)
         == if cfg.callback && Live(run.handled[i]) && !Live(s'[i]) then [TimedOut, Closing] else []
  {
    hide SignalsFor, Expiries, ListenerRan, GoesOn, Apart, Total, Dropped, PassRan, AllSwept, SomeBroken, SomeData;
    ForOne(Closing, i, i);
    ExpiriesFor(run.handled, s', i);
  }

  /** What the callback is told of slot i in a poll, in order: that a connection to be dropped
      is closing; who was accepted; that data came in, once if recv brought some from its
      descriptor and else not at all, and that it can send, or that it is closing; and that it
      timed out and is closing. */
  lemma PollSignalsFor(run: Round, r: int, s: seq<Conn>, s': seq<Conn>, cfg: Config, i: nat)
    requires PollRan(run, r, s, s', cfg) && i < |s| && (s[i].fd != -1 ==> Live(s[i]))
    ensures |run.accepted| == |run.handled| == |s'| == |s|
    ensures var c, c', got := run.accepted[i], run.handled[i], Reads(PollAnswers(run, cfg), run.accepted[i].fd);
            && got <= 1
            && SignalsFor(PollSignals(run, r, s, s', cfg), i)
            == (if cfg.callback && Leaving(s[i]) then [Closing] else [])
               + Admitted(run.tries, Dropped(s), i, c, cfg)
               + Served(c, c', got, CouldSend(run.ready, run.parts, c, cfg.listener), cfg)
               + if cfg.callback && Live(c') && !Live(s'[i]) then [TimedOut, Closing] else []
  {
    hide SignalsFor, Reads, PollRan, Drops, AcceptSignals, AcceptAnswers, SignalsOf, AnswersOf, Expiries, Served,
      Admitted, CouldSend, Dropped, Leaving, Live;
    AcceptedSlots(run, r, s, s', cfg, i);
    ForOne(Closing, i, i);
    DropsFor(s, i);
    ListenerFor(run, r, s, s', cfg, i);
    EventsFor(run, r, s, s', cfg, i);
    SweepFor(run, r, s, s', cfg, i);
    var asked := if run.tries == [] then [] else AcceptAnswers(run.tries[0], cfg);
    SignalsJoin(if cfg.callback then Drops(s) else [],
                if run.tries == [] then [] else AcceptSignals(run.tries[0], cfg),
                SignalsOf(run.parts), if cfg.callback && r != 0 then Expiries(run.handled, s') else [], i);
    OneRead(Waited(run.count, run.ready), run.accepted[i].fd);
    ReadsConcat([Waited(run.count, run.ready)] + asked, AnswersOf(run.parts), run.accepted[i].fd);
    ReadsConcat([Waited(run.count, run.ready)], asked, run.accepted[i].fd);
  }

  lemma PartOutside(events: seq<Ready>, s: seq<Conn>, s': seq<Conn>, parts: seq<Part>, cfg: Config, i: nat, k: nat)
    requires PassRan(events, s, s', parts, cfg) && |s| <= i && k < |parts|
    ensures Silent(parts[k], i, -1)
  {
    hide HandledConn, SignalsFor, Reads;
    if j :| 0 <= j < |s| && ConnEvent(events[k], cfg.listener, s[j]) {
      OthersSilent(events[k], j, s[j], s'[j], parts[k], cfg, i, -1);
    } else {
      assert parts[k] == Part([], []);
      ForOne(Closing, i, i);
      OneRead(Waited(0, []), -1);
    }
  }

  lemma PassOutside(run: Round, r: int, s: seq<Conn>, s': seq<Conn>, cfg: Config, i: nat)
    requires PollRan(run, r, s, s', cfg) && |run.accepted| == |s| <= i
    ensures SignalsFor(SignalsOf(run.parts), i) == []
  {
    hide SignalsFor, Reads, ListenerRan, GoesOn, Apart, Total, Dropped, PassRan, HandledConn, AllSwept, SomeBroken,
      SomeData, Silent;
    if run.parts != [] {
      forall k | 0 <= k < |run.parts| ensures Silent(run.parts[k], i, -1) {
        PartOutside(run.ready, run.accepted, run.handled, run.parts, cfg, i, k);
      }
    }
    PartsFor(run.parts, |run.parts|, i, -1);
  }

  lemma ListenerOutside(run: Round, r: int, s: seq<Conn>, s': seq<Conn>, cfg: Config, i: nat)
    requires PollRan(run, r, s, s', cfg) && |s| <= i
    ensures |run.accepted| == |s|
    ensures SignalsFor(if run.tries == [] then [] else AcceptSignals(run.tries[0], cfg), i) == []
  {
    hide SignalsFor, WatchedOnce, ListenerReady, ListenerBad, Apart, Total, Used, AnyRefused, PassRan, ExpiryOf,
      AllSwept, SomeBroken, SomeData;
    ForOne(Closing, i, i);
    if run.tries != [] {
      ForOne(Closing, run.tries[0].slot, i);
      ForOne(Accepted, run.tries[0].slot, i);
      ForTwo(Accepted, Closing, run.tries[0].slot, i);
    }
  }

  /** No signal is for a slot that the pool does not have. */
  lemma NoOtherSlots(run: Round, r: int, s: seq<Conn>, s': seq<Conn>, cfg: Config, i: nat)
    requires PollRan(run, r, s, s', cfg) && |s| <= i
    ensures |run.handled| == |s'| && SignalsFor(PollSignals(run, r, s, s', cfg), i) == []
  {
    hide SignalsFor, Drops, AcceptSignals, SignalsOf, Expiries, EventsRan, ListenerRan, Apart, Total, Dropped;
    ForOne(Closing, i, i);
    DropsFor(s, i);
    ListenerOutside(run, r, s, s', cfg, i);
    PassOutside(run, r, s, s', cfg, i);
    ExpiriesFor(run.handled, s', i);
    SignalsJoin(if cfg.callback then Drops(s) else [],
                if run.tries == [] then [] else AcceptSignals(run.tries[0], cfg),
                SignalsOf(run.parts), if cfg.callback && r != 0 then Expiries(run.handled, s') else [], i);
  }

  lemma CountPieces(a: seq<Signal>, b: seq<Signal>, c: seq<Signal>, d: seq<Signal>, x: Signal)
    requires x !in a && x !in b && x !in d
    ensures multiset(a + b + c + d)[x] == multiset(c)[x]
  {
  }

  lemma AdmittedNoData(tries: seq<Accepting>, d: seq<Conn>, c: Conn, cfg: Config, i: nat)
    ensures DataIn !in Admitted(tries, d, i, c, cfg)
  {
    hide Live, AnyRefused, Used;
  }

  lemma ServedData(c: Conn, c': Conn, received: nat, writable: bool, cfg: Config)
    ensures multiset(Served(c, c', received, writable, cfg))[DataIn] == if cfg.callback && received > 0 then 1 else 0
  {
    hide Live;
  }

  /** DATA_IN comes for slot i as often as recv brought data from its descriptor in the poll. */
  lemma DataInCounts(run: Round, r: int, s: seq<Conn>, s': seq<Conn>, cfg: Config, i: nat)
    requires PollRan(run, r, s, s', cfg) && i < |s| && (s[i].fd != -1 ==> Live(s[i]))
    ensures |run.accepted| == |s|
    ensures multiset(PollSignals(run, r, s, s', cfg))[Event(DataIn, i)]
         == if cfg.callback then Reads(PollAnswers(run, cfg), run.accepted[i].fd) else 0
  {
    hide SignalsFor, PollRan, PollSignals, PollAnswers, Dropped, Live, Leaving, CouldSend, Admitted, Served,
      Reads;
    PollSignalsFor(run, r, s, s', cfg, i);
    ForCounts(PollSignals(run, r, s, s', cfg), i, DataIn);
    var c, c', got := run.accepted[i], run.handled[i], Reads(PollAnswers(run, cfg), run.accepted[i].fd);
    var swept := if cfg.callback && Leaving(s[i]) then [Closing] else [];
    var admitted := Admitted(run.tries, Dropped(s), i, c, cfg);
    var served := Served(c, c', got, CouldSend(run.ready, run.parts, c, cfg.listener), cfg);
    var expired := if cfg.callback && Live(c') && !Live(s'[i]) then [TimedOut, Closing] else [];
    AdmittedNoData(run.tries, Dropped(s), c, cfg, i);
    ServedData(c, c', got, CouldSend(run.ready, run.parts, c, cfg.listener), cfg);
    CountPieces(swept, admitted, served, expired, DataIn);
  }
}
