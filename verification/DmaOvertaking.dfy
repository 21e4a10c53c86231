/** The guard of ioctl makes five loads, and interrupts can come between them. Exactly when it can be
    overtaken: let pass although descriptors are queued. */
module DmaOvertaking {
  import opened Options
  import opened Ring
  import opened Machine32
  import opened DmaMachine
  import opened DmaProofs
  import opened DmaTheorems

  /** If the guard has passed, both rings are empty and no transfer is in flight. */
  predicate Quiescent(s: State) {
    s.call.pc == Switch ==> s.tx.Empty() && s.rx.Empty() && !s.engine.busy
  }

  predicate PassesQuiescent(slots: nat, s: State, req: Request, es: seq<Event>)
    requires Fits(slots, s)
  {
    Quiescent(Run(slots, Step(slots, s, IoctlCall(req)), es))
  }

  /** ioctl switches only on a quiescent device, whatever interrupts come between its accesses, if and only
      if it was not called while a transfer was in flight, both rings could drain, and a callback was due
      on the way. */
  lemma IoctlSafeIff(slots: nat, s: State, req: Request)
    requires Inv(slots, s) && s.call.pc == Idle
    ensures (forall es :: OneCall(es) ==> PassesQuiescent(slots, s, req, es)) <==> !Risky(slots, s)
  {
    var s0 := Step(slots, s, IoctlCall(req));
    RiskWithoutCall(slots, s, s0.call);
    if Risky(slots, s) {
      var es := Overtake(slots, s0);
      OvertakenNotQuiet(slots, s0, Run(slots, s0, es));
      assert !PassesQuiescent(slots, s, req, es);
    } else {
      StepKeepsInv(slots, s, IoctlCall(req));
      forall es | OneCall(es) ensures PassesQuiescent(slots, s, req, es) {
        SafeRun(slots, s0, es);
      }
    }
  }

  lemma OvertakenNotQuiet(slots: nat, s: State, s': State)
    requires Core(slots, s) && Overtaken(slots, s, s')
    ensures !Quiescent(s')
  {
    PendingEmpty(slots, s');
  }

  // ---- safe --------------------------------------------------------------------------------

  predicate InIoctl(s: State) { InGuard(s.call.pc) || s.call.pc in {Switch, Idle} }

  lemma {:induction false} SafeRun(slots: nat, s: State, es: seq<Event>)
    requires Inv(slots, s) && InIoctl(s) && OneCall(es)
    ensures var s' := Run(slots, s, es); Inv(slots, s') && InIoctl(s') && Quiescent(s')
  {
    if es != [] {
      var k := |es| - 1;
      assert es[k] in es && forall e :: e in es[..k] ==> e in es;
      SafeRun(slots, s, es[..k]);
      var s1 := Run(slots, s, es[..k]);
      assert Allowed(slots, s1, es[k]);
      StepKeepsInv(slots, s1, es[k]);
      StaysInIoctl(slots, s1, es[k]);
    }
    PassedIsQuiet(slots, Run(slots, s, es));
  }

  lemma StaysInIoctl(slots: nat, s: State, e: Event)
    requires Fits(slots, s) && InIoctl(s) && (e.CallStep? || e.Interrupt?)
    ensures InIoctl(Step(slots, s, e))
  {
    hide PosterNext;
    if e.Interrupt? { ServeKeepsCall(slots, s, e.txPosts, e.rxPosts); }
  }

  lemma ServeKeepsCall(slots: nat, s: State, txPosts: seq<Post>, rxPosts: seq<Post>)
    requires Fits(slots, s)
    ensures Serve(slots, s, txPosts, rxPosts).call == s.call
  {
  }

  lemma PassedIsQuiet(slots: nat, s: State)
    requires Inv(slots, s)
    ensures Quiescent(s)
  {
  }

  // ---- overtaken ---------------------------------------------------------------------------

  /** A descriptor that suits the current width and no larger one. */
  function Misfit(mode: Mode): Slot
    requires mode.width < WRAP
  {
    Slot(mode.width, if mode.width <= mode.maxLength then mode.width else 0, true, 0)
  }

  /** s' differs from s by interrupts only, and the call has not moved. */
  predicate Later(slots: nat, s: State, s': State) {
    Core(slots, s') && s'.call == s.call && s'.mode == s.mode
  }

  lemma RunFirst(slots: nat, s: State, e: Event, es: seq<Event>)
    requires Fits(slots, s)
    ensures Run(slots, s, [e] + es) == Run(slots, Step(slots, s, e), es)
  {
    hide Step;
    assert [e][..0] == [] && Run(slots, s, []) == s;
    RunAppend(slots, s, [e], es);
  }

  /** An interrupt whose callbacks post nothing. */
  lemma QuietInterrupt(slots: nat, s: State)
    requires Core(slots, s) && s.engine.busy
    ensures var s' := Step(slots, s, Interrupt([], []));
      && Later(slots, s, s') && s'.tx == Complete(slots, s).tx && s'.rx == Complete(slots, s).rx
  {
    ServeKeepsCore(slots, s, [], []);
    ServeNone(slots, s);
    hide Core, Complete, Serve;
  }

  lemma ServeNone(slots: nat, s: State)
    requires Fits(slots, s)
    ensures var s' := Serve(slots, s, [], []); s'.tx == Complete(slots, s).tx && s'.rx == Complete(slots, s).rx
  {
    hide Complete;
  }

  lemma {:induction false} PostAllFills(slots: nat, s: State, side: Side, d: Slot, m: nat)
    requires Serving(slots, s) && Acceptable(s.mode, d) && |QueueOf(s, side).Pending()| + m <= slots - 1
    ensures var s' := PostAll(slots, s, seq(m, _ => Post(side, d)));
      && QueueOf(s', side).Pending() == QueueOf(s, side).Pending() + seq(m, _ => d)
      && (if side == Send then s'.rx == s.rx else s'.tx == s.tx)
    decreases m
  {
    if m > 0 {
      var posts, q := seq(m, _ => Post(side, d)), QueueOf(s, side);
      assert posts[1..] == seq(m - 1, _ => Post(side, d)) && posts[0] == Post(side, d);
      var s1 := PostNow(slots, s, posts[0]);
      hide Serving, Acceptable, PostNow, Contents;
      PostNowFills(slots, s, side, d);
      PostNowKeepsCore(slots, s, posts[0]);
      assert PostAll(slots, s, posts) == PostAll(slots, s1, posts[1..]);
      hide *;
      PostAllFills(slots, s1, side, d, m - 1);
      assert [d] + seq(m - 1, _ => d) == seq(m, _ => d);
      assert q.Pending() + [d] + seq(m - 1, _ => d) == q.Pending() + ([d] + seq(m - 1, _ => d));
    } else {
      assert PostAll(slots, s, seq(m, _ => Post(side, d))) == s;
      assert QueueOf(s, side).Pending() + seq(m, _ => d) == QueueOf(s, side).Pending();
    }
  }

  lemma PostNowFills(slots: nat, s: State, side: Side, d: Slot)
    requires Serving(slots, s) && Acceptable(s.mode, d) && |QueueOf(s, side).Pending()| < slots - 1
    ensures var s' := PostNow(slots, s, Post(side, d));
      && QueueOf(s', side).Pending() == QueueOf(s, side).Pending() + [d]
      && (if side == Send then s'.rx == s.rx else s'.tx == s.tx)
  {
    var q := QueueOf(s, side);
    ContentsLength(q.buf, q.first, q.end);
    PutKeepsQueue(slots, s.mode, q, d);
    hide Core, Contents, LaunchNow, QueueInv, Acceptable;
  }

  /** The event in which the callback of the transfer in flight makes the posts. */
  function CallbackEvent(s: State, posts: seq<Post>): Event
    requires s.tx.Fits(|s.tx.buf|)
  {
    if !s.mode.txStream && s.tx.Head().done then Interrupt(posts, []) else Interrupt([], posts)
  }

  lemma CallbackPosts(slots: nat, s: State, side: Side, d: Slot, m: nat)
    requires Core(slots, s) && s.engine.busy && CallsBackAt(slots, s, 0) && Acceptable(s.mode, d)
    requires |QueueOf(Complete(slots, s), side).Pending()| + m <= slots - 1
    ensures var c, s' := Complete(slots, s), Step(slots, s, CallbackEvent(s, seq(m, _ => Post(side, d))));
      && Later(slots, s, s') && Extends(slots, c, s')
      && QueueOf(s', side).Pending() == QueueOf(c, side).Pending() + seq(m, _ => d)
      && (if side == Send then s'.rx == c.rx else s'.tx == c.tx)
  {
    var posts, e := seq(m, _ => Post(side, d)), CallbackEvent(s, seq(m, _ => Post(side, d)));
    assert Step(slots, s, e) == Serve(slots, s, e.txPosts, e.rxPosts);
    CalledBackServing(slots, s);
    ServeKeepsCore(slots, s, e.txPosts, e.rxPosts);
    ServeIsPosts(slots, s, posts);
    hide *;
    PostAllFills(slots, CalledBack(slots, s), side, d, m);
  }

  lemma CalledBackServing(slots: nat, s: State)
    requires Core(slots, s) && s.engine.busy
    ensures var c, c1 := Complete(slots, s), CalledBack(slots, s);
      Serving(slots, c1) && c1.tx == c.tx && c1.rx == c.rx && c1.mode == s.mode
  {
    CompleteKeepsCore(slots, s);
    ServingAfterCallback(slots, Complete(slots, s), CalledBack(slots, s).callbacks);
    hide *;
  }

  lemma ServingAfterCallback(slots: nat, s: State, callbacks: seq<Callback>)
    requires Serving(slots, s)
    ensures Serving(slots, s.(callbacks := callbacks))
  {
    hide QueueInv;
  }

  /** The pops and the launch of an interrupt, and one callback. */
  function CalledBack(slots: nat, s: State): (s': State)
    requires Fits(slots, s)
    ensures Fits(slots, s')
  {
    var c := Complete(slots, s);
    c.(callbacks := c.callbacks + [if !s.mode.txStream && s.tx.Head().done then TxDone(s.tx.Head().handle)
                                   else RxDone(s.rx.Head().handle, s.rx.Head().addr)])
  }

  lemma ServeIsPosts(slots: nat, s: State, posts: seq<Post>)
    requires Core(slots, s) && s.engine.busy && CallsBackAt(slots, s, 0)
    ensures var s' := Step(slots, s, CallbackEvent(s, posts)); var p := PostAll(slots, CalledBack(slots, s), posts);
      s'.tx == p.tx && s'.rx == p.rx
  {
    FirstIsHead(slots, s);
    CompleteBuffers(slots, s);
    hide Core, LaunchNow, PostNow, CallsBackAt;
  }

  lemma CompleteBuffers(slots: nat, s: State)
    requires Fits(slots, s)
    ensures Complete(slots, s).tx.buf == s.tx.buf && Complete(slots, s).rx.buf == s.rx.buf
  {
  }

  lemma FirstIsHead(slots: nat, s: State)
    requires Core(slots, s) && CallsBackAt(slots, s, 0)
    ensures (!s.mode.txStream && s.tx.Head().done) || (!s.mode.rxStream && s.rx.Head().done)
  {
    if !s.tx.Empty() { HeadIsFirst(s.tx); }
    if !s.rx.Empty() { HeadIsFirst(s.rx); }
  }

  // The engine while no call is about to launch, and the guard's own accesses.

  predicate Away(s: State) { s.call.pc !in {Test, Launch, Registers, Go} }

  lemma GuardBusy(slots: nat, s: State)
    requires Core(slots, s) && Away(s)
    ensures s.engine.busy <==> CanLaunch(s)
    ensures !s.engine.busy ==> s.engine.length == 0
  {
  }

  lemma GuardStep(slots: nat, s: State)
    requires Core(slots, s) && InGuard(s.call.pc)
    ensures var s' := CallNext(slots, s);
      && s' == s.(call := s'.call) && Core(slots, s') && s'.call.req == s.call.req
      && (match s.call.pc
          case GuardTxStart => s'.call.pc == GuardTxEnd && s'.call.start == s.tx.first
          case GuardTxEnd => s.call.start == s.tx.end ==> s'.call.pc == GuardRxStart
          case GuardRxStart => s'.call.pc == GuardRxEnd && s'.call.start == s.rx.first
          case GuardRxEnd => s.call.start == s.rx.end ==> s'.call.pc == GuardLength
          case GuardLength => s.engine.length == 0 ==> s'.call.pc == Switch
          case _ => true)
  {
    hide QueueInv, Contents;
  }

  /** The rest of the guard with nothing left on the receive side. */
  lemma FinishGuard(slots: nat, s: State)
    requires Core(slots, s) && s.call.pc == GuardRxStart && s.rx.Empty() && !CanLaunch(s)
    ensures var s' := Run(slots, s, seq(3, _ => CallStep));
      s' == s.(call := s'.call) && s'.call.pc == Switch && s'.call.req == s.call.req && Core(slots, s')
  {
    GuardBusy(slots, s);
    CallStepsAreRun(slots, s, 3);
    ThreeSteps(slots, s);
    GuardStep(slots, s);
    var s1 := CallNext(slots, s);
    GuardStep(slots, s1);
    GuardStep(slots, CallNext(slots, s1));
    hide Core, CallSteps, CallNext, Run;
  }

  // ---- letting time pass -------------------------------------------------------------------

  /** One quiet interrupt takes the head off each ring that does not stream. */
  lemma QuietPops(slots: nat, s: State)
    requires Core(slots, s) && s.engine.busy
    ensures var s' := Step(slots, s, Interrupt([], []));
      && Later(slots, s, s')
      && (if s.mode.txStream then s'.tx == s.tx
          else !s.tx.Empty() && |s.tx.Pending()| > 0 && s'.tx.Pending() == s.tx.Pending()[1..])
      && (if s.mode.rxStream then s'.rx == s.rx
          else !s.rx.Empty() && |s.rx.Pending()| > 0 && s'.rx.Pending() == s.rx.Pending()[1..])
  {
    QuietInterrupt(slots, s);
    assert s.mode.txStream || !s.tx.Empty();
    assert s.mode.rxStream || !s.rx.Empty();
    if !s.mode.txStream { HeadIsFirst(s.tx); }
    if !s.mode.rxStream { HeadIsFirst(s.rx); }
    hide Core, Contents, Step, LaunchNow;
  }

  lemma PendingEmpty(slots: nat, s: State)
    requires Fits(slots, s)
    ensures s.tx.Empty() <==> s.tx.Pending() == []
    ensures s.rx.Empty() <==> s.rx.Pending() == []
  {
    ContentsLength(s.tx.buf, s.tx.first, s.tx.end);
    ContentsLength(s.rx.buf, s.rx.first, s.rx.end);
  }

  /** Nothing was posted, and rings that stream are as they were. */
  predicate Drained(slots: nat, s: State, s': State)
    requires Fits(slots, s) && Fits(slots, s')
  {
    && s'.tx.end == s.tx.end && s'.tx.posted == s.tx.posted && (s.mode.txStream ==> s'.tx == s.tx)
    && s'.rx.end == s.rx.end && s'.rx.posted == s.rx.posted && (s.mode.rxStream ==> s'.rx == s.rx)
    && (!s.tx.Full(slots) ==> !s'.tx.Full(slots)) && (!s.rx.Full(slots) ==> !s'.rx.Full(slots))
  }

  lemma QuietDrains(slots: nat, s: State)
    requires Core(slots, s) && s.engine.busy
    ensures var s' := Step(slots, s, Interrupt([], []));
      && Later(slots, s, s') && Drained(slots, s, s')
      && (s.mode.txStream || !s'.tx.Full(slots)) && (s.mode.rxStream || !s'.rx.Full(slots))
  {
    QuietInterrupt(slots, s);
    CompleteKeepsCore(slots, s);
    hide Core, Serving, Step, LaunchNow;
  }

  /** The callback on the way comes nearer. */
  lemma QuietShifts(slots: nat, s: State, i: nat)
    requires Core(slots, s) && Away(s) && s.engine.busy
    requires 1 <= i < Ahead(slots, s) && CallsBackAt(slots, s, i)
    ensures var s' := Step(slots, s, Interrupt([], []));
      && Later(slots, s, s') && Drained(slots, s, s') && CallbackComing(slots, s') && Ahead(slots, s') < Ahead(slots, s)
  {
    var s' := Step(slots, s, Interrupt([], []));
    QuietPops(slots, s);
    QuietDrains(slots, s);
    PendingEmpty(slots, s);
    PendingEmpty(slots, s');
    assert CanLaunch(s);
    hide Drained, Contents, QueueInv, Step;
    GuardBusy(slots, s');
    assert CallsBackAt(slots, s', i - 1);
  }

  /** Interrupts with no posts, until the transfer in flight ends in a callback. */
  lemma {:induction false} SeekCallback(slots: nat, s: State) returns (es: seq<Event>)
    requires Core(slots, s) && Away(s) && CallbackComing(slots, s)
    ensures forall e :: e in es ==> e == Interrupt([], [])
    ensures var s' := Run(slots, s, es);
      && Later(slots, s, s') && Drained(slots, s, s') && CallbackComing(slots, s') && CallsBackAt(slots, s', 0)
    decreases Ahead(slots, s)
  {
    if CallsBackAt(slots, s, 0) {
      es := [];
    } else {
      var i :| 0 <= i < Ahead(slots, s) && CallsBackAt(slots, s, i);
      QuietShifts(slots, s, i);
      var s1 := Step(slots, s, Interrupt([], []));
      hide Core, CallbackComing, Step, CallsBackAt, Run;
      var rest := SeekCallback(slots, s1);
      RunFirst(slots, s, Interrupt([], []), rest);
      es := [Interrupt([], [])] + rest;
    }
  }

  /** Interrupts with no posts, until the receive ring is empty; the newest send is still queued. */
  lemma {:induction false} DrainRx(slots: nat, s: State) returns (es: seq<Event>)
    requires Core(slots, s) && InGuard(s.call.pc) && !s.mode.rxStream && s.tx.Pending() != []
    requires if s.mode.txStream then s.mode.launcher == RxOnly
             else s.mode.launcher == Bidir && |s.tx.Pending()| > |s.rx.Pending()|
    ensures OneCall(es)
    ensures var s' := Run(slots, s, es); Later(slots, s, s') && s'.rx.Empty() && Newest(s'.tx) == Newest(s.tx)
    decreases |s.rx.Pending()|
  {
    PendingEmpty(slots, s);
    if s.rx.Empty() {
      es := [];
    } else {
      var s1 := Step(slots, s, Interrupt([], []));
      DrainRxStep(slots, s);
      assert OneCall([Interrupt([], [])]);
      hide *;
      var rest := DrainRx(slots, s1);
      RunFirst(slots, s, Interrupt([], []), rest);
      OneCallOne(Interrupt([], []), rest);
      LaterTwice(slots, s, s1, Run(slots, s1, rest));
      es := [Interrupt([], [])] + rest;
    }
  }

  lemma OneCallOne(e: Event, es: seq<Event>)
    requires OneCall(es) && OneCall([e])
    ensures OneCall([e] + es)
  {
    assert e in [e];
  }

  lemma LaterTwice(slots: nat, s: State, s': State, s'': State)
    requires Later(slots, s, s') && Later(slots, s', s'')
    ensures Later(slots, s, s'')
  {
  }

  lemma DrainRxStep(slots: nat, s: State)
    requires Core(slots, s) && InGuard(s.call.pc) && !s.mode.rxStream && s.tx.Pending() != [] && !s.rx.Empty()
    requires if s.mode.txStream then s.mode.launcher == RxOnly
             else s.mode.launcher == Bidir && |s.tx.Pending()| > |s.rx.Pending()|
    ensures var s' := Step(slots, s, Interrupt([], []));
      && Later(slots, s, s') && Core(slots, s') && InGuard(s'.call.pc) && s'.mode == s.mode
      && s'.tx.Pending() != [] && Newest(s'.tx) == Newest(s.tx) && |s'.rx.Pending()| == |s.rx.Pending()| - 1
      && (!s.mode.txStream ==> |s'.tx.Pending()| > |s'.rx.Pending()|)
  {
    PendingEmpty(slots, s);
    GuardBusy(slots, s);
    assert s.engine.busy;
    hide *;
    QuietPops(slots, s);
    var s' := Step(slots, s, Interrupt([], []));
    LaterFacts(slots, s, s');
    if !s.mode.txStream { NewestKept(s.tx, s'.tx); }
  }

  lemma LaterFacts(slots: nat, s: State, s': State)
    requires Later(slots, s, s')
    ensures Core(slots, s') && s'.call == s.call && s'.mode == s.mode
  {
  }

  lemma NewestKept(q: Queue, q': Queue)
    requires q.Fits(|q.buf|) && q'.Fits(|q'.buf|) && |q.Pending()| > 1 && q'.Pending() == q.Pending()[1..]
    ensures Newest(q') == Newest(q) && q'.Pending() != []
  {
  }

  function Newest(q: Queue): Option<Slot>
    requires q.Fits(|q.buf|)
  {
    if q.Pending() == [] then None else Some(q.Pending()[|q.Pending()| - 1])
  }

  /** Interrupts with no posts, until one send is left. */
  lemma {:induction false} DrainTx(slots: nat, s: State) returns (es: seq<Event>)
    requires Core(slots, s) && InGuard(s.call.pc) && s.mode.launcher == TxOnly && s.tx.Pending() != []
    ensures OneCall(es)
    ensures var s' := Run(slots, s, es);
      Later(slots, s, s') && s'.rx == s.rx && |s'.tx.Pending()| == 1 && Newest(s'.tx) == Newest(s.tx)
    decreases |s.tx.Pending()|
  {
    if |s.tx.Pending()| == 1 {
      es := [];
    } else {
      var s1 := Step(slots, s, Interrupt([], []));
      DrainTxStep(slots, s);
      assert OneCall([Interrupt([], [])]);
      hide *;
      var rest := DrainTx(slots, s1);
      RunFirst(slots, s, Interrupt([], []), rest);
      OneCallOne(Interrupt([], []), rest);
      LaterTwice(slots, s, s1, Run(slots, s1, rest));
      es := [Interrupt([], [])] + rest;
    }
  }

  lemma DrainTxStep(slots: nat, s: State)
    requires Core(slots, s) && InGuard(s.call.pc) && s.mode.launcher == TxOnly && |s.tx.Pending()| > 1
    ensures var s' := Step(slots, s, Interrupt([], []));
      && Later(slots, s, s') && Core(slots, s') && InGuard(s'.call.pc) && s'.mode == s.mode && s'.rx == s.rx
      && |s'.tx.Pending()| == |s.tx.Pending()| - 1 && Newest(s'.tx) == Newest(s.tx)
  {
    PendingEmpty(slots, s);
    GuardBusy(slots, s);
    assert s.engine.busy && s.mode.rxStream && !s.mode.txStream;
    hide *;
    QuietPops(slots, s);
    var s' := Step(slots, s, Interrupt([], []));
    LaterFacts(slots, s, s');
    NewestKept(s.tx, s'.tx);
  }

  // ---- the runs ----------------------------------------------------------------------------

  /** The guard has passed although a descriptor is queued that does not suit a larger width. */
  predicate Overtaken(slots: nat, s: State, s': State)
    requires Core(slots, s)
  {
    && Core(slots, s') && s'.call.pc == Switch && s'.call.req == s.call.req && s'.mode == s.mode
    && (Newest(s'.tx) == Some(Misfit(s.mode)) || Newest(s'.rx) == Some(Misfit(s.mode)))
  }

  lemma MisfitIsAccepted(slots: nat, s: State)
    requires Core(slots, s)
    ensures s.mode.width < WRAP && Acceptable(s.mode, Misfit(s.mode))
  {
  }

  /** The callback of a send fills the transmit ring, so that its end index is the start index that was
      loaded before the interrupt. */
  lemma FillRing(slots: nat, s: State, d: Slot, m: nat)
    requires Core(slots, s) && s.call.pc == GuardTxEnd && s.call.start == s.tx.first && s.engine.busy
    requires CallsBackAt(slots, s, 0) && !s.mode.txStream && Acceptable(s.mode, d)
    requires 0 < |s.tx.Pending()| && m == slots - |s.tx.Pending()| > 0
    ensures var s' := Step(slots, s, CallbackEvent(s, seq(m, _ => Post(Send, d))));
      && Later(slots, s, s') && |s'.tx.Pending()| == slots - 1 && s'.tx.end == s.call.start && Newest(s'.tx) == Some(d)
      && s'.rx == Complete(slots, s).rx
  {
    var c, s' := Complete(slots, s), Step(slots, s, CallbackEvent(s, seq(m, _ => Post(Send, d))));
    QuietPops(slots, s);
    QuietInterrupt(slots, s);
    CallbackPosts(slots, s, Send, d, m);
    ContentsLength(s'.tx.buf, s'.tx.first, s'.tx.end);
    assert c.tx.first == Wrap(slots, s.tx.first + 1);
    hide Core, Step, Complete, Contents;
  }

  /** The interrupt that does so. */
  function Filling(slots: nat, s: State): Event
    requires Fits(slots, s) && s.mode.width < WRAP && |s.tx.Pending()| <= slots
  {
    CallbackEvent(s, seq(slots - |s.tx.Pending()|, _ => Post(Send, Misfit(s.mode))))
  }

  lemma BidirFacts(slots: nat, s: State)
    requires Core(slots, s) && s.mode.launcher == Bidir && Risky(slots, s)
    ensures !s.mode.txStream && !s.mode.rxStream && s.engine.busy
    ensures 0 < |s.tx.Pending()| < slots && 0 < |s.rx.Pending()| < slots
  {
    PendingEmpty(slots, s);
    ContentsLength(s.tx.buf, s.tx.first, s.tx.end);
    ContentsLength(s.rx.buf, s.rx.first, s.rx.end);
  }

  lemma FillFrom(slots: nat, s: State, s1: State)
    requires Core(slots, s) && s.call.pc == GuardTxStart && s.engine.busy && CallsBackAt(slots, s, 0)
    requires !s.mode.txStream && 0 < |s.tx.Pending()| < slots && s1 == CallNext(slots, s)
    ensures |s1.tx.Pending()| < slots && s1.mode == s.mode && s1.call.req == s.call.req && s.mode.width < WRAP
    ensures var s2 := Step(slots, s1, Filling(slots, s1));
      && Later(slots, s1, s2) && s1.call.pc == GuardTxEnd && s2.tx.end == s1.call.start
      && Newest(s2.tx) == Some(Misfit(s.mode)) && |s2.tx.Pending()| == slots - 1
      && (if s.mode.rxStream then s2.rx == s.rx else |s2.rx.Pending()| == |s.rx.Pending()| - 1)
  {
    MisfitIsAccepted(slots, s);
    GuardStep(slots, s);
    assert CallsBackAt(slots, s1, 0);
    var d, m := Misfit(s.mode), slots - |s.tx.Pending()|;
    assert Filling(slots, s1) == CallbackEvent(s1, seq(m, _ => Post(Send, d)));
    hide *;
    FillRing(slots, s1, d, m);
    QuietInterrupt(slots, s1);
    QuietPops(slots, s1);
  }

  lemma BidirFill(slots: nat, s: State, s1: State)
    requires Core(slots, s) && s.call.pc == GuardTxStart && s.mode.launcher == Bidir
    requires Risky(slots, s) && CallsBackAt(slots, s, 0) && s1 == CallNext(slots, s)
    ensures |s1.tx.Pending()| < slots && s1.mode == s.mode && s1.call.req == s.call.req && s.mode.width < WRAP
    ensures Filled(slots, s1, Step(slots, s1, Filling(slots, s1)))
  {
    BidirFacts(slots, s);
    hide Core, CallNext, Risky, CallbackComing, CallsBackAt, Contents, Misfit, Step, Filling, Newest;
    FillFrom(slots, s, s1);
  }

  predicate Filled(slots: nat, s1: State, s2: State)
    requires s1.mode.width < WRAP
  {
    && Later(slots, s1, s2) && s1.call.pc == GuardTxEnd && s2.tx.end == s2.call.start
    && Newest(s2.tx) == Some(Misfit(s1.mode)) && |s2.tx.Pending()| > |s2.rx.Pending()|
    && !s2.mode.txStream && !s2.mode.rxStream
  }

  lemma FilledPasses(slots: nat, s: State, s1: State, s2: State)
    requires Core(slots, s) && s.mode.launcher == Bidir && s1.mode == s.mode && s1.call.req == s.call.req
    requires s.mode.width < WRAP && Filled(slots, s1, s2)
    ensures PastTx(slots, s, CallNext(slots, s2))
  {
    GuardStep(slots, s2);
    hide CallNext, Core, Contents, Misfit;
  }

  /** The transmit guard has passed although the newest send is a misfit. */
  predicate PastTx(slots: nat, s: State, s3: State)
    requires Core(slots, s)
  {
    && Core(slots, s3) && s3.call.pc == GuardRxStart && s3.call.req == s.call.req && s3.mode == s.mode
    && Newest(s3.tx) == Some(Misfit(s.mode)) && !s.mode.rxStream
    && (if s.mode.txStream then s.mode.launcher == RxOnly
        else s.mode.launcher == Bidir && |s3.tx.Pending()| > |s3.rx.Pending()|)
  }

  lemma FromRxStart(slots: nat, s: State, s3: State) returns (es: seq<Event>)
    requires Core(slots, s) && PastTx(slots, s, s3)
    ensures OneCall(es) && Overtaken(slots, s, Run(slots, s3, es))
  {
    var drain := DrainRx(slots, s3);
    var s4 := Run(slots, s3, drain);
    assert !CanLaunch(s4);
    hide Core, Run, CanLaunch;
    FinishGuard(slots, s4);
    es := drain + seq(3, _ => CallStep);
    RunAppend(slots, s3, drain, seq(3, _ => CallStep));
  }

  lemma RunSecond(slots: nat, s: State, a: Event, b: Event, es: seq<Event>)
    requires Fits(slots, s)
    ensures Run(slots, s, [a] + ([b] + es)) == Run(slots, Step(slots, Step(slots, s, a), b), es)
  {
    hide Step, Run;
    RunFirst(slots, s, a, [b] + es);
    RunFirst(slots, Step(slots, s, a), b, es);
  }

  /** Both sides in memory: tear the transmit loads, then let the receive ring drain. */
  lemma OvertakeBidir(slots: nat, s: State) returns (es: seq<Event>)
    requires Core(slots, s) && s.call.pc == GuardTxStart && s.mode.launcher == Bidir
    requires Risky(slots, s) && CallsBackAt(slots, s, 0)
    ensures OneCall(es) && Overtaken(slots, s, Run(slots, s, es))
  {
    var s1 := CallNext(slots, s);
    BidirFill(slots, s, s1);
    var e := Filling(slots, s1);
    assert OneCall([CallStep]) && OneCall([e]);
    hide *;
    var s2 := Step(slots, s1, e);
    FilledPasses(slots, s, s1, s2);
    var rest := FromRxStart(slots, s, CallNext(slots, s2));
    ThreeEvents(slots, s, CallStep, e, CallStep, rest);
    AreSteps(slots, s, s2);
    es := [CallStep] + ([e] + ([CallStep] + rest));
  }

  lemma ThreeEvents(slots: nat, s: State, a: Event, b: Event, c: Event, es: seq<Event>)
    requires Fits(slots, s)
    ensures Run(slots, s, [a] + ([b] + ([c] + es))) == Run(slots, Step(slots, Step(slots, Step(slots, s, a), b), c), es)
    ensures OneCall([a]) && OneCall([b]) && OneCall([c]) && OneCall(es) ==> OneCall([a] + ([b] + ([c] + es)))
  {
    assert a in [a] && b in [b] && c in [c];
    hide Step, Run;
    RunFirst(slots, s, a, [b] + ([c] + es));
    RunFirst(slots, Step(slots, s, a), b, [c] + es);
    RunFirst(slots, Step(slots, Step(slots, s, a), b), c, es);
  }

  lemma AreSteps(slots: nat, s: State, s': State)
    requires Fits(slots, s) && Fits(slots, s')
    ensures Step(slots, s, CallStep) == CallNext(slots, s) && Step(slots, s', CallStep) == CallNext(slots, s')
  {
    hide CallNext;
  }

  /** The transmit side streams, and its ring is empty: the callback sends once the transmit guard has
      passed. */
  lemma OvertakeRxOnly(slots: nat, s: State) returns (es: seq<Event>)
    requires Core(slots, s) && s.call.pc == GuardTxStart && s.mode.launcher == RxOnly
    requires Risky(slots, s) && CallsBackAt(slots, s, 0)
    ensures OneCall(es) && Overtaken(slots, s, Run(slots, s, es))
  {
    var s2 := CallNext(slots, CallNext(slots, s));
    RxOnlyStart(slots, s, s2);
    var e := Sending(s2, Misfit(s.mode));
    assert OneCall([CallStep]) && OneCall([e]);
    hide *;
    var rest := FromRxStart(slots, s, Step(slots, s2, e));
    ThreeEvents(slots, s, CallStep, CallStep, e, rest);
    AreSteps(slots, s, CallNext(slots, s));
    es := [CallStep] + ([CallStep] + ([e] + rest));
  }

  function Sending(s: State, d: Slot): Event
    requires s.tx.Fits(|s.tx.buf|)
  {
    CallbackEvent(s, seq(1, _ => Post(Send, d)))
  }

  lemma RxOnlyStart(slots: nat, s: State, s2: State)
    requires Core(slots, s) && s.call.pc == GuardTxStart && s.mode.launcher == RxOnly
    requires Risky(slots, s) && CallsBackAt(slots, s, 0) && s2 == CallNext(slots, CallNext(slots, s))
    ensures s.mode.width < WRAP && PastTx(slots, s, Step(slots, s2, Sending(s2, Misfit(s.mode))))
  {
    MisfitIsAccepted(slots, s);
    PendingEmpty(slots, s);
    GuardStep(slots, s);
    GuardStep(slots, CallNext(slots, s));
    assert s2 == s.(call := s2.call) && s2.call.pc == GuardRxStart && CallsBackAt(slots, s2, 0);
    assert s.mode.txStream && !s.mode.rxStream;
    QuietInterrupt(slots, s2);
    QuietPops(slots, s2);
    hide Core, CallNext, Risky, CallbackComing, CallsBackAt, Contents, Misfit;
    CallbackPosts(slots, s2, Send, Misfit(s.mode), 1);
    hide Step, Complete;
  }

  /** The receive side streams, and its ring is empty: tear the transmit loads, let the transmit ring drain
      behind the receive guard, and have the last callback prepare. */
  lemma OvertakeTxOnly(slots: nat, s: State) returns (es: seq<Event>)
    requires Core(slots, s) && s.call.pc == GuardTxStart && s.mode.launcher == TxOnly
    requires Risky(slots, s) && CallsBackAt(slots, s, 0)
    ensures OneCall(es) && Overtaken(slots, s, Run(slots, s, es))
  {
    var s1 := CallNext(slots, s);
    TxOnlyFill(slots, s, s1);
    var e := Filling(slots, s1);
    assert OneCall([CallStep]) && OneCall([e]);
    hide *;
    var s2 := Step(slots, s1, e);
    FilledTxPasses(slots, s, s1, s2);
    var s4 := CallNext(slots, CallNext(slots, s2));
    var rest := FromLength(slots, s, CallNext(slots, s4));
    ThreeEvents(slots, s2, CallStep, CallStep, CallStep, rest);
    AreSteps(slots, s2, CallNext(slots, s2));
    AreSteps(slots, s, s4);
    es := [CallStep] + ([e] + ([CallStep] + ([CallStep] + ([CallStep] + rest))));
    RunSecond(slots, s, CallStep, e, [CallStep] + ([CallStep] + ([CallStep] + rest)));
    OneCallTwo(CallStep, e, [CallStep] + ([CallStep] + ([CallStep] + rest)));
  }

  lemma OneCallTwo(a: Event, b: Event, es: seq<Event>)
    requires OneCall(es) && OneCall([a]) && OneCall([b])
    ensures OneCall([a] + ([b] + es))
  {
    assert a in [a] && b in [b];
  }

  lemma TxOnlyFacts(slots: nat, s: State)
    requires Core(slots, s) && s.mode.launcher == TxOnly && Risky(slots, s)
    ensures s.mode.rxStream && !s.mode.txStream && s.rx.Empty() && s.engine.busy && 0 < |s.tx.Pending()| < slots
  {
    PendingEmpty(slots, s);
    ContentsLength(s.tx.buf, s.tx.first, s.tx.end);
  }

  lemma TxOnlyFill(slots: nat, s: State, s1: State)
    requires Core(slots, s) && s.call.pc == GuardTxStart && s.mode.launcher == TxOnly
    requires Risky(slots, s) && CallsBackAt(slots, s, 0) && s1 == CallNext(slots, s)
    ensures |s1.tx.Pending()| < slots && s1.mode == s.mode && s1.call.req == s.call.req && s.mode.width < WRAP
    ensures FilledTx(slots, s1, Step(slots, s1, Filling(slots, s1)))
  {
    TxOnlyFacts(slots, s);
    hide Core, CallNext, Risky, CallbackComing, CallsBackAt, Contents, Misfit, Step, Filling, Newest;
    FillFrom(slots, s, s1);
  }

  predicate FilledTx(slots: nat, s1: State, s2: State)
    requires s1.mode.width < WRAP
  {
    && Later(slots, s1, s2) && s1.call.pc == GuardTxEnd && s2.tx.end == s2.call.start
    && Newest(s2.tx) == Some(Misfit(s1.mode)) && s2.rx.Empty() && s2.mode.rxStream && !s2.mode.txStream
  }

  /** Only the length register remains to be read, and sends are queued, the newest a misfit. */
  predicate PastRx(slots: nat, s: State, s3: State)
    requires Core(slots, s)
  {
    && Core(slots, s3) && s3.call.pc == GuardLength && s3.call.req == s.call.req && s3.mode == s.mode
    && Newest(s3.tx) == Some(Misfit(s.mode)) && s3.rx.Empty() && s.mode.launcher == TxOnly && s.mode.rxStream
  }

  lemma FilledTxPasses(slots: nat, s: State, s1: State, s2: State)
    requires Core(slots, s) && s.mode.launcher == TxOnly && s1.mode == s.mode && s1.call.req == s.call.req
    requires s.mode.width < WRAP && FilledTx(slots, s1, s2)
    ensures PastRx(slots, s, CallNext(slots, CallNext(slots, CallNext(slots, s2))))
  {
    GuardStep(slots, s2);
    var s3 := CallNext(slots, s2);
    GuardStep(slots, s3);
    GuardStep(slots, CallNext(slots, s3));
    hide CallNext, Core, Contents, Misfit;
  }

  lemma FromLength(slots: nat, s: State, s3: State) returns (es: seq<Event>)
    requires Core(slots, s) && PastRx(slots, s, s3)
    ensures OneCall(es) && Overtaken(slots, s, Run(slots, s3, es))
  {
    var drain := DrainTx(slots, s3);
    var s4 := Run(slots, s3, drain);
    LastPrepares(slots, s, s4);
    var e := Preparing(s4, Misfit(s.mode));
    assert OneCall([e]) && OneCall([CallStep]) && OneCall([]);
    hide *;
    var s5 := Step(slots, s4, e);
    AreSteps(slots, s4, s5);
    RunAppend(slots, s3, drain, [e] + ([CallStep] + []));
    RunSecond(slots, s4, e, CallStep, []);
    RunNone(slots, CallNext(slots, s5));
    OneCallTwo(e, CallStep, []);
    OneCallAppend(drain, [e] + ([CallStep] + []));
    es := drain + ([e] + ([CallStep] + []));
  }

  lemma OneCallAppend(es: seq<Event>, more: seq<Event>)
    requires OneCall(es) && OneCall(more)
    ensures OneCall(es + more)
  {
  }

  lemma RunNone(slots: nat, s: State)
    requires Fits(slots, s)
    ensures Run(slots, s, []) == s
  {
  }

  function Preparing(s: State, d: Slot): Event
    requires s.tx.Fits(|s.tx.buf|)
  {
    CallbackEvent(s, seq(1, _ => Post(Receive, d)))
  }

  /** The callback of the last send prepares; nothing is launched, and the length register reads zero. */
  lemma LastPrepares(slots: nat, s: State, s4: State)
    requires Core(slots, s) && Core(slots, s4)
    requires s4.call.pc == GuardLength && s4.call.req == s.call.req && s4.mode == s.mode
    requires Newest(s4.tx) == Some(Misfit(s.mode)) && |s4.tx.Pending()| == 1 && s4.rx.Empty()
    requires s.mode.launcher == TxOnly && s.mode.rxStream
    ensures Overtaken(slots, s, CallNext(slots, Step(slots, s4, Preparing(s4, Misfit(s.mode)))))
  {
    MisfitIsAccepted(slots, s);
    PendingEmpty(slots, s4);
    GuardBusy(slots, s4);
    assert !s.mode.txStream && CallsBackAt(slots, s4, 0);
    QuietInterrupt(slots, s4);
    QuietPops(slots, s4);
    var d, s5 := Misfit(s.mode), Step(slots, s4, Preparing(s4, Misfit(s.mode)));
    hide Core, CallsBackAt, Contents, Misfit;
    CallbackPosts(slots, s4, Receive, d, 1);
    LastStep(slots, s, s5, d);
  }

  lemma LastStep(slots: nat, s: State, s5: State, d: Slot)
    requires Core(slots, s) && Core(slots, s5)
    requires s5.call.pc == GuardLength && s5.call.req == s.call.req && s5.mode == s.mode
    requires s5.tx.Pending() == [] && s5.rx.Pending() == [d] && s.mode.launcher == TxOnly && d == Misfit(s.mode)
    ensures Overtaken(slots, s, CallNext(slots, s5))
  {
    PendingEmpty(slots, s5);
    GuardBusy(slots, s5);
    GuardStep(slots, s5);
    hide Core, CallNext, Contents, Misfit;
  }

  /** From every risky state there is a run that overtakes the guard. */
  lemma Overtake(slots: nat, s: State) returns (es: seq<Event>)
    requires Core(slots, s) && s.call.pc == GuardTxStart && Risky(slots, s)
    ensures OneCall(es) && Overtaken(slots, s, Run(slots, s, es))
  {
    var seek := SeekCallback(slots, s);
    var s1 := Run(slots, s, seek);
    assert s1.call == s.call && s1.mode == s.mode;
    hide Core, Run, CallsBackAt, CallbackComing, Misfit;
    var rest;
    match s1.mode.launcher {
      case Bidir => rest := OvertakeBidir(slots, s1);
      case RxOnly => rest := OvertakeRxOnly(slots, s1);
      case TxOnly => rest := OvertakeTxOnly(slots, s1);
    }
    RunAppend(slots, s, seek, rest);
    es := seek + rest;
  }

  /** And then a larger width is set although a descriptor is queued that is not aligned to it: the mode
      safety of the disciplined runs is lost. */
  lemma OvertakenWidthMisaligns(slots: nat, s: State, s': State, bytes: nat)
    requires Core(slots, s) && Overtaken(slots, s, s') && s.call.req == SetWidth(bytes)
    requires WidthOk(bytes) && bytes > s.mode.width
    ensures var s'' := CallNext(slots, s');
      && s''.call.code == Ok && s''.mode.width == bytes
      && exists d :: (d in s''.tx.Pending() || d in s''.rx.Pending()) && d.addr % bytes != 0
  {
    var s'' := CallNext(slots, s');
    assert s''.tx == s'.tx && s''.rx == s'.rx && s''.call.code == Ok && s''.mode.width == bytes;
    assert Misfit(s.mode).addr % bytes != 0;
    MisfitQueued(slots, s, s');
    hide *;
  }

  lemma MisfitQueued(slots: nat, s: State, s': State)
    requires Core(slots, s) && Overtaken(slots, s, s')
    ensures s.mode.width < WRAP && (Misfit(s.mode) in s'.tx.Pending() || Misfit(s.mode) in s'.rx.Pending())
  {
    MisfitIsAccepted(slots, s);
    hide Misfit, Contents, QueueInv;
  }
}
