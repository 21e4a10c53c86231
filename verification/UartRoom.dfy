/** Calls take all there is: write as much as the ring has room for, read as much as it holds. */
module UartRoom {
  import opened Ring
  import opened UartMachine
  import opened UartProofs

  // ---- short results, in every run -----------------------------------------------------------

  /** The writer has stopped copying with data left: about to enable the interrupt, polling, or returned. */
  predicate WriterStopped(w: Writer) {
    w.moved < |w.data| && (w.pc in {WEnable, WSpinOut, WSpinHost, WCheckHost} || (w.pc == WIdle && w.code != Running))
  }

  /** The same call, with as much accepted. */
  predicate SameWrite(w: Writer, w': Writer) {
    w'.data == w.data && w'.nonblock == w.nonblock && w'.base == w.base && w'.moved == w.moved
  }

  /** The call stood at its look for room, and the ring was full. */
  predicate FoundFull(c: Config, s: State, w: Writer)
    requires Bounds(c, s)
  {
    s.isr == Quiet && s.w.pc == WTop && SameWrite(s.w, w) && |s.tx.Queue()| == c.len - 1
  }

  lemma WriterStops(c: Config, s: State, e: Event)
    requires Bounds(c, s) && WriterStopped(Step(c, s, e).w)
    ensures (WriterStopped(s.w) && SameWrite(s.w, Step(c, s, e).w)) || FoundFull(c, s, Step(c, s, e).w)
  {
    if e.WriterStep? && s.isr == Quiet { WriterStopsAt(c, s.tx, s.host, s.w); }
    hide Contents, IsrNext, ReaderNext, WriterNext;
  }

  lemma WriterStopsAt(c: Config, tx: Channel, host: HostWatch, w: Writer)
    requires c.Ok() && WriterFits(c, tx, w) && WriterStopped(WriterNext(c, tx, host, w).1)
    ensures var w' := WriterNext(c, tx, host, w).1;
      SameWrite(w, w') && (WriterStopped(w) || (w.pc == WTop && |tx.Queue()| == c.len - 1))
  {
    ContentsLength(tx.buf, tx.first, tx.end);
    hide Contents;
  }

  /** No write, blocking or not, returns short or starts to poll unless it has found the ring full, with just
      that much accepted, since any time at which it had not stopped. */
  lemma {:induction false} ShortWritesFoundFull(c: Config, s: State, es: seq<Event>, from: nat) returns (k: nat)
    requires Bounds(c, s) && from <= |es| && !WriterStopped(Run(c, s, es[..from]).w)
    requires WriterStopped(Run(c, s, es).w)
    ensures from <= k < |es| && FoundFull(c, Run(c, s, es[..k]), Run(c, s, es).w)
  {
    hide Step, FoundFull, WriterStopped, Contents;
    assert es[..|es|] == es;
    var n := |es| - 1;
    assert from <= n ==> es[..n][..from] == es[..from];
    WriterStops(c, Run(c, s, es[..n]), es[n]);
    if WriterStopped(Run(c, s, es[..n]).w) && SameWrite(Run(c, s, es[..n]).w, Run(c, s, es).w) {
      k := ShortWritesFoundFull(c, s, es[..n], from);
      assert es[..n][..k] == es[..k];
      SameFull(c, Run(c, s, es[..k]), Run(c, s, es[..n]).w, Run(c, s, es).w);
    } else {
      k := n;
    }
  }

  lemma SameFull(c: Config, s: State, w: Writer, w': Writer)
    requires Bounds(c, s) && FoundFull(c, s, w) && SameWrite(w, w')
    ensures FoundFull(c, s, w')
  {
  }

  /** Since the run had n events, the write under way found the ring full, with as much accepted as now. */
  predicate SawFull(c: Config, s: State, es: seq<Event>, n: nat) {
    Bounds(c, s) && exists k :: n <= k < |es| && FoundFull(c, Run(c, s, es[..k]), Run(c, s, es).w)
  }

  lemma FullWasSeen(c: Config, s: State, es: seq<Event>, begun: seq<Event>, n: nat)
    requires Bounds(c, s) && begun <= es && n <= |begun|
    requires !WriterStopped(Run(c, s, begun).w) && WriterStopped(Run(c, s, es).w)
    ensures SawFull(c, s, es, n)
  {
    hide Run, FoundFull, WriterStopped;
    assert es[..|begun|] == begun;
    var k := ShortWritesFoundFull(c, s, es, |begun|);
  }

  predicate ReaderStopped(r: Reader) {
    && |r.got| < r.space
    && (r.pc in {RAfter, RSpinIn, RSpinHost, RRecheck, RExit} || (r.pc == RIdle && r.code != Running))
  }

  predicate SameRead(r: Reader, r': Reader) {
    r'.space == r.space && r'.nonblock == r.nonblock && r'.base == r.base && r'.got == r.got
  }

  predicate FoundEmpty(c: Config, s: State, r: Reader)
    requires Bounds(c, s)
  {
    s.isr == Quiet && s.r.pc == RSnap && SameRead(s.r, r) && s.rx.Queue() == []
  }

  lemma ReaderStops(c: Config, s: State, e: Event)
    requires Bounds(c, s) && ReaderStopped(Step(c, s, e).r)
    ensures (ReaderStopped(s.r) && SameRead(s.r, Step(c, s, e).r)) || FoundEmpty(c, s, Step(c, s, e).r)
  {
    if e.ReaderStep? && s.isr == Quiet { ReaderStopsAt(c, s.rx, s.host, s.r); }
    hide Contents, IsrNext, ReaderNext, WriterNext;
  }

  lemma ReaderStopsAt(c: Config, rx: Channel, host: HostWatch, r: Reader)
    requires c.Ok() && ReaderFits(c, rx, r) && ReaderStopped(ReaderNext(c, rx, host, r).1)
    ensures var r' := ReaderNext(c, rx, host, r).1;
      SameRead(r, r') && (ReaderStopped(r) || (r.pc == RSnap && rx.Queue() == []))
  {
    ContentsLength(rx.buf, rx.first, rx.end);
    hide Contents;
  }

  /** No read returns with space left or starts to poll unless it has found the ring empty, with just that
      much delivered, since any time at which it had not stopped. */
  lemma {:induction false} ShortReadsFoundEmpty(c: Config, s: State, es: seq<Event>, from: nat) returns (k: nat)
    requires Bounds(c, s) && from <= |es| && !ReaderStopped(Run(c, s, es[..from]).r)
    requires ReaderStopped(Run(c, s, es).r)
    ensures from <= k < |es| && FoundEmpty(c, Run(c, s, es[..k]), Run(c, s, es).r)
  {
    hide Step, FoundEmpty, ReaderStopped, Contents;
    assert es[..|es|] == es;
    var n := |es| - 1;
    assert from <= n ==> es[..n][..from] == es[..from];
    ReaderStops(c, Run(c, s, es[..n]), es[n]);
    if ReaderStopped(Run(c, s, es[..n]).r) && SameRead(Run(c, s, es[..n]).r, Run(c, s, es).r) {
      k := ShortReadsFoundEmpty(c, s, es[..n], from);
      assert es[..n][..k] == es[..k];
      SameEmpty(c, Run(c, s, es[..k]), Run(c, s, es[..n]).r, Run(c, s, es).r);
    } else {
      k := n;
    }
  }

  lemma SameEmpty(c: Config, s: State, r: Reader, r': Reader)
    requires Bounds(c, s) && FoundEmpty(c, s, r) && SameRead(r, r')
    ensures FoundEmpty(c, s, r')
  {
  }

  /** Since the run had n events, the read under way found the ring empty, with as much delivered as now. */
  predicate SawEmpty(c: Config, s: State, es: seq<Event>, n: nat) {
    Bounds(c, s) && exists k :: n <= k < |es| && FoundEmpty(c, Run(c, s, es[..k]), Run(c, s, es).r)
  }

  lemma EmptyWasSeen(c: Config, s: State, es: seq<Event>, begun: seq<Event>, n: nat)
    requires Bounds(c, s) && begun <= es && n <= |begun|
    requires !ReaderStopped(Run(c, s, begun).r) && ReaderStopped(Run(c, s, es).r)
    ensures SawEmpty(c, s, es, n)
  {
    hide Run, FoundEmpty, ReaderStopped;
    assert es[..|begun|] == begun;
    var k := ShortReadsFoundEmpty(c, s, es, |begun|);
  }

  // ---- why a blocking call gives up, and when it goes on ---------------------------------------

  /** A blocking write has left its polling loop. */
  predicate LeftPoll(w: Writer) {
    w.moved < |w.data| && !w.nonblock && (w.pc == WCheckHost || (w.pc == WIdle && w.code != Running))
  }

  /** It polled, and the routine had taken a byte since it found the ring full, or the host was timed out. */
  predicate PollEnds(s: State, w: Writer) {
    && s.isr == Quiet && SameWrite(s.w, w) && s.w.pc in {WSpinOut, WSpinHost}
    && (s.tx.first != s.w.snapOut || s.host.inactive >= s.host.timeout)
  }

  lemma WriterLeaves(c: Config, s: State, e: Event)
    requires Bounds(c, s) && LeftPoll(Step(c, s, e).w)
    ensures SameWrite(s.w, Step(c, s, e).w)
    ensures LeftPoll(s.w) || PollEnds(s, Step(c, s, e).w)
  {
    hide IsrNext, ReaderNext, Contents;
  }

  /** A blocking write that gives up has seen its polling end, with as much accepted. */
  lemma {:induction false} WriterPolled(c: Config, s: State, es: seq<Event>, from: nat) returns (k: nat)
    requires Bounds(c, s) && from <= |es| && !LeftPoll(Run(c, s, es[..from]).w) && LeftPoll(Run(c, s, es).w)
    ensures from <= k < |es| && PollEnds(Run(c, s, es[..k]), Run(c, s, es).w)
  {
    hide Step, PollEnds, LeftPoll, Contents;
    assert es[..|es|] == es;
    var n := |es| - 1;
    assert from <= n ==> es[..n][..from] == es[..from];
    WriterLeaves(c, Run(c, s, es[..n]), es[n]);
    if LeftPoll(Run(c, s, es[..n]).w) {
      k := WriterPolled(c, s, es[..n], from);
      assert es[..n][..k] == es[..k];
      SamePoll(Run(c, s, es[..k]), Run(c, s, es[..n]).w, Run(c, s, es).w);
    } else {
      k := n;
    }
  }

  lemma SamePoll(s: State, w: Writer, w': Writer)
    requires PollEnds(s, w) && SameWrite(w, w')
    ensures PollEnds(s, w')
  {
  }

  predicate SeesInactive(s: State, w: Writer) {
    && s.w.data == w.data && s.w.nonblock == w.nonblock && s.w.base == w.base
    && s.w.pc == WCheckHost && s.host.inactive != 0
  }

  /** `sawInactive` says that the call under way read a nonzero host_inactive after its polling ended. */
  lemma {:induction false} SawInactive(c: Config, s: State, es: seq<Event>, from: nat) returns (k: nat)
    requires Bounds(c, s) && from <= |es| && !Run(c, s, es[..from]).w.sawInactive && Run(c, s, es).w.sawInactive
    ensures from <= k < |es| && SeesInactive(Run(c, s, es[..k]), Run(c, s, es).w)
  {
    hide Step, SeesInactive;
    assert es[..|es|] == es;
    var n := |es| - 1;
    assert from <= n ==> es[..n][..from] == es[..from];
    if Run(c, s, es[..n]).w.sawInactive {
      k := SawInactive(c, s, es[..n], from);
      assert es[..n][..k] == es[..k];
      InactiveKept(c, Run(c, s, es[..n]), es[n], Run(c, s, es[..k]));
    } else {
      k := n;
      InactiveSeen(c, Run(c, s, es[..n]), es[n]);
    }
  }

  lemma InactiveSeen(c: Config, s: State, e: Event)
    requires Bounds(c, s) && !s.w.sawInactive && Step(c, s, e).w.sawInactive
    ensures SeesInactive(s, Step(c, s, e).w)
  {
    hide IsrNext, ReaderNext, Contents;
  }

  lemma InactiveKept(c: Config, s: State, e: Event, s0: State)
    requires Bounds(c, s) && SeesInactive(s0, s.w) && Step(c, s, e).w.sawInactive
    ensures SeesInactive(s0, Step(c, s, e).w)
  {
    hide IsrNext, ReaderNext, Contents;
  }

  predicate SeesTimeout(s: State, r: Reader) {
    && s.r.space == r.space && s.r.nonblock == r.nonblock && s.r.base == r.base
    && s.r.pc == RSpinHost && s.host.inactive >= s.host.timeout
  }

  /** `sawTimeout` says that the read under way polled while the host was timed out. */
  lemma {:induction false} SawTimeout(c: Config, s: State, es: seq<Event>, from: nat) returns (k: nat)
    requires Bounds(c, s) && from <= |es| && !Run(c, s, es[..from]).r.sawTimeout && Run(c, s, es).r.sawTimeout
    ensures from <= k < |es| && SeesTimeout(Run(c, s, es[..k]), Run(c, s, es).r)
  {
    hide Step, SeesTimeout;
    assert es[..|es|] == es;
    var n := |es| - 1;
    assert from <= n ==> es[..n][..from] == es[..from];
    if Run(c, s, es[..n]).r.sawTimeout {
      k := SawTimeout(c, s, es[..n], from);
      assert es[..n][..k] == es[..k];
      TimeoutKept(c, Run(c, s, es[..n]), es[n], Run(c, s, es[..k]));
    } else {
      k := n;
      TimeoutSeen(c, Run(c, s, es[..n]), es[n]);
    }
  }

  lemma TimeoutSeen(c: Config, s: State, e: Event)
    requires Bounds(c, s) && !s.r.sawTimeout && Step(c, s, e).r.sawTimeout
    ensures SeesTimeout(s, Step(c, s, e).r)
  {
    hide IsrNext, WriterNext, Contents;
  }

  lemma TimeoutKept(c: Config, s: State, e: Event, s0: State)
    requires Bounds(c, s) && SeesTimeout(s0, s.r) && Step(c, s, e).r.sawTimeout
    ensures SeesTimeout(s0, Step(c, s, e).r)
  {
    hide IsrNext, WriterNext, Contents;
  }

  /** While a write is stopped, the indices it last loaded are of a full ring, and the producer's still is the
      ring's. */
  predicate PollInv(c: Config, s: State)
    requires Bounds(c, s)
  {
    WriterStopped(s.w) && s.w.pc != WIdle ==>
      s.w.snapOut < c.len && s.w.snapIn == s.tx.end && Full(c.len, s.w.snapOut, s.tx.end)
  }

  lemma StepKeepsPollInv(c: Config, s: State, e: Event)
    requires Bounds(c, s) && PollInv(c, s)
    ensures PollInv(c, Step(c, s, e))
  {
    hide ReaderNext, Contents;
  }

  lemma {:induction false} RunKeepsPollInv(c: Config, s: State, es: seq<Event>)
    requires Bounds(c, s) && PollInv(c, s)
    ensures PollInv(c, Run(c, s, es))
  {
    if es != [] {
      RunKeepsPollInv(c, s, es[..|es| - 1]);
      StepKeepsPollInv(c, Run(c, s, es[..|es| - 1]), es[|es| - 1]);
      hide Step, PollInv;
    }
  }

  /** A polling write goes on to copy as soon as the ring has room, if the host is there. */
  lemma PollResumes(c: Config, s: State)
    requires Inv(c, s) && PollInv(c, s) && s.isr == Quiet && s.w.pc == WSpinOut
    requires |s.tx.Queue()| < c.len - 1 && s.host.inactive == 0
    ensures var s3 := Step(c, Step(c, Step(c, s, WriterStep), WriterStep), WriterStep);
      s3.w.pc == WCopy && SameWrite(s.w, s3.w) && s3.w.n > 0
  {
    ContentsLength(s.tx.buf, s.tx.first, s.tx.end);
    hide Contents, TxConserved, RxInv;
  }

  // ---- calls that nothing interrupts -----------------------------------------------------------

  /** A non-blocking write, and n of its accesses with nothing between them. */
  function WriteAlone(c: Config, s: State, data: seq<byte>, n: nat): (s': State)
    requires Bounds(c, s)
    ensures Bounds(c, s')
  {
    if n == 0 then Step(c, s, WriteCall(data, true)) else Step(c, WriteAlone(c, s, data, n - 1), WriterStep)
  }

  /** Where such a call can be. */
  predicate Writes(c: Config, s: State, s': State, data: seq<byte>)
    requires Bounds(c, s)
  {
    && Inv(c, s') && s'.isr == Quiet && s'.w.data == data && s'.w.nonblock && s'.w.base == s.tx.produced
    && s'.tx.first == s.tx.first && s'.tx.fifo == s.tx.fifo && s'.tx.consumed == s.tx.consumed
    && s'.w.pc in {WTop, WCopy, WEnable, WIdle} && (s'.w.pc == WIdle ==> s'.w.code != Running)
    && (s'.w.pc in {WEnable, WIdle} && s'.w.moved < |data| ==> |s'.tx.Queue()| == c.len - 1)
  }

  lemma WritesOn(c: Config, s: State, s': State, data: seq<byte>)
    requires Bounds(c, s) && Writes(c, s, s', data)
    ensures Writes(c, s, Step(c, s', WriterStep), data)
  {
    StepKeepsInv(c, s', WriterStep);
    ContentsLength(s'.tx.buf, s'.tx.first, s'.tx.end);
    hide Contents, TxInv, RxInv;
  }

  lemma {:induction false} WritesAlone(c: Config, s: State, data: seq<byte>, n: nat)
    requires Inv(c, s) && s.isr == Quiet && s.w.pc == WIdle
    ensures Writes(c, s, WriteAlone(c, s, data, n), data)
  {
    hide Step, Writes;
    if n == 0 {
      WriteBegins(c, s, data);
    } else {
      WritesAlone(c, s, data, n - 1);
      WritesOn(c, s, WriteAlone(c, s, data, n - 1), data);
    }
  }

  lemma WriteBegins(c: Config, s: State, data: seq<byte>)
    requires Inv(c, s) && s.isr == Quiet && s.w.pc == WIdle
    ensures Writes(c, s, Step(c, s, WriteCall(data, true)), data)
  {
    StepKeepsInv(c, s, WriteCall(data, true));
    hide Contents, TxInv, RxInv;
  }

  /** When it has returned it has accepted as much as there was room for, and reports that. */
  lemma WriteAloneTakesAll(c: Config, s: State, data: seq<byte>, n: nat)
    requires Inv(c, s) && s.isr == Quiet && s.w.pc == WIdle
    ensures var s' := WriteAlone(c, s, data, n); var k := Min(|data|, c.len - 1 - |s.tx.Queue()|);
      s'.w.pc == WIdle ==>
        && s'.tx.Queue() == s.tx.Queue() + data[..k] && s'.tx.produced == s.tx.produced + data[..k]
        && s'.w.code == if k > 0 then Moved(k) else WouldBlock
  {
    WritesAlone(c, s, data, n);
    var s' := WriteAlone(c, s, data, n);
    ContentsLength(s'.tx.buf, s'.tx.first, s'.tx.end);
    Appended(s.tx.consumed + s.tx.fifo, s.tx.Queue(), s'.tx.Queue(), data[..s'.w.moved]);
    hide Contents, WriteAlone, PutUndisturbed, TxAwake, RxInv;
  }

  lemma Appended<T>(a: seq<T>, b: seq<T>, b': seq<T>, x: seq<T>)
    ensures a + b' == (a + b) + x ==> b' == b + x
  {
    assert (a + b) + x == a + (b + x);
    assert a + b' == a + (b + x) ==> (a + b')[|a|..] == (a + (b + x))[|a|..];
  }

  function WriteLeft(c: Config, w: Writer): nat
    requires w.pc == WCopy ==> w.j <= w.n
  {
    match w.pc
    case WTop => c.len + 3
    case WCopy => 2 + w.n - w.j
    case WEnable => 1
    case _ => 0
  }

  lemma WriteComesCloser(c: Config, s: State, data: seq<byte>)
    requires Inv(c, s) && s.isr == Quiet && s.w.data == data && s.w.pc in {WTop, WCopy, WEnable} && s.w.nonblock
    ensures var w, w' := s.w, Step(c, s, WriterStep).w;
      w'.moved <= |data| && (w'.moved > w.moved || (w'.moved == w.moved && WriteLeft(c, w') < WriteLeft(c, w)))
  {
    hide Contents, RxInv;
  }

  /** And it returns. */
  lemma {:induction false} WriteAloneReturns(c: Config, s: State, data: seq<byte>, m: nat) returns (n: nat)
    requires Inv(c, s) && s.isr == Quiet && s.w.pc == WIdle
    ensures WriteAlone(c, s, data, n).w.pc == WIdle
    decreases |data| - WriteAlone(c, s, data, m).w.moved, WriteLeft(c, WriteAlone(c, s, data, m).w)
  {
    WritesAlone(c, s, data, m);
    var s' := WriteAlone(c, s, data, m);
    if s'.w.pc == WIdle {
      n := m;
    } else {
      WriteComesCloser(c, s', data);
      hide Step;
      n := WriteAloneReturns(c, s, data, m + 1);
    }
  }

  /** A non-blocking read alone, the same way. */
  function ReadAlone(c: Config, s: State, space: nat, n: nat): (s': State)
    requires Bounds(c, s)
    ensures Bounds(c, s')
  {
    if n == 0 then Step(c, s, ReadCall(space, true)) else Step(c, ReadAlone(c, s, space, n - 1), ReaderStep)
  }

  predicate Reads(c: Config, s: State, s': State, space: nat)
    requires Bounds(c, s)
  {
    && Inv(c, s') && s'.isr == Quiet && s'.r.space == space && s'.r.nonblock && s'.r.base == s.rx.consumed
    && s'.rx.end == s.rx.end && s'.rx.fifo == s.rx.fifo && s'.rx.produced == s.rx.produced
    && s'.r.pc in {RTop, RSnap, RCopy, RAfter, RExit, RIdle} && (s'.r.pc == RIdle ==> s'.r.code != Running)
    && (s'.r.pc in {RAfter, RExit, RIdle} && |s'.r.got| < space ==> s'.rx.Queue() == [])
  }

  lemma ReadsOn(c: Config, s: State, s': State, space: nat)
    requires Bounds(c, s) && Reads(c, s, s', space)
    ensures Reads(c, s, Step(c, s', ReaderStep), space)
  {
    StepKeepsInv(c, s', ReaderStep);
    ContentsLength(s'.rx.buf, s'.rx.first, s'.rx.end);
    hide Contents, TxInv;
  }

  lemma {:induction false} ReadsAlone(c: Config, s: State, space: nat, n: nat)
    requires Inv(c, s) && s.isr == Quiet && s.r.pc == RIdle
    ensures Reads(c, s, ReadAlone(c, s, space, n), space)
  {
    hide Step, Reads;
    if n == 0 {
      ReadBegins(c, s, space);
    } else {
      ReadsAlone(c, s, space, n - 1);
      ReadsOn(c, s, ReadAlone(c, s, space, n - 1), space);
    }
  }

  lemma ReadBegins(c: Config, s: State, space: nat)
    requires Inv(c, s) && s.isr == Quiet && s.r.pc == RIdle
    ensures Reads(c, s, Step(c, s, ReadCall(space, true)), space)
  {
    StepKeepsInv(c, s, ReadCall(space, true));
    hide Contents, TxInv;
  }

  /** When it has returned it has delivered as much as there was, up to the space, and reports that. */
  lemma ReadAloneTakesAll(c: Config, s: State, space: nat, n: nat)
    requires Inv(c, s) && s.isr == Quiet && s.r.pc == RIdle
    ensures var s' := ReadAlone(c, s, space, n); var k := Min(space, |s.rx.Queue()|);
      s'.r.pc == RIdle ==>
        && s'.r.got == s.rx.Queue()[..k] && s'.rx.Queue() == s.rx.Queue()[k..]
        && s'.rx.consumed == s.rx.consumed + s.rx.Queue()[..k]
        && s'.r.code == if k > 0 then Moved(k) else WouldBlock
  {
    ReadsAlone(c, s, space, n);
    var s' := ReadAlone(c, s, space, n);
    Dropped(s.rx.consumed, s.rx.Queue(), s'.r.got, s'.rx.Queue(), s.rx.fifo);
    hide Contents, ReadAlone, TakeUndisturbed, RxAwake, TxInv;
  }

  lemma Dropped<T>(a: seq<T>, q: seq<T>, got: seq<T>, q': seq<T>, f: seq<T>)
    ensures a + got + q' + f == a + q + f ==> q == got + q'
  {
    if a + got + q' + f == a + q + f {
      assert a + got + q' + f == a + (got + q') + f;
      var whole, other := a + (got + q') + f, a + q + f;
      assert |q| == |got + q'|;
      assert whole[|a|..|a| + |q|] == got + q' && other[|a|..|a| + |q|] == q;
    }
  }

  function ReadLeft(c: Config, r: Reader): nat
    requires r.pc == RCopy ==> |r.part| <= r.n
  {
    match r.pc
    case RTop => c.len + 6
    case RSnap => c.len + 5
    case RCopy => 4 + r.n - |r.part|
    case RAfter => 2
    case RExit => 1
    case _ => 0
  }

  lemma ReadComesCloser(c: Config, s: State, space: nat)
    requires Inv(c, s) && s.isr == Quiet && s.r.space == space && s.r.pc in {RTop, RSnap, RCopy, RAfter, RExit}
    requires s.r.nonblock
    ensures var r, r' := s.r, Step(c, s, ReaderStep).r;
      |r'.got| <= space && (|r'.got| > |r.got| || (r'.got == r.got && ReadLeft(c, r') < ReadLeft(c, r)))
  {
    hide Contents, TxInv;
  }

  lemma {:induction false} ReadAloneReturns(c: Config, s: State, space: nat, m: nat) returns (n: nat)
    requires Inv(c, s) && s.isr == Quiet && s.r.pc == RIdle
    ensures ReadAlone(c, s, space, n).r.pc == RIdle
    decreases space - |ReadAlone(c, s, space, m).r.got|, ReadLeft(c, ReadAlone(c, s, space, m).r)
  {
    ReadsAlone(c, s, space, m);
    var s' := ReadAlone(c, s, space, m);
    if s'.r.pc == RIdle {
      n := m;
    } else {
      ReadComesCloser(c, s', space);
      hide Step;
      n := ReadAloneReturns(c, s, space, m + 1);
    }
  }
}
