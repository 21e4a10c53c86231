/** What the driver promises over whole runs, from the state left by initialisation. */
module UartTheorems {
  import opened Ring
  import opened UartMachine
  import opened UartProofs

  /** The state after any events in any order. */
  function Reached(c: Config, timeout: nat, alarmStarted: bool, es: seq<Event>): (s: State)
    requires c.Ok()
    ensures Bounds(c, s)
  {
    Run(c, Init(c, timeout, alarmStarted), es)
  }

  lemma ReachedInv(c: Config, timeout: nat, alarmStarted: bool, es: seq<Event>)
    requires c.Ok()
    ensures Inv(c, Reached(c, timeout, alarmStarted, es))
  {
    InitInv(c, timeout, alarmStarted);
    RunKeepsInv(c, Init(c, timeout, alarmStarted), es);
  }

  /** End to end: what the host received, what waits in the FIFO and what waits in the ring are
      together exactly what write calls accepted, in order; and likewise towards the reader. */
  lemma RunsConserveBytes(c: Config, timeout: nat, alarmStarted: bool, es: seq<Event>)
    requires c.Ok()
    ensures var s := Reached(c, timeout, alarmStarted, es);
      && s.tx.consumed + s.tx.fifo + s.tx.Queue() == s.tx.produced
      && s.rx.consumed + s.rx.Queue() + s.rx.fifo == s.rx.produced
      && |s.tx.fifo| <= c.txDepth && |s.rx.fifo| <= c.rxDepth
  {
    ReachedInv(c, timeout, alarmStarted, es);
  }

  /** While a block is being copied its slots belong to the copying call: none of the slots still to
      be sent is overwritten, none of the slots being read is refilled, and the bytes copied so far
      are those of the caller (of the ring). */
  lemma RunsNeverDisturbCopies(c: Config, timeout: nat, alarmStarted: bool, es: seq<Event>)
    requires c.Ok()
    ensures var s := Reached(c, timeout, alarmStarted, es);
      && (s.w.pc == WCopy ==>
        && (forall k :: s.w.snapIn <= k < s.w.snapIn + s.w.n ==> !Occupied(s.tx.first, s.tx.end, k))
        && s.tx.buf[s.w.snapIn..s.w.snapIn + s.w.j] == s.w.data[s.w.moved..s.w.moved + s.w.j])
      && (s.r.pc == RCopy ==>
        && (forall k :: s.r.snapOut <= k < s.r.snapOut + s.r.n ==> Occupied(s.rx.first, s.rx.end, k))
        && s.r.part == s.rx.buf[s.r.snapOut..s.r.snapOut + |s.r.part|])
  {
    ReachedInv(c, timeout, alarmStarted, es);
    var s := Reached(c, timeout, alarmStarted, es);
    if s.w.pc == WCopy { Publish(s.tx.buf, s.tx.first, s.tx.end, s.w.n); }
    if s.r.pc == RCopy { Release(s.rx.buf, s.rx.first, s.rx.end, s.r.n); }
  }

  /** Queued output implies an enabled transmit interrupt, or a writer between its tx_in store and
      its enable; a disabled receive interrupt implies a full ring, or a reader between its rx_out store
      and its enable. */
  lemma RunsNeverLoseWakeups(c: Config, timeout: nat, alarmStarted: bool, es: seq<Event>)
    requires c.Ok()
    ensures var s := Reached(c, timeout, alarmStarted, es);
      && (s.tx.Queue() != [] ==> s.tx.enabled || (s.w.dirty && s.w.pc in {WTop, WCopy, WEnable}))
      && (!s.rx.enabled ==> |s.rx.Queue()| == c.len - 1 || (s.r.got != [] && s.r.pc != RIdle))
  {
    ReachedInv(c, timeout, alarmStarted, es);
    var s := Reached(c, timeout, alarmStarted, es);
    ContentsLength(s.tx.buf, s.tx.first, s.tx.end);
    ContentsLength(s.rx.buf, s.rx.first, s.rx.end);
  }

  /** A finished write accepted exactly the prefix its result counts, and a blocking one is short only
      if it saw the host inactive; a finished read delivered exactly the bytes it returns, and a blocking
      one with room fails only if it saw the timeout. */
  lemma RunsReportHonestly(c: Config, timeout: nat, alarmStarted: bool, es: seq<Event>)
    requires c.Ok()
    ensures var s := Reached(c, timeout, alarmStarted, es);
      && (s.w.code.Moved? ==>
        0 < s.w.code.count <= |s.w.data| && s.tx.produced == s.w.base + s.w.data[..s.w.code.count])
      && (s.w.code in {WouldBlock, IoError} ==> s.tx.produced == s.w.base && (s.w.code.WouldBlock? <==> s.w.nonblock))
      && (s.w.code == Moved(s.w.moved) && s.w.moved < |s.w.data| && !s.w.nonblock ==> s.w.sawInactive)
      && (s.w.code == IoError && s.w.data != [] ==> s.w.sawInactive)
      && (s.r.code.Moved? ==>
        s.r.code.count == |s.r.got| <= s.r.space && s.rx.consumed == s.r.base + s.r.got)
      && (s.r.code in {WouldBlock, IoError} ==> s.rx.consumed == s.r.base && (s.r.code.WouldBlock? <==> s.r.nonblock))
      && (s.r.code == IoError && s.r.space > 0 ==> s.r.sawTimeout)
  {
    ReachedInv(c, timeout, alarmStarted, es);
  }

  // ---- refinement of two atomic queues -----------------------------------------------------

  /** What a step appends to the transmit queue: a whole block, at the store to tx_in. */
  function TxPut(s: State, e: Event): seq<byte>
    requires s.w.pc == WCopy ==> s.w.moved + s.w.n <= |s.w.data|
  {
    if s.isr == Quiet && e.WriterStep? && s.w.pc == WCopy && s.w.j >= s.w.n
    then s.w.data[s.w.moved..s.w.moved + s.w.n] else []
  }

  /** What a step takes from it: one byte, written to the FIFO by the routine. */
  function TxTook(c: Config, s: State, e: Event): seq<byte>
    requires Bounds(c, s)
  {
    if e.IrqStep? && s.isr.Tx? && s.isr.space > 0 && s.tx.first != s.tx.end then [s.tx.buf[s.tx.first]] else []
  }

  /** What a step appends to the receive queue: one byte, popped from the FIFO by the routine. */
  function RxPut(c: Config, s: State, e: Event): seq<byte>
    requires Bounds(c, s)
  {
    if e.IrqStep? && s.isr.Rx? && !Full(c.len, s.rx.first, s.rx.end) && s.rx.fifo != [] then [s.rx.fifo[0]] else []
  }

  /** What a step takes from it: a whole block, at the store to rx_out. */
  function RxTook(s: State, e: Event): seq<byte> {
    if s.isr == Quiet && e.ReaderStep? && s.r.pc == RCopy && |s.r.part| >= s.r.n then s.r.part else []
  }

  /** Seen through the indices, every step of every run is one atomic operation on a bounded queue,
      or none: the stale snapshots and the byte-by-byte copies are invisible. */
  lemma StepRefinesQueues(c: Config, s: State, e: Event)
    requires Inv(c, s)
    ensures var s' := Step(c, s, e);
      && s.tx.Queue() + TxPut(s, e) == TxTook(c, s, e) + s'.tx.Queue()
      && s.rx.Queue() + RxPut(c, s, e) == RxTook(s, e) + s'.rx.Queue()
      && |s'.tx.Queue()| < c.len && |s'.rx.Queue()| < c.len
  {
    hide Contents;
    var s' := Step(c, s, e);
    ContentsLength(s'.tx.buf, s'.tx.first, s'.tx.end);
    ContentsLength(s'.rx.buf, s'.rx.first, s'.rx.end);
    TxStepRefines(c, s, e);
    RxStepRefines(c, s, e);
  }

  lemma TxStepRefines(c: Config, s: State, e: Event)
    requires Inv(c, s)
    ensures s.tx.Queue() + TxPut(s, e) == TxTook(c, s, e) + Step(c, s, e).tx.Queue()
  {
    hide Contents;
    if TxPut(s, e) != [] {
      WriterStepRefines(c, s.tx, s.host, s.w);
    } else if TxTook(c, s, e) != [] {
      TxTurnRefines(c, s.tx);
    } else {
      TxQueueKept(c, s, e);
    }
  }

  lemma RxStepRefines(c: Config, s: State, e: Event)
    requires Inv(c, s)
    ensures s.rx.Queue() + RxPut(c, s, e) == RxTook(s, e) + Step(c, s, e).rx.Queue()
  {
    hide Contents;
    if RxPut(c, s, e) != [] {
      RxPutConserves(c, s.rx);
    } else if RxTook(s, e) != [] {
      ReaderStepRefines(c, s.rx, s.host, s.r);
    } else {
      RxQueueKept(c, s, e);
    }
  }

  lemma WriterStepRefines(c: Config, tx: Channel, host: HostWatch, w: Writer)
    requires TxInv(c, tx, w, Quiet) && w.pc == WCopy
    ensures WriterNext(c, tx, host, w).0.Queue()
         == tx.Queue() + (if w.j >= w.n then w.data[w.moved..w.moved + w.n] else [])
  {
    if w.j < w.n {
      CopyConserves(c, tx, w.n, w.j, w.data[w.moved + w.j]);
    } else {
      PublishConserves(c, tx, w.data[w.moved..w.moved + w.n]);
    }
  }

  lemma TxTurnRefines(c: Config, tx: Channel)
    requires tx.Fits(c.len) && tx.first != tx.end
    ensures tx.Queue() == [tx.buf[tx.first]] + TxTurn(c, tx).Queue()
  {
  }

  lemma TxQueueKept(c: Config, s: State, e: Event)
    requires Inv(c, s) && TxPut(s, e) == [] && TxTook(c, s, e) == []
    ensures Step(c, s, e).tx.Queue() == s.tx.Queue()
  {
    hide Contents;
    if e.WriterStep? && s.w.pc == WCopy { WriterStepRefines(c, s.tx, s.host, s.w); }
  }

  lemma ReaderStepRefines(c: Config, rx: Channel, host: HostWatch, r: Reader)
    requires RxInv(c, rx, r, Quiet) && r.pc == RCopy
    ensures rx.Queue() == (if |r.part| >= r.n then r.part else []) + ReaderNext(c, rx, host, r).0.Queue()
  {
    hide Contents;
    if |r.part| >= r.n { Release(rx.buf, rx.first, rx.end, r.n); }
  }

  lemma RxQueueKept(c: Config, s: State, e: Event)
    requires Inv(c, s) && RxPut(c, s, e) == [] && RxTook(s, e) == []
    ensures Step(c, s, e).rx.Queue() == s.rx.Queue()
  {
  }

  // ---- timeouts ----------------------------------------------------------------------------

  /** A timeout that the saturating count can never reach. */
  predicate NoTimeout(s: State) {
    s.host.timeout >= INT_MAX - 1 && s.host.inactive <= INT_MAX - 2 && !s.r.sawTimeout
  }

  /** After a failed alarm start (INT_MAX), or an ioctl argument out of range (INT_MAX - 1), no run
      ever sees the host time out, until a later ioctl with a valid argument in the second case. */
  lemma {:induction false} HostNeverTimesOut(c: Config, s: State, es: seq<Event>)
    requires Bounds(c, s) && NoTimeout(s)
    requires s.host.timeout == INT_MAX || forall e :: e in es && e.SetTimeout? ==> !TimeoutArgOk(e.arg)
    ensures NoTimeout(Run(c, s, es)) && !Run(c, s, es).host.TimedOut()
    ensures s.host.timeout == INT_MAX ==> Run(c, s, es).host.timeout == INT_MAX
  {
    if es != [] {
      HostNeverTimesOut(c, s, es[..|es| - 1]);
      assert es[|es| - 1] in es;
      StepKeepsNoTimeout(c, Run(c, s, es[..|es| - 1]), es[|es| - 1]);
    }
  }

  lemma StepKeepsNoTimeout(c: Config, s: State, e: Event)
    requires Bounds(c, s) && NoTimeout(s)
    requires s.host.timeout == INT_MAX || (e.SetTimeout? ==> !TimeoutArgOk(e.arg))
    ensures NoTimeout(Step(c, s, e))
    ensures s.host.timeout == INT_MAX ==> Step(c, s, e).host.timeout == INT_MAX
  {
  }

  /** So when the alarm could not be started a blocking read with room for a byte never fails. */
  lemma NoAlarmNoReadError(c: Config, timeout: nat, es: seq<Event>)
    requires c.Ok()
    ensures var s := Reached(c, timeout, false, es);
      !(s.r.code == IoError && s.r.space > 0) && s.host.timeout == INT_MAX
  {
    HostNeverTimesOut(c, Init(c, timeout, false), es);
    RunsReportHonestly(c, timeout, false, es);
  }

  /** A zero-length blocking call reports an I/O error although nothing is wrong. */
  lemma ZeroLengthCallsFail(c: Config, s: State)
    requires Bounds(c, s) && s.isr == Quiet && s.w.pc == WIdle && s.r.pc == RIdle
    ensures Step(c, Step(c, Step(c, s, WriteCall([], false)), WriterStep), WriterStep).w.code == IoError
    ensures Step(c, Step(c, Step(c, s, ReadCall(0, false)), ReaderStep), ReaderStep).r.code == IoError
  {
    var w1 := Step(c, s, WriteCall([], false));
    assert Step(c, w1, WriterStep).w.pc == WEnable;
    var r1 := Step(c, s, ReadCall(0, false));
    assert Step(c, r1, ReaderStep).r.pc == RExit;
  }

  // ---- the interrupt routine returns -------------------------------------------------------

  /** The pending bits of the device: an enabled side with data, or with space. */
  predicate RxPending(s: State) { s.rx.enabled && s.rx.fifo != [] }
  predicate TxPending(c: Config, s: State) { s.tx.enabled && |s.tx.fifo| < c.txDepth }

  /** A step of the routine on the device; the device may delay a pending bit, never invent one. */
  function DeviceStep(c: Config, s: State, bits: (bool, bool)): (s': State)
    requires Bounds(c, s)
    ensures Bounds(c, s')
  {
    IsrNext(c, s, bits.0 && RxPending(s), bits.1 && TxPending(c, s))
  }

  function DeviceRun(c: Config, s: State, bits: seq<(bool, bool)>): (s': State)
    requires Bounds(c, s)
    ensures Bounds(c, s')
    decreases |bits|
  {
    if bits == [] then s else DeviceRun(c, DeviceStep(c, s, bits[0]), bits[1..])
  }

  /** What the control snapshot entitles the routine to rely on, whatever the host does meanwhile. */
  predicate IsrHonest(s: State) {
    match s.isr
    case Rx(avail, w, space) => s.rx.enabled && (avail ==> s.rx.fifo != []) && (w ==> s.tx.enabled && space > 0)
    case RxEnd(avail, w, space) => (avail ==> s.rx.enabled) && (w ==> s.tx.enabled && space > 0)
    case Tx(_) => s.tx.enabled
    case TxEnd(_) => s.tx.enabled
    case _ => true
  }

  function Bit(b: bool): nat { if b then 1 else 0 }

  /** Bytes to receive, bytes to send, and enabled interrupts. */
  function Work(c: Config, s: State): nat
    requires Bounds(c, s)
  {
    |s.rx.fifo| + |s.tx.Queue()| + Bit(s.rx.enabled) + Bit(s.tx.enabled)
  }

  function Phase(isr: Isr): nat {
    match isr
    case Quiet => 0
    case Control => 7
    case Rx(avail, _, _) => if avail then 6 else 10
    case RxEnd(avail, _, _) => if avail then 5 else 9
    case Tx(space) => if space > 0 then 4 else 9
    case TxEnd(space) => if space > 0 then 3 else 8
  }

  lemma DeviceStepDecreases(c: Config, s: State, bits: (bool, bool))
    requires Bounds(c, s) && IsrHonest(s) && s.isr != Quiet
    ensures var s' := DeviceStep(c, s, bits);
      IsrHonest(s') && 8 * Work(c, s') + Phase(s'.isr) < 8 * Work(c, s) + Phase(s.isr)
  {
    if s.isr.Tx? && s.isr.space > 0 && s.tx.first != s.tx.end {
      Take(s.tx.buf, s.tx.first, s.tx.end);
    }
  }

  /** With the host idle the routine returns within 8 * Work + 7 steps, whatever the pending bits do. */
  lemma {:induction false} IsrReturns(c: Config, s: State, bits: seq<(bool, bool)>)
    requires Bounds(c, s) && IsrHonest(s) && |bits| >= 8 * Work(c, s) + Phase(s.isr)
    ensures DeviceRun(c, s, bits).isr == Quiet
    decreases |bits|
  {
    if s.isr == Quiet {
      if bits != [] { IsrReturnsQuiet(c, s, bits); }
    } else {
      DeviceStepDecreases(c, s, bits[0]);
      IsrReturns(c, DeviceStep(c, s, bits[0]), bits[1..]);
    }
  }

  lemma {:induction false} IsrReturnsQuiet(c: Config, s: State, bits: seq<(bool, bool)>)
    requires Bounds(c, s) && s.isr == Quiet
    ensures DeviceRun(c, s, bits) == s
    decreases |bits|
  {
    if bits != [] { IsrReturnsQuiet(c, s, bits[1..]); }
  }

  // ---- output drains without main-line help ------------------------------------------------

  /** Only the device and the host act, and with `reader` also non-blocking reads: the routine is entered
      on a pending interrupt. */
  predicate BackgroundEvent(c: Config, s: State, e: Event, reader: bool) {
    || e.HostTake?
    || (reader && (e.ReaderStep? || (e.ReadCall? && e.nonblock)))
    || (e.IrqEnter? && (RxPending(s) || TxPending(c, s)))
    || (e.IrqStep? && (s.isr == Control ==> (e.ri ==> RxPending(s)) && (e.wi ==> TxPending(c, s))))
  }

  predicate Background(c: Config, s: State, es: seq<Event>, reader: bool)
    requires Bounds(c, s)
  {
    forall k :: 0 <= k < |es| ==> BackgroundEvent(c, Run(c, s, es[..k]), es[k], reader)
  }

  lemma BackgroundThen(c: Config, s: State, e: Event, es: seq<Event>, reader: bool)
    requires Bounds(c, s) && BackgroundEvent(c, s, e, reader) && Background(c, Step(c, s, e), es, reader)
    ensures Background(c, s, [e] + es, reader) && Run(c, s, [e] + es) == Run(c, Step(c, s, e), es)
  {
    hide Step, BackgroundEvent;
    RunFirst(c, s, e, es);
    var all := [e] + es;
    forall k | 0 <= k < |all| ensures BackgroundEvent(c, Run(c, s, all[..k]), all[k], reader) {
      if k == 0 { assert all[..0] == []; } else { RunPrefix(c, s, e, es, k); }
    }
  }

  lemma RunPrefix(c: Config, s: State, e: Event, es: seq<Event>, k: nat)
    requires Bounds(c, s) && 0 < k <= |es|
    ensures Run(c, s, ([e] + es)[..k]) == Run(c, Step(c, s, e), es[..k - 1])
  {
    hide Step, Run;
    assert ([e] + es)[..k] == [e] + es[..k - 1];
    RunFirst(c, s, e, es[..k - 1]);
  }

  lemma RunFirst(c: Config, s: State, e: Event, es: seq<Event>)
    requires Bounds(c, s)
    ensures Run(c, s, [e] + es) == Run(c, Step(c, s, e), es)
  {
    hide Step;
    assert [e][..0] == [] && Run(c, s, []) == s;
    RunAppend(c, s, [e], es);
  }

  /** Orders the stages of the drain in which neither queue nor FIFO shrinks. */
  function Stage(c: Config, s: State): nat
    requires Bounds(c, s)
  {
    var busy := s.tx.first != s.tx.end;
    match s.isr
    case Rx(_, _, _) => 8 + |s.rx.fifo|
    case RxEnd(_, _, _) => 7
    case Tx(space) => if busy && space > 0 then 0 else 5
    case TxEnd(_) => 4
    case Control => if busy && TxPending(c, s) then 1 else 3
    case Quiet => 2
  }

  /** The next thing the device or the host does on the way. */
  function DrainEvent(c: Config, s: State): Event {
    if s.isr == Quiet then if s.tx.fifo != [] then HostTake else IrqEnter
    else IrqStep(false, s.tx.first != s.tx.end && TxPending(c, s))
  }

  lemma DrainStep(c: Config, s: State)
    requires Inv(c, s) && !s.w.dirty && !(s.isr == Quiet && s.tx.fifo == [] && s.tx.first == s.tx.end)
    ensures var e := DrainEvent(c, s); var s' := Step(c, s, e);
      && BackgroundEvent(c, s, e, false) && Inv(c, s') && !s'.w.dirty && s'.tx.produced == s.tx.produced
      && (|s'.tx.Queue()| < |s.tx.Queue()| || (s'.tx.Queue() == s.tx.Queue()
        && (|s'.tx.fifo| < |s.tx.fifo| || (s'.tx.fifo == s.tx.fifo && Stage(c, s') < Stage(c, s)))))
  {
    StepKeepsInv(c, s, DrainEvent(c, s));
    if s.isr.Tx? && s.isr.space > 0 && s.tx.first != s.tx.end {
      Take(s.tx.buf, s.tx.first, s.tx.end);
    }
  }

  /** The no-lost-wakeup invariant means progress: from every reachable state in which no writer is
      about to enable the interrupt, the device and the host alone bring out every accepted byte. */
  lemma {:induction false} OutputDrains(c: Config, s: State) returns (es: seq<Event>)
    requires Inv(c, s) && !s.w.dirty
    ensures Background(c, s, es, false) && Run(c, s, es).tx.consumed == s.tx.produced
    decreases |s.tx.Queue()|, |s.tx.fifo|, Stage(c, s)
  {
    if s.isr == Quiet && s.tx.fifo == [] && s.tx.first == s.tx.end {
      es := [];
    } else {
      DrainStep(c, s);
      var e := DrainEvent(c, s);
      var rest := OutputDrains(c, Step(c, s, e));
      BackgroundThen(c, s, e, rest, false);
      es := [e] + rest;
    }
  }

  // ---- and does so on every schedule ---------------------------------------------------------

  /** What the device and the host can do to change anything, if the device shows its pending bits. */
  predicate Effective(c: Config, s: State, e: Event) {
    match e
    case HostTake => s.tx.fifo != []
    case IrqEnter => s.isr == Quiet && (RxPending(s) || TxPending(c, s))
    case IrqStep(ri, wi) => s.isr != Quiet && (s.isr == Control ==> ri == RxPending(s) && wi == TxPending(c, s))
    case _ => false
  }

  predicate AllEffective(c: Config, s: State, es: seq<Event>)
    requires Bounds(c, s)
    decreases |es|
  {
    es == [] || (Effective(c, s, es[0]) && AllEffective(c, Step(c, s, es[0]), es[1..]))
  }

  /** How many such events there can be at most. */
  function Patience(c: Config, s: State): nat
    requires Bounds(c, s)
  {
    30 * |s.tx.Queue()| + 10 * |s.tx.fifo| + 8 * (|s.rx.fifo| + Bit(s.rx.enabled) + Bit(s.tx.enabled))
      + if s.isr != Quiet then Phase(s.isr) else if RxPending(s) || TxPending(c, s) then 8 else 0
  }

  lemma EffectiveStep(c: Config, s: State, e: Event)
    requires Bounds(c, s) && IsrHonest(s) && Effective(c, s, e)
    ensures var s' := Step(c, s, e);
      IsrHonest(s') && Patience(c, s') < Patience(c, s) && s'.w == s.w && s'.tx.produced == s.tx.produced
  {
    if s.isr.Tx? && s.isr.space > 0 && s.tx.first != s.tx.end {
      Take(s.tx.buf, s.tx.first, s.tx.end);
    }
  }

  lemma NothingLeftToDo(c: Config, s: State)
    requires Inv(c, s) && !s.w.dirty && forall e :: !Effective(c, s, e)
    ensures s.tx.consumed == s.tx.produced
  {
    assert !Effective(c, s, HostTake) && !Effective(c, s, IrqEnter);
    assert !Effective(c, s, IrqStep(RxPending(s), TxPending(c, s)));
  }

  /** Whatever the device and the host do and in whichever order, as long as each event has an effect: they
      come to an end within a bound known in advance, and when they can do no more every accepted byte is
      out. */
  lemma {:induction false} EveryScheduleDrains(c: Config, s: State, es: seq<Event>)
    requires Inv(c, s) && IsrHonest(s) && !s.w.dirty && AllEffective(c, s, es)
    ensures |es| <= Patience(c, s)
    ensures (forall e :: !Effective(c, Run(c, s, es), e)) ==> Run(c, s, es).tx.consumed == s.tx.produced
    decreases |es|
  {
    if es == [] {
      if forall e :: !Effective(c, s, e) { NothingLeftToDo(c, s); }
    } else {
      var e := es[0];
      EffectiveStep(c, s, e);
      StepKeepsInv(c, s, e);
      EveryScheduleDrains(c, Step(c, s, e), es[1..]);
      assert [e] + es[1..] == es;
      RunFirst(c, s, e, es[1..]);
    }
  }

  // ---- input reaches the reader --------------------------------------------------------------

  /** What the host sent and no read has delivered. */
  function Undelivered(c: Config, s: State): nat
    requires Bounds(c, s)
  {
    |s.rx.Queue()| + |s.rx.fifo|
  }

  /** How far the reader is from releasing a block of a ring that holds data. */
  function ReadStage(c: Config, r: Reader): nat
    requires r.pc == RCopy ==> |r.part| <= r.n
  {
    match r.pc
    case RCopy => r.n - |r.part|
    case RSnap => c.len + 1
    case RTop => c.len + if r.space > |r.got| then 2 else 5
    case RIdle => c.len + 3
    case RExit => c.len + 4
    case RRecheck => c.len + 3
    case RSpinIn => c.len + 4
    case RSpinHost => c.len + 5
    case RAfter => c.len + 5
  }

  /** How far the main-line code is from moving on what is in the ring, or, if it is empty, from an
      interrupt that fills it. */
  function MainStage(c: Config, s: State): nat
    requires Bounds(c, s)
  {
    if s.rx.first != s.rx.end then ReadStage(c, s.r)
    else if s.rx.enabled then (if s.isr == Quiet then 1 else 0)
    else match s.r.pc case RSnap => 4 case RAfter => 3 case _ => 2
  }

  /** How far the routine is from its return or from the next byte, if it is told of no space to send. */
  function IsrStage(s: State): nat {
    var pending := RxPending(s);
    match s.isr
    case Quiet => 0
    case Control => if pending then 5 else 1
    case Rx(avail, w, space) => if w then 9 + space else if pending && !avail then 7 else 3
    case RxEnd(avail, w, space) => if w then 8 + space else if pending && !avail then 6 else 2
    case Tx(space) => 7 + space
    case TxEnd(_) => 6
  }

  function DeliverEvent(s: State): Event {
    if s.isr != Quiet then IrqStep(RxPending(s), false)
    else if s.rx.first == s.rx.end && s.rx.enabled then IrqEnter
    else if s.r.pc == RIdle then ReadCall(1, true)
    else ReaderStep
  }

  predicate Closer(c: Config, s: State, s': State)
    requires Bounds(c, s) && Bounds(c, s')
  {
    || Undelivered(c, s') < Undelivered(c, s)
    || (Undelivered(c, s') == Undelivered(c, s)
      && (|s'.rx.fifo| < |s.rx.fifo| || (s'.rx.fifo == s.rx.fifo
        && (MainStage(c, s') < MainStage(c, s)
          || (MainStage(c, s') == MainStage(c, s) && IsrStage(s') < IsrStage(s))))))
  }

  /** Each step of the delivery is admissible and comes nearer to its end. */
  lemma DeliverStep(c: Config, s: State)
    requires Inv(c, s) && c.len > 1 && Undelivered(c, s) > 0
    ensures var e := DeliverEvent(s); var s' := Step(c, s, e);
      && BackgroundEvent(c, s, e, true) && Inv(c, s') && s'.rx.produced == s.rx.produced && Closer(c, s, s')
  {
    StepKeepsInv(c, s, DeliverEvent(s));
    ContentsLength(s.rx.buf, s.rx.first, s.rx.end);
    if s.isr == Quiet { MainComesCloser(c, s); } else { IsrComesCloser(c, s); }
  }

  lemma MainComesCloser(c: Config, s: State)
    requires Inv(c, s) && c.len > 1 && Undelivered(c, s) > 0 && s.isr == Quiet
    ensures var e := DeliverEvent(s); var s' := Step(c, s, e);
      BackgroundEvent(c, s, e, true) && s'.rx.produced == s.rx.produced && Closer(c, s, s')
  {
    ContentsLength(s.rx.buf, s.rx.first, s.rx.end);
    if s.rx.first != s.rx.end && s.r.pc != RIdle {
      ReaderComesCloser(c, s.rx, s.host, s.r);
      hide Contents, PutRoom, TakeRoom, ReaderNext, ReadStage, Inv;
    }
  }

  lemma ReaderComesCloser(c: Config, rx: Channel, host: HostWatch, r: Reader)
    requires RxInv(c, rx, r, Quiet) && rx.first != rx.end && r.pc != RIdle
    ensures var (rx', r') := ReaderNext(c, rx, host, r);
      && rx'.produced == rx.produced && rx'.fifo == rx.fifo
      && (|rx'.Queue()| < |rx.Queue()|
        || (rx'.Queue() == rx.Queue() && rx'.first != rx'.end && ReadStage(c, r') < ReadStage(c, r)))
  {
    hide Contents;
    if r.pc == RCopy && |r.part| == r.n { Release(rx.buf, rx.first, rx.end, r.n); }
  }

  lemma IsrComesCloser(c: Config, s: State)
    requires Inv(c, s) && c.len > 1 && Undelivered(c, s) > 0 && s.isr != Quiet
    ensures var e := DeliverEvent(s); var s' := Step(c, s, e);
      BackgroundEvent(c, s, e, true) && s'.rx.produced == s.rx.produced && Closer(c, s, s')
  {
    ContentsLength(s.rx.buf, s.rx.first, s.rx.end);
    if s.isr.Rx? && !Full(c.len, s.rx.first, s.rx.end) && s.rx.fifo != [] { RxPutConserves(c, s.rx); }
  }

  /** Progress of the other direction: from every reachable state, whatever call is under way, the
      interrupt and non-blocking reads bring every byte the host sent to the callers. */
  lemma {:induction false} InputDelivers(c: Config, s: State) returns (es: seq<Event>)
    requires Inv(c, s) && c.len > 1
    ensures Background(c, s, es, true) && Run(c, s, es).rx.consumed == s.rx.produced
    decreases Undelivered(c, s), |s.rx.fifo|, MainStage(c, s), IsrStage(s)
  {
    if Undelivered(c, s) == 0 {
      es := [];
    } else {
      DeliverStep(c, s);
      var e := DeliverEvent(s);
      var rest := InputDelivers(c, Step(c, s, e));
      BackgroundThen(c, s, e, rest, true);
      es := [e] + rest;
    }
  }

  /** A ring of one slot never holds a byte, so it delivers none. */
  lemma {:induction false} OneSlotDeliversNothing(c: Config, s: State, es: seq<Event>)
    requires Inv(c, s) && c.len == 1
    ensures Run(c, s, es).rx.consumed == s.rx.consumed
  {
    hide Step;
    if es != [] {
      OneSlotDeliversNothing(c, s, es[..|es| - 1]);
      RunKeepsInv(c, s, es[..|es| - 1]);
      OneSlotStep(c, Run(c, s, es[..|es| - 1]), es[|es| - 1]);
    }
  }

  lemma OneSlotStep(c: Config, s: State, e: Event)
    requires Inv(c, s) && c.len == 1
    ensures Step(c, s, e).rx.consumed == s.rx.consumed
  {
    hide Contents;
  }
}
