/** The driver's own code over its state structure and buffers. Every access to shared state is
    preceded by `Preempt`, any number of interrupts, timer ticks and host actions, and is logged as
    one step of the machine, so that every state of every run of this code is a reachable state there. */
module UartDriver {
  import opened Ring
  import opened UartMachine
  import opened UartProofs
  import opened UartTheorems
  import opened UartRoom

  /** A call that is still polling when the observation ends has not returned. */
  datatype Outcome = Returned(code: Code) | StillPolling

  /** How one round of a blocking read ends. */
  datatype Round = Finish | Again | Polling

  datatype IoctlRequest = SetTimeoutRequest(arg: int) | GetConnectedRequest | OtherRequest
  datatype IoctlReply = Done | Connected(yes: bool) | NotTty

  lemma WriterResult(c: Config, s: State)
    requires Inv(c, s)
    ensures s.tx.produced == s.w.base + s.w.data[..s.w.moved]
    ensures s.w.pc == WIdle && s.w.code != Running && s.w.moved < |s.w.data| && !s.w.nonblock ==> s.w.sawInactive
  {
  }

  lemma ReaderResult(c: Config, s: State)
    requires Inv(c, s)
    ensures s.rx.consumed == s.r.base + s.r.got
    ensures s.r.pc == RIdle && s.r.code == IoError && s.r.space > 0 && !s.r.nonblock ==> s.r.sawTimeout
  {
  }

  class JtagUart {
    const c: Config
    // altera_avalon_jtag_uart_state
    const rxBuf: array<byte>
    const txBuf: array<byte>
    var rxIn: nat
    var rxOut: nat
    var txIn: nat
    var txOut: nat
    var re: bool
    var we: bool
    var hostInactive: nat
    var timeout: nat
    // the device
    var rxFifo: seq<byte>
    var txFifo: seq<byte>
    // how many more times the host acts while the interrupt routine runs
    var acts: nat
    // the machine state this object is in, and the run that led to it
    ghost const start: State
    ghost var s: State
    ghost var trace: seq<Event>

    ghost predicate Matches(m: State)
      reads this, rxBuf, txBuf
    {
      && rxBuf != txBuf
      && rxBuf[..] == m.rx.buf && rxIn == m.rx.end && rxOut == m.rx.first && re == m.rx.enabled && rxFifo == m.rx.fifo
      && txBuf[..] == m.tx.buf && txIn == m.tx.end && txOut == m.tx.first && we == m.tx.enabled && txFifo == m.tx.fifo
      && hostInactive == m.host.inactive && timeout == m.host.timeout
    }

    ghost predicate Reachable()
      reads this
    {
      Bounds(c, start) && Bounds(c, s) && Inv(c, s) && s == Run(c, start, trace)
    }

    ghost predicate Valid()
      reads this, rxBuf, txBuf
    {
      Reachable() && Matches(s)
    }

    /** The interrupt routine is not running. */
    ghost predicate Idle()
      reads this, rxBuf, txBuf
    {
      Valid() && s.isr == Quiet
    }

    constructor (c: Config, defaultTimeout: nat, alarmStarted: bool)
      requires c.Ok()
      ensures Idle() && this.c == c && trace == [] && s == Init(c, defaultTimeout, alarmStarted)
      ensures fresh(rxBuf) && fresh(txBuf)
    {
      this.c := c;
      rxBuf := new byte[c.len](_ => 0);
      txBuf := new byte[c.len](_ => 0);
      rxIn, rxOut, txIn, txOut := 0, 0, 0, 0;
      re, we := true, false;
      hostInactive := 0;
      timeout := if alarmStarted then defaultTimeout else INT_MAX;
      rxFifo, txFifo := [], [];
      start := Init(c, defaultTimeout, alarmStarted);
      s := Init(c, defaultTimeout, alarmStarted);
      trace, acts := [], 0;
      new;
      InitInv(c, defaultTimeout, alarmStarted);
    }

    /** Records that the object has just made the machine's step for `e`. */
    ghost method Log(e: Event)
      requires Reachable() && Matches(Step(c, s, e))
      modifies this`s, this`trace
      ensures Valid() && s == Step(c, old(s), e) && trace == old(trace) + [e]
    {
      StepKeepsInv(c, s, e);
      assert (trace + [e])[..|trace|] == trace;
      s, trace := Step(c, s, e), trace + [e];
    }

    // ---- the interrupt routine -------------------------------------------------------------

    /** Control register: the pending bits are never set for a side that is disabled, or has no
        data or no space; the device is otherwise free to raise them when it likes. */
    method ReadControl() returns (ri: bool, wi: bool, space: nat)
      requires Valid()
      ensures ri ==> RxPending(s)
      ensures wi ==> TxPending(c, s)
      ensures space == TxSpace(c, s.tx)
    {
      var rBit: bool, wBit: bool := *, *;
      ri := rBit && re && rxFifo != [];
      wi := wBit && we && |txFifo| < c.txDepth;
      space := c.txDepth - |txFifo|;
    }

    /** A step of the routine, with the measure that makes it return. */
    ghost method LogIsr(ri: bool, wi: bool)
      requires Reachable() && Matches(IsrNext(c, s, ri, wi)) && IsrHonest(s) && s.isr != Quiet
      requires (ri ==> RxPending(s)) && (wi ==> TxPending(c, s))
      modifies this`s, this`trace
      ensures Valid() && s == IsrNext(c, old(s), ri, wi) && trace == old(trace) + [IrqStep(ri, wi)]
      ensures IsrHonest(s) && 8 * Work(c, s) + Phase(s.isr) < old(8 * Work(c, s) + Phase(s.isr))
    {
      DeviceStepDecreases(c, s, (ri, wi));
      Log(IrqStep(ri, wi));
    }

    /** What the routine leaves alone. */
    twostate predicate CallsUntouched()
      reads this
    {
      s.w == old(s.w) && s.r == old(s.r) && s.host == old(s.host) && old(trace) <= trace
    }

    /** The routine is nearer to its return, or the host has acted and will act less often. */
    twostate predicate Nearer()
      reads this
      requires Bounds(c, s) && old(Bounds(c, s))
    {
      acts < old(acts) || (acts == old(acts) && 8 * Work(c, s) + Phase(s.isr) < old(8 * Work(c, s) + Phase(s.isr)))
    }

    twostate predicate NotFarther()
      reads this
      requires Bounds(c, s) && old(Bounds(c, s))
    {
      acts < old(acts) || (acts == old(acts) && 8 * Work(c, s) + Phase(s.isr) <= old(8 * Work(c, s) + Phase(s.isr)))
    }

    /** The routine accepts and delivers nothing. */
    twostate predicate Passive()
      reads this
    {
      CallsUntouched() && s.tx.produced == old(s.tx.produced) && s.rx.consumed == old(s.rx.consumed)
    }

    /** The host may act between two accesses of the routine. */
    method HostMayAct()
      requires Valid() && IsrHonest(s)
      modifies this`s, this`trace, this`acts, this`rxFifo, this`txFifo
      ensures Valid() && IsrHonest(s) && Passive() && s.isr == old(s.isr) && NotFarther()
    {
      hide Inv, Run, Work;
      var act: bool := *;
      if act && acts > 0 {
        HostActs();
        acts := acts - 1;
      }
    }

    /** The interrupt routine, with the host acting as often as it likes between its accesses; since that
        is finitely often, the routine returns. */
    method Irq()
      requires Idle()
      modifies this, rxBuf, txBuf
      ensures Idle() && Passive()
    {
      hide Inv, Run, Work;
      Log(IrqEnter);
      acts := *;
      var more := true;
      while more
        invariant Valid() && Passive() && s.isr == if more then Control else Quiet
        decreases more, acts, 8 * Work(c, s) + Phase(s.isr)
      {
        more := IsrRound();
      }
    }

    /** One turn of its loop; false when nothing is pending. */
    method IsrRound() returns (more: bool)
      requires Valid() && s.isr == Control
      modifies this, rxBuf, txBuf
      ensures Valid() && Passive() && s.isr == (if more then Control else Quiet) && Nearer()
    {
      hide Inv, Run, Work;
      HostMayAct();
      var ri, wi, space := ReadControl();
      LogIsr(ri, wi);
      more := ri || wi;
      if ri { ReceiveFrom(wi, space); }
      if wi { TransmitTo(space); }
    }

    /** The read half of one round: fill the ring, then disable the interrupt if bytes are left. */
    method ReceiveFrom(ghost wi: bool, ghost space: nat)
      requires Valid() && IsrHonest(s) && s.isr == Rx(true, wi, space)
      modifies this, rxBuf
      ensures Valid() && IsrHonest(s) && Passive() && s.isr == if wi then Tx(space) else Control
      ensures Nearer()
    {
      hide Inv, Run, Work, IsrHonest;
      var avail, again := true, true;
      while again
        invariant Valid() && IsrHonest(s) && Passive() && NotFarther()
        invariant s.isr == if again then Rx(avail, wi, space) else RxEnd(avail, wi, space)
        decreases acts, 8 * Work(c, s) + Phase(s.isr)
      {
        again, avail := ReceiveByte(avail, wi, space);
      }
      HostMayAct();
      if avail { re := false; }
      LogIsr(false, false);
    }

    /** One turn of the receive loop; false when it breaks. */
    method ReceiveByte(had: bool, ghost wi: bool, ghost space: nat) returns (again: bool, avail: bool)
      requires Valid() && IsrHonest(s) && s.isr == Rx(had, wi, space)
      modifies this, rxBuf
      ensures Valid() && IsrHonest(s) && Passive() && Nearer()
      ensures s.isr == if again then Rx(avail, wi, space) else RxEnd(avail, wi, space)
    {
      hide Inv, Run, Work, IsrHonest;
      HostMayAct();
      var next := (rxIn + 1) % c.len;
      again, avail := false, had;
      if next != rxOut {
        again, avail := rxFifo != [], |rxFifo| > 1;
        if again {
          var data := rxFifo[0];
          rxFifo := rxFifo[1..];
          rxBuf[rxIn] := data;
          rxIn := next;
          assert rxBuf[..] == s.rx.buf[s.rx.end := data];
        }
      }
      LogIsr(false, false);
    }

    /** The write half: fill the FIFO, then disable the interrupt if the ring ran dry. */
    method TransmitTo(space: nat)
      requires Valid() && IsrHonest(s) && s.isr == Tx(space)
      modifies this
      ensures Valid() && Passive() && s.isr == Control && Nearer()
    {
      hide Inv, Run, Work;
      var left := space;
      while left > 0 && txOut != txIn
        invariant Valid() && IsrHonest(s) && Passive() && s.isr == Tx(left) && NotFarther()
        decreases acts, left
      {
        left := TransmitByte(left);
      }
      LogIsr(false, false);
      HostMayAct();
      if left > 0 { we := false; }
      LogIsr(false, false);
    }

    /** One turn of the transmit loop. */
    method TransmitByte(space: nat) returns (left: nat)
      requires Valid() && IsrHonest(s) && s.isr == Tx(space) && space > 0 && txOut != txIn
      modifies this
      ensures Valid() && IsrHonest(s) && Passive() && s.isr == Tx(left) && left == space - 1
      ensures acts <= old(acts) && Nearer()
    {
      hide Inv, Run, Work;
      HostMayAct();
      txFifo := FifoWrite(c.txDepth, txFifo, txBuf[txOut]);
      txOut := (txOut + 1) % c.len;
      left := space - 1;
      LogIsr(false, false);
    }

    // ---- the rest of the environment -------------------------------------------------------

    method TimeoutAlarm(ac: bool)
      requires Idle()
      modifies this
      ensures Idle() && s.w == old(s.w) && s.r == old(s.r) && old(trace) <= trace
      ensures ac ==> hostInactive == 0
      ensures !ac ==>
        hostInactive == if old(hostInactive) < INT_MAX - 2 then old(hostInactive) + 1 else old(hostInactive)
    {
      if ac {
        hostInactive := 0;
      } else if hostInactive < INT_MAX - 2 {
        hostInactive := hostInactive + 1;
      }
      Log(Tick(ac));
    }

    method HostActs()
      requires Valid() && IsrHonest(s)
      modifies this`s, this`trace, this`rxFifo, this`txFifo
      ensures Valid() && IsrHonest(s) && Passive() && s.isr == old(s.isr)
    {
      hide Inv, Run;
      var b: byte, send: bool := *, *;
      if send {
        if |rxFifo| < c.rxDepth { rxFifo := rxFifo + [b]; }
        Log(HostSend(b));
      } else {
        if txFifo != [] { txFifo := txFifo[1..]; }
        Log(HostTake);
      }
    }

    /** Anything that can happen between two steps of a call. */
    method Preempt()
      requires Idle()
      modifies this, rxBuf, txBuf
      ensures Idle() && s.w == old(s.w) && s.r == old(s.r) && old(trace) <= trace
    {
      var n: nat := *;
      while n > 0
        invariant Idle() && s.w == old(s.w) && s.r == old(s.r) && old(trace) <= trace
        decreases n
      {
        if {
          case true => Irq();
          case true => var ac: bool := *; TimeoutAlarm(ac);
          case true => HostActs();
        }
        n := n - 1;
      }
    }

    // ---- calls -----------------------------------------------------------------------------

    /** Between two steps of a call: everything else may have moved, the call itself has not. */
    ghost predicate Writing(data: seq<byte>, nonblock: bool, ptr: nat, pc: WriterPc, base: seq<byte>)
      reads this, rxBuf, txBuf
    {
      && Idle() && s.w.data == data && s.w.nonblock == nonblock && s.w.moved == ptr && s.w.pc == pc && s.w.base == base
      && ptr <= |data|
    }

    /** write(): what it returns says exactly how much of `data` was accepted; a blocking call is short
        only if it saw host_inactive set. `patience` bounds how many polls are observed. */
    method Write(data: seq<byte>, nonblock: bool, patience: nat) returns (o: Outcome)
      requires Idle() && s.w.pc == WIdle
      modifies this, rxBuf, txBuf
      ensures Idle() && s.r == old(s.r) && old(trace) <= trace
      ensures o.Returned? && o.code.Moved? ==>
        && 0 < o.code.count <= |data| && s.tx.produced == old(s.tx.produced) + data[..o.code.count]
        && (o.code.count < |data| && !nonblock ==> s.w.sawInactive)
      ensures o.Returned? && !o.code.Moved? ==>
        && s.tx.produced == old(s.tx.produced) && (o.code == WouldBlock <==> nonblock)
        && (data != [] && !nonblock ==> s.w.sawInactive)
      ensures o.Returned? ==> o.code != Running && s.w.pc == WIdle && o.code == s.w.code
      ensures o.StillPolling? ==> !nonblock && s.w.pc == WSpinOut
      ensures s.w.data == data && s.w.nonblock == nonblock && s.w.moved == |s.tx.produced| - |old(s.tx.produced)|
      ensures s.w.moved < |data| ==> SawFull(c, start, trace, |old(trace)|)
    {
      hide Inv, Run, Step, JtagUart.Matches;
      ghost var base := s.tx.produced;
      BeginWrite(data, nonblock);
      ghost var begun := trace;
      var ptr: nat, fuel: nat := 0, patience;
      while true
        invariant Writing(data, nonblock, ptr, WTop, base) && s.r == old(s.r) && begun <= trace
        decreases fuel
      {
        var out;
        ptr, out := FillRing(data, nonblock, ptr, base);
        EnableTransmit(data, nonblock, ptr, base);
        if ptr == |data| || nonblock { break; }
        var polled;
        polled, fuel := AwaitSpace(data, ptr, out, fuel, base);
        if !polled {
          WriterResult(c, s);
          FullWasSeen(c, start, trace, begun, |old(trace)|);
          return StillPolling;
        }
        var inactive := SeesInactiveHost(data, ptr, base);
        if inactive { break; }
      }
      WriterResult(c, s);
      if ptr < |data| { FullWasSeen(c, start, trace, begun, |old(trace)|); }
      o := Returned(if ptr > 0 then Moved(ptr) else if nonblock then WouldBlock else IoError);
    }

    ghost method BeginWrite(data: seq<byte>, nonblock: bool)
      requires Idle() && s.w.pc == WIdle
      modifies this`s, this`trace
      ensures Writing(data, nonblock, 0, WTop, old(s.tx.produced)) && s.r == old(s.r) && old(trace) <= trace
      ensures !WriterStopped(Run(c, start, trace).w)
    {
      Log(WriteCall(data, nonblock));
    }

    /** The interrupts-off section of write, and its test for returning. */
    method EnableTransmit(data: seq<byte>, nonblock: bool, ptr: nat, ghost base: seq<byte>)
      requires Writing(data, nonblock, ptr, WEnable, base)
      modifies this, rxBuf, txBuf
      ensures Writing(data, nonblock, ptr, if ptr == |data| || nonblock then WIdle else WSpinOut, base)
      ensures s.r == old(s.r) && old(trace) <= trace && s.w.snapOut == old(s.w.snapOut)
      ensures s.w.pc == WIdle ==>
        s.w.code == (if ptr > 0 then Moved(ptr) else if nonblock then WouldBlock else IoError)
    {
      hide Inv, Run;
      Preempt();
      we := true;
      Log(WriterStep);
    }

    method SeesInactiveHost(data: seq<byte>, ptr: nat, ghost base: seq<byte>) returns (inactive: bool)
      requires Writing(data, false, ptr, WCheckHost, base)
      modifies this, rxBuf, txBuf
      ensures Writing(data, false, ptr, if inactive then WIdle else WTop, base)
      ensures s.r == old(s.r) && old(trace) <= trace
      ensures inactive ==> s.w.code == if ptr > 0 then Moved(ptr) else IoError
    {
      hide Inv, Run;
      Preempt();
      inactive := hostInactive != 0;
      Log(WriterStep);
    }

    /** The inner loop of write: copy as much as fits. `out` is the index the polling compares with. */
    method FillRing(data: seq<byte>, ghost nonblock: bool, ptr0: nat, ghost base: seq<byte>)
      returns (ptr: nat, out: nat)
      requires Writing(data, nonblock, ptr0, WTop, base)
      modifies this, rxBuf, txBuf
      ensures Writing(data, nonblock, ptr, WEnable, base) && s.r == old(s.r) && old(trace) <= trace
      ensures ptr < |data| ==> s.w.snapOut == out
    {
      hide Inv, Run;
      ptr, out := ptr0, 0;
      while ptr < |data|
        invariant Writing(data, nonblock, ptr, WTop, base) && s.r == old(s.r) && old(trace) <= trace
      {
        Preempt();
        var in_ := txIn;
        out := txOut;
        var n := if in_ < out then out - 1 - in_ else if out > 0 then c.len - in_ else c.len - 1 - in_;
        Log(WriterStep);
        if n == 0 { return; }
        if n > |data| - ptr { n := |data| - ptr; }
        CopyBlock(data, nonblock, ptr, in_, n, base);
        ptr := ptr + n;
      }
      Log(WriterStep);
    }

    /** memcpy into the ring, byte by byte under interrupts, then the store that publishes the block. */
    method CopyBlock(data: seq<byte>, ghost nonblock: bool, ptr: nat, in_: nat, n: nat, ghost base: seq<byte>)
      requires Writing(data, nonblock, ptr, WCopy, base)
      requires s.w.snapIn == in_ && s.w.n == n && s.w.j == 0 && ptr + n <= |data|
      modifies this, rxBuf, txBuf
      ensures Writing(data, nonblock, ptr + n, WTop, base) && s.r == old(s.r) && old(trace) <= trace
    {
      hide Inv, Run;
      var j := 0;
      while j < n
        invariant j <= n && Writing(data, nonblock, ptr, WCopy, base) && s.r == old(s.r) && old(trace) <= trace
        invariant s.w.snapIn == in_ && s.w.n == n && s.w.j == j
      {
        Preempt();
        txBuf[in_ + j] := data[ptr + j];
        assert txBuf[..] == s.tx.buf[in_ + j := data[ptr + j]];
        Log(WriterStep);
        j := j + 1;
      }
      Preempt();
      txIn := (in_ + n) % c.len;
      Log(WriterStep);
    }

    /** Polls until the consumer index has moved or the host is timed out; false when patience ends. */
    method AwaitSpace(data: seq<byte>, ptr: nat, out: nat, fuel0: nat, ghost base: seq<byte>)
        returns (polled: bool, fuel: nat)
      requires Writing(data, false, ptr, WSpinOut, base) && s.w.snapOut == out
      modifies this, rxBuf, txBuf
      ensures Writing(data, false, ptr, if polled then WCheckHost else WSpinOut, base)
      ensures s.r == old(s.r) && old(trace) <= trace && (polled ==> fuel < fuel0)
    {
      hide Inv, Run;
      fuel := fuel0;
      while fuel > 0
        invariant Writing(data, false, ptr, WSpinOut, base) && s.w.snapOut == out
        invariant s.r == old(s.r) && old(trace) <= trace && fuel <= fuel0
      {
        fuel := fuel - 1;
        Preempt();
        var moved := out != txOut;
        Log(WriterStep);
        if moved { return true, fuel; }
        Preempt();
        var timedOut := hostInactive >= timeout;
        Log(WriterStep);
        if timedOut { return true, fuel; }
      }
      polled := false;
    }

    ghost predicate Reading(space: nat, nonblock: bool, got: seq<byte>, pc: ReaderPc, base: seq<byte>)
      reads this, rxBuf, txBuf
    {
      && Idle() && s.r.space == space && s.r.nonblock == nonblock && s.r.got == got && s.r.pc == pc && s.r.base == base
    }

    /** A step of the reader that touches nothing but its own locals. */
    ghost method ReaderMoves()
      requires Idle() && s.r.pc in {RTop, RAfter, RSpinIn, RSpinHost, RRecheck}
      modifies this`s, this`trace
      ensures Idle() && s == old(s).(r := ReaderNext(c, old(s).rx, old(s).host, old(s).r).1) && old(trace) <= trace
    {
      Log(ReaderStep);
    }

    /** The caller's buffer holds `got` at its start and is otherwise as it was. */
    twostate predicate Stored(buffer: array<byte>, got: seq<byte>)
      reads buffer
    {
      |got| <= buffer.Length && buffer[..|got|] == got && buffer[|got|..] == old(buffer[|got|..])
    }

    /** read(): the bytes it stores are the next bytes delivered, and it stores nothing else. */
    method Read(buffer: array<byte>, space: nat, nonblock: bool, patience: nat) returns (o: Outcome)
      requires Idle() && s.r.pc == RIdle
      requires space <= buffer.Length && buffer != rxBuf && buffer != txBuf
      modifies this, rxBuf, txBuf, buffer
      ensures Idle() && s.w == old(s.w) && old(trace) <= trace
      ensures Stored(buffer, s.r.got) && s.rx.consumed == old(s.rx.consumed) + s.r.got
      ensures o.Returned? ==> s.r.pc == RIdle && o.code == s.r.code
      ensures o.Returned? ==>
        o.code == (if s.r.got != [] then Moved(|s.r.got|) else if nonblock then WouldBlock else IoError)
      ensures o == Returned(IoError) && space > 0 ==> s.r.sawTimeout
      ensures o.Returned? && s.r.got != [] ==> s.rx.enabled
      ensures o.StillPolling? ==> !nonblock && s.r.got == [] && s.r.pc == RSpinIn
      ensures s.r.space == space && s.r.nonblock == nonblock
      ensures |s.r.got| < space ==> SawEmpty(c, start, trace, |old(trace)|)
    {
      hide Inv, Run, Step;
      ghost var base := s.rx.consumed;
      BeginRead(space, nonblock);
      ghost var begun := trace;
      var stored: nat, fuel: nat, round := 0, patience, Again;
      while round == Again && space > 0
        invariant Reading(space, nonblock, s.r.got, if round == Again then RTop else RExit, base)
        invariant s.w == old(s.w) && begun <= trace && round != Polling && (space == 0 ==> round == Again)
        invariant stored == |s.r.got| && (round == Again ==> stored == 0 && buffer[..] == old(buffer[..]))
        invariant Stored(buffer, s.r.got)
        decreases round == Again, fuel
      {
        stored, fuel, round := ReadRound(buffer, space, nonblock, fuel, base);
        if round == Polling {
          ReaderResult(c, s);
          EmptyWasSeen(c, start, trace, begun, |old(trace)|);
          return StillPolling;
        }
      }
      FinishRead(space, nonblock, stored, base);
      ReaderResult(c, s);
      if stored < space { EmptyWasSeen(c, start, trace, begun, |old(trace)|); }
      o := Returned(if stored != 0 then Moved(stored) else if nonblock then WouldBlock else IoError);
    }

    ghost method BeginRead(space: nat, nonblock: bool)
      requires Idle() && s.r.pc == RIdle
      modifies this`s, this`trace
      ensures Reading(space, nonblock, [], RTop, old(s.rx.consumed)) && s.w == old(s.w) && old(trace) <= trace
      ensures !ReaderStopped(Run(c, start, trace).r)
    {
      Log(ReadCall(space, nonblock));
    }

    /** The end of read: if space was freed, the interrupts-off section that enables RE. */
    method FinishRead(space: nat, nonblock: bool, stored: nat, ghost base: seq<byte>)
      requires Reading(space, nonblock, s.r.got, if space == 0 then RTop else RExit, base) && stored == |s.r.got|
      requires space == 0 ==> stored == 0
      modifies this, rxBuf, txBuf
      ensures Reading(space, nonblock, old(s.r.got), RIdle, base) && s.w == old(s.w) && old(trace) <= trace
      ensures s.r.code == if stored != 0 then Moved(stored) else if nonblock then WouldBlock else IoError
      ensures stored != 0 ==> s.rx.enabled
    {
      hide Inv, Run;
      if space == 0 { Log(ReaderStep); }
      Preempt();
      if stored != 0 { re := true; }
      Log(ReaderStep);
    }

    /** One turn of the outer loop of read. */
    method ReadRound(buffer: array<byte>, space: nat, nonblock: bool, fuel0: nat, ghost base: seq<byte>)
        returns (stored: nat, fuel: nat, round: Round)
      requires Reading(space, nonblock, [], RTop, base) && 0 < space
      requires space <= buffer.Length && buffer != rxBuf && buffer != txBuf
      modifies this, rxBuf, txBuf, buffer
      ensures s.w == old(s.w) && old(trace) <= trace && Stored(buffer, s.r.got) && stored == |s.r.got|
      ensures Reading(space, nonblock, s.r.got,
        match round case Finish => RExit case Again => RTop case Polling => RSpinIn, base)
      ensures round == Again ==> fuel < fuel0 && stored == 0 && buffer[..] == old(buffer[..])
      ensures round == Polling ==> !nonblock && stored == 0
    {
      hide Inv, Run, Step;
      ReaderMoves();
      var in_;
      stored, in_ := DrainRing(buffer, space, nonblock, base);
      fuel := fuel0;
      ReaderMoves();
      if stored != 0 || nonblock { return stored, fuel, Finish; }
      var polled;
      polled, fuel := AwaitData(space, in_, fuel0, base);
      if !polled { return stored, fuel, Polling; }
      Preempt();
      round := if in_ == rxIn then Finish else Again;
      ReaderMoves();
    }

    /** The inner loop of read: take as much as there is. `in_` is the index the polling compares with. */
    method DrainRing(buffer: array<byte>, space: nat, ghost nonblock: bool, ghost base: seq<byte>)
        returns (stored: nat, in_: nat)
      requires Reading(space, nonblock, [], RSnap, base) && 0 < space
      requires space <= buffer.Length && buffer != rxBuf && buffer != txBuf
      modifies this, rxBuf, txBuf, buffer
      ensures Reading(space, nonblock, s.r.got, RAfter, base) && s.w == old(s.w) && old(trace) <= trace
      ensures Stored(buffer, s.r.got) && stored == |s.r.got| && (stored == 0 ==> s.r.snapIn == in_)
    {
      hide Inv, Run;
      stored, in_ := 0, 0;
      while true
        invariant Reading(space, nonblock, s.r.got, RSnap, base) && s.w == old(s.w) && old(trace) <= trace
        invariant Stored(buffer, s.r.got) && stored == |s.r.got| < space
        decreases space - stored
      {
        var out, n;
        in_, out, n := MeasureQueue(space, nonblock, space - stored, base);
        if n == 0 { break; }
        TakeBlock(buffer, space, nonblock, stored, out, n, base);
        stored := stored + n;
        if stored == space { break; }
      }
    }

    /** Stable copies of both indices, and the size of the block to take. */
    method MeasureQueue(ghost space: nat, ghost nonblock: bool, left: nat, ghost base: seq<byte>)
        returns (in_: nat, out: nat, n: nat)
      requires Reading(space, nonblock, s.r.got, RSnap, base) && 0 < left == space - |s.r.got|
      modifies this, rxBuf, txBuf
      ensures Reading(space, nonblock, old(s.r.got), if n == 0 then RAfter else RCopy, base)
      ensures s.w == old(s.w) && old(trace) <= trace
      ensures s.r.snapIn == in_ && s.r.snapOut == out && s.r.n == n <= left
      ensures n > 0 ==> s.r.part == []
    {
      hide Inv, Run;
      Preempt();
      in_ := rxIn;
      out := rxOut;
      n := if in_ >= out then in_ - out else c.len - out;
      if n > left { n := left; }
      Log(ReaderStep);
    }

    /** memcpy out of the ring under interrupts, then the store that frees the block. */
    method TakeBlock(buffer: array<byte>, space: nat, ghost nonblock: bool, stored: nat, out: nat, n: nat,
                     ghost base: seq<byte>)
      requires Reading(space, nonblock, s.r.got, RCopy, base) && stored == |s.r.got| && stored + n <= space
      requires s.r.snapOut == out && s.r.n == n && s.r.part == []
      requires space <= buffer.Length && buffer != rxBuf && buffer != txBuf
      requires buffer[..stored] == s.r.got
      modifies this, rxBuf, txBuf, buffer
      ensures Reading(space, nonblock, s.r.got, if stored + n < space then RSnap else RAfter, base)
      ensures s.w == old(s.w) && old(trace) <= trace && |s.r.got| == stored + n
      ensures buffer[..stored + n] == s.r.got && buffer[stored + n..] == old(buffer[stored + n..])
    {
      hide Inv, Run, Step;
      ghost var got := s.r.got;
      var j := 0;
      while j < n
        invariant j <= n && Reading(space, nonblock, got, RCopy, base) && s.w == old(s.w) && old(trace) <= trace
        invariant s.r.snapOut == out && s.r.n == n && |s.r.part| == j
        invariant buffer[..stored + j] == got + s.r.part
        invariant buffer[stored + n..] == old(buffer[stored + n..])
      {
        var b := TakeByte(space, nonblock, got, out + j, base);
        buffer[stored + j] := b;
        j := j + 1;
      }
      FreeBlock(space, nonblock, got, out, n, base);
    }

    /** One byte of the memcpy. */
    method TakeByte(ghost space: nat, ghost nonblock: bool, ghost got: seq<byte>, k: nat, ghost base: seq<byte>)
        returns (b: byte)
      requires Reading(space, nonblock, got, RCopy, base) && |s.r.part| < s.r.n && k == s.r.snapOut + |s.r.part|
      modifies this, rxBuf, txBuf
      ensures Reading(space, nonblock, got, RCopy, base) && s.w == old(s.w) && old(trace) <= trace
      ensures s.r == old(s.r).(part := old(s.r).part + [b])
    {
      hide Inv, Run;
      Preempt();
      b := rxBuf[k];
      Log(ReaderStep);
    }

    /** The store to rx_out. */
    method FreeBlock(ghost space: nat, ghost nonblock: bool, ghost got: seq<byte>, out: nat, n: nat,
                     ghost base: seq<byte>)
      requires Reading(space, nonblock, got, RCopy, base)
      requires s.r.snapOut == out && s.r.n == n == |s.r.part| && |got| + n <= space
      modifies this, rxBuf, txBuf
      ensures Reading(space, nonblock, s.r.got, if |got| + n < space then RSnap else RAfter, base)
      ensures s.w == old(s.w) && old(trace) <= trace && s.r.got == got + old(s.r.part)
    {
      hide Inv, Run;
      Preempt();
      rxOut := (out + n) % c.len;
      Log(ReaderStep);
    }

    /** Polls until the producer index has moved or the host is timed out; false when patience ends. */
    method AwaitData(space: nat, in_: nat, fuel0: nat, ghost base: seq<byte>) returns (polled: bool, fuel: nat)
      requires Reading(space, false, [], RSpinIn, base) && s.r.snapIn == in_
      modifies this, rxBuf, txBuf
      ensures Reading(space, false, [], if polled then RRecheck else RSpinIn, base) && s.r.snapIn == in_
      ensures s.w == old(s.w) && old(trace) <= trace && (polled ==> fuel < fuel0)
    {
      hide Inv, Run, Step;
      fuel := fuel0;
      while fuel > 0
        invariant Reading(space, false, [], RSpinIn, base) && s.r.snapIn == in_
        invariant s.w == old(s.w) && old(trace) <= trace && fuel <= fuel0
      {
        fuel := fuel - 1;
        Preempt();
        var moved := in_ != rxIn;
        ReaderMoves();
        if moved { return true, fuel; }
        Preempt();
        var timedOut := hostInactive >= timeout;
        ReaderMoves();
        if timedOut { return true, fuel; }
      }
      polled := false;
    }

    /** After these events there were bytes to send. */
    ghost predicate Queued(es: seq<Event>) {
      Bounds(c, start) && Run(c, start, es).tx.Queue() != []
    }

    lemma NothingQueued()
      requires Valid() && txOut == txIn
      ensures s.tx.consumed + s.tx.fifo == s.tx.produced
    {
    }

    lemma QueuedNow()
      requires Valid() && txOut != txIn
      ensures Queued(trace)
    {
      ContentsLength(s.tx.buf, s.tx.first, s.tx.end);
      hide Contents, Run, Inv;
    }

    /** close(): waits for the ring to empty; success means that it did, or that the host is gone, and a
        refusal that bytes were queued when it looked, after the events `seen`. */
    method Close(nonblock: bool, patience: nat) returns (o: Outcome, ghost seen: seq<Event>)
      requires Idle() && s.w.pc == WIdle
      modifies this, rxBuf, txBuf
      ensures Idle() && s.w == old(s.w) && s.r == old(s.r) && old(trace) <= trace
      ensures o == Returned(Moved(0)) ==> s.tx.consumed + s.tx.fifo == s.tx.produced || hostInactive >= timeout
      ensures o.Returned? ==> o.code == Moved(0) || (o.code == WouldBlock && nonblock)
      ensures o == Returned(WouldBlock) ==> old(trace) <= seen <= trace && Queued(seen)
    {
      hide Run, Inv, JtagUart.Queued;
      var fuel := patience;
      seen := trace;
      while fuel > 0
        invariant Idle() && s.w == old(s.w) && s.r == old(s.r) && old(trace) <= trace
      {
        fuel := fuel - 1;
        Preempt();
        if txOut == txIn {
          NothingQueued();
          return Returned(Moved(0)), seen;
        }
        seen := trace;
        QueuedNow();
        Preempt();
        if hostInactive >= timeout { return Returned(Moved(0)), seen; }
        if nonblock { return Returned(WouldBlock), seen; }
      }
      o := StillPolling;
    }

    /** ioctl(): both requests are refused for good once the timeout is INT_MAX. */
    method Ioctl(req: IoctlRequest) returns (reply: IoctlReply)
      requires Idle()
      modifies this
      ensures Idle() && s.w == old(s.w) && s.r == old(s.r) && old(trace) <= trace
      ensures timeout == if req.SetTimeoutRequest? && old(timeout) != INT_MAX
        then (if 2 <= req.arg < INT_MAX then req.arg else INT_MAX - 1) else old(timeout)
      ensures reply.NotTty? <==> req.OtherRequest? || old(timeout) == INT_MAX
      ensures reply.Done? <==> req.SetTimeoutRequest? && old(timeout) != INT_MAX
      ensures reply.Connected? ==> (reply.yes <==> hostInactive < timeout)
    {
      reply := NotTty;
      match req
      case SetTimeoutRequest(arg) =>
        if timeout != INT_MAX {
          timeout := if arg >= 2 && arg < INT_MAX then arg else INT_MAX - 1;
          reply := Done;
        }
        Log(SetTimeout(arg));
      case GetConnectedRequest =>
        if timeout != INT_MAX { reply := Connected(hostInactive < timeout); }
      case OtherRequest =>
    }
  }
}
