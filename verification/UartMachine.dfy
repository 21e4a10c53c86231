/** The JTAG UART fast driver as a machine of interleaved steps. The writer, the reader and the
    interrupt routine each have a program counter; a step is one access to the shared state, so the
    interrupt routine can run between any two main-line steps (even between two bytes of a
    memcpy), and the host can act between any two steps at all. */
module UartMachine {
  import opened Ring

  newtype byte = x: int | 0 <= x < 256

  const INT_MAX: nat := 0x7FFF_FFFF

  /** Buffer length of both rings, and the depths of the two hardware FIFOs. */
  datatype Config = Config(len: nat, rxDepth: nat, txDepth: nat) {
    predicate Ok() { len > 0 && rxDepth > 0 && txDepth > 0 }
  }

  /** One direction of the driver: its ring, its interrupt enable bit and its hardware FIFO.
      `produced` and `consumed` are histories of all that went in at one end (from write calls, or
      from the host) and came out at the other (at the host, or from read calls). */
  datatype Channel = Channel(buf: seq<byte>, end: nat, first: nat, enabled: bool, fifo: seq<byte>,
    produced: seq<byte>, consumed: seq<byte>)
  {
    predicate Fits(len: nat) { |buf| == len && end < len && first < len }

    function Queue(): seq<byte>
      requires Fits(|buf|)
    {
      Contents(buf, first, end)
    }
  }

  /** What a call returns; `Running` while it has not returned. */
  datatype Code = Running | Moved(count: nat) | WouldBlock | IoError

  datatype WriterPc = WIdle | WTop | WCopy | WEnable | WSpinOut | WSpinHost | WCheckHost

  /** `moved` is ptr - start. `dirty` is set between a store to tx_in and the next WE enable,
      `sawInactive` once host_inactive was read nonzero, and `base` is the history of accepted
      bytes when the call began. */
  datatype Writer = Writer(pc: WriterPc, data: seq<byte>, nonblock: bool, moved: nat,
    snapIn: nat, snapOut: nat, n: nat, j: nat, dirty: bool, sawInactive: bool, base: seq<byte>, code: Code)

  datatype ReaderPc = RIdle | RTop | RSnap | RCopy | RAfter | RSpinIn | RSpinHost | RRecheck | RExit

  /** `got` is what the call has stored in the caller's buffer and released from the ring, `part`
      the bytes of the block being copied. */
  datatype Reader = Reader(pc: ReaderPc, space: nat, nonblock: bool, got: seq<byte>, part: seq<byte>,
    snapIn: nat, snapOut: nat, n: nat, sawTimeout: bool, base: seq<byte>, code: Code)

  /** `avail` is whether the last data register read (or the initial assumption) says that more
      bytes wait in the receive FIFO; `wi` and `space` are the control register snapshot. */
  datatype Isr = Quiet | Control
    | Rx(avail: bool, wi: bool, space: nat) | RxEnd(avail: bool, wi: bool, space: nat)
    | Tx(space: nat) | TxEnd(space: nat)

  /** host_inactive, and the timeout it is compared with. */
  datatype HostWatch = HostWatch(inactive: nat, timeout: nat) {
    predicate TimedOut() { inactive >= timeout }
  }

  datatype State = State(tx: Channel, rx: Channel, host: HostWatch, w: Writer, r: Reader, isr: Isr)

  datatype Event =
    | WriteCall(data: seq<byte>, nonblock: bool) | WriterStep
    | ReadCall(space: nat, nonblock: bool) | ReaderStep
    | SetTimeout(arg: int)
    | IrqEnter | IrqStep(ri: bool, wi: bool)
    | Tick(ac: bool)
    | HostSend(b: byte) | HostTake

  function EmptyChannel(len: nat, enabled: bool): Channel {
    Channel(seq(len, _ => 0), 0, 0, enabled, [], [], [])
  }

  /** The state after initialisation; a failed alarm start records the timeout INT_MAX. */
  function Init(c: Config, defaultTimeout: nat, alarmStarted: bool): State {
    State(EmptyChannel(c.len, false), EmptyChannel(c.len, true),
          HostWatch(0, if alarmStarted then defaultTimeout else INT_MAX),
          Writer(WIdle, [], false, 0, 0, 0, 0, 0, false, false, [], Running),
          Reader(RIdle, 0, false, [], [], 0, 0, 0, false, [], Running),
          Quiet)
  }

  /** What makes every buffer access of a call lie inside its buffers. */
  predicate WriterFits(c: Config, tx: Channel, w: Writer) {
    && tx.Fits(c.len)
    && w.moved <= |w.data|
    && (w.pc == WCopy ==> w.j <= w.n && w.moved + w.n <= |w.data| && w.snapIn + w.n <= c.len)
  }

  predicate ReaderFits(c: Config, rx: Channel, r: Reader) {
    && rx.Fits(c.len)
    && |r.got| <= r.space
    && (r.pc == RCopy ==> |r.part| <= r.n && |r.got| + r.n <= r.space && r.snapOut + r.n <= c.len)
  }

  predicate Bounds(c: Config, s: State) {
    c.Ok() && WriterFits(c, s.tx, s.w) && ReaderFits(c, s.rx, s.r)
  }

  function Min(a: nat, b: nat): nat { if a < b then a else b }

  // ---- write -------------------------------------------------------------------------------

  function WriterReturn(w: Writer): Writer {
    w.(pc := WIdle,
       code := if w.moved > 0 then Moved(w.moved) else if w.nonblock then WouldBlock else IoError)
  }

  /** Stable copies of both indices, and the size of the block they allow. */
  function WriterSnap(c: Config, tx: Channel, w: Writer): (w': Writer)
    requires WriterFits(c, tx, w) && w.pc == WTop && w.moved < |w.data|
    ensures WriterFits(c, tx, w')
  {
    var n := PutRoom(c.len, tx.first, tx.end);
    var w1 := w.(snapIn := tx.end, snapOut := tx.first);
    if n == 0 then w1.(pc := WEnable, n := 0)
    else w1.(pc := WCopy, n := Min(n, |w.data| - w.moved), j := 0)
  }

  /** The main-line code of write, one access to the shared state at a time. */
  function WriterNext(c: Config, tx: Channel, host: HostWatch, w: Writer): (p: (Channel, Writer))
    requires WriterFits(c, tx, w)
    ensures WriterFits(c, p.0, p.1)
  {
    match w.pc
    case WIdle => (tx, w)
    case WTop => (tx, if w.moved == |w.data| then w.(pc := WEnable) else WriterSnap(c, tx, w))
    case WCopy =>
      if w.j < w.n then
        (tx.(buf := tx.buf[w.snapIn + w.j := w.data[w.moved + w.j]]), w.(j := w.j + 1))
      else
        (tx.(end := Wrap(c.len, w.snapIn + w.n), produced := tx.produced + w.data[w.moved..w.moved + w.n]),
         w.(pc := WTop, moved := w.moved + w.n, dirty := true))
    case WEnable =>
      var w1 := w.(dirty := false);
      (tx.(enabled := true), if w.moved == |w.data| || w.nonblock then WriterReturn(w1) else w1.(pc := WSpinOut))
    case WSpinOut => (tx, w.(pc := if w.snapOut != tx.first then WCheckHost else WSpinHost))
    case WSpinHost => (tx, w.(pc := if host.TimedOut() then WCheckHost else WSpinOut))
    case WCheckHost =>
      (tx, if host.inactive != 0 then WriterReturn(w.(sawInactive := true)) else w.(pc := WTop))
  }

  // ---- read --------------------------------------------------------------------------------

  function ReaderReturn(r: Reader): Reader {
    r.(pc := RIdle,
       code := if r.got != [] then Moved(|r.got|) else if r.nonblock then WouldBlock else IoError)
  }

  function ReaderSnap(c: Config, rx: Channel, r: Reader): (r': Reader)
    requires ReaderFits(c, rx, r) && r.pc == RSnap
    ensures ReaderFits(c, rx, r')
  {
    var n := TakeRoom(c.len, rx.first, rx.end);
    var r1 := r.(snapIn := rx.end, snapOut := rx.first);
    if n == 0 then r1.(pc := RAfter, n := 0)
    else r1.(pc := RCopy, n := Min(n, r.space - |r.got|), part := [])
  }

  /** The main-line code of read. */
  function ReaderNext(c: Config, rx: Channel, host: HostWatch, r: Reader): (p: (Channel, Reader))
    requires ReaderFits(c, rx, r)
    ensures ReaderFits(c, p.0, p.1)
  {
    match r.pc
    case RIdle => (rx, r)
    case RTop => (rx, r.(pc := if r.space > |r.got| then RSnap else RExit))
    case RSnap => (rx, ReaderSnap(c, rx, r))
    case RCopy =>
      if |r.part| < r.n then (rx, r.(part := r.part + [rx.buf[r.snapOut + |r.part|]]))
      else
        var got := r.got + r.part;
        (rx.(first := Wrap(c.len, r.snapOut + r.n), consumed := rx.consumed + r.part),
         r.(got := got, part := [], pc := if r.space > |got| then RSnap else RAfter))
    case RAfter => (rx, r.(pc := if r.got != [] || r.nonblock then RExit else RSpinIn))
    case RSpinIn => (rx, r.(pc := if r.snapIn != rx.end then RRecheck else RSpinHost))
    case RSpinHost => (rx, if host.TimedOut() then r.(pc := RRecheck, sawTimeout := true) else r.(pc := RSpinIn))
    case RRecheck => (rx, r.(pc := if r.snapIn == rx.end then RExit else RTop))
    case RExit => (if r.got != [] then rx.(enabled := true) else rx, ReaderReturn(r))
  }

  // ---- interrupt routine -------------------------------------------------------------------

  /** A data register read takes a byte from the receive FIFO for good, so the routine stops on a
      full ring before reading. One turn of the receive loop; the result says whether it goes on, and
      the RAVAIL it holds. */
  function RxTurn(c: Config, rx: Channel, avail: bool): (p: (Channel, bool, bool))
    requires rx.Fits(c.len)
    ensures p.0.Fits(c.len)
  {
    if Full(c.len, rx.first, rx.end) then (rx, false, avail)
    else if rx.fifo == [] then (rx, false, false)
    else
      (rx.(fifo := rx.fifo[1..], buf := rx.buf[rx.end := rx.fifo[0]], end := Wrap(c.len, rx.end + 1)),
       true, |rx.fifo| > 1)
  }

  /** The transmit FIFO drops a byte written to it when it is full. */
  function FifoWrite(depth: nat, fifo: seq<byte>, b: byte): seq<byte> {
    if |fifo| < depth then fifo + [b] else fifo
  }

  /** The body of the transmit loop. */
  function TxTurn(c: Config, tx: Channel): (tx': Channel)
    requires tx.Fits(c.len)
    ensures tx'.Fits(c.len)
  {
    tx.(fifo := FifoWrite(c.txDepth, tx.fifo, tx.buf[tx.first]), first := Wrap(c.len, tx.first + 1))
  }

  function TxSpace(c: Config, tx: Channel): nat {
    if |tx.fifo| <= c.txDepth then c.txDepth - |tx.fifo| else 0
  }

  /** One step of the routine. `ri` and `wi` are the pending bits the device shows if this step
      reads the control register; nothing is assumed about them here. */
  function IsrNext(c: Config, s: State, ri: bool, wi: bool): (s': State)
    requires Bounds(c, s)
    ensures Bounds(c, s') && s'.w == s.w && s'.r == s.r && s'.host == s.host
  {
    match s.isr
    case Quiet => s
    case Control =>
      s.(isr := if ri then Rx(true, wi, TxSpace(c, s.tx)) else if wi then Tx(TxSpace(c, s.tx)) else Quiet)
    case Rx(avail, w, space) =>
      var (rx, again, avail') := RxTurn(c, s.rx, avail);
      s.(rx := rx, isr := if again then Rx(avail', w, space) else RxEnd(avail', w, space))
    case RxEnd(avail, w, space) =>
      s.(rx := if avail then s.rx.(enabled := false) else s.rx, isr := if w then Tx(space) else Control)
    case Tx(space) =>
      if space > 0 && s.tx.first != s.tx.end then s.(tx := TxTurn(c, s.tx), isr := Tx(space - 1))
      else s.(isr := TxEnd(space))
    case TxEnd(space) =>
      s.(tx := if space > 0 then s.tx.(enabled := false) else s.tx, isr := Control)
  }

  // ---- host, alarm and ioctl ---------------------------------------------------------------

  /** The alarm callback: activity seen by the device resets the count, which saturates. */
  function TickNext(host: HostWatch, ac: bool): HostWatch {
    if ac then host.(inactive := 0)
    else if host.inactive < INT_MAX - 2 then host.(inactive := host.inactive + 1)
    else host
  }

  predicate TimeoutArgOk(arg: int) { 2 <= arg < INT_MAX }

  /** The TIOCSTIMEOUT request. */
  function SetTimeoutNext(host: HostWatch, arg: int): HostWatch {
    if host.timeout == INT_MAX then host
    else host.(timeout := if TimeoutArgOk(arg) then arg else INT_MAX - 1)
  }

  function HostSendNext(c: Config, rx: Channel, b: byte): Channel {
    if |rx.fifo| >= c.rxDepth then rx else rx.(fifo := rx.fifo + [b], produced := rx.produced + [b])
  }

  function HostTakeNext(tx: Channel): Channel {
    if tx.fifo == [] then tx else tx.(fifo := tx.fifo[1..], consumed := tx.consumed + [tx.fifo[0]])
  }

  /** Main-line steps and the timer interrupt wait while the routine runs. */
  predicate WaitsForIsr(e: Event) {
    !(e.IrqStep? || e.HostSend? || e.HostTake?)
  }

  /** One event. An event that cannot happen in `s` leaves it as it is: besides the waiting above,
      a call waits for the previous call of its kind, and the host for FIFO space or data. */
  function Step(c: Config, s: State, e: Event): (s': State)
    requires Bounds(c, s)
    ensures Bounds(c, s')
  {
    if WaitsForIsr(e) && s.isr != Quiet then s else
    match e
    case WriteCall(data, nonblock) =>
      if s.w.pc != WIdle then s
      else s.(w := Writer(WTop, data, nonblock, 0, 0, 0, 0, 0, false, false, s.tx.produced, Running))
    case WriterStep => var (tx, w) := WriterNext(c, s.tx, s.host, s.w); s.(tx := tx, w := w)
    case ReadCall(space, nonblock) =>
      if s.r.pc != RIdle then s
      else s.(r := Reader(RTop, space, nonblock, [], [], 0, 0, 0, false, s.rx.consumed, Running))
    case ReaderStep => var (rx, r) := ReaderNext(c, s.rx, s.host, s.r); s.(rx := rx, r := r)
    case SetTimeout(arg) => s.(host := SetTimeoutNext(s.host, arg))
    case IrqEnter => s.(isr := Control)
    case IrqStep(ri, wi) => IsrNext(c, s, ri, wi)
    case Tick(ac) => s.(host := TickNext(s.host, ac))
    case HostSend(b) => s.(rx := HostSendNext(c, s.rx, b))
    case HostTake => s.(tx := HostTakeNext(s.tx))
  }

  /** A whole run: any events in any order. */
  function Run(c: Config, s: State, es: seq<Event>): (s': State)
    requires Bounds(c, s)
    ensures Bounds(c, s')
  {
    if es == [] then s else Step(c, Run(c, s, es[..|es| - 1]), es[|es| - 1])
  }

  lemma {:induction false} RunAppend(c: Config, s: State, es: seq<Event>, more: seq<Event>)
    requires Bounds(c, s)
    ensures Run(c, s, es + more) == Run(c, Run(c, s, es), more)
  {
    if more == [] {
      assert es + more == es;
    } else {
      var k := |more| - 1;
      assert (es + more)[..|es + more| - 1] == es + more[..k];
      RunAppend(c, s, es, more[..k]);
    }
  }
}
