/** The Avalon DMA driver: two descriptor rings feeding one engine, the main-line calls (send, prepare,
    space and ioctl) as single accesses to the shared state, and the completion interrupt between any
    two of them. Accesses are taken together only in the launch routine and in the switch of ioctl,
    whose first access is made with no transfer in flight in all runs that keep the discipline below,
    so that no interrupt can come before the last. */
module DmaMachine {
  import opened Ring
  import opened Machine32

  /** A descriptor; `done` is false for a null callback. Receive descriptors have the same shape. */
  datatype Slot = Slot(addr: u32, len: u32, done: bool, handle: int)

  /** One ring, with the histories of the accepted descriptors and of how many were completed. */
  datatype Queue = Queue(buf: seq<Slot>, first: nat, end: nat, posted: seq<Slot>, popped: nat) {
    predicate Fits(slots: nat) { |buf| == slots && first < slots && end < slots }

    predicate Empty() { first == end }

    predicate Full(slots: nat)
      requires Fits(slots)
    {
      Ring.Full(slots, first, end)
    }

    function Pending(): seq<Slot>
      requires Fits(|buf|)
    {
      Contents(buf, first, end)
    }

    function Head(): Slot
      requires Fits(|buf|)
    {
      buf[first]
    }
  }

  datatype Side = Send | Receive

  datatype Launcher = Bidir | TxOnly | RxOnly

  /** `width` is the transfer size in bytes (the alignment mask plus one). */
  datatype Mode = Mode(width: nat, txStream: bool, rxStream: bool, launcher: Launcher, maxLength: u32)

  /** The registers of the engine; writing `length` starts a transfer. `overlap` is set if that ever
      happens while one is in flight. */
  datatype Engine = Engine(raddr: u32, waddr: u32, length: u32, busy: bool, overlap: bool,
    width: nat, rcon: bool, wcon: bool)

  datatype Transfer = Transfer(source: u32, dest: u32, length: u32)
  datatype Callback = TxDone(handle: int) | RxDone(handle: int, data: u32)

  datatype Request =
    | TxStreamOn(arg: u32) | TxStreamOff | RxStreamOn(arg: u32) | RxStreamOff
    | SetWidth(bytes: nat) | Unknown

  /** `NotRun` until a call has returned; `Room` is the answer of space(). */
  datatype Code = NotRun | Ok | Invalid | NoSpace | Busy | NotTty | Room(count: int)

  /** The next access of the call under way: of send and prepare, of ioctl, and of space(). */
  datatype Pc =
    | Idle
    | SnapStart | SnapEnd | Fill | Publish | Test | Launch | Registers | Go
    | GuardTxStart | GuardTxEnd | GuardRxStart | GuardRxEnd | GuardLength | Switch
    | RoomStart | RoomEnd

  /** `start` and `end` are the indices loaded so far, `popped` how many descriptors of the ring had been
      completed when `start` was loaded, and `filled` how many fields of the slot are stored. */
  datatype Call = Call(pc: Pc, side: Side, slot: Slot, req: Request, start: nat, end: nat, popped: nat,
    filled: nat, code: Code)

  datatype State = State(tx: Queue, rx: Queue, mode: Mode, active: bool, engine: Engine, call: Call,
    transfers: seq<Transfer>, callbacks: seq<Callback>)

  datatype Post = Post(side: Side, slot: Slot)

  /** The posts of an interrupt are what the two callbacks it makes put on the rings. */
  datatype Event =
    | PostCall(post: Post) | IoctlCall(req: Request) | SpaceCall | CallStep
    | Interrupt(txPosts: seq<Post>, rxPosts: seq<Post>)

  function EmptyQueue(slots: nat): Queue {
    Queue(seq(slots, _ => EMPTY), 0, 0, [], 0)
  }

  /** As the instance macro and the initialisation leave it: 32-bit memory to memory. */
  function Init(slots: nat, maxLength: u32): State {
    State(EmptyQueue(slots), EmptyQueue(slots), Mode(4, false, false, Bidir, maxLength), false,
          Engine(0, 0, 0, false, false, 4, false, false),
          NewCall(Idle, Send, EMPTY, Unknown), [], [])
  }

  const EMPTY := Slot(0, 0, false, 0)

  function NewCall(pc: Pc, side: Side, slot: Slot, req: Request): Call {
    Call(pc, side, slot, req, 0, 0, 0, 0, NotRun)
  }

  predicate Fits(slots: nat, s: State) {
    && slots >= 2 && s.tx.Fits(slots) && s.rx.Fits(slots) && s.mode.width > 0
    && (s.call.pc in {Fill, Publish} ==> s.call.end < slots)
  }

  // ---- launching ---------------------------------------------------------------------------

  /** The test of the current launch routine. */
  predicate CanLaunch(s: State) {
    match s.mode.launcher
    case Bidir => !s.tx.Empty() && !s.rx.Empty()
    case TxOnly => !s.tx.Empty()
    case RxOnly => !s.rx.Empty()
  }

  function MinLen(a: u32, b: u32): u32 { if a > b then b else a }

  /** The transfer the current launch routine programs; an address it does not write stays. */
  function Programmed(slots: nat, s: State): Transfer
    requires Fits(slots, s)
  {
    match s.mode.launcher
    case Bidir => Transfer(s.tx.Head().addr, s.rx.Head().addr, MinLen(s.tx.Head().len, s.rx.Head().len))
    case TxOnly => Transfer(s.tx.Head().addr, s.engine.waddr, s.tx.Head().len)
    case RxOnly => Transfer(s.engine.raddr, s.rx.Head().addr, s.rx.Head().len)
  }

  function WriteAddresses(slots: nat, s: State): (s': State)
    requires Fits(slots, s)
    ensures Fits(slots, s')
  {
    var t := Programmed(slots, s);
    s.(engine := s.engine.(raddr := t.source, waddr := t.dest))
  }

  function WriteLength(slots: nat, s: State): (s': State)
    requires Fits(slots, s)
    ensures Fits(slots, s')
  {
    var length := Programmed(slots, s).length;
    s.(engine := s.engine.(length := length, busy := true, overlap := s.engine.overlap || s.engine.busy),
       transfers := s.transfers + [Transfer(s.engine.raddr, s.engine.waddr, length)])
  }

  /** The launch routine run at once, as the interrupt routine and a callback's post do. */
  function LaunchNow(slots: nat, s: State): (s': State)
    requires Fits(slots, s)
    ensures Fits(slots, s') && s'.tx == s.tx && s'.rx == s.rx && s'.mode == s.mode && s'.call == s.call
    ensures s'.callbacks == s.callbacks
  {
    if CanLaunch(s) then WriteLength(slots, WriteAddresses(slots, s.(active := true))) else s.(active := false)
  }

  // ---- posting -----------------------------------------------------------------------------

  predicate Aligned(x: u32, width: nat)
    requires width > 0
  {
    x % width == 0
  }

  /** The argument check of send and prepare. */
  predicate Acceptable(mode: Mode, slot: Slot)
    requires mode.width > 0
  {
    Aligned(slot.addr, mode.width) && Aligned(slot.len, mode.width) && slot.len <= mode.maxLength
  }

  function QueueOf(s: State, side: Side): Queue { if side == Send then s.tx else s.rx }

  function WithQueue(s: State, side: Side, q: Queue): State {
    if side == Send then s.(tx := q) else s.(rx := q)
  }

  function StoreSlot(q: Queue, k: nat, slot: Slot): Queue
    requires k < |q.buf|
  {
    q.(buf := q.buf[k := slot])
  }

  function Advance(q: Queue, slot: Slot): Queue
    requires q.Fits(|q.buf|)
  {
    q.(end := Wrap(|q.buf|, q.end + 1), posted := q.posted + [slot])
  }

  /** send or prepare run to its end, as in a callback. */
  function PostNow(slots: nat, s: State, p: Post): (s': State)
    requires Fits(slots, s)
    ensures Fits(slots, s') && s'.mode == s.mode && s'.callbacks == s.callbacks && s'.call == s.call
  {
    var q := QueueOf(s, p.side);
    if !Acceptable(s.mode, p.slot) || q.Full(slots) then s
    else
      var s1 := WithQueue(s, p.side, Advance(StoreSlot(q, q.end, p.slot), p.slot));
      if s1.active then s1 else LaunchNow(slots, s1)
  }

  function PostAll(slots: nat, s: State, ps: seq<Post>): (s': State)
    requires Fits(slots, s)
    ensures Fits(slots, s') && s'.mode == s.mode && s'.callbacks == s.callbacks && s'.call == s.call
    decreases |ps|
  {
    if ps == [] then s else PostAll(slots, PostNow(slots, s, ps[0]), ps[1..])
  }

  // ---- the switch of ioctl --------------------------------------------------------------------

  predicate WidthOk(bytes: nat) { bytes in {1, 2, 4, 8, 16} }

  function SetControl(s: State): State {
    s.(engine := s.engine.(width := s.mode.width, rcon := s.mode.txStream,
                           wcon := !s.mode.txStream && s.mode.rxStream))
  }

  /** The mode a request asks for, if it can be had. */
  function ModeAfter(mode: Mode, req: Request): (Mode, Code) {
    match req
    case TxStreamOn(_) => if mode.rxStream then (mode, Busy) else (mode.(txStream := true, launcher := RxOnly), Ok)
    case TxStreamOff => (mode.(txStream := false, launcher := Bidir), Ok)
    case RxStreamOn(_) => if mode.txStream then (mode, Busy) else (mode.(rxStream := true, launcher := TxOnly), Ok)
    case RxStreamOff => (mode.(rxStream := false, launcher := Bidir), Ok)
    case SetWidth(bytes) => if WidthOk(bytes) then (mode.(width := bytes), Ok) else (mode, NotTty)
    case Unknown => (mode, NotTty)
  }

  /** What ioctl does once its guard has passed. */
  function SwitchNext(s: State, req: Request): (State, Code) {
    var (mode, code) := ModeAfter(s.mode, req);
    if code != Ok then (s, code)
    else
      var e := s.engine.(raddr := if req.TxStreamOn? then req.arg else s.engine.raddr,
                         waddr := if req.RxStreamOn? then req.arg else s.engine.waddr);
      (SetControl(s.(mode := mode, engine := e)), Ok)
  }

  // ---- main-line calls ---------------------------------------------------------------------

  function Return(s: State, code: Code): State {
    s.(call := s.call.(pc := Idle, code := code))
  }

  function Goto(s: State, pc: Pc): State {
    s.(call := s.call.(pc := pc))
  }

  /** The load of a ring's start index. */
  function LoadStart(s: State, q: Queue, pc: Pc): State {
    s.(call := s.call.(pc := pc, start := q.first, popped := q.popped))
  }

  /** A slot after the first n of its four fields were stored. */
  function Fields(was: Slot, slot: Slot, n: nat): Slot {
    Slot(if n >= 1 then slot.addr else was.addr, if n >= 2 then slot.len else was.len,
         if n >= 3 then slot.done else was.done, if n >= 4 then slot.handle else was.handle)
  }

  function WithField(was: Slot, slot: Slot, n: nat): Slot {
    match n
    case 0 => was.(addr := slot.addr)
    case 1 => was.(len := slot.len)
    case 2 => was.(done := slot.done)
    case _ => was.(handle := slot.handle)
  }

  /** One access of send or prepare. */
  function PosterNext(slots: nat, s: State): (s': State)
    requires Fits(slots, s)
    ensures Fits(slots, s')
  {
    var p, q := s.call, QueueOf(s, s.call.side);
    match p.pc
    case SnapStart => LoadStart(s, q, SnapEnd)
    case SnapEnd =>
      if Wrap(slots, q.end + 1) == p.start then Return(s, NoSpace)
      else s.(call := p.(pc := Fill, end := q.end, filled := 0))
    case Fill =>
      var s1 := WithQueue(s, p.side, StoreSlot(q, p.end, WithField(q.buf[p.end], p.slot, p.filled)));
      s1.(call := p.(filled := p.filled + 1, pc := if p.filled < 3 then Fill else Publish))
    case Publish =>
      Goto(WithQueue(s, p.side, q.(end := Wrap(slots, p.end + 1), posted := q.posted + [p.slot])), Test)
    case Test => if s.active then Return(s, Ok) else Goto(s, Launch)
    case Launch => if CanLaunch(s) then Goto(s.(active := true), Registers) else Return(s.(active := false), Ok)
    case Registers => Goto(WriteAddresses(slots, s), Go)
    case Go => Return(WriteLength(slots, s), Ok)
    case _ => s
  }

  /** One access of ioctl; its guard makes five. */
  function IoctlNext(s: State): State {
    var p := s.call;
    match p.pc
    case GuardTxStart => LoadStart(s, s.tx, GuardTxEnd)
    case GuardTxEnd => if p.start != s.tx.end then Return(s, Busy) else Goto(s, GuardRxStart)
    case GuardRxStart => LoadStart(s, s.rx, GuardRxEnd)
    case GuardRxEnd => if p.start != s.rx.end then Return(s, Busy) else Goto(s, GuardLength)
    case GuardLength => if s.engine.length != 0 then Return(s, Busy) else Goto(s, Switch)
    case Switch => var (s', code) := SwitchNext(s, p.req); Return(s', code)
    case _ => s
  }

  /** One access of space(). */
  function SpaceNext(slots: nat, s: State): State {
    var p := s.call;
    match p.pc
    case RoomStart => LoadStart(s, s.tx, RoomEnd)
    case RoomEnd => Return(s, Room(Space(slots, p.start, s.tx.end)))
    case _ => s
  }

  /** The room computed from two indices. */
  function Space(slots: nat, first: nat, end: nat): int {
    if first > end then first - end - 1 else slots + first - end - 1
  }

  predicate InPost(pc: Pc) { pc in {SnapStart, SnapEnd, Fill, Publish, Test, Launch, Registers, Go} }
  predicate InGuard(pc: Pc) { pc in {GuardTxStart, GuardTxEnd, GuardRxStart, GuardRxEnd, GuardLength} }

  function CallNext(slots: nat, s: State): (s': State)
    requires Fits(slots, s)
    ensures Fits(slots, s')
  {
    if InPost(s.call.pc) then PosterNext(slots, s)
    else if InGuard(s.call.pc) || s.call.pc == Switch then IoctlNext(s)
    else SpaceNext(slots, s)
  }

  // ---- interrupt ---------------------------------------------------------------------------

  function Pop(q: Queue): Queue
    requires q.Fits(|q.buf|)
  {
    q.(first := Wrap(|q.buf|, q.first + 1), popped := q.popped + 1)
  }

  /** The transfer has ended; its descriptors leave the rings of the sides that are not streaming,
      and the next transfer is launched. */
  function Complete(slots: nat, s: State): (s': State)
    requires Fits(slots, s)
    ensures Fits(slots, s') && s'.mode == s.mode && s'.callbacks == s.callbacks && s'.call == s.call
  {
    var s1 := s.(engine := s.engine.(busy := false, length := 0),
                 tx := if s.mode.txStream then s.tx else Pop(s.tx),
                 rx := if s.mode.rxStream then s.rx else Pop(s.rx));
    LaunchNow(slots, s1)
  }

  /** The transmit callback, from the descriptor that stood at index k of the ring. */
  function CallTx(slots: nat, s: State, k: nat, posts: seq<Post>): (s': State)
    requires Fits(slots, s) && k < slots
    ensures Fits(slots, s') && s'.mode == s.mode
  {
    if s.mode.txStream || !s.tx.buf[k].done then s
    else PostAll(slots, s.(callbacks := s.callbacks + [TxDone(s.tx.buf[k].handle)]), posts)
  }

  function CallRx(slots: nat, s: State, k: nat, posts: seq<Post>): (s': State)
    requires Fits(slots, s) && k < slots
    ensures Fits(slots, s') && s'.mode == s.mode
  {
    if s.mode.rxStream || !s.rx.buf[k].done then s
    else PostAll(slots, s.(callbacks := s.callbacks + [RxDone(s.rx.buf[k].handle, s.rx.buf[k].addr)]), posts)
  }

  /** The interrupt routine; both descriptors are read from the rings only when they are called back. */
  function Serve(slots: nat, s: State, txPosts: seq<Post>, rxPosts: seq<Post>): (s': State)
    requires Fits(slots, s)
    ensures Fits(slots, s')
  {
    CallRx(slots, CallTx(slots, Complete(slots, s), s.tx.first, txPosts), s.rx.first, rxPosts)
  }

  // ---- runs --------------------------------------------------------------------------------

  /** One event. Main-line calls wait for each other and the interrupt needs a transfer in flight; an
      event that cannot happen leaves the state as it is. */
  function Step(slots: nat, s: State, e: Event): (s': State)
    requires Fits(slots, s)
    ensures Fits(slots, s')
  {
    match e
    case PostCall(p) =>
      if s.call.pc != Idle then s
      else if Acceptable(s.mode, p.slot) then s.(call := NewCall(SnapStart, p.side, p.slot, Unknown))
      else s.(call := NewCall(Idle, p.side, p.slot, Unknown).(code := Invalid))
    case IoctlCall(req) => if s.call.pc != Idle then s else s.(call := NewCall(GuardTxStart, Send, EMPTY, req))
    case SpaceCall => if s.call.pc != Idle then s else s.(call := NewCall(RoomStart, Send, EMPTY, Unknown))
    case CallStep => CallNext(slots, s)
    case Interrupt(txPosts, rxPosts) => if !s.engine.busy then s else Serve(slots, s, txPosts, rxPosts)
  }

  function Run(slots: nat, s: State, es: seq<Event>): (s': State)
    requires Fits(slots, s)
    ensures Fits(slots, s')
  {
    if es == [] then s else Step(slots, Run(slots, s, es[..|es| - 1]), es[|es| - 1])
  }

  /** n accesses of the call under way, with no interrupt between them. */
  function CallSteps(slots: nat, s: State, n: nat): (s': State)
    requires Fits(slots, s)
    ensures Fits(slots, s')
  {
    if n == 0 then s else CallNext(slots, CallSteps(slots, s, n - 1))
  }

  lemma {:induction false} CallStepsAreRun(slots: nat, s: State, n: nat)
    requires Fits(slots, s)
    ensures Run(slots, s, seq(n, _ => CallStep)) == CallSteps(slots, s, n)
  {
    hide CallNext;
    if n > 0 {
      CallStepsAreRun(slots, s, n - 1);
      assert Step(slots, CallSteps(slots, s, n - 1), CallStep) == CallNext(slots, CallSteps(slots, s, n - 1));
      hide Step;
      assert seq(n, _ => CallStep)[..n - 1] == seq(n - 1, _ => CallStep);
    }
  }

  lemma {:induction false} RunAppend(slots: nat, s: State, es: seq<Event>, more: seq<Event>)
    requires Fits(slots, s)
    ensures Run(slots, s, es + more) == Run(slots, Run(slots, s, es), more)
  {
    if more == [] {
      assert es + more == es;
    } else {
      var k := |more| - 1;
      assert (es + more)[..|es + more| - 1] == es + more[..k];
      RunAppend(slots, s, es, more[..k]);
    }
  }

  // ---- the discipline ----------------------------------------------------------------------

  /** The next access of send or prepare loses an accepted descriptor: it changes a field of one that is
      queued; or it publishes a descriptor that is not the next one of its ring, that finds no room, or
      that a callback's post has spoilt. */
  predicate Spoils(slots: nat, s: State)
    requires Fits(slots, s)
  {
    var p, q := s.call, QueueOf(s, s.call.side);
    || (p.pc == Fill && Occupied(q.first, q.end, p.end) && WithField(q.buf[p.end], p.slot, p.filled) != q.buf[p.end])
    || (p.pc == Publish && !(p.end == q.end && !q.Full(slots) && q.buf[p.end] == p.slot))
  }

  /** A ring that is never popped, since its side streams, and not empty. */
  predicate TxStuck(s: State) { s.mode.txStream && !s.tx.Empty() }
  predicate RxStuck(s: State) { s.mode.rxStream && !s.rx.Empty() }

  predicate Streams(mode: Mode, side: Side) { if side == Send then mode.txStream else mode.rxStream }

  /** How many transfers the queued descriptors are enough for. */
  function Ahead(slots: nat, s: State): nat
    requires Fits(slots, s)
  {
    var t, r := |s.tx.Pending()|, |s.rx.Pending()|;
    match s.mode.launcher
    case Bidir => if s.mode.txStream then r else if s.mode.rxStream || t < r then t else r
    case TxOnly => t
    case RxOnly => r
  }

  /** The i-th of them ends in a callback. */
  predicate CallsBackAt(slots: nat, s: State, i: nat)
    requires Fits(slots, s)
  {
    || (!s.mode.txStream && i < |s.tx.Pending()| && s.tx.Pending()[i].done)
    || (!s.mode.rxStream && i < |s.rx.Pending()| && s.rx.Pending()[i].done)
  }

  /** A transfer is in flight, and it or one that follows it ends in a callback. */
  predicate CallbackComing(slots: nat, s: State)
    requires Fits(slots, s)
  {
    s.engine.busy && exists i :: 0 <= i < Ahead(slots, s) && CallsBackAt(slots, s, i)
  }

  /** An ioctl called now may be overtaken: a callback is coming and both rings can drain. */
  predicate Risky(slots: nat, s: State)
    requires Fits(slots, s)
  {
    CallbackComing(slots, s) && !TxStuck(s) && !RxStuck(s)
  }

  /** A post on this side called now may lose a descriptor: a callback is coming, unless the ring is full
      and stays so. */
  predicate PostRisky(slots: nat, s: State, side: Side)
    requires Fits(slots, s)
  {
    CallbackComing(slots, s) && !(Streams(s.mode, side) && QueueOf(s, side).Full(slots))
  }

  /** What a run must avoid: main-line accesses that lose a descriptor, and risky ioctls. Whether a post or
      an ioctl can go wrong can be seen when it is called. */
  predicate Allowed(slots: nat, s: State, e: Event)
    requires Fits(slots, s)
  {
    match e
    case CallStep => !Spoils(slots, s)
    case IoctlCall(_) => s.call.pc == Idle ==> !Risky(slots, s)
    case _ => true
  }

  predicate Disciplined(slots: nat, s: State, es: seq<Event>)
    requires Fits(slots, s)
  {
    forall k :: 0 <= k < |es| ==> Allowed(slots, Run(slots, s, es[..k]), es[k])
  }

  /** Nothing but the accesses of the call under way, and interrupts. */
  predicate OneCall(es: seq<Event>) {
    forall e :: e in es ==> e.CallStep? || e.Interrupt?
  }
}
