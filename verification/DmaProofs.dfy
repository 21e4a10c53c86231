/** What every step of the DMA driver keeps. */
module DmaProofs {
  import Arithmetic
  import opened Ring
  import opened Machine32
  import opened DmaMachine

  /** A ring holds the accepted descriptors that were not completed, all fit for the current mode. */
  predicate QueueInv(slots: nat, mode: Mode, q: Queue) {
    && q.Fits(slots) && mode.width > 0
    && q.popped <= |q.posted| && q.Pending() == q.posted[q.popped..]
    && forall d :: d in q.Pending() ==> Acceptable(mode, d)
  }

  /** At most one side streams, and a launcher that ignores a side belongs to a streaming one. */
  predicate ModeInv(mode: Mode) {
    && WidthOk(mode.width) && !(mode.txStream && mode.rxStream)
    && (mode.launcher == TxOnly ==> mode.rxStream) && (mode.launcher == RxOnly ==> mode.txStream)
  }

  /** The engine runs exactly while `active` is set (but for a call inside the launch routine), on the
      transfer programmed from the heads; and work is never left waiting unless a call is about to look
      for it. */
  predicate EngineInv(slots: nat, s: State)
    requires Fits(slots, s)
  {
    var e, pc := s.engine, s.call.pc;
    && !e.overlap && (e.busy ==> s.active) && (!e.busy ==> e.length == 0)
    && (s.active ==> CanLaunch(s) && (e.busy || pc in {Registers, Go}))
    && (!s.active && CanLaunch(s) ==> pc in {Test, Launch})
    && (pc in {Registers, Go} ==> s.active && !e.busy) && (pc == Launch ==> !s.active)
    && (e.busy ==>
      && s.transfers != [] && s.transfers[|s.transfers| - 1] == Programmed(slots, s)
      && Programmed(slots, s) == Transfer(e.raddr, e.waddr, e.length))
    && (pc == Go ==> e.raddr == Programmed(slots, s).source && e.waddr == Programmed(slots, s).dest)
  }

  /** The control register shows the mode. */
  predicate ControlInv(s: State) {
    s.engine.width == s.mode.width && s.engine.rcon == s.mode.txStream && s.engine.wcon == s.mode.rxStream
  }

  /** No accepted descriptor is lost: what is pending is what was accepted and not completed. */
  predicate Intact(q: Queue)
    requires q.Fits(|q.buf|)
  {
    q.popped <= |q.posted| && q.Pending() == q.posted[q.popped..]
  }

  /** What holds at every point of every call, whatever callbacks post. */
  predicate Core(slots: nat, s: State) {
    && Fits(slots, s) && QueueInv(slots, s.mode, s.tx) && QueueInv(slots, s.mode, s.rx)
    && ModeInv(s.mode) && EngineInv(slots, s) && ControlInv(s)
  }

  /** Inside send or prepare, whatever callbacks post. */
  predicate PostInv(slots: nat, s: State)
    requires Fits(slots, s)
  {
    var p := s.call;
    && (p.pc in {SnapStart, SnapEnd, Fill, Publish} ==> Acceptable(s.mode, p.slot))
    && (p.pc == Fill ==> p.filled < 4) && (p.pc == Publish ==> p.filled == 4)
  }

  /** Inside the guard of ioctl: a comparison that will succeed means an empty ring, unless the other
      ring is stuck and will refuse. */
  predicate GuardInv(slots: nat, s: State)
    requires Fits(slots, s)
  {
    var p := s.call;
    && (InGuard(p.pc) ==> !Risky(slots, s))
    && (p.pc == GuardTxEnd ==>
      (s.mode.txStream ==> p.start == s.tx.first) && (p.start == s.tx.end ==> s.tx.Empty() || RxStuck(s)))
    && (p.pc in {GuardRxStart, GuardRxEnd} ==> s.tx.Empty() || RxStuck(s))
    && (p.pc == GuardRxEnd ==>
      (s.mode.rxStream ==> p.start == s.rx.first) && (p.start == s.rx.end ==> s.rx.Empty()))
    && (p.pc in {GuardLength, Switch} ==> s.tx.Empty() && s.rx.Empty())
  }

  /** Between the two loads of space(), or of a post: how far the start index has moved since it was loaded. */
  predicate RoomInv(slots: nat, s: State)
    requires Fits(slots, s)
  {
    var q := QueueOf(s, s.call.side);
    && (s.call.pc in {RoomStart, RoomEnd} ==> s.call.side == Send)
    && (s.call.pc in {SnapEnd, RoomEnd} ==>
      && s.call.start < slots && s.call.popped <= q.popped
      && (s.call.start + (q.popped - s.call.popped)) % slots == q.first)
  }

  predicate Inv(slots: nat, s: State) {
    Core(slots, s) && PostInv(slots, s) && GuardInv(slots, s) && RoomInv(slots, s)
  }

  /** The launch routine is not running in main-line code. */
  predicate NotLaunching(s: State) { s.call.pc !in {Launch, Registers, Go} }

  /** A state in which callbacks are made. */
  predicate Serving(slots: nat, s: State) {
    Core(slots, s) && NotLaunching(s) && (s.active <==> CanLaunch(s))
  }

  // ---- queues ------------------------------------------------------------------------------

  lemma PutKeepsQueue(slots: nat, mode: Mode, q: Queue, slot: Slot)
    requires QueueInv(slots, mode, q) && !q.Full(slots) && Acceptable(mode, slot)
    ensures var q' := Advance(StoreSlot(q, q.end, slot), slot);
      && QueueInv(slots, mode, q') && !q'.Empty() && q'.first == q.first && q'.Pending() == q.Pending() + [slot]
      && (!q.Empty() ==> q'.Head() == q.Head())
  {
    Put(q.buf, q.first, q.end, slot);
    assert (q.posted + [slot])[q.popped..] == q.posted[q.popped..] + [slot];
  }

  lemma StoreKeepsQueue(slots: nat, mode: Mode, q: Queue, k: nat, slot: Slot)
    requires QueueInv(slots, mode, q) && k < slots && (!Occupied(q.first, q.end, k) || q.buf[k] == slot)
    ensures var q' := StoreSlot(q, k, slot);
      && QueueInv(slots, mode, q') && q'.Pending() == q.Pending()
      && (!q.Empty() ==> q'.Head() == q.Head())
  {
    StoreOutsideIff(q.buf, q.first, q.end, k, slot);
  }

  lemma PopKeepsQueue(slots: nat, mode: Mode, q: Queue)
    requires QueueInv(slots, mode, q) && !q.Empty()
    ensures QueueInv(slots, mode, Pop(q)) && !Pop(q).Full(slots) && q.popped < |q.posted|
    ensures q.Head() == q.posted[q.popped]
  {
  }

  lemma HeadIsNext(slots: nat, mode: Mode, q: Queue)
    requires QueueInv(slots, mode, q) && !q.Empty()
    ensures q.popped < |q.posted| && q.Head() == q.posted[q.popped]
  {
  }

  // ---- launching and posting ---------------------------------------------------------------

  /** The launch routine run at once, with no transfer in flight. */
  lemma LaunchNowKeepsCore(slots: nat, s: State)
    requires Fits(slots, s) && QueueInv(slots, s.mode, s.tx) && QueueInv(slots, s.mode, s.rx)
    requires ModeInv(s.mode) && ControlInv(s)
    requires !s.engine.busy && !s.engine.overlap && s.engine.length == 0 && NotLaunching(s)
    ensures Serving(slots, LaunchNow(slots, s))
  {
  }

  lemma PostNowKeepsCore(slots: nat, s: State, p: Post)
    requires Serving(slots, s)
    ensures Serving(slots, PostNow(slots, s, p))
  {
    hide Contents;
    var q := QueueOf(s, p.side);
    if Acceptable(s.mode, p.slot) && !q.Full(slots) {
      PutKeepsQueue(slots, s.mode, q, p.slot);
      var s1 := WithQueue(s, p.side, Advance(StoreSlot(q, q.end, p.slot), p.slot));
      if !s1.active { LaunchNowKeepsCore(slots, s1); }
    }
  }

  lemma {:induction false} PostAllKeepsCore(slots: nat, s: State, ps: seq<Post>)
    requires Serving(slots, s)
    ensures Serving(slots, PostAll(slots, s, ps))
    decreases |ps|
  {
    if ps != [] {
      PostNowKeepsCore(slots, s, ps[0]);
      PostAllKeepsCore(slots, PostNow(slots, s, ps[0]), ps[1..]);
    }
  }

  /** Posts append to the histories and move no start index; a ring none of them got onto is as it was. */
  predicate Extends(slots: nat, s: State, s': State)
    requires Fits(slots, s) && Fits(slots, s')
  {
    && s.tx.posted <= s'.tx.posted && s.rx.posted <= s'.rx.posted
    && s'.tx.first == s.tx.first && s'.rx.first == s.rx.first
    && s'.tx.popped == s.tx.popped && s'.rx.popped == s.rx.popped
    && (s'.tx.posted == s.tx.posted ==> s'.tx == s.tx) && (s'.rx.posted == s.rx.posted ==> s'.rx == s.rx)
    && (!s.tx.Empty() ==> !s'.tx.Empty()) && (!s.rx.Empty() ==> !s'.rx.Empty())
  }

  lemma PostNowExtends(slots: nat, s: State, p: Post)
    requires Fits(slots, s)
    ensures Extends(slots, s, PostNow(slots, s, p))
  {
    var s' := PostNow(slots, s, p);
    if Acceptable(s.mode, p.slot) && !QueueOf(s, p.side).Full(slots) {
      assert |QueueOf(s', p.side).posted| == |QueueOf(s, p.side).posted| + 1;
    }
  }

  lemma {:induction false} PostAllExtends(slots: nat, s: State, ps: seq<Post>)
    requires Fits(slots, s)
    ensures Extends(slots, s, PostAll(slots, s, ps))
    decreases |ps|
  {
    if ps != [] {
      var s1 := PostNow(slots, s, ps[0]);
      PostNowExtends(slots, s, ps[0]);
      PostAllExtends(slots, s1, ps[1..]);
    }
  }

  // ---- the interrupt -----------------------------------------------------------------------

  /** The state after the pops and before the launch. */
  function Popped(slots: nat, s: State): (s': State)
    requires Fits(slots, s)
    ensures Fits(slots, s') && Complete(slots, s) == LaunchNow(slots, s')
  {
    s.(engine := s.engine.(busy := false, length := 0),
       tx := if s.mode.txStream then s.tx else Pop(s.tx),
       rx := if s.mode.rxStream then s.rx else Pop(s.rx))
  }

  lemma CompleteKeepsCore(slots: nat, s: State)
    requires Core(slots, s) && s.engine.busy
    ensures Serving(slots, Complete(slots, s))
    ensures s.mode.txStream || !Complete(slots, s).tx.Full(slots)
    ensures s.mode.rxStream || !Complete(slots, s).rx.Full(slots)
  {
    hide Contents;
    if !s.mode.txStream { PopKeepsQueue(slots, s.mode, s.tx); }
    if !s.mode.rxStream { PopKeepsQueue(slots, s.mode, s.rx); }
    LaunchNowKeepsCore(slots, Popped(slots, s));
  }

  lemma CallTxKeepsCore(slots: nat, s: State, k: nat, posts: seq<Post>)
    requires Serving(slots, s) && k < slots
    ensures var s' := CallTx(slots, s, k, posts); Serving(slots, s') && Extends(slots, s, s') && s'.call == s.call
  {
    var s1 := s.(callbacks := s.callbacks + [TxDone(s.tx.buf[k].handle)]);
    PostAllKeepsCore(slots, s1, posts);
    PostAllExtends(slots, s1, posts);
  }

  lemma CallRxKeepsCore(slots: nat, s: State, k: nat, posts: seq<Post>)
    requires Serving(slots, s) && k < slots
    ensures var s' := CallRx(slots, s, k, posts); Serving(slots, s') && Extends(slots, s, s') && s'.call == s.call
  {
    var s1 := s.(callbacks := s.callbacks + [RxDone(s.rx.buf[k].handle, s.rx.buf[k].addr)]);
    PostAllKeepsCore(slots, s1, posts);
    PostAllExtends(slots, s1, posts);
  }

  lemma ServeKeepsCore(slots: nat, s: State, txPosts: seq<Post>, rxPosts: seq<Post>)
    requires Core(slots, s) && s.engine.busy
    ensures var s' := Serve(slots, s, txPosts, rxPosts);
      Serving(slots, s') && s'.call == s.call && s'.mode == s.mode && Extends(slots, Complete(slots, s), s')
  {
    assert Fits(slots, s);
    hide Core, Complete, CallTx, CallRx;
    var s1 := Complete(slots, s);
    CompleteKeepsCore(slots, s);
    CallTxKeepsCore(slots, s1, s.tx.first, txPosts);
    CallRxKeepsCore(slots, CallTx(slots, s1, s.tx.first, txPosts), s.rx.first, rxPosts);
  }

  lemma ServeMoves(slots: nat, s: State, txPosts: seq<Post>, rxPosts: seq<Post>)
    requires Core(slots, s) && s.engine.busy
    ensures Serve(slots, s, txPosts, rxPosts).call == s.call
    ensures var s' := Serve(slots, s, txPosts, rxPosts);
      Moves(slots, s.tx, s'.tx, s.mode.txStream) && Moves(slots, s.rx, s'.rx, s.mode.rxStream)
  {
    ServeKeepsCore(slots, s, txPosts, rxPosts);
    hide Core, Serving, Serve;
  }

  /** A completion moves the start index of a ring that does not stream. */
  predicate Moves(slots: nat, q: Queue, q': Queue, streams: bool) {
    && q.first < slots
    && if streams then q'.first == q.first && q'.popped == q.popped
       else q'.first == Wrap(slots, q.first + 1) && q'.popped == q.popped + 1
  }

  lemma ServeKeepsRoom(slots: nat, s: State, txPosts: seq<Post>, rxPosts: seq<Post>)
    requires Core(slots, s) && RoomInv(slots, s) && s.engine.busy
    ensures RoomInv(slots, Serve(slots, s, txPosts, rxPosts))
  {
    assert slots >= 2;
    ServeMoves(slots, s, txPosts, rxPosts);
    hide Core, Serve, Moves;
    var s' := Serve(slots, s, txPosts, rxPosts);
    if s.call.pc in {SnapEnd, RoomEnd} {
      StartMoves(slots, s.call, QueueOf(s, s.call.side), QueueOf(s', s.call.side), Streams(s.mode, s.call.side));
    }
  }

  lemma StartMoves(slots: nat, p: Call, q: Queue, q': Queue, streams: bool)
    requires slots > 1 && Moves(slots, q, q', streams)
    requires p.popped <= q.popped && (p.start + (q.popped - p.popped)) % slots == q.first
    ensures p.popped <= q'.popped && (p.start + (q'.popped - p.popped)) % slots == q'.first
  {
    NextResidue(p.start + (q.popped - p.popped), slots);
    hide Wrap;
  }

  lemma NextResidue(x: nat, m: nat)
    requires m > 1
    ensures (x + 1) % m == Wrap(m, x % m + 1)
  {
    var q, r := x / m, x % m;
    if r + 1 < m {
      Arithmetic.DivUnique(x + 1, m, q);
    } else {
      Arithmetic.MulMonotone(q, q, m);
      Arithmetic.DivUnique(x + 1, m, q + 1);
    }
  }

  /** Without a callback on the way an interrupt posts nothing, and there is none on the way afterwards. */
  lemma ServeQuietly(slots: nat, s: State, txPosts: seq<Post>, rxPosts: seq<Post>)
    requires Core(slots, s) && s.engine.busy && !CallbackComing(slots, s)
    ensures Serve(slots, s, txPosts, rxPosts) == Complete(slots, s) && !CallbackComing(slots, Complete(slots, s))
  {
    hide Contents;
    if !s.tx.Empty() { HeadIsFirst(s.tx); }
    if !s.rx.Empty() { HeadIsFirst(s.rx); }
    assert !CallsBackAt(slots, s, 0);
    CompleteKeepsCore(slots, s);
    assert Serve(slots, s, txPosts, rxPosts) == Complete(slots, s);
    forall i | 0 <= i < Ahead(slots, Complete(slots, s)) ensures !CallsBackAt(slots, Complete(slots, s), i) {
      assert !CallsBackAt(slots, s, i + 1);
    }
  }

  /** The head of a ring that is not empty is the first pending descriptor, and a pop drops it. */
  lemma HeadIsFirst(q: Queue)
    requires q.Fits(|q.buf|) && !q.Empty()
    ensures q.Pending() == [q.Head()] + Pop(q).Pending()
  {
    Take(q.buf, q.first, q.end);
  }

  /** Inside the guard of ioctl. */
  lemma ServeKeepsGuard(slots: nat, s: State, txPosts: seq<Post>, rxPosts: seq<Post>)
    requires Core(slots, s) && GuardInv(slots, s) && s.engine.busy
    ensures GuardInv(slots, Serve(slots, s, txPosts, rxPosts))
  {
    hide Contents;
    ServeKeepsCore(slots, s, txPosts, rxPosts);
    if InGuard(s.call.pc) && !TxStuck(s) && !RxStuck(s) {
      ServeQuietly(slots, s, txPosts, rxPosts);
    }
  }

  lemma ServeKeepsInv(slots: nat, s: State, txPosts: seq<Post>, rxPosts: seq<Post>)
    requires Inv(slots, s) && s.engine.busy
    ensures Inv(slots, Serve(slots, s, txPosts, rxPosts))
  {
    assert Fits(slots, s);
    ServeKeepsCore(slots, s, txPosts, rxPosts);
    assert PostInv(slots, Serve(slots, s, txPosts, rxPosts)) by { hide Core, GuardInv, RoomInv, Serve; }
    hide Core, PostInv, GuardInv, RoomInv, Serve;
    ServeKeepsGuard(slots, s, txPosts, rxPosts);
    ServeKeepsRoom(slots, s, txPosts, rxPosts);
  }

  // ---- main-line steps ---------------------------------------------------------------------

  lemma PosterKeepsInv(slots: nat, s: State)
    requires Inv(slots, s) && InPost(s.call.pc) && !Spoils(slots, s)
    ensures Inv(slots, PosterNext(slots, s))
  {
    hide Contents, Risky, CallbackComing, QueueInv;
    match s.call.pc
    case SnapStart => SnapKeepsInv(slots, s);
    case Fill => FillKeepsInv(slots, s);
    case Publish => PublishKeepsInv(slots, s);
    case Launch => LaunchKeepsInv(slots, s);
    case Registers => LaunchKeepsInv(slots, s);
    case Go => LaunchKeepsInv(slots, s);
    case _ =>
  }

  lemma SnapKeepsInv(slots: nat, s: State)
    requires Inv(slots, s) && s.call.pc == SnapStart
    ensures Inv(slots, PosterNext(slots, s))
  {
    var q, s' := QueueOf(s, s.call.side), PosterNext(slots, s);
    assert s' == s.(call := s.call.(pc := SnapEnd, start := q.first, popped := q.popped));
    JustLoaded(slots, s');
    hide PosterNext, Contents, Risky, CallbackComing, QueueInv, CanLaunch, Programmed, ModeInv, ControlInv, RoomInv;
  }

  lemma JustLoaded(slots: nat, s: State)
    requires Fits(slots, s) && (s.call.pc in {RoomStart, RoomEnd} ==> s.call.side == Send)
    requires var q := QueueOf(s, s.call.side); s.call.start == q.first && s.call.popped == q.popped
    ensures RoomInv(slots, s)
  {
    Arithmetic.DivUnique(QueueOf(s, s.call.side).first, slots, 0);
  }

  lemma LaunchKeepsInv(slots: nat, s: State)
    requires Inv(slots, s) && s.call.pc in {Launch, Registers, Go}
    ensures Inv(slots, PosterNext(slots, s))
  {
    hide Contents, Risky, CallbackComing, QueueInv;
  }

  lemma FillKeepsInv(slots: nat, s: State)
    requires Inv(slots, s) && s.call.pc == Fill && !Spoils(slots, s)
    ensures Inv(slots, PosterNext(slots, s))
  {
    hide Contents, Risky, CallbackComing;
    var p, q := s.call, QueueOf(s, s.call.side);
    StoreKeepsQueue(slots, s.mode, q, p.end, WithField(q.buf[p.end], p.slot, p.filled));
  }

  lemma PublishKeepsInv(slots: nat, s: State)
    requires Inv(slots, s) && s.call.pc == Publish && !Spoils(slots, s)
    ensures Inv(slots, PosterNext(slots, s))
  {
    hide Contents, Risky, CallbackComing;
    var q := QueueOf(s, s.call.side);
    assert StoreSlot(q, q.end, s.call.slot) == q;
    PutKeepsQueue(slots, s.mode, q, s.call.slot);
    assert PosterNext(slots, s) == Goto(WithQueue(s, s.call.side, Advance(q, s.call.slot)), Test);
    hide PosterNext, QueueInv;
    EngineAfterPublish(slots, s, PosterNext(slots, s));
    hide EngineInv, Advance;
  }

  lemma EngineAfterPublish(slots: nat, s: State, s': State)
    requires Fits(slots, s) && Fits(slots, s') && EngineInv(slots, s) && s.call.pc == Publish && s'.call.pc == Test
    requires s' == s.(tx := s'.tx, rx := s'.rx, call := s'.call) && !QueueOf(s', s.call.side).Empty()
    requires !s.tx.Empty() ==> !s'.tx.Empty() && s'.tx.Head() == s.tx.Head()
    requires !s.rx.Empty() ==> !s'.rx.Empty() && s'.rx.Head() == s.rx.Head()
    requires (s.call.side == Receive ==> s'.tx == s.tx) && (s.call.side == Send ==> s'.rx == s.rx)
    ensures EngineInv(slots, s')
  {
  }

  /** Whether a callback is on the way does not depend on the call. */
  lemma RiskWithoutCall(slots: nat, s: State, call: Call)
    requires Fits(slots, s) && Fits(slots, s.(call := call))
    ensures CallbackComing(slots, s.(call := call)) == CallbackComing(slots, s)
    ensures Risky(slots, s.(call := call)) == Risky(slots, s)
  {
    var s' := s.(call := call);
    assert forall i :: 0 <= i < Ahead(slots, s) ==> CallsBackAt(slots, s', i) == CallsBackAt(slots, s, i);
  }

  lemma GuardKeepsInv(slots: nat, s: State)
    requires Inv(slots, s) && InGuard(s.call.pc)
    ensures Inv(slots, IoctlNext(s))
  {
    hide Contents;
    RiskWithoutCall(slots, s, IoctlNext(s).call);
    hide Risky, QueueInv;
  }

  lemma SwitchKeepsInv(slots: nat, s: State)
    requires Inv(slots, s) && s.call.pc == Switch
    ensures Inv(slots, IoctlNext(s))
  {
    var s' := SwitchNext(s, s.call.req).0;
    assert s'.mode.width > 0 && s'.tx == s.tx && s'.rx == s.rx;
    EmptySuitsAnyMode(slots, s.mode, s'.mode, s.tx);
    EmptySuitsAnyMode(slots, s.mode, s'.mode, s.rx);
    hide Contents, QueueInv, Risky, CallbackComing, Ahead, Programmed;
  }

  lemma EmptySuitsAnyMode(slots: nat, mode: Mode, mode': Mode, q: Queue)
    requires QueueInv(slots, mode, q) && q.Empty() && mode'.width > 0
    ensures QueueInv(slots, mode', q)
  {
    ContentsLength(q.buf, q.first, q.end);
  }

  lemma SpaceKeepsInv(slots: nat, s: State)
    requires Inv(slots, s) && !InPost(s.call.pc) && !InGuard(s.call.pc) && s.call.pc != Switch
    ensures Inv(slots, SpaceNext(slots, s))
  {
    if s.call.pc == RoomStart { JustLoaded(slots, SpaceNext(slots, s)); }
    hide Contents, QueueInv, Risky, CallbackComing, CanLaunch, Programmed;
  }

  lemma CallKeepsInv(slots: nat, s: State)
    requires Inv(slots, s) && !Spoils(slots, s)
    ensures Inv(slots, CallNext(slots, s))
  {
    hide Inv, Spoils, PosterNext, IoctlNext, SpaceNext;
    if InPost(s.call.pc) {
      PosterKeepsInv(slots, s);
    } else if InGuard(s.call.pc) {
      GuardKeepsInv(slots, s);
    } else if s.call.pc == Switch {
      SwitchKeepsInv(slots, s);
    } else {
      SpaceKeepsInv(slots, s);
    }
  }

  lemma StepKeepsInv(slots: nat, s: State, e: Event)
    requires Inv(slots, s) && Allowed(slots, s, e)
    ensures Inv(slots, Step(slots, s, e))
  {
    hide Contents;
    match e
    case PostCall(_) =>
    case IoctlCall(_) => RiskWithoutCall(slots, s, Step(slots, s, e).call);
    case SpaceCall =>
    case CallStep => CallKeepsInv(slots, s);
    case Interrupt(txPosts, rxPosts) => if s.engine.busy { ServeKeepsInv(slots, s, txPosts, rxPosts); }
  }

  lemma DisciplinedPrefix(slots: nat, s: State, es: seq<Event>, k: nat)
    requires Fits(slots, s) && Disciplined(slots, s, es) && k <= |es|
    ensures Disciplined(slots, s, es[..k])
  {
    assert forall j :: 0 <= j < k ==> es[..k][..j] == es[..j];
  }

  lemma {:induction false} RunKeepsInv(slots: nat, s: State, es: seq<Event>)
    requires Inv(slots, s) && Disciplined(slots, s, es)
    ensures Inv(slots, Run(slots, s, es))
  {
    if es != [] {
      var k := |es| - 1;
      DisciplinedPrefix(slots, s, es, k);
      RunKeepsInv(slots, s, es[..k]);
      StepKeepsInv(slots, Run(slots, s, es[..k]), es[k]);
    }
  }
}
