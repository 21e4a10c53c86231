/** The DMA driver's own code over its private structure. As in the UART driver every access of
    main-line code is preceded by `Preempt` (any number of completions with any callbacks) and logged
    as one step of the machine. Nothing is assumed about the callbacks: the object follows the machine
    in every run; what the theorems promise of disciplined runs is promised of disciplined traces, and a
    trace stays disciplined if no call is made when it is risky. */
module DmaDriver {
  import opened Ring
  import opened Machine32
  import opened DmaMachine
  import opened DmaProofs
  import opened DmaTheorems
  import opened DmaTransfers
  import opened DmaOvertaking
  import opened DmaBreaches

  class DmaDevice {
    const slots: nat
    const txBuf: array<Slot>
    const rxBuf: array<Slot>
    var txFirst: nat
    var txEnd: nat
    var rxFirst: nat
    var rxEnd: nat
    var mode: Mode
    var active: bool
    // registers of the engine
    var raddr: u32
    var waddr: u32
    var length: u32
    var busy: bool
    var control: (nat, bool, bool)
    // the machine state this object is in, and the run that led to it
    ghost const start: State
    ghost var s: State
    ghost var trace: seq<Event>

    ghost predicate Matches(m: State)
      reads `txFirst, `txEnd, `rxFirst, `rxEnd, `mode, `active, `raddr, `waddr, `length, `busy, `control, txBuf, rxBuf
    {
      && txBuf != rxBuf && Fits(slots, m)
      && txBuf[..] == m.tx.buf && txFirst == m.tx.first && txEnd == m.tx.end
      && rxBuf[..] == m.rx.buf && rxFirst == m.rx.first && rxEnd == m.rx.end
      && mode == m.mode && active == m.active
      && raddr == m.engine.raddr && waddr == m.engine.waddr && length == m.engine.length && busy == m.engine.busy
      && control == (m.engine.width, m.engine.rcon, m.engine.wcon)
    }

    ghost predicate Reachable()
      reads this
    {
      Fits(slots, start) && Inv(slots, start) && Fits(slots, s) && s == Run(slots, start, trace)
    }

    /** No accepted descriptor was lost, and no ioctl was called at a risky time. */
    ghost predicate Orderly()
      reads this
    {
      Fits(slots, start) && Disciplined(slots, start, trace)
    }

    lemma OrderlyInv()
      requires Reachable() && Orderly()
      ensures Inv(slots, s)
    {
      RunKeepsInv(slots, start, trace);
    }

    /** And the call under way will lose none. */
    ghost predicate OnCourse()
      reads this
    {
      Orderly() && Fits(slots, s) && Calm(slots, s)
    }

    /** Whatever interrupts come. */
    lemma StaysOnCourse(e: Event)
      requires Reachable() && OnCourse() && (e.CallStep? || e.Interrupt?)
      ensures Disciplined(slots, start, trace + [e]) && Calm(slots, Step(slots, s, e))
    {
      OrderlyInv();
      CalmStep(slots, s, e);
      var es, k := trace + [e], |trace|;
      assert es[..k] == trace && es[..k + 1] == es;
      hide Inv, Run, Step, Calm, Disciplined, Allowed;
      DisciplinedOneMore(slots, start, es, k);
    }

    ghost predicate Valid()
      reads this, txBuf, rxBuf
    {
      Reachable() && Matches(s)
    }

    constructor (slots: nat, maxLength: u32)
      requires slots >= 2
      ensures Valid() && this.slots == slots && s == Init(slots, maxLength) && trace == []
      ensures fresh(txBuf) && fresh(rxBuf)
    {
      this.slots := slots;
      txBuf := new Slot[slots](_ => Slot(0, 0, false, 0));
      rxBuf := new Slot[slots](_ => Slot(0, 0, false, 0));
      txFirst, txEnd, rxFirst, rxEnd, active := 0, 0, 0, 0, false;
      mode := Mode(4, false, false, Bidir, maxLength);
      raddr, waddr, length, busy, control := 0, 0, 0, false, (4, false, false);
      start := Init(slots, maxLength);
      s := Init(slots, maxLength);
      trace := [];
    }

    lemma StaysOrderly(e: Event)
      requires Reachable() && Orderly() && Allowed(slots, s, e)
      ensures Disciplined(slots, start, trace + [e])
    {
      var es, k := trace + [e], |trace|;
      assert es[..k] == trace && es[..k + 1] == es;
      hide Inv, Run, Allowed, Disciplined;
      DisciplinedOneMore(slots, start, es, k);
    }

    ghost method Log(e: Event)
      requires Reachable() && Matches(Step(slots, s, e))
      modifies this`s, this`trace
      ensures Valid() && s == Step(slots, old(s), e) && trace == old(trace) + [e]
      ensures old(s) == Run(slots, start, trace[..|trace| - 1])
      ensures old(OnCourse()) && (e.CallStep? || e.Interrupt?) ==> OnCourse()
      ensures old(Orderly()) && Allowed(slots, old(s), e) ==> Orderly()
    {
      hide Run, Step, Inv, Calm, Disciplined, Allowed, DmaDevice.Matches;
      if OnCourse() && (e.CallStep? || e.Interrupt?) { StaysOnCourse(e); }
      if Orderly() && Allowed(slots, s, e) { StaysOrderly(e); }
      RunsOn(slots, start, trace, e);
      s, trace := Step(slots, s, e), trace + [e];
    }

    // ---- the launch routines ---------------------------------------------------------------

    /** The test of priv->launch, and what it does to `active`. */
    method TestLaunch() returns (can: bool)
      modifies this`active
      ensures can == (match mode.launcher
        case Bidir => txFirst != txEnd && rxFirst != rxEnd
        case TxOnly => txFirst != txEnd
        case RxOnly => rxFirst != rxEnd) && active == can
    {
      match mode.launcher {
        case Bidir => active := txFirst != txEnd && rxFirst != rxEnd;
        case TxOnly => active := txFirst != txEnd;
        case RxOnly => active := rxFirst != rxEnd;
      }
      can := active;
    }

    method ProgramAddresses(ghost m: State)
      requires Matches(m)
      modifies this`raddr, this`waddr
      ensures Matches(WriteAddresses(slots, m))
    {
      if mode.launcher != RxOnly { raddr := txBuf[txFirst].addr; }
      if mode.launcher != TxOnly { waddr := rxBuf[rxFirst].addr; }
    }

    method ProgramLength(ghost m: State)
      requires Matches(m)
      modifies this`length, this`busy
      ensures Matches(WriteLength(slots, m))
    {
      match mode.launcher {
        case Bidir =>
          var t, r := txBuf[txFirst].len, rxBuf[rxFirst].len;
          length := if t > r then r else t;
        case TxOnly => length := txBuf[txFirst].len;
        case RxOnly => length := rxBuf[rxFirst].len;
      }
      busy := true;
    }

    /** The whole routine, where nothing can come between. */
    method LaunchAtOnce(ghost m: State)
      requires Matches(m)
      modifies this`active, this`raddr, this`waddr, this`length, this`busy
      ensures Matches(LaunchNow(slots, m))
    {
      var can := TestLaunch();
      if can {
        ghost var m1 := m.(active := true);
        ProgramAddresses(m1);
        ProgramLength(WriteAddresses(slots, m1));
      }
    }

    // ---- send and prepare at interrupt level -----------------------------------------------

    method Check(slot: Slot) returns (ok: bool)
      requires mode.width > 0
      ensures ok == Acceptable(mode, slot)
    {
      ok := slot.addr % mode.width == 0 && slot.len % mode.width == 0 && slot.len <= mode.maxLength;
    }

    method StoreAndAdvance(side: Side, slot: Slot, ghost m: State)
      requires Matches(m) && !QueueOf(m, side).Full(slots)
      modifies this`txEnd, this`rxEnd, txBuf, rxBuf
      ensures var q := QueueOf(m, side); Matches(WithQueue(m, side, Advance(StoreSlot(q, q.end, slot), slot)))
    {
      match side
      case Send =>
        txBuf[txEnd] := slot;
        txEnd := (txEnd + 1) % slots;
      case Receive =>
        rxBuf[rxEnd] := slot;
        rxEnd := (rxEnd + 1) % slots;
    }

    /** send or prepare called from a callback. */
    method PostAtOnce(p: Post, ghost m: State)
      requires Matches(m)
      modifies this`txEnd, this`rxEnd, txBuf, rxBuf, this`active, this`raddr, this`waddr, this`length, this`busy
      ensures Matches(PostNow(slots, m, p))
    {
      var ok := Check(p.slot);
      var first, end := if p.side == Send then txFirst else rxFirst, if p.side == Send then txEnd else rxEnd;
      if ok && (end + 1) % slots != first {
        StoreAndAdvance(p.side, p.slot, m);
        ghost var q := QueueOf(m, p.side);
        ghost var m1 := WithQueue(m, p.side, Advance(StoreSlot(q, q.end, p.slot), p.slot));
        if !active { LaunchAtOnce(m1); }
      }
    }

    method PostsAtOnce(ps: seq<Post>, ghost m: State)
      requires Matches(m)
      modifies this`txEnd, this`rxEnd, txBuf, rxBuf, this`active, this`raddr, this`waddr, this`length, this`busy
      ensures Matches(PostAll(slots, m, ps))
    {
      var i := 0;
      ghost var m1 := m;
      while i < |ps|
        invariant i <= |ps| && Matches(m1) && PostAll(slots, m1, ps[i..]) == PostAll(slots, m, ps)
      {
        PostAtOnce(ps[i], m1);
        assert ps[i..][1..] == ps[i + 1..];
        m1 := PostNow(slots, m1, ps[i]);
        i := i + 1;
      }
    }

    // ---- the interrupt ---------------------------------------------------------------------

    /** A transfer has ended. The arguments are what the two callbacks post. */
    method Irq(txPosts: seq<Post>, rxPosts: seq<Post>)
      requires Valid() && busy
      modifies this, txBuf, rxBuf
      ensures Valid() && s == Serve(slots, old(s), txPosts, rxPosts)
      ensures trace == old(trace) + [Interrupt(txPosts, rxPosts)] && (old(OnCourse()) ==> OnCourse())
    {
      hide Inv, Run, Calm, Disciplined;
      var txSlot, rxSlot := txFirst, rxFirst;
      ghost var m1 := Complete(slots, s);
      FinishTransfer();
      ghost var m2 := CallTx(slots, m1, txSlot, txPosts);
      CallTxDone(txSlot, txPosts, m1);
      CallRxDone(rxSlot, rxPosts, m2);
      Log(Interrupt(txPosts, rxPosts));
    }

    /** The device is idle again; pop what was transferred, then launch the next transfer. */
    method FinishTransfer()
      requires Matches(s)
      modifies this`txFirst, this`rxFirst, this`active, this`raddr, this`waddr, this`length, this`busy
      ensures Matches(Complete(slots, s))
    {
      ghost var m := PopTransferred();
      LaunchAtOnce(m);
    }

    method PopTransferred() returns (ghost m: State)
      requires Matches(s)
      modifies this`txFirst, this`rxFirst, this`length, this`busy
      ensures Matches(m) && Complete(slots, s) == LaunchNow(slots, m)
    {
      busy, length := false, 0;
      if !mode.txStream { txFirst := (txFirst + 1) % slots; }
      if !mode.rxStream { rxFirst := (rxFirst + 1) % slots; }
      m := s.(engine := s.engine.(busy := false, length := 0),
              tx := if s.mode.txStream then s.tx else Pop(s.tx),
              rx := if s.mode.rxStream then s.rx else Pop(s.rx));
    }

    method CallTxDone(slot: nat, posts: seq<Post>, ghost m: State)
      requires Matches(m) && slot < slots
      modifies this`txEnd, this`rxEnd, txBuf, rxBuf, this`active, this`raddr, this`waddr, this`length, this`busy
      ensures Matches(CallTx(slots, m, slot, posts))
    {
      if !mode.txStream && txBuf[slot].done {
        PostsAtOnce(posts, m.(callbacks := m.callbacks + [TxDone(txBuf[slot].handle)]));
      }
    }

    method CallRxDone(slot: nat, posts: seq<Post>, ghost m: State)
      requires Matches(m) && slot < slots
      modifies this`txEnd, this`rxEnd, txBuf, rxBuf, this`active, this`raddr, this`waddr, this`length, this`busy
      ensures Matches(CallRx(slots, m, slot, posts))
    {
      if !mode.rxStream && rxBuf[slot].done {
        PostsAtOnce(posts, m.(callbacks := m.callbacks + [RxDone(rxBuf[slot].handle, rxBuf[slot].addr)]));
      }
    }

    /** Anything that can happen between two steps of a call. */
    method Preempt()
      requires Valid()
      modifies this, txBuf, rxBuf
      ensures Valid() && s.call == old(s.call) && Progress()
      ensures !old(busy) ==> s == old(s) && trace == old(trace) && Still()
      ensures s.mode.txStream ==> s.tx.popped == old(s.tx.popped)
    {
      hide Inv, Run, Calm, Disciplined;
      var n: nat := *;
      while n > 0
        invariant Valid() && s.call == old(s.call) && Progress()
        invariant !old(busy) ==> s == old(s) && trace == old(trace) && Still()
        invariant s.mode.txStream ==> s.tx.popped == old(s.tx.popped)
        decreases n
      {
        var txPosts: seq<Post>, rxPosts: seq<Post> := *, *;
        if busy {
          ServeGrows(slots, s, txPosts, rxPosts);
          Irq(txPosts, rxPosts);
        }
        n := n - 1;
      }
    }

    // ---- send, prepare, space and ioctl on the main line -----------------------------------

    /** A call on the channel `side` stands at `pc`; the interrupt may have run meanwhile. */
    ghost predicate Posting(side: Side, slot: Slot, pc: Pc)
      reads this, txBuf, rxBuf
    {
      Valid() && s.call.side == side && s.call.slot == slot && s.call.pc == pc
    }

    /** The history of accepted descriptors only grows. */
    twostate predicate Grows()
      reads this
    {
      old(trace) <= trace && old(s.tx.posted) <= s.tx.posted && old(s.rx.posted) <= s.rx.posted && s.mode == old(s.mode)
    }

    /** And a call that is on course stays so. */
    twostate predicate Progress()
      reads this
    {
      Grows() && (old(OnCourse()) ==> OnCourse())
    }

    /** alt_avalon_dma_send and alt_avalon_dma_prepare, which differ only in their ring. The call is
        refused as invalid exactly for a misaligned or oversized buffer; if it succeeds the descriptor has
        been published; and in orderly runs nothing accepted is lost, and no work is left without a running
        engine. A call that is not risky when it is made keeps the run orderly. */
    method PostSlot(side: Side, slot: Slot) returns (code: Code)
      requires Valid() && s.call.pc == Idle
      modifies this, txBuf, rxBuf
      ensures old(Orderly()) && !PostRisky(slots, old(s), side) ==> Orderly()
      ensures Valid() && s.call.pc == Idle && Grows()
      ensures code in {Ok, Invalid, NoSpace} && code == s.call.code
      ensures code == Invalid <==> !Suits(old(s.mode), slot)
      ensures !old(busy) && code != Invalid ==> (code == NoSpace <==> |old(QueueOf(s, side).Pending())| == slots - 1)
      ensures code == Ok ==> slot in QueueOf(s, side).posted[|old(QueueOf(s, side).posted)|..]
      ensures Orderly() ==> (busy <==> CanLaunch(s)) && Intact(s.tx) && Intact(s.rx)
    {
      hide Inv, Run, Step, Calm, Disciplined, Acceptable, CanLaunch, Intact, PostRisky;
      hide DmaDevice.Matches, DmaDevice.Reachable, DmaDevice.Orderly;
      code := Invalid;
      var ok := BeginPost(side, slot);
      if ok {
        code := NoSpace;
        var room := Enqueue(side, slot);
        if room {
          LaunchIfIdle(side, slot);
          code := Ok;
        }
      }
      if Orderly() { RestMeansLaunched(); }
    }

    /** From the two loads of the snapshot to the store that publishes the descriptor. */
    method Enqueue(side: Side, slot: Slot) returns (room: bool)
      requires Posting(side, slot, SnapStart)
      modifies this, txBuf, rxBuf
      ensures Posting(side, slot, if room then Test else Idle) && Progress()
      ensures !room ==> s.call.code == NoSpace
      ensures room ==> slot in QueueOf(s, side).posted[|old(QueueOf(s, side).posted)|..]
      ensures !old(busy) ==> (room <==> |old(QueueOf(s, side).Pending())| != slots - 1)
    {
      hide Inv, Run, Step, Calm, Disciplined, DmaDevice.Matches, DmaDevice.Reachable;
      var end;
      room, end := Snapshot(side, slot);
      if room { FillAndPublish(side, slot, end); }
    }

    /** The two loads and the full test. */
    method Snapshot(side: Side, slot: Slot) returns (room: bool, end: nat)
      requires Posting(side, slot, SnapStart)
      modifies this, txBuf, rxBuf
      ensures Posting(side, slot, if room then Fill else Idle) && Progress()
      ensures if room then s.call.end == end < slots && s.call.filled == 0 else s.call.code == NoSpace
      ensures !old(busy) ==> (room <==> |old(QueueOf(s, side).Pending())| != slots - 1)
    {
      hide Inv, Run, Step, Calm, Disciplined, Contents, DmaDevice.Matches, DmaDevice.Reachable, DmaDevice.OnCourse;
      Preempt();
      var first := LoadFirst(side, slot);
      Preempt();
      room, end := ChooseSlot(side, slot, first);
    }

    method ChooseSlot(side: Side, slot: Slot, first: nat) returns (room: bool, end: nat)
      requires Posting(side, slot, SnapEnd) && s.call.start == first
      modifies this`s, this`trace
      ensures Posting(side, slot, if room then Fill else Idle) && Progress()
      ensures if room then s.call.end == end < slots && s.call.filled == 0 else s.call.code == NoSpace
      ensures first == old(QueueOf(s, side).first) ==> (room <==> |old(QueueOf(s, side).Pending())| != slots - 1)
    {
      RingFull(side);
      hide Inv, Run, Step, Calm, Disciplined, Contents, DmaDevice.Matches, DmaDevice.Reachable, DmaDevice.OnCourse;
      room, end := LoadEnd(side, slot, first);
    }

    lemma RingFull(side: Side)
      requires Valid()
      ensures var q := QueueOf(s, side); |q.Pending()| == slots - 1 <==> (q.end + 1) % slots == q.first
    {
      var q := QueueOf(s, side);
      ContentsLength(q.buf, q.first, q.end);
      hide Contents;
    }

    method FillAndPublish(side: Side, slot: Slot, end: nat)
      requires Posting(side, slot, Fill) && s.call.end == end < slots && s.call.filled == 0
      modifies this, txBuf, rxBuf
      ensures Posting(side, slot, Test) && Progress()
      ensures slot in QueueOf(s, side).posted[|old(QueueOf(s, side).posted)|..]
    {
      hide Inv, Run, Step, Calm, Disciplined, Acceptable, DmaDevice.Matches, DmaDevice.Reachable;
      FillSlot(side, slot, end);
      Preempt();
      ghost var k := |QueueOf(s, side).posted|;
      PublishSlot(side, slot, end);
      assert QueueOf(s, side).posted[k] == slot;
    }

    /** Launches a transfer unless one is active. */
    method LaunchIfIdle(side: Side, slot: Slot)
      requires Posting(side, slot, Test)
      modifies this, txBuf, rxBuf
      ensures Posting(side, slot, Idle) && Progress() && s.call.code == Ok
    {
      hide Inv, Run, Step, Calm, Disciplined, DmaDevice.Matches, DmaDevice.Reachable;
      Preempt();
      var idle := !active;
      TestActive(side, slot);
      if idle { LaunchFromPost(side, slot); }
    }

    lemma RestMeansLaunched()
      requires Valid() && s.call.pc == Idle && Orderly()
      ensures (busy <==> CanLaunch(s)) && Intact(s.tx) && Intact(s.rx)
    {
      OrderlyInv();
    }

    method BeginPost(side: Side, slot: Slot) returns (ok: bool)
      requires Valid() && s.call.pc == Idle
      modifies this`s, this`trace
      ensures ok == Suits(old(s.mode), slot) && Posting(side, slot, if ok then SnapStart else Idle)
      ensures Grows() && (!ok ==> s.call.code == Invalid) && QueueOf(s, side) == old(QueueOf(s, side))
      ensures old(Orderly()) && !PostRisky(slots, old(s), side) ==> OnCourse()
    {
      PostBegins(slots, s, side, slot);
      hide Inv, Run, Step, Calm, Disciplined, PostRisky;
      ok := Check(slot);
      Log(PostCall(Post(side, slot)));
    }

    method LoadFirst(side: Side, slot: Slot) returns (first: nat)
      requires Posting(side, slot, SnapStart)
      modifies this`s, this`trace
      ensures Posting(side, slot, SnapEnd) && Progress() && s.call.start == first
      ensures QueueOf(s, side) == old(QueueOf(s, side)) && first == QueueOf(s, side).first
    {
      hide Inv, Run, Calm, Disciplined;
      first := if side == Send then txFirst else rxFirst;
      Log(CallStep);
    }

    method LoadEnd(side: Side, slot: Slot, first: nat) returns (room: bool, end: nat)
      requires Posting(side, slot, SnapEnd) && s.call.start == first
      modifies this`s, this`trace
      ensures Posting(side, slot, if room then Fill else Idle) && Progress()
      ensures if room then s.call.end == end < slots && s.call.filled == 0 else s.call.code == NoSpace
      ensures room <==> (old(QueueOf(s, side).end) + 1) % slots != first
    {
      hide Inv, Run, Calm, Disciplined;
      end := if side == Send then txEnd else rxEnd;
      room := (end + 1) % slots != first;
      Log(CallStep);
    }

    /** The four stores of the descriptor. */
    method FillSlot(side: Side, slot: Slot, end: nat)
      requires Posting(side, slot, Fill) && s.call.end == end < slots && s.call.filled == 0
      modifies this, txBuf, rxBuf
      ensures Posting(side, slot, Publish) && s.call.end == end && Progress()
    {
      hide Inv, Run, Step, Calm, Disciplined, DmaDevice.Matches, DmaDevice.Reachable;
      var n := 0;
      while n < 4
        invariant n <= 4 && Posting(side, slot, if n < 4 then Fill else Publish) && s.call.end == end && Progress()
        invariant s.call.filled == n
      {
        Preempt();
        StoreField(side, slot, end, n);
        n := n + 1;
      }
    }

    method StoreField(side: Side, slot: Slot, end: nat, n: nat)
      requires Posting(side, slot, Fill) && s.call.end == end < slots && s.call.filled == n < 4
      modifies this`s, this`trace, txBuf, rxBuf
      ensures Posting(side, slot, if n < 3 then Fill else Publish) && s.call.end == end && Progress()
      ensures s.call.filled == n + 1
    {
      hide Inv, Run, Calm, Disciplined;
      match side {
        case Send => txBuf[end] := WithField(txBuf[end], slot, n);
        case Receive => rxBuf[end] := WithField(rxBuf[end], slot, n);
      }
      Log(CallStep);
    }

    method PublishSlot(side: Side, slot: Slot, end: nat)
      requires Posting(side, slot, Publish) && s.call.end == end < slots
      modifies this`s, this`trace, this`txEnd, this`rxEnd
      ensures Posting(side, slot, Test) && Progress()
      ensures QueueOf(s, side).posted == old(QueueOf(s, side).posted) + [slot]
    {
      hide Inv, Run, Calm, Disciplined;
      match side {
        case Send => txEnd := (end + 1) % slots;
        case Receive => rxEnd := (end + 1) % slots;
      }
      Log(CallStep);
    }

    ghost method TestActive(side: Side, slot: Slot)
      requires Posting(side, slot, Test)
      modifies this`s, this`trace
      ensures Posting(side, slot, if active then Idle else Launch) && Progress()
      ensures active ==> s.call.code == Ok
    {
      Log(CallStep);
    }

    /** priv->launch called from main-line code. The interrupt may come between its statements as far
        as this code can tell; that none is due then is what the machine's invariant shows. */
    method LaunchFromPost(side: Side, slot: Slot)
      requires Posting(side, slot, Launch)
      modifies this, txBuf, rxBuf
      ensures Posting(side, slot, Idle) && Progress() && s.call.code == Ok
    {
      hide Inv, Run, Step, Calm, Disciplined, DmaDevice.Matches, DmaDevice.Reachable, DmaDevice.OnCourse;
      Preempt();
      var can := LaunchTest(side, slot);
      if can { LaunchRegisters(side, slot); }
    }

    method LaunchRegisters(side: Side, slot: Slot)
      requires Posting(side, slot, Registers)
      modifies this, txBuf, rxBuf
      ensures Posting(side, slot, Idle) && Progress() && s.call.code == Ok
    {
      hide Inv, Run, Step, Calm, Disciplined, DmaDevice.Matches, DmaDevice.Reachable, DmaDevice.OnCourse;
      Preempt();
      LaunchAddresses(side, slot);
      Preempt();
      LaunchLength(side, slot);
    }

    method LaunchTest(side: Side, slot: Slot) returns (can: bool)
      requires Posting(side, slot, Launch)
      modifies this`s, this`trace, this`active
      ensures Posting(side, slot, if can then Registers else Idle) && Progress() && (!can ==> s.call.code == Ok)
    {
      hide Inv, Run, Calm, Disciplined;
      can := TestLaunch();
      Log(CallStep);
    }

    method LaunchAddresses(side: Side, slot: Slot)
      requires Posting(side, slot, Registers)
      modifies this`s, this`trace, this`raddr, this`waddr
      ensures Posting(side, slot, Go) && Progress()
    {
      hide Inv, Run, Calm, Disciplined;
      ProgramAddresses(s);
      Log(CallStep);
    }

    method LaunchLength(side: Side, slot: Slot)
      requires Posting(side, slot, Go)
      modifies this`s, this`trace, this`length, this`busy
      ensures Posting(side, slot, Idle) && Progress() && s.call.code == Ok
    {
      hide Inv, Run, Calm, Disciplined;
      ProgramLength(s);
      Log(CallStep);
    }

    /** alt_avalon_dma_space. `completed` sends were completed between its two loads; the answer is how many
        more sends would be accepted if and only if that is a multiple of the ring length, and none can be if
        no transfer is in flight at the call or the transmit side streams. */
    method SpaceLeft() returns (space: int, ghost completed: nat)
      requires Valid() && s.call.pc == Idle
      modifies this, txBuf, rxBuf
      ensures Valid() && s.call.pc == Idle && Progress()
      ensures Orderly() ==> SpaceExact(space, completed)
      ensures !old(busy) || old(s.mode.txStream) ==> completed == 0
    {
      hide Inv, Run, Step, Calm, Disciplined;
      hide DmaDevice.Orderly, DmaDevice.Matches, DmaDevice.Reachable, DmaDevice.SpaceExact;
      BeginSpace();
      Preempt();
      var first := LoadTxFirst();
      Preempt();
      space, completed := Answer(first);
    }

    ghost predicate SpaceExact(space: int, completed: nat)
      reads this
      requires Fits(slots, s)
    {
      && completed <= s.tx.popped && |s.tx.Pending()| == |s.tx.posted| - s.tx.popped
      && (space == slots - 1 - |s.tx.Pending()| <==> completed % slots == 0)
    }

    ghost method BeginSpace()
      requires Valid() && s.call.pc == Idle
      modifies this`s, this`trace
      ensures Valid() && s.call.pc == RoomStart && Progress()
    {
      Log(SpaceCall);
    }

    method LoadTxFirst() returns (first: nat)
      requires Valid() && s.call.pc == RoomStart
      modifies this`s, this`trace
      ensures Valid() && s.call.pc == RoomEnd && Progress() && s.call.start == first && s.call.popped == s.tx.popped
    {
      hide Inv, Run, Calm, Disciplined;
      first := txFirst;
      Log(CallStep);
    }

    method Answer(first: nat) returns (space: int, ghost completed: nat)
      requires Valid() && s.call.pc == RoomEnd && s.call.start == first
      modifies this`s, this`trace
      ensures Valid() && s.call.pc == Idle && Progress() && (Orderly() ==> SpaceExact(space, completed))
      ensures completed == if s.call.popped <= s.tx.popped then s.tx.popped - s.call.popped else 0
      ensures s.tx.popped == old(s.tx.popped) && s.call.popped == old(s.call.popped)
    {
      hide Inv, Run, Calm, Disciplined;
      var end := txEnd;
      space := if first > end then first - end - 1 else slots + first - end - 1;
      completed := if s.call.popped <= s.tx.popped then s.tx.popped - s.call.popped else 0;
      ghost var before := s;
      Log(CallStep);
      RoomAnswered(before, space, completed);
    }

    lemma RoomAnswered(before: State, space: int, completed: nat)
      requires Reachable() && Fits(slots, before) && trace != [] && before == Run(slots, start, trace[..|trace| - 1])
      requires before.call.pc == RoomEnd && s == CallNext(slots, before)
      requires space == Space(slots, before.call.start, before.tx.end)
      requires completed == if before.call.popped <= before.tx.popped then before.tx.popped - before.call.popped else 0
      ensures Orderly() ==> SpaceExact(space, completed)
    {
      hide Inv, Run, DmaDevice.Orderly;
      if Orderly() {
        OrderlyBefore();
        SpaceExactIff(slots, before);
        PendingCount(slots, before);
      }
    }

    /** The state before the last event of an orderly trace. */
    lemma OrderlyBefore()
      requires Reachable() && Orderly() && trace != []
      ensures Inv(slots, Run(slots, start, trace[..|trace| - 1]))
    {
      hide Inv, Run, Allowed;
      DisciplinedPrefix(slots, start, trace, |trace| - 1);
      RunKeepsInv(slots, start, trace[..|trace| - 1]);
    }

    /** alt_avalon_dma_ioctl. Either its guard refuses it, and the mode stays; or the request is carried
        out, and then in an orderly run on a quiescent device. A call that is not risky when it is made keeps
        the run orderly. With no transfer in flight the guard is exact. */
    method Control(req: Request) returns (code: Code, ghost passed: bool)
      requires Valid() && s.call.pc == Idle
      modifies this, txBuf, rxBuf
      ensures Valid() && s.call.pc == Idle && old(trace) <= trace
      ensures if passed then (s.mode, code) == ModeAfter(old(s.mode), req) else s.mode == old(s.mode) && code == Busy
      ensures old(Orderly()) && !Risky(slots, old(s)) ==> Orderly()
      ensures passed && Orderly() ==> s.tx.Empty() && s.rx.Empty() && !s.engine.busy
      ensures !old(busy) ==> (passed <==> old(txFirst == txEnd && rxFirst == rxEnd && length == 0))
    {
      hide Inv, Run, Step, Calm, Disciplined, DmaDevice.Orderly, DmaDevice.Matches, DmaDevice.Reachable, ModeAfter;
      code, passed := Busy, false;
      BeginControl(req);
      var empty := TxEmpty(req);
      if !empty { return; }
      empty := RxEmpty(req);
      if !empty { return; }
      Preempt();
      var idle := LengthZero(req);
      if !idle { return; }
      passed := true;
      code := SwitchMode(req);
    }

    ghost predicate Controlling(req: Request, pc: Pc)
      reads this, txBuf, rxBuf
    {
      Valid() && s.call.req == req && s.call.pc == pc
    }

    /** What an interrupt could change is as it was. */
    twostate predicate Still()
      reads this
    {
      && txFirst == old(txFirst) && txEnd == old(txEnd) && rxFirst == old(rxFirst) && rxEnd == old(rxEnd)
      && length == old(length) && busy == old(busy)
    }

    ghost method BeginControl(req: Request)
      requires Valid() && s.call.pc == Idle
      modifies this`s, this`trace
      ensures Controlling(req, GuardTxStart) && Grows() && (old(Orderly()) && !Risky(slots, old(s)) ==> OnCourse())
    {
      Log(IoctlCall(req));
    }

    /** The first comparison of the guard. */
    method TxEmpty(req: Request) returns (empty: bool)
      requires Controlling(req, GuardTxStart)
      modifies this, txBuf, rxBuf
      ensures Controlling(req, if empty then GuardRxStart else Idle) && Progress()
      ensures !old(busy) ==> Still() && (empty <==> old(txFirst == txEnd))
    {
      hide Inv, Run, Step, Calm, Disciplined;
      Preempt();
      var first := txFirst;
      LogGuard(req);
      Preempt();
      empty := first == txEnd;
      LogGuard(req);
    }

    /** The second. */
    method RxEmpty(req: Request) returns (empty: bool)
      requires Controlling(req, GuardRxStart)
      modifies this, txBuf, rxBuf
      ensures Controlling(req, if empty then GuardLength else Idle) && Progress()
      ensures !old(busy) ==> Still() && (empty <==> old(rxFirst == rxEnd))
    {
      hide Inv, Run, Step, Calm, Disciplined;
      Preempt();
      var first := rxFirst;
      LogGuard(req);
      Preempt();
      empty := first == rxEnd;
      LogGuard(req);
    }

    ghost method LogGuard(req: Request)
      requires Valid() && s.call.req == req && InGuard(s.call.pc)
      modifies this`s, this`trace
      ensures Valid() && s == IoctlNext(old(s)) && s.call.req == req && Progress()
    {
      hide Inv, Run, Calm, Disciplined;
      Log(CallStep);
    }

    /** The third. */
    method LengthZero(req: Request) returns (zero: bool)
      requires Controlling(req, GuardLength)
      modifies this`s, this`trace
      ensures Controlling(req, if zero then Switch else Idle) && Progress() && (zero <==> length == 0)
    {
      zero := length == 0;
      LogGuard(req);
    }

    lemma SwitchedQuiet(before: State)
      requires Reachable() && Fits(slots, before) && trace != [] && before == Run(slots, start, trace[..|trace| - 1])
      requires before.call.pc == Switch && s.tx == before.tx && s.rx == before.rx && s.engine.busy == before.engine.busy
      ensures Orderly() ==> s.tx.Empty() && s.rx.Empty() && !s.engine.busy
    {
      hide Run, DmaDevice.Orderly;
      if Orderly() {
        OrderlyBefore();
        PassedIsQuiet(slots, before);
        hide Inv;
      }
    }

    method SwitchMode(req: Request) returns (code: Code)
      requires Controlling(req, Switch)
      modifies this`s, this`trace, this`mode, this`raddr, this`waddr, this`control
      ensures Valid() && s.call.pc == Idle && old(trace) <= trace
      ensures (s.mode, code) == ModeAfter(old(s.mode), req) && (old(OnCourse()) ==> OnCourse())
      ensures Orderly() ==> s.tx.Empty() && s.rx.Empty() && !s.engine.busy
    {
      hide Inv, Run, Calm, Disciplined;
      ghost var before := s;
      SwitchEffect(slots, s);
      code := Decide(req);
      if code == Ok { control := (mode.width, mode.txStream, !mode.txStream && mode.rxStream); }
      hide Step, DmaDevice.Orderly, SwitchNext, CallNext;
      Log(CallStep);
      SwitchedQuiet(before);
    }

    /** The switch over the requests. */
    method Decide(req: Request) returns (code: Code)
      modifies this`mode, this`raddr, this`waddr
      ensures (mode, code) == ModeAfter(old(mode), req)
      ensures raddr == if code == Ok && req.TxStreamOn? then req.arg else old(raddr)
      ensures waddr == if code == Ok && req.RxStreamOn? then req.arg else old(waddr)
    {
      code := Ok;
      match req {
        case TxStreamOn(arg) =>
          if mode.rxStream { return Busy; }
          raddr := arg;
          mode := mode.(txStream := true, launcher := RxOnly);
        case TxStreamOff => mode := mode.(txStream := false, launcher := Bidir);
        case RxStreamOn(arg) =>
          if mode.txStream { return Busy; }
          waddr := arg;
          mode := mode.(rxStream := true, launcher := TxOnly);
        case RxStreamOff => mode := mode.(rxStream := false, launcher := Bidir);
        case SetWidth(bytes) =>
          if bytes !in {1, 2, 4, 8, 16} { return NotTty; }
          mode := mode.(width := bytes);
        case Unknown => code := NotTty;
      }
    }
  }

  lemma SwitchEffect(slots: nat, s: State)
    requires Fits(slots, s) && s.call.pc == Switch
    ensures var s' := Step(slots, s, CallStep); var (mode, code) := ModeAfter(s.mode, s.call.req);
      && s'.tx == s.tx && s'.rx == s.rx && s'.active == s.active && s'.mode == mode && s'.call.pc == Idle
      && s'.engine.busy == s.engine.busy && s'.engine.length == s.engine.length
      && s'.engine.raddr == (if code == Ok && s.call.req.TxStreamOn? then s.call.req.arg else s.engine.raddr)
      && s'.engine.waddr == (if code == Ok && s.call.req.RxStreamOn? then s.call.req.arg else s.engine.waddr)
      && (s'.engine.width, s'.engine.rcon, s'.engine.wcon) ==
         if code == Ok then (mode.width, mode.txStream, !mode.txStream && mode.rxStream)
         else (s.engine.width, s.engine.rcon, s.engine.wcon)
  {
    hide PosterNext;
  }

  lemma RunsOn(slots: nat, s: State, es: seq<Event>, e: Event)
    requires Fits(slots, s)
    ensures Run(slots, s, es + [e]) == Step(slots, Run(slots, s, es), e) && (es + [e])[..|es|] == es
  {
    hide Step;
    assert (es + [e])[..|es|] == es;
  }

  lemma PostBegins(slots: nat, s: State, side: Side, slot: Slot)
    requires Fits(slots, s) && s.call.pc == Idle
    ensures !PostRisky(slots, s, side) ==> Calm(slots, Step(slots, s, PostCall(Post(side, slot))))
    ensures var s' := Step(slots, s, PostCall(Post(side, slot)));
      && s' == s.(call := s'.call) && s'.call.side == side && s'.call.slot == slot
      && (if Acceptable(s.mode, slot) then s'.call.pc == SnapStart else s'.call.pc == Idle && s'.call.code == Invalid)
  {
    RiskWithoutCall(slots, s, Step(slots, s, PostCall(Post(side, slot))).call);
    hide CallbackComing;
  }

  /** Histories only grow in an interrupt. */
  lemma ServeGrows(slots: nat, s: State, txPosts: seq<Post>, rxPosts: seq<Post>)
    requires Fits(slots, s)
    ensures var s' := Serve(slots, s, txPosts, rxPosts);
      && s'.call == s.call && s'.mode == s.mode && s.tx.posted <= s'.tx.posted && s.rx.posted <= s'.rx.posted
      && (s.mode.txStream ==> s'.tx.popped == s.tx.popped)
  {
    var s1 := Complete(slots, s);
    PostAllExtends(slots, s1.(callbacks := s1.callbacks + [TxDone(s1.tx.buf[s.tx.first].handle)]), txPosts);
    var s2 := CallTx(slots, s1, s.tx.first, txPosts);
    var served := s2.rx.buf[s.rx.first];
    PostAllExtends(slots, s2.(callbacks := s2.callbacks + [RxDone(served.handle, served.addr)]), rxPosts);
    hide LaunchNow, PostAll;
  }

  lemma PendingCount(slots: nat, s: State)
    requires Inv(slots, s)
    ensures s.tx.popped <= |s.tx.posted| && |s.tx.Pending()| == |s.tx.posted| - s.tx.popped
  {
  }
}
