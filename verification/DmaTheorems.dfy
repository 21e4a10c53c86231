/** What the DMA driver promises over whole runs. */
module DmaTheorems {
  import opened Ring
  import opened Machine32
  import opened DmaMachine
  import opened DmaProofs

  function Reached(slots: nat, maxLength: u32, es: seq<Event>): (s: State)
    requires slots >= 2
    ensures Fits(slots, s)
  {
    Run(slots, Init(slots, maxLength), es)
  }

  /** A run in which no load of a ring is torn, no callback re-enters the call it interrupted, and no ioctl
      is called while a callback could overtake it. */
  predicate Orderly(slots: nat, maxLength: u32, es: seq<Event>)
    requires slots >= 2
  {
    Disciplined(slots, Init(slots, maxLength), es)
  }

  lemma ReachedInv(slots: nat, maxLength: u32, es: seq<Event>)
    requires slots >= 2 && Orderly(slots, maxLength, es)
    ensures Inv(slots, Reached(slots, maxLength, es))
  {
    RunKeepsInv(slots, Init(slots, maxLength), es);
  }

  /** No lost launch: whenever no call is under way, the engine runs if and only if the launch routine
      would find work, and then on the transfer programmed from the two head descriptors; and at no
      time is a transfer started while another is in flight. */
  lemma RunsNeverLoseLaunches(slots: nat, maxLength: u32, es: seq<Event>)
    requires slots >= 2 && Orderly(slots, maxLength, es)
    ensures var s := Reached(slots, maxLength, es);
      && !s.engine.overlap
      && (s.call.pc == Idle ==>
        && (s.active <==> CanLaunch(s)) && (s.active <==> s.engine.busy)
        && (s.mode.launcher == Bidir ==> (s.engine.busy <==> s.tx.Pending() != [] && s.rx.Pending() != [])))
      && (s.engine.busy ==> Transfer(s.engine.raddr, s.engine.waddr, s.engine.length) == Programmed(slots, s))
  {
    ReachedInv(slots, maxLength, es);
    var s := Reached(slots, maxLength, es);
    ContentsLength(s.tx.buf, s.tx.first, s.tx.end);
    ContentsLength(s.rx.buf, s.rx.first, s.rx.end);
  }

  /** Whatever the order of posts, completions and mode changes, every queued descriptor suits the
      current transfer width and the engine's maximum length, the control register shows the mode, and
      the two sides never both stream. */
  lemma RunsKeepModeSafe(slots: nat, maxLength: u32, es: seq<Event>)
    requires slots >= 2 && Orderly(slots, maxLength, es)
    ensures var s := Reached(slots, maxLength, es);
      && (forall d :: d in s.tx.Pending() || d in s.rx.Pending() ==>
        d.addr % s.mode.width == 0 && d.len % s.mode.width == 0 && d.len <= maxLength)
      && s.mode.width in {1, 2, 4, 8, 16} && !(s.mode.txStream && s.mode.rxStream)
      && s.engine.width == s.mode.width && s.engine.rcon == s.mode.txStream && s.engine.wcon == s.mode.rxStream
  {
    ReachedInv(slots, maxLength, es);
    MaxLengthFixed(slots, Init(slots, maxLength), es);
  }

  lemma {:induction false} MaxLengthFixed(slots: nat, s: State, es: seq<Event>)
    requires Fits(slots, s)
    ensures Run(slots, s, es).mode.maxLength == s.mode.maxLength
  {
    if es != [] {
      MaxLengthFixed(slots, s, es[..|es| - 1]);
      StepKeepsMaxLength(slots, Run(slots, s, es[..|es| - 1]), es[|es| - 1]);
    }
  }

  lemma StepKeepsMaxLength(slots: nat, s: State, e: Event)
    requires Fits(slots, s)
    ensures Step(slots, s, e).mode.maxLength == s.mode.maxLength
  {
  }

  /** The indices of the transmit ring always tell how many sends are not completed. */
  lemma RunsCountSpace(slots: nat, maxLength: u32, es: seq<Event>)
    requires slots >= 2 && Orderly(slots, maxLength, es)
    ensures var s := Reached(slots, maxLength, es);
      && Space(slots, s.tx.first, s.tx.end) + |s.tx.Pending()| == slots - 1
      && |s.tx.Pending()| == |s.tx.posted| - s.tx.popped
      && (Space(slots, s.tx.first, s.tx.end) == 0 <==> s.tx.Full(slots))
  {
    ReachedInv(slots, maxLength, es);
  }

  /** But space() loads them one after the other: its answer is the room at the time of the second load
      if and only if the number of sends completed in between is a multiple of the ring length. */
  lemma SpaceExactIff(slots: nat, s: State)
    requires Inv(slots, s) && s.call.pc == RoomEnd
    ensures var done := s.tx.popped - s.call.popped; var s' := CallNext(slots, s);
      done >= 0 && s'.call.code.Room? &&
      (s'.call.code.count == slots - 1 - |s.tx.Pending()| <==> done % slots == 0)
  {
    var done := s.tx.popped - s.call.popped;
    assert Space(slots, s.tx.first, s.tx.end) == slots - 1 - |s.tx.Pending()|;
    SameResidueIff(s.call.start, done, slots);
    hide Inv;
    assert s.call.start < slots;
  }

  /** Its answer, if the second load came now. */
  predicate AnswersExactly(slots: nat, s: State, es: seq<Event>)
    requires Fits(slots, s)
  {
    var s' := Run(slots, Step(slots, s, SpaceCall), es);
    s'.call.pc == RoomEnd ==> CallNext(slots, s').call.code == Room(slots - 1 - |s'.tx.Pending()|)
  }

  /** Seen from the call: the answer is exact whatever interrupts come if and only if no transfer is in
      flight or the transmit side streams. */
  lemma SpaceSafeIff(slots: nat, s: State)
    requires Inv(slots, s) && s.call.pc == Idle
    ensures (forall es :: OneCall(es) ==> AnswersExactly(slots, s, es)) <==> !(s.engine.busy && !s.mode.txStream)
  {
    var s0 := Step(slots, s, SpaceCall);
    StepKeepsInv(slots, s, SpaceCall);
    assert s0 == s.(call := s0.call) && s0.call.pc == RoomStart;
    hide *;
    if s.engine.busy && !s.mode.txStream {
      PopBetweenLoads(slots, s, s0);
    } else {
      forall es | OneCall(es) ensures AnswersExactly(slots, s, es) { StartStandsAnswers(slots, s, s0, es); }
    }
  }

  lemma StartStandsAnswers(slots: nat, s: State, s0: State, es: seq<Event>)
    requires Fits(slots, s) && s0 == Step(slots, s, SpaceCall) && Inv(slots, s0) && s0.call.pc == RoomStart
    requires (s0.engine.busy ==> s0.mode.txStream) && OneCall(es)
    ensures AnswersExactly(slots, s, es)
  {
    hide Inv, Step, Run, CallNext;
    StartStands(slots, s0, es);
    var s' := Run(slots, s0, es);
    if s'.call.pc == RoomEnd { SpaceExactIff(slots, s'); }
  }

  /** A send is completed between the two loads. */
  lemma PopBetweenLoads(slots: nat, s: State, s0: State)
    requires Fits(slots, s) && s0 == Step(slots, s, SpaceCall)
    requires Inv(slots, s0) && s0.call.pc == RoomStart && s0.engine.busy && !s0.mode.txStream
    ensures var es := [CallStep, Interrupt([], [])]; OneCall(es) && !AnswersExactly(slots, s, es)
  {
    hide CallNext, Run, Step, Serve, Inv, Allowed, Space;
    var s1 := CallNext(slots, s0);
    RoomLoads(slots, s0);
    StepKeepsInv(slots, s0, CallStep);
    StepCases(slots, s0);
    StepCases(slots, s1);
    TwoEvents(slots, s0, CallStep, Interrupt([], []));
    ServeAfterLoad(slots, s1);
  }

  lemma RoomLoads(slots: nat, s: State)
    requires Fits(slots, s) && s.call.pc == RoomStart
    ensures Allowed(slots, s, CallStep)
    ensures var s1 := CallNext(slots, s);
      s1 == s.(call := s1.call) && s1.call.pc == RoomEnd && s1.call.popped == s.tx.popped
  {
    hide PosterNext, IoctlNext;
  }

  lemma StepCases(slots: nat, s: State)
    requires Fits(slots, s)
    ensures Step(slots, s, CallStep) == CallNext(slots, s)
    ensures s.engine.busy ==> Step(slots, s, Interrupt([], [])) == Serve(slots, s, [], [])
  {
    hide CallNext, Serve;
  }

  lemma ServeAfterLoad(slots: nat, s: State)
    requires Inv(slots, s) && s.call.pc == RoomEnd && s.engine.busy && !s.mode.txStream && s.call.popped == s.tx.popped
    ensures var s' := Serve(slots, s, [], []);
      s'.call.pc == RoomEnd && CallNext(slots, s').call.code != Room(slots - 1 - |s'.tx.Pending()|)
  {
    hide CallNext, Serve;
    ServeKeepsInv(slots, s, [], []);
    ServeMoves(slots, s, [], []);
    SpaceExactIff(slots, Serve(slots, s, [], []));
    hide Inv;
  }

  lemma TwoEvents(slots: nat, s: State, a: Event, b: Event)
    requires Fits(slots, s)
    ensures Run(slots, s, [a, b]) == Step(slots, Step(slots, s, a), b)
  {
    hide Step;
    assert [a, b][..1] == [a] && [a][..0] == [];
    assert Run(slots, s, [a]) == Step(slots, Run(slots, s, []), a);
  }

  /** With no transfer in flight, or none that takes a send off its ring, the start index stands. */
  lemma {:induction false} StartStands(slots: nat, s: State, es: seq<Event>)
    requires Inv(slots, s) && s.call.pc in {RoomStart, RoomEnd, Idle} && OneCall(es)
    requires s.engine.busy ==> s.mode.txStream
    requires s.call.pc == RoomEnd ==> s.call.popped == s.tx.popped
    ensures var s' := Run(slots, s, es);
      && Inv(slots, s') && s'.call.pc in {RoomStart, RoomEnd, Idle} && (s'.engine.busy ==> s'.mode.txStream)
      && (s'.call.pc == RoomEnd ==> s'.call.popped == s'.tx.popped)
  {
    if es != [] {
      var k := |es| - 1;
      assert es[k] in es && forall e :: e in es[..k] ==> e in es;
      StartStands(slots, s, es[..k]);
      StartStandsStep(slots, Run(slots, s, es[..k]), es[k]);
    }
  }

  lemma StartStandsStep(slots: nat, s: State, e: Event)
    requires Inv(slots, s) && s.call.pc in {RoomStart, RoomEnd, Idle} && (s.engine.busy ==> s.mode.txStream)
    requires (e.CallStep? || e.Interrupt?) && (s.call.pc == RoomEnd ==> s.call.popped == s.tx.popped)
    ensures var s' := Step(slots, s, e);
      && Inv(slots, s') && s'.call.pc in {RoomStart, RoomEnd, Idle} && (s'.engine.busy ==> s'.mode.txStream)
      && (s'.call.pc == RoomEnd ==> s'.call.popped == s'.tx.popped)
  {
    StepKeepsInv(slots, s, e);
    if e.Interrupt? && s.engine.busy {
      hide Inv, PosterNext, IoctlNext, Serve;
      ServeStands(slots, s, e.txPosts, e.rxPosts);
    } else {
      hide PosterNext, IoctlNext, Serve, Inv;
    }
  }

  lemma ServeStands(slots: nat, s: State, txPosts: seq<Post>, rxPosts: seq<Post>)
    requires Inv(slots, s) && s.engine.busy
    ensures var s' := Serve(slots, s, txPosts, rxPosts);
      s'.call == s.call && s'.mode == s.mode && (s.mode.txStream ==> s'.tx.popped == s.tx.popped)
  {
    ServeMoves(slots, s, txPosts, rxPosts);
    ServeKeepsMode(slots, s, txPosts, rxPosts);
    hide Serve;
  }

  lemma SameResidueIff(start: nat, done: nat, m: nat)
    requires m > 0 && start < m
    ensures (start + done) % m == start <==> done % m == 0
  {
    Arithmetic.DivNat(done, m);
    ShiftedResidue(start, done, done / m, done % m, m);
  }

  lemma ShiftedResidue(start: nat, done: nat, q: nat, r: nat, m: nat)
    requires start < m && r < m && done == q * m + r
    ensures (start + done) % m == if start + r < m then start + r else start + r - m
  {
    Arithmetic.MulMonotone(q, q, m);
    Arithmetic.DivUnique(start + done, m, if start + r < m then q else q + 1);
  }

  // ---- pairing and callbacks ---------------------------------------------------------------

  function Pair(t: Slot, r: Slot): Transfer { Transfer(t.addr, r.addr, MinLen(t.len, r.len)) }

  /** The callbacks for the first n pairs, in order, each with its own handle and data. */
  function Log(ts: seq<Slot>, rs: seq<Slot>, n: nat): seq<Callback>
    requires n <= |ts| && n <= |rs|
  {
    if n == 0 then []
    else Log(ts, rs, n - 1) + (if ts[n - 1].done then [TxDone(ts[n - 1].handle)] else [])
                            + (if rs[n - 1].done then [RxDone(rs[n - 1].handle, rs[n - 1].addr)] else [])
  }

  function Bit(b: bool): nat { if b then 1 else 0 }

  /** The k-th accepted send went together with the k-th accepted prepare. */
  predicate Paired(s: State) {
    && s.mode.launcher == Bidir && !s.mode.txStream && !s.mode.rxStream
    && s.tx.popped == s.rx.popped && |s.transfers| == s.tx.popped + Bit(s.engine.busy)
    && |s.transfers| <= |s.tx.posted| && |s.transfers| <= |s.rx.posted|
    && forall k :: 0 <= k < |s.transfers| ==> s.transfers[k] == Pair(s.tx.posted[k], s.rx.posted[k])
  }

  predicate Logged(s: State, n: nat) {
    n <= |s.tx.posted| && n <= |s.rx.posted| && s.callbacks == Log(s.tx.posted, s.rx.posted, n)
  }

  lemma {:induction false} LogGrows(ts: seq<Slot>, rs: seq<Slot>, ts': seq<Slot>, rs': seq<Slot>, n: nat)
    requires n <= |ts| && n <= |rs| && ts <= ts' && rs <= rs'
    ensures Log(ts', rs', n) == Log(ts, rs, n)
  {
    if n > 0 { LogGrows(ts, rs, ts', rs', n - 1); }
  }

  /** What a callback's posts leave alone: the history so far, and the slots just before the heads. */
  predicate Spares(slots: nat, s: State, s': State)
    requires Fits(slots, s) && Fits(slots, s')
  {
    && Extends(slots, s, s') && s'.callbacks == s.callbacks
    && (forall k :: 0 <= k < slots && Wrap(slots, k + 1) == s.tx.first ==> s'.tx.buf[k] == s.tx.buf[k])
    && (forall k :: 0 <= k < slots && Wrap(slots, k + 1) == s.rx.first ==> s'.rx.buf[k] == s.rx.buf[k])
  }

  lemma LaunchNowPairs(slots: nat, s: State)
    requires Fits(slots, s) && QueueInv(slots, s.mode, s.tx) && QueueInv(slots, s.mode, s.rx)
    requires Paired(s) && !s.engine.busy
    ensures Paired(LaunchNow(slots, s)) && Spares(slots, s, LaunchNow(slots, s))
  {
    hide Contents;
    if CanLaunch(s) {
      HeadIsNext(slots, s.mode, s.tx);
      HeadIsNext(slots, s.mode, s.rx);
    }
  }

  lemma SlotsSpared(slots: nat, s: State, p: Post)
    requires Fits(slots, s) && Extends(slots, s, PostNow(slots, s, p))
    ensures Spares(slots, s, PostNow(slots, s, p))
  {
    hide LaunchNow, Extends;
  }

  /** A post fills the free slot farthest from the head: the full test keeps one slot unused, so the
      descriptor that was just completed is not overwritten. */
  lemma PostNowPairs(slots: nat, s: State, p: Post)
    requires Serving(slots, s) && Paired(s)
    ensures Paired(PostNow(slots, s, p)) && Spares(slots, s, PostNow(slots, s, p))
  {
    hide Contents;
    var q := QueueOf(s, p.side);
    if Acceptable(s.mode, p.slot) && !q.Full(slots) {
      PutKeepsQueue(slots, s.mode, q, p.slot);
      var s1 := WithQueue(s, p.side, Advance(StoreSlot(q, q.end, p.slot), p.slot));
      assert Paired(s1);
      if !s1.active { LaunchNowPairs(slots, s1); }
      PostNowExtends(slots, s, p);
      SlotsSpared(slots, s, p);
      hide QueueInv, Paired, Extends, ModeInv, Core, LaunchNow, Advance, StoreSlot;
    }
  }

  lemma {:induction false} PostAllPairs(slots: nat, s: State, ps: seq<Post>)
    requires Serving(slots, s) && Paired(s)
    ensures Paired(PostAll(slots, s, ps)) && Spares(slots, s, PostAll(slots, s, ps))
    decreases |ps|
  {
    if ps != [] {
      var s1 := PostNow(slots, s, ps[0]);
      PostNowKeepsCore(slots, s, ps[0]);
      PostNowPairs(slots, s, ps[0]);
      hide Core, Paired, Spares, PostNow;
      PostAllPairs(slots, s1, ps[1..]);
      SparesFurther(slots, s, s1, PostAll(slots, s1, ps[1..]));
    }
  }

  lemma SparesFurther(slots: nat, s: State, s': State, s'': State)
    requires Fits(slots, s) && Fits(slots, s') && Fits(slots, s'')
    requires Spares(slots, s, s') && Spares(slots, s', s'')
    ensures Spares(slots, s, s'')
  {
  }

  lemma CompletePairs(slots: nat, s: State)
    requires Core(slots, s) && s.engine.busy && Paired(s)
    ensures var s' := Complete(slots, s); var n := s.tx.popped;
      && Paired(s') && s'.tx.popped == n + 1 && s'.callbacks == s.callbacks
      && s'.tx.posted == s.tx.posted && s'.rx.posted == s.rx.posted
      && n < |s.tx.posted| && n < |s.rx.posted|
      && Wrap(slots, s.tx.first + 1) == s'.tx.first && s'.tx.buf[s.tx.first] == s.tx.posted[n]
      && Wrap(slots, s.rx.first + 1) == s'.rx.first && s'.rx.buf[s.rx.first] == s.rx.posted[n]
  {
    hide Contents;
    PopKeepsQueue(slots, s.mode, s.tx);
    PopKeepsQueue(slots, s.mode, s.rx);
    var s1 := s.(engine := s.engine.(busy := false, length := 0), tx := Pop(s.tx), rx := Pop(s.rx));
    LaunchNowPairs(slots, s1);
  }

  /** A callback and its posts. */
  lemma CallbackPairs(slots: nat, s: State, cb: Callback, posts: seq<Post>)
    requires Serving(slots, s) && Paired(s)
    ensures var s1 := s.(callbacks := s.callbacks + [cb]); var s' := PostAll(slots, s1, posts);
      Paired(s') && Spares(slots, s1, s')
  {
    PostAllPairs(slots, s.(callbacks := s.callbacks + [cb]), posts);
  }

  /** Nothing but the callback of descriptor n is logged, and no later history is lost. */
  predicate Follows(s: State, s': State, entries: seq<Callback>) {
    && Paired(s') && s.tx.posted <= s'.tx.posted && s.rx.posted <= s'.rx.posted
    && s'.tx.popped == s.tx.popped && s'.rx.first == s.rx.first
    && s'.callbacks == s.callbacks + entries
  }

  lemma CallTxPairs(slots: nat, s: State, k: nat, posts: seq<Post>, d: Slot)
    requires Serving(slots, s) && Paired(s) && k < slots && s.tx.buf[k] == d
    ensures Follows(s, CallTx(slots, s, k, posts), if d.done then [TxDone(d.handle)] else [])
    ensures forall i :: 0 <= i < slots && Wrap(slots, i + 1) == s.rx.first ==>
      CallTx(slots, s, k, posts).rx.buf[i] == s.rx.buf[i]
  {
    hide Serving;
    CallbackPairs(slots, s, TxDone(d.handle), posts);
  }

  lemma CallRxPairs(slots: nat, s: State, k: nat, posts: seq<Post>, d: Slot)
    requires Serving(slots, s) && Paired(s) && k < slots && s.rx.buf[k] == d
    ensures Follows(s, CallRx(slots, s, k, posts), if d.done then [RxDone(d.handle, d.addr)] else [])
  {
    hide Serving;
    CallbackPairs(slots, s, RxDone(d.handle, d.addr), posts);
  }

  /** Both callbacks of an interrupt, whatever they post. */
  lemma ServePairs(slots: nat, s: State, txPosts: seq<Post>, rxPosts: seq<Post>)
    requires Core(slots, s) && s.engine.busy
    requires Paired(s) && Logged(s, s.tx.popped)
    ensures var s' := Serve(slots, s, txPosts, rxPosts); Paired(s') && Logged(s', s'.tx.popped)
  {
    var n, s1 := s.tx.popped, Complete(slots, s);
    CompleteKeepsCore(slots, s);
    CompletePairs(slots, s);
    var t, r := s.tx.posted[n], s.rx.posted[n];
    var s2 := CallTx(slots, s1, s.tx.first, txPosts);
    var s3 := CallRx(slots, s2, s.rx.first, rxPosts);
    assert Serve(slots, s, txPosts, rxPosts) == s3 by { hide CallTx, CallRx, Complete; }
    hide Core, Complete, CallTx, CallRx, Serving, Paired, Extends, Wrap, Serve, Logged, Follows;
    CallTxKeepsCore(slots, s1, s.tx.first, txPosts);
    CallTxPairs(slots, s1, s.tx.first, txPosts, t);
    CallRxPairs(slots, s2, s.rx.first, rxPosts, r);
    LoggedNext(s, s1, s2, s3, n);
  }

  /** The two callbacks of pair n make the log one pair longer. */
  lemma LoggedNext(s: State, s1: State, s2: State, s3: State, n: nat)
    requires Logged(s, n) && n < |s.tx.posted| && n < |s.rx.posted|
    requires s1.callbacks == s.callbacks && s1.tx.posted == s.tx.posted && s1.rx.posted == s.rx.posted
    requires s1.tx.popped == n + 1
    requires var t := s.tx.posted[n]; Follows(s1, s2, if t.done then [TxDone(t.handle)] else [])
    requires var r := s.rx.posted[n]; Follows(s2, s3, if r.done then [RxDone(r.handle, r.addr)] else [])
    ensures Paired(s3) && Logged(s3, s3.tx.popped)
  {
    hide Paired;
    LogGrows(s.tx.posted, s.rx.posted, s3.tx.posted, s3.rx.posted, n);
  }

  lemma PosterPairs(slots: nat, s: State)
    requires Inv(slots, s) && Paired(s) && Logged(s, s.tx.popped)
    ensures var s' := PosterNext(slots, s); Paired(s') && Logged(s', s'.tx.popped)
  {
    hide Contents;
    var s' := PosterNext(slots, s);
    match s.call.pc
    case Publish =>
      LogGrows(s.tx.posted, s.rx.posted, s'.tx.posted, s'.rx.posted, s.tx.popped);
      hide Inv;
    case Go =>
      GoPairs(slots, s);
      var s1 := WriteLength(slots, s);
      assert s' == Return(s1, Ok) && s1.tx == s.tx && s1.rx == s.rx && s1.callbacks == s.callbacks;
      hide Inv, WriteLength, PosterNext, Log;
    case _ => hide Inv, Log;
  }

  lemma GoPairs(slots: nat, s: State)
    requires Inv(slots, s) && Paired(s) && s.call.pc == Go
    ensures Paired(WriteLength(slots, s))
  {
    hide Contents;
    HeadIsNext(slots, s.mode, s.tx);
    HeadIsNext(slots, s.mode, s.rx);
  }

  /** An accepted STREAM_ON. */
  predicate StartsStream(s: State, e: Event) {
    e.CallStep? && s.call.pc == Switch && (s.call.req.TxStreamOn? || s.call.req.RxStreamOn?)
  }

  predicate NeverStreams(slots: nat, s: State, es: seq<Event>)
    requires Fits(slots, s)
  {
    forall k :: 0 <= k < |es| ==> !StartsStream(Run(slots, s, es[..k]), es[k])
  }

  lemma StepPairs(slots: nat, s: State, e: Event)
    requires Inv(slots, s) && Paired(s) && Logged(s, s.tx.popped) && !StartsStream(s, e)
    ensures var s' := Step(slots, s, e); Paired(s') && Logged(s', s'.tx.popped)
  {
    hide PosterNext, Serve, Contents, QueueInv;
    if e.CallStep? && InPost(s.call.pc) {
      PosterPairs(slots, s);
    } else if e.Interrupt? && s.engine.busy {
      ServePairs(slots, s, e.txPosts, e.rxPosts);
    }
  }

  /** In runs without streaming the k-th accepted send is transferred together with the k-th accepted
      prepare, for the shorter of their lengths; and each completed descriptor's callback, if it has
      one, has been made once, in order, with its own handle and data, whatever callbacks posted. */
  lemma {:induction false} RunsPairInOrder(slots: nat, maxLength: u32, es: seq<Event>)
    requires slots >= 2 && Orderly(slots, maxLength, es) && NeverStreams(slots, Init(slots, maxLength), es)
    ensures var s := Reached(slots, maxLength, es); var n := s.tx.popped;
      && s.rx.popped == n <= |s.tx.posted| && n <= |s.rx.posted|
      && s.callbacks == Log(s.tx.posted, s.rx.posted, n)
      && |s.transfers| == n + Bit(s.engine.busy)
      && Paired(s)
  {
    if es != [] {
      var k := |es| - 1;
      DisciplinedPrefix(slots, Init(slots, maxLength), es, k);
      assert forall j :: 0 <= j < k ==> es[..k][..j] == es[..j];
      RunsPairInOrder(slots, maxLength, es[..k]);
      ReachedInv(slots, maxLength, es[..k]);
      StepPairs(slots, Reached(slots, maxLength, es[..k]), es[k]);
    }
  }

  // ---- the launcher and the stream flags ---------------------------------------------------

  /** The launch routine that fits the flags. */
  function Expected(mode: Mode): Launcher {
    if mode.txStream then RxOnly else if mode.rxStream then TxOnly else Bidir
  }

  predicate LauncherFits(s: State) { s.mode.launcher == Expected(s.mode) }

  /** A STREAM_OFF for the side that is not the streaming one. */
  predicate OffWhileOtherStreams(s: State, req: Request) {
    (req.TxStreamOff? && s.mode.rxStream) || (req.RxStreamOff? && s.mode.txStream)
  }

  /** An ioctl that nothing interrupts makes at most six accesses. */
  function Alone(slots: nat, s: State, req: Request): (s': State)
    requires Fits(slots, s)
    ensures Fits(slots, s')
  {
    CallSteps(slots, Step(slots, s, IoctlCall(req)), 6)
  }

  lemma GuardAlone(slots: nat, s: State)
    requires Fits(slots, s) && s.call.pc == GuardTxStart
    ensures var s' := CallSteps(slots, s, 5);
      && s' == s.(call := s'.call) && s'.call.req == s.call.req
      && (if s.tx.Empty() && s.rx.Empty() && s.engine.length == 0 then s'.call.pc == Switch
          else s'.call.pc == Idle && s'.call.code == Busy)
  {
    hide CallSteps, PosterNext;
    TwoSteps(slots, s);
    var s2 := CallSteps(slots, s, 2);
    assert s2 == s.(call := s2.call) && s2.call.req == s.call.req;
    assert if s.tx.Empty() then s2.call.pc == GuardRxStart else s2.call.pc == Idle && s2.call.code == Busy;
    hide CallNext;
    CallStepsAdd(slots, s, 2, 3);
    ThreeSteps(slots, s2);
    GuardRestAlone(slots, s2, CallNext(slots, CallNext(slots, s2)));
  }

  lemma GuardRestAlone(slots: nat, s: State, s2: State)
    requires Fits(slots, s) && s2 == CallNext(slots, CallNext(slots, s))
    requires s.call.pc == GuardRxStart || (s.call.pc == Idle && s.call.code == Busy)
    ensures var s' := CallNext(slots, s2);
      && s' == s.(call := s'.call) && s'.call.req == s.call.req
      && (if s.call.pc == GuardRxStart && s.rx.Empty() && s.engine.length == 0 then s'.call.pc == Switch
          else s'.call.pc == Idle && s'.call.code == Busy)
  {
    var s1 := CallNext(slots, s);
    assert s1 == s.(call := s1.call) && s1.call.req == s.call.req;
    assert if s.call.pc == GuardRxStart then s1.call.pc == GuardRxEnd && s1.call.start == s.rx.first else s1 == s;
    assert s2 == s.(call := s2.call) && s2.call.req == s.call.req;
    assert if s.call.pc == GuardRxStart && s.rx.Empty() then s2.call.pc == GuardLength
           else s2.call.pc == Idle && s2.call.code == Busy;
    hide PosterNext;
  }

  lemma TwoSteps(slots: nat, s: State)
    requires Fits(slots, s)
    ensures CallSteps(slots, s, 2) == CallNext(slots, CallNext(slots, s))
  {
    hide CallNext;
    assert CallSteps(slots, s, 1) == CallNext(slots, CallSteps(slots, s, 0));
  }

  /** It is refused exactly while a ring is not empty or the length register is not zero. */
  lemma IoctlAlone(slots: nat, s: State, req: Request)
    requires Fits(slots, s) && s.call.pc == Idle
    ensures var s' := Alone(slots, s, req); var (s1, code) := SwitchNext(s, req);
      && s'.call.pc == Idle && s'.tx == s.tx && s'.rx == s.rx && s'.active == s.active
      && (if s.tx.Empty() && s.rx.Empty() && s.engine.length == 0
          then s'.mode == s1.mode && s'.engine == s1.engine && s'.call.code == code
          else s'.mode == s.mode && s'.engine == s.engine && s'.call.code == Busy)
  {
    GuardAlone(slots, Step(slots, s, IoctlCall(req)));
    var s5 := CallSteps(slots, Step(slots, s, IoctlCall(req)), 5);
    assert Alone(slots, s, req) == CallNext(slots, s5);
    hide CallSteps, PosterNext;
  }

  /** So it leaves the launch routine fitting the flags exactly if its guard refuses it or it is no
      STREAM_OFF while the other side streams. */
  lemma IoctlKeepsLauncher(slots: nat, s: State, req: Request)
    requires Fits(slots, s) && s.call.pc == Idle && ModeInv(s.mode) && LauncherFits(s)
    ensures LauncherFits(Alone(slots, s, req)) <==>
      || !s.tx.Empty() || !s.rx.Empty() || s.engine.length != 0
      || !OffWhileOtherStreams(s, req)
  {
    IoctlAlone(slots, s, req);
    hide CallSteps, Alone;
  }

  /** An accepted ioctl of that kind. */
  predicate Slips(s: State, e: Event) {
    e.CallStep? && s.call.pc == Switch && OffWhileOtherStreams(s, s.call.req)
  }

  lemma OneMore(slots: nat, s: State, es: seq<Event>, k: nat)
    requires Fits(slots, s) && k < |es|
    ensures Run(slots, s, es[..k + 1]) == Step(slots, Run(slots, s, es[..k]), es[k])
  {
    assert es[..k + 1][..k] == es[..k];
  }

  lemma StepKeepsLauncher(slots: nat, s: State, e: Event)
    requires Fits(slots, s) && ModeInv(s.mode) && LauncherFits(s)
    ensures LauncherFits(Step(slots, s, e)) <==> !Slips(s, e)
  {
    hide Serve, PosterNext;
    if e.CallStep? && InPost(s.call.pc) { PosterKeepsMode(slots, s); }
    if e.Interrupt? { ServeKeepsMode(slots, s, e.txPosts, e.rxPosts); }
  }

  lemma PosterKeepsMode(slots: nat, s: State)
    requires Fits(slots, s)
    ensures PosterNext(slots, s).mode == s.mode
  {
  }

  lemma ServeKeepsMode(slots: nat, s: State, txPosts: seq<Post>, rxPosts: seq<Post>)
    requires Fits(slots, s)
    ensures Serve(slots, s, txPosts, rxPosts).mode == s.mode
  {
  }

  /** The launch routine fits the flags throughout a run if and only if no STREAM_OFF is accepted in it
      while the other side streams; refused ones do no harm. */
  lemma LauncherFitsIff(slots: nat, maxLength: u32, es: seq<Event>)
    requires slots >= 2 && Orderly(slots, maxLength, es)
    ensures (forall k :: 0 <= k <= |es| ==> LauncherFits(Reached(slots, maxLength, es[..k]))) <==>
      (forall k :: 0 <= k < |es| ==> !Slips(Reached(slots, maxLength, es[..k]), es[k]))
  {
    hide Run, LauncherFits, Slips, Inv, Disciplined;
    var s0 := Init(slots, maxLength);
    if forall k :: 0 <= k < |es| ==> !Slips(Reached(slots, maxLength, es[..k]), es[k]) {
      forall k | 0 <= k <= |es| ensures LauncherFits(Reached(slots, maxLength, es[..k])) {
        NoSlipFits(slots, maxLength, es, k);
      }
    } else if forall k :: 0 <= k <= |es| ==> LauncherFits(Reached(slots, maxLength, es[..k])) {
      var k :| 0 <= k < |es| && Slips(Reached(slots, maxLength, es[..k]), es[k]);
      ReachedModeInv(slots, maxLength, es, k);
      OneMore(slots, s0, es, k);
      assert LauncherFits(Reached(slots, maxLength, es[..k + 1]));
      StepKeepsLauncher(slots, Reached(slots, maxLength, es[..k]), es[k]);
    }
  }

  lemma ReachedModeInv(slots: nat, maxLength: u32, es: seq<Event>, k: nat)
    requires slots >= 2 && Orderly(slots, maxLength, es) && k <= |es|
    ensures ModeInv(Reached(slots, maxLength, es[..k]).mode)
  {
    DisciplinedPrefix(slots, Init(slots, maxLength), es, k);
    ReachedInv(slots, maxLength, es[..k]);
  }

  lemma {:induction false} NoSlipFits(slots: nat, maxLength: u32, es: seq<Event>, k: nat)
    requires slots >= 2 && Orderly(slots, maxLength, es) && k <= |es|
    requires forall j :: 0 <= j < |es| ==> !Slips(Reached(slots, maxLength, es[..j]), es[j])
    ensures LauncherFits(Reached(slots, maxLength, es[..k]))
  {
    if k == 0 {
      assert es[..0] == [];
    } else {
      hide Slips, Disciplined, Init, LauncherFits;
      NoSlipFits(slots, maxLength, es, k - 1);
      ReachedModeInv(slots, maxLength, es, k - 1);
      OneMore(slots, Init(slots, maxLength), es, k - 1);
      StepKeepsLauncher(slots, Reached(slots, maxLength, es[..k - 1]), es[k - 1]);
    }
  }

  /** And wherever it fits, a streaming side's partner is launched as soon as it has work. */
  lemma FittingLaunches(slots: nat, maxLength: u32, es: seq<Event>)
    requires slots >= 2 && Orderly(slots, maxLength, es)
    ensures var s := Reached(slots, maxLength, es);
      LauncherFits(s) && s.call.pc == Idle ==>
      && (s.mode.txStream && s.rx.Pending() != [] ==> s.engine.busy)
      && (s.mode.rxStream && s.tx.Pending() != [] ==> s.engine.busy)
  {
    hide Run, Contents;
    RunsNeverLoseLaunches(slots, maxLength, es);
    RunsKeepModeSafe(slots, maxLength, es);
    var s := Reached(slots, maxLength, es);
    ContentsLength(s.tx.buf, s.tx.first, s.tx.end);
    ContentsLength(s.rx.buf, s.rx.first, s.rx.end);
  }

  /** After a slip: the transmit side streams, and the launcher wants a send as well as a prepare. `d` is
      the oldest prepare, and the engine is idle. */
  predicate Stalled(slots: nat, s: State, d: Slot) {
    && Fits(slots, s) && s.mode.launcher == Bidir && s.mode.txStream && s.tx.Empty() && !s.rx.Empty()
    && s.rx.Head() == d && !s.engine.busy && !s.active
    && s.call.pc !in {Registers, Go, GuardLength, Switch}
    && (InPost(s.call.pc) ==> s.call.side == Receive)
    && (s.call.pc in {SnapEnd, GuardRxEnd} ==> s.call.start == s.rx.first)
    && (s.call.pc in {Fill, Publish} ==> s.call.end == s.rx.end && !s.rx.Full(slots))
  }

  lemma StepKeepsStalled(slots: nat, s: State, d: Slot, e: Event)
    requires Stalled(slots, s, d) && !(e.PostCall? && e.post.side == Send)
    ensures Stalled(slots, Step(slots, s, e), d)
  {
    match e
    case CallStep =>
      CallKeepsStalled(slots, s, d);
      hide Stalled, CallNext;
    case _ => hide Contents, CallNext, Serve;
  }

  lemma CallKeepsStalled(slots: nat, s: State, d: Slot)
    requires Stalled(slots, s, d)
    ensures Stalled(slots, CallNext(slots, s), d)
  {
    hide Contents;
    if InPost(s.call.pc) { PosterKeepsStalled(slots, s, d); }
    hide PosterNext;
  }

  lemma PosterKeepsStalled(slots: nat, s: State, d: Slot)
    requires Stalled(slots, s, d) && InPost(s.call.pc)
    ensures Stalled(slots, PosterNext(slots, s), d)
  {
    hide Contents, WriteLength, WriteAddresses;
  }

  /** Whatever else is called, except send, and however often, the prepare is never served. */
  lemma {:induction false} StalledForEver(slots: nat, s: State, d: Slot, es: seq<Event>)
    requires Stalled(slots, s, d) && forall e :: e in es ==> !(e.PostCall? && e.post.side == Send)
    ensures Stalled(slots, Run(slots, s, es), d)
  {
    if es != [] {
      var k := |es| - 1;
      assert es[k] in es && forall e :: e in es[..k] ==> e in es;
      StalledForEver(slots, s, d, es[..k]);
      StepKeepsStalled(slots, Run(slots, s, es[..k]), d, es[k]);
    }
  }

  /** A post that nothing interrupts makes at most eleven accesses, nine if it launches nothing. */
  function PostAlone(slots: nat, s: State, p: Post): (s': State)
    requires Fits(slots, s)
    ensures Fits(slots, s')
  {
    CallSteps(slots, Step(slots, s, PostCall(p)), 9)
  }

  /** A prepare that nothing interrupts, on an idle device whose launcher will find no work. */
  lemma PrepareAlone(slots: nat, s: State, d: Slot)
    requires Fits(slots, s) && s.call.pc == Idle && Acceptable(s.mode, d)
    requires s.mode.launcher == Bidir && s.tx.Empty() && s.rx.Empty() && !s.active
    ensures var s' := PostAlone(slots, s, Post(Receive, d));
      && s'.call.pc == Idle && s'.call.code == Ok && s'.mode == s.mode && s'.engine == s.engine && !s'.active
      && s'.tx == s.tx && !s'.rx.Empty() && s'.rx.Head() == d
  {
    var s0 := Step(slots, s, PostCall(Post(Receive, d)));
    PostAloneParts(slots, s, Post(Receive, d));
    hide PostAlone, CallSteps, CallNext;
    SnapAlone(slots, s0);
    var s2 := CallSteps(slots, s0, 2);
    assert s2.tx == s.tx && s2.rx == s.rx && s2.mode == s.mode && s2.engine == s.engine && !s2.active;
    hide Step;
    FillAlone(slots, s2);
    PublishAlone(slots, CallSteps(slots, s2, 4));
  }

  lemma PostAloneParts(slots: nat, s: State, p: Post)
    requires Fits(slots, s)
    ensures var s0 := Step(slots, s, PostCall(p));
      PostAlone(slots, s, p) == CallSteps(slots, CallSteps(slots, CallSteps(slots, s0, 2), 4), 3)
  {
    hide CallSteps, CallNext, Step;
    CallStepsAdd(slots, Step(slots, s, PostCall(p)), 2, 4);
    CallStepsAdd(slots, Step(slots, s, PostCall(p)), 6, 3);
  }

  lemma SnapAlone(slots: nat, s: State)
    requires Fits(slots, s) && s.call.pc == SnapStart && !QueueOf(s, s.call.side).Full(slots)
    ensures var s' := CallSteps(slots, s, 2);
      && s' == s.(call := s'.call) && s'.call.side == s.call.side && s'.call.slot == s.call.slot
      && s'.call.pc == Fill && s'.call.end == QueueOf(s, s.call.side).end && s'.call.filled == 0
  {
    TwoSteps(slots, s);
    hide CallSteps;
  }

  lemma PublishAlone(slots: nat, s: State)
    requires Fits(slots, s) && s.call.pc == Publish && s.call.side == Receive && s.call.end == s.rx.end && s.rx.Empty()
    requires s.mode.launcher == Bidir && s.tx.Empty() && !s.active
    ensures var s' := CallSteps(slots, s, 3);
      && s'.call.pc == Idle && s'.call.code == Ok && s'.mode == s.mode && s'.engine == s.engine && !s'.active
      && s'.tx == s.tx && !s'.rx.Empty() && s'.rx.buf == s.rx.buf && s'.rx.first == s.rx.first
  {
    ThreeSteps(slots, s);
    hide CallSteps;
  }

  lemma ThreeSteps(slots: nat, s: State)
    requires Fits(slots, s)
    ensures CallSteps(slots, s, 3) == CallNext(slots, CallNext(slots, CallNext(slots, s)))
  {
    hide CallNext;
    TwoSteps(slots, s);
  }

  lemma {:induction false} CallStepsAdd(slots: nat, s: State, m: nat, n: nat)
    requires Fits(slots, s)
    ensures CallSteps(slots, s, m + n) == CallSteps(slots, CallSteps(slots, s, m), n)
  {
    hide CallNext;
    if n > 0 { CallStepsAdd(slots, s, m, n - 1); }
  }

  /** The four stores of a descriptor. */
  lemma FillAlone(slots: nat, s: State)
    requires Fits(slots, s) && s.call.pc == Fill && s.call.filled == 0
    ensures CallSteps(slots, s, 4) == PartlyFilled(slots, s, 4)
  {
    hide *;
    TwoSteps(slots, s);
    CallStepsAdd(slots, s, 2, 2);
    TwoSteps(slots, CallSteps(slots, s, 2));
    FillOne(slots, s, 0);
    FillOne(slots, s, 1);
    FillOne(slots, s, 2);
    FillOne(slots, s, 3);
  }

  lemma FillOne(slots: nat, s: State, n: nat)
    requires Fits(slots, s) && s.call.pc == Fill && n <= 3
    ensures var s1 := PartlyFilled(slots, s, n);
      Fits(slots, s1) && CallNext(slots, s1) == PartlyFilled(slots, s, n + 1)
    ensures s.call.filled == 0 ==> PartlyFilled(slots, s, 0) == s
  {
  }

  function PartlyFilled(slots: nat, s: State, n: nat): State
    requires Fits(slots, s) && s.call.pc == Fill
  {
    var p, q := s.call, QueueOf(s, s.call.side);
    WithQueue(s, p.side, StoreSlot(q, p.end, Fields(q.buf[p.end], p.slot, n)))
      .(call := p.(filled := n, pc := if n < 4 then Fill else Publish))
  }

  /** How it comes about: TX_STREAM_ON, RX_STREAM_OFF and an accepted prepare. */
  lemma StreamOffStallsPrepare(slots: nat, maxLength: u32, d: Slot)
    requires slots >= 2 && Acceptable(Init(slots, maxLength).mode, d)
    ensures var s := Alone(slots, Alone(slots, Init(slots, maxLength), TxStreamOn(0)), RxStreamOff);
      var s' := PostAlone(slots, s, Post(Receive, d));
      s'.call.code == Ok && Stalled(slots, s', d)
  {
    var s0 := Init(slots, maxLength);
    IoctlAlone(slots, s0, TxStreamOn(0));
    var s1 := Alone(slots, s0, TxStreamOn(0));
    IoctlAlone(slots, s1, RxStreamOff);
    PrepareAlone(slots, Alone(slots, s1, RxStreamOff), d);
    hide CallSteps, Alone, PostAlone;
  }
}
