/** What the engine is given to do and which callbacks are made, in terms of the accepted descriptors and
    the accepted requests alone. */
module DmaTransfers {
  import Arithmetic
  import opened Ring
  import opened Machine32
  import opened DmaMachine
  import opened DmaProofs
  import opened DmaTheorems

  /** The oldest accepted descriptor that is not completed. */
  predicate HasNext(q: Queue) { q.popped < |q.posted| }

  function NextOf(q: Queue): Slot
    requires HasNext(q)
  {
    q.posted[q.popped]
  }

  /** The engine reads what the send offers and writes where the prepare asks, and its length is the largest
      that fits both. */
  predicate Serves(t: Transfer, send: Slot, prepare: Slot) {
    && t.source == send.addr && t.dest == prepare.addr
    && t.length <= send.len && t.length <= prepare.len && (t.length == send.len || t.length == prepare.len)
  }

  // ---- stream addresses ----------------------------------------------------------------------

  /** An accepted STREAM_ON of this side. */
  predicate StartsStreamOf(s: State, e: Event, side: Side) {
    && e.CallStep? && s.call.pc == Switch
    && if side == Send then s.call.req.TxStreamOn? && !s.mode.rxStream
       else s.call.req.RxStreamOn? && !s.mode.txStream
  }

  /** The argument of the last of them in a run. */
  function StreamArg(slots: nat, s: State, es: seq<Event>, side: Side): u32
    requires Fits(slots, s)
  {
    if es == [] then 0
    else
      var k := |es| - 1;
      var before := Run(slots, s, es[..k]);
      if StartsStreamOf(before, es[k], side) then before.call.req.arg else StreamArg(slots, s, es[..k], side)
  }

  /** The register that the current launch routine does not write. */
  predicate SameFixed(s: State, s': State) {
    && s'.mode.launcher == s.mode.launcher
    && (s.mode.launcher == RxOnly ==> s'.engine.raddr == s.engine.raddr)
    && (s.mode.launcher == TxOnly ==> s'.engine.waddr == s.engine.waddr)
  }

  lemma LaunchKeepsFixed(slots: nat, s: State)
    requires Fits(slots, s)
    ensures SameFixed(s, LaunchNow(slots, s))
  {
  }

  lemma {:induction false} PostsKeepFixed(slots: nat, s: State, ps: seq<Post>)
    requires Fits(slots, s)
    ensures SameFixed(s, PostAll(slots, s, ps))
    decreases |ps|
  {
    if ps != [] {
      hide LaunchNow;
      var q := QueueOf(s, ps[0].side);
      if Acceptable(s.mode, ps[0].slot) && !q.Full(slots) {
        LaunchKeepsFixed(slots, WithQueue(s, ps[0].side, Advance(StoreSlot(q, q.end, ps[0].slot), ps[0].slot)));
      }
      PostsKeepFixed(slots, PostNow(slots, s, ps[0]), ps[1..]);
    }
  }

  lemma ServeKeepsFixed(slots: nat, s: State, txPosts: seq<Post>, rxPosts: seq<Post>)
    requires Fits(slots, s)
    ensures SameFixed(s, Serve(slots, s, txPosts, rxPosts))
  {
    LaunchKeepsFixed(slots, Popped(slots, s));
    var s1 := Complete(slots, s);
    hide LaunchNow, Complete, PostAll;
    PostsKeepFixed(slots, s1.(callbacks := s1.callbacks + [TxDone(s1.tx.buf[s.tx.first].handle)]), txPosts);
    var s2 := CallTx(slots, s1, s.tx.first, txPosts);
    var d := s2.rx.buf[s.rx.first];
    PostsKeepFixed(slots, s2.(callbacks := s2.callbacks + [RxDone(d.handle, d.addr)]), rxPosts);
  }

  predicate FixedShown(s: State, txArg: u32, rxArg: u32) {
    && (s.mode.launcher == RxOnly ==> s.engine.raddr == txArg)
    && (s.mode.launcher == TxOnly ==> s.engine.waddr == rxArg)
  }

  lemma StepKeepsFixed(slots: nat, s: State, e: Event, txArg: u32, rxArg: u32)
    requires Fits(slots, s) && FixedShown(s, txArg, rxArg)
    ensures FixedShown(Step(slots, s, e), if StartsStreamOf(s, e, Send) then s.call.req.arg else txArg,
                       if StartsStreamOf(s, e, Receive) then s.call.req.arg else rxArg)
  {
    hide Serve, PosterNext, Contents;
    if e.Interrupt? { ServeKeepsFixed(slots, s, e.txPosts, e.rxPosts); }
    if e.CallStep? && InPost(s.call.pc) { PosterKeepsFixed(slots, s); }
  }

  lemma PosterKeepsFixed(slots: nat, s: State)
    requires Fits(slots, s)
    ensures SameFixed(s, PosterNext(slots, s))
  {
    hide Contents;
  }

  lemma {:induction false} RunKeepsFixed(slots: nat, s: State, es: seq<Event>)
    requires Fits(slots, s) && FixedShown(s, 0, 0)
    ensures FixedShown(Run(slots, s, es), StreamArg(slots, s, es, Send), StreamArg(slots, s, es, Receive))
  {
    if es != [] {
      var k := |es| - 1;
      RunKeepsFixed(slots, s, es[..k]);
      StepKeepsFixed(slots, Run(slots, s, es[..k]), es[k], StreamArg(slots, s, es[..k], Send),
                     StreamArg(slots, s, es[..k], Receive));
      hide Step, FixedShown;
    }
  }

  /** The registers of the engine serve the oldest descriptors, the streaming side's address being the argument
      given for it. */
  predicate AsAsked(s: State, txArg: u32, rxArg: u32) {
    var e := s.engine;
    match s.mode.launcher
    case Bidir =>
      HasNext(s.tx) && HasNext(s.rx) && Serves(Transfer(e.raddr, e.waddr, e.length), NextOf(s.tx), NextOf(s.rx))
    case TxOnly =>
      HasNext(s.tx) && e.raddr == NextOf(s.tx).addr && e.length == NextOf(s.tx).len && e.waddr == rxArg
    case RxOnly =>
      HasNext(s.rx) && e.waddr == NextOf(s.rx).addr && e.length == NextOf(s.rx).len && e.raddr == txArg
  }

  /** The newest transfer is the one in the registers. */
  predicate InFlight(s: State) {
    s.transfers != [] &&
    s.transfers[|s.transfers| - 1] == Transfer(s.engine.raddr, s.engine.waddr, s.engine.length)
  }

  /** Whenever a transfer is in flight, its registers are those of the oldest descriptors not completed: of
      both sides, at the largest length that fits them; or, launched for one side alone, of that side's, with
      the address of the other side's last STREAM_ON. */
  lemma RunsProgramHeads(slots: nat, maxLength: u32, es: seq<Event>)
    requires slots >= 2 && Orderly(slots, maxLength, es)
    ensures var s := Reached(slots, maxLength, es);
      s.engine.busy ==>
        && InFlight(s)
        && AsAsked(s, StreamArg(slots, Init(slots, maxLength), es, Send),
                   StreamArg(slots, Init(slots, maxLength), es, Receive))
  {
    ReachedInv(slots, maxLength, es);
    RunKeepsFixed(slots, Init(slots, maxLength), es);
    var s := Reached(slots, maxLength, es);
    assert FixedShown(s, StreamArg(slots, Init(slots, maxLength), es, Send),
                      StreamArg(slots, Init(slots, maxLength), es, Receive));
    if s.engine.busy { HeadsProgrammed(slots, s); }
    hide Run, Inv, StreamArg;
  }

  lemma HeadsProgrammed(slots: nat, s: State)
    requires Inv(slots, s) && s.engine.busy
    ensures InFlight(s)
    ensures s.mode.launcher != RxOnly ==> HasNext(s.tx) && s.engine.raddr == NextOf(s.tx).addr
    ensures s.mode.launcher != TxOnly ==> HasNext(s.rx) && s.engine.waddr == NextOf(s.rx).addr
    ensures s.mode.launcher == TxOnly ==> s.engine.length == NextOf(s.tx).len
    ensures s.mode.launcher == RxOnly ==> s.engine.length == NextOf(s.rx).len
    ensures s.mode.launcher == Bidir ==>
      Serves(Transfer(s.engine.raddr, s.engine.waddr, s.engine.length), NextOf(s.tx), NextOf(s.rx))
  {
    if !s.tx.Empty() { HeadIsNext(slots, s.mode, s.tx); }
    if !s.rx.Empty() { HeadIsNext(slots, s.mode, s.rx); }
    hide Contents;
  }

  /** Without streaming, the k-th transfer serves the k-th accepted send and the k-th accepted prepare. */
  lemma RunsServePairs(slots: nat, maxLength: u32, es: seq<Event>)
    requires slots >= 2 && Orderly(slots, maxLength, es) && NeverStreams(slots, Init(slots, maxLength), es)
    ensures var s := Reached(slots, maxLength, es);
      |s.transfers| <= |s.tx.posted| && |s.transfers| <= |s.rx.posted| &&
      forall k :: 0 <= k < |s.transfers| ==> Serves(s.transfers[k], s.tx.posted[k], s.rx.posted[k])
  {
    RunsPairInOrder(slots, maxLength, es);
  }

  // ---- callbacks -----------------------------------------------------------------------------

  /** The callbacks of the first n descriptors of a side. */
  function CallbacksOf(side: Side, ds: seq<Slot>, n: nat): seq<Callback>
    requires n <= |ds|
  {
    if n == 0 then []
    else
      var d := ds[n - 1];
      CallbacksOf(side, ds, n - 1) +
        if !d.done then [] else if side == Send then [TxDone(d.handle)] else [RxDone(d.handle, d.addr)]
  }

  lemma {:induction false} CallbacksGrow(side: Side, ds: seq<Slot>, ds': seq<Slot>, n: nat)
    requires n <= |ds| && ds <= ds'
    ensures CallbacksOf(side, ds', n) == CallbacksOf(side, ds, n)
  {
    if n > 0 { CallbacksGrow(side, ds, ds', n - 1); }
  }

  /** The callbacks of one side among all. */
  function Only(side: Side, cs: seq<Callback>): seq<Callback> {
    if cs == [] then []
    else
      var k := |cs| - 1;
      Only(side, cs[..k]) + if (side == Send) == cs[k].TxDone? then [cs[k]] else []
  }

  lemma OnlySnoc(side: Side, cs: seq<Callback>, c: Callback)
    ensures Only(side, cs + [c]) == Only(side, cs) + if (side == Send) == c.TxDone? then [c] else []
  {
    assert (cs + [c])[..|cs|] == cs;
  }

  /** Exactly the completed descriptors of a side were called back, in order. */
  predicate CalledBackIn(side: Side, s: State) {
    var q := QueueOf(s, side);
    q.popped <= |q.posted| && Only(side, s.callbacks) == CallbacksOf(side, q.posted, q.popped)
  }

  lemma {:induction false} PostsSpare(slots: nat, s: State, ps: seq<Post>)
    requires Fits(slots, s)
    ensures Spares(slots, s, PostAll(slots, s, ps))
    decreases |ps|
  {
    if ps != [] {
      var s1 := PostNow(slots, s, ps[0]);
      PostNowExtends(slots, s, ps[0]);
      SlotsSpared(slots, s, ps[0]);
      PostsSpare(slots, s1, ps[1..]);
      hide Spares, PostNow;
      SparesFurther(slots, s, s1, PostAll(slots, s1, ps[1..]));
    }
  }

  /** One completion: its descriptor joins the completed ones, and its callback, if it is made, joins the log. */
  lemma LogsOne(side: Side, s: State, s': State)
    requires CalledBackIn(side, s)
    requires var q, q' := QueueOf(s, side), QueueOf(s', side);
      q'.popped == q.popped + 1 <= |q.posted| && q.posted <= q'.posted
    requires var d := QueueOf(s, side).posted[QueueOf(s, side).popped];
      Only(side, s'.callbacks) == Only(side, s.callbacks) +
        if !d.done then [] else if side == Send then [TxDone(d.handle)] else [RxDone(d.handle, d.addr)]
    ensures CalledBackIn(side, s')
  {
    CallbacksGrow(side, QueueOf(s, side).posted, QueueOf(s', side).posted, QueueOf(s, side).popped);
  }

  lemma LogsNone(side: Side, s: State, s': State)
    requires CalledBackIn(side, s)
    requires var q, q' := QueueOf(s, side), QueueOf(s', side); q'.popped == q.popped && q.posted <= q'.posted
    requires Only(side, s'.callbacks) == Only(side, s.callbacks)
    ensures CalledBackIn(side, s')
  {
    CallbacksGrow(side, QueueOf(s, side).posted, QueueOf(s', side).posted, QueueOf(s, side).popped);
  }

  /** One interrupt, whatever its callbacks post. */
  lemma ServeCallsBack(slots: nat, s: State, txPosts: seq<Post>, rxPosts: seq<Post>, side: Side)
    requires Core(slots, s) && s.engine.busy && CalledBackIn(side, s)
    ensures CalledBackIn(side, Serve(slots, s, txPosts, rxPosts))
  {
    var s1 := Complete(slots, s);
    var s2 := CallTx(slots, s1, s.tx.first, txPosts);
    var s3 := CallRx(slots, s2, s.rx.first, rxPosts);
    assert Serve(slots, s, txPosts, rxPosts) == s3 by { hide CallTx, CallRx, Complete; }
    CompletedOne(slots, s, s1);
    TxCalled(slots, s1, s.tx.first, txPosts);
    RxCalled(slots, s2, s.rx.first, rxPosts);
    hide Core, Complete, CallTx, CallRx, Serve, Contents, Only, CallbacksOf;
    assert Only(Send, s1.callbacks) == Only(Send, s.callbacks);
    assert Only(Receive, s1.callbacks) == Only(Receive, s.callbacks);
    if Streams(s.mode, side) { LogsNone(side, s, s3); } else { LogsOne(side, s, s3); }
  }

  lemma CompletedOne(slots: nat, s: State, s1: State)
    requires Core(slots, s) && s.engine.busy && s1 == Complete(slots, s)
    ensures s1.mode == s.mode && s1.callbacks == s.callbacks
    ensures s1.tx.posted == s.tx.posted && s1.rx.posted == s.rx.posted
    ensures s1.tx.popped == (if s.mode.txStream then s.tx.popped else s.tx.popped + 1)
    ensures s1.rx.popped == (if s.mode.rxStream then s.rx.popped else s.rx.popped + 1)
    ensures !s.mode.txStream ==> HasNext(s.tx) && s1.tx.buf[s.tx.first] == NextOf(s.tx)
    ensures !s.mode.rxStream ==>
      HasNext(s.rx) && s1.rx.buf[s.rx.first] == NextOf(s.rx) && Wrap(slots, s.rx.first + 1) == s1.rx.first
  {
    hide Contents;
    if !s.tx.Empty() { HeadIsNext(slots, s.mode, s.tx); }
    if !s.rx.Empty() { HeadIsNext(slots, s.mode, s.rx); }
  }

  lemma TxCalled(slots: nat, s: State, k: nat, posts: seq<Post>)
    requires Fits(slots, s) && k < slots
    ensures var s' := CallTx(slots, s, k, posts);
      && s'.mode == s.mode && Extends(slots, s, s')
      && (forall i :: 0 <= i < slots && Wrap(slots, i + 1) == s.rx.first ==> s'.rx.buf[i] == s.rx.buf[i])
      && Only(Receive, s'.callbacks) == Only(Receive, s.callbacks)
      && Only(Send, s'.callbacks) == Only(Send, s.callbacks)
        + if s.mode.txStream || !s.tx.buf[k].done then [] else [TxDone(s.tx.buf[k].handle)]
  {
    var c := TxDone(s.tx.buf[k].handle);
    PostsSpare(slots, s.(callbacks := s.callbacks + [c]), posts);
    OnlySnoc(Send, s.callbacks, c);
    OnlySnoc(Receive, s.callbacks, c);
    hide PostAll, Only;
  }

  lemma RxCalled(slots: nat, s: State, k: nat, posts: seq<Post>)
    requires Fits(slots, s) && k < slots
    ensures var s' := CallRx(slots, s, k, posts); var d := s.rx.buf[k];
      && Extends(slots, s, s') && Only(Send, s'.callbacks) == Only(Send, s.callbacks)
      && Only(Receive, s'.callbacks) == Only(Receive, s.callbacks)
        + if s.mode.rxStream || !d.done then [] else [RxDone(d.handle, d.addr)]
  {
    var c := RxDone(s.rx.buf[k].handle, s.rx.buf[k].addr);
    PostsSpare(slots, s.(callbacks := s.callbacks + [c]), posts);
    OnlySnoc(Send, s.callbacks, c);
    OnlySnoc(Receive, s.callbacks, c);
    hide PostAll, Only;
  }

  lemma StepCallsBack(slots: nat, s: State, e: Event, side: Side)
    requires Inv(slots, s) && CalledBackIn(side, s)
    ensures CalledBackIn(side, Step(slots, s, e))
  {
    if e.Interrupt? && s.engine.busy {
      ServeCallsBack(slots, s, e.txPosts, e.rxPosts, side);
    } else {
      NothingCompleted(slots, s, e);
      hide Step, Serve, Contents, Only, CallbacksOf, Inv;
      LogsNone(side, s, Step(slots, s, e));
    }
  }

  /** Nothing but an interrupt completes a descriptor or makes a callback. */
  lemma NothingCompleted(slots: nat, s: State, e: Event)
    requires Fits(slots, s) && !(e.Interrupt? && s.engine.busy)
    ensures var s' := Step(slots, s, e);
      && s'.callbacks == s.callbacks && s'.tx.popped == s.tx.popped && s'.rx.popped == s.rx.popped
      && s.tx.posted <= s'.tx.posted && s.rx.posted <= s'.rx.posted
  {
    hide PosterNext, Serve;
    if e.CallStep? && InPost(s.call.pc) { PosterCompletesNothing(slots, s); }
  }

  lemma PosterCompletesNothing(slots: nat, s: State)
    requires Fits(slots, s)
    ensures var s' := PosterNext(slots, s);
      && s'.callbacks == s.callbacks && s'.tx.popped == s.tx.popped && s'.rx.popped == s.rx.popped
      && s.tx.posted <= s'.tx.posted && s.rx.posted <= s'.rx.posted
  {
  }

  /** In every orderly run, in every mode: of each side exactly the completed descriptors have been called
      back, if they asked for it, once each and in the order in which they were accepted, with their own
      handle and data, whatever callbacks posted. */
  lemma {:induction false} RunsCallBack(slots: nat, maxLength: u32, es: seq<Event>, side: Side)
    requires slots >= 2 && Orderly(slots, maxLength, es)
    ensures CalledBackIn(side, Reached(slots, maxLength, es))
  {
    if es != [] {
      var k := |es| - 1;
      DisciplinedPrefix(slots, Init(slots, maxLength), es, k);
      RunsCallBack(slots, maxLength, es[..k], side);
      ReachedInv(slots, maxLength, es[..k]);
      hide Step, Inv, CalledBackIn;
      StepCallsBack(slots, Reached(slots, maxLength, es[..k]), es[k], side);
    }
  }

  /** What completes: an interrupt completes one descriptor of each side that does not stream, and nothing
      else completes any. */
  lemma StepCompletes(slots: nat, s: State, e: Event)
    requires Inv(slots, s)
    ensures var s' := Step(slots, s, e); var served := e.Interrupt? && s.engine.busy;
      && s'.tx.popped == s.tx.popped + Bit(served && !s.mode.txStream)
      && s'.rx.popped == s.rx.popped + Bit(served && !s.mode.rxStream)
  {
    if e.Interrupt? && s.engine.busy {
      ServeMoves(slots, s, e.txPosts, e.rxPosts);
      hide Serve, Inv;
    } else {
      NothingCompleted(slots, s, e);
      hide Step, Inv;
    }
  }

  // ---- refusals ------------------------------------------------------------------------------

  /** What a mode lets send and prepare accept: address and length aligned to the transfer width, and no more
      than the engine can move. */
  predicate Suits(mode: Mode, d: Slot)
    requires mode.width > 0
  {
    d.addr % mode.width == 0 && d.len % mode.width == 0 && d.len <= mode.maxLength
  }

  /** A send or prepare is refused for lack of room if and only if its ring, counted without the completions
      since its first load, held one descriptor less than it has slots, or a whole number of rings more. So
      without a completion in between it is refused if and only if the ring is full. */
  lemma RefusedIff(slots: nat, s: State)
    requires Inv(slots, s) && s.call.pc == SnapEnd
    ensures var q := QueueOf(s, s.call.side); var done := q.popped - s.call.popped; var s' := CallNext(slots, s);
      && done >= 0 && s'.call.pc == (if (|q.Pending()| + done) % slots == slots - 1 then Idle else Fill)
      && (s'.call.pc == Idle ==> s'.call.code == NoSpace)
      && (done == 0 ==> (s'.call.pc == Idle <==> |q.Pending()| == slots - 1))
  {
    hide *;
    var q := QueueOf(s, s.call.side);
    SnapAnswers(slots, s);
    Refusal(s.call.start, q.popped - s.call.popped, |q.Pending()|, q.first, q.end, slots);
  }

  lemma SnapAnswers(slots: nat, s: State)
    requires Inv(slots, s) && s.call.pc == SnapEnd
    ensures var q := QueueOf(s, s.call.side); var s' := CallNext(slots, s);
      && q.Fits(|q.buf|) && s'.call.pc == (if Wrap(slots, q.end + 1) == s.call.start then Idle else Fill)
      && (s'.call.pc == Idle ==> s'.call.code == NoSpace)
      && s.call.start < slots && s.call.popped <= q.popped
      && (s.call.start + (q.popped - s.call.popped)) % slots == q.first
      && slots >= 2 && q.first < slots && q.end < slots
      && |q.Pending()| == if q.first <= q.end then q.end - q.first else slots - q.first + q.end
  {
    hide QueueInv, EngineInv, GuardInv;
  }

  lemma Refusal(start: nat, done: nat, n: nat, first: nat, end: nat, slots: nat)
    requires slots >= 2 && start < slots && first < slots && end < slots && (start + done) % slots == first
    requires n == if first <= end then end - first else slots - first + end
    ensures Wrap(slots, end + 1) == start <==> (n + done) % slots == slots - 1
    ensures done == 0 ==> (Wrap(slots, end + 1) == start <==> n == slots - 1)
  {
    Arithmetic.DivNat(done, slots);
    var q, r := done / slots, done % slots;
    ShiftedResidue(start, done, q, r, slots);
    ShiftedResidue(n, done, q, r, slots);
  }

  /** A callback's post is accepted if and only if it suits the mode and the ring is not full; it is then the
      newest of its ring. */
  lemma PostNowAccepts(slots: nat, s: State, p: Post)
    requires Fits(slots, s)
    ensures var s' := PostNow(slots, s, p); var q, q' := QueueOf(s, p.side), QueueOf(s', p.side);
      && q'.posted == (if Suits(s.mode, p.slot) && |q.Pending()| < slots - 1 then q.posted + [p.slot] else q.posted)
      && (p.side == Send ==> s'.rx == s.rx) && (p.side == Receive ==> s'.tx == s.tx)
  {
    var q := QueueOf(s, p.side);
    ContentsLength(q.buf, q.first, q.end);
    hide Contents;
  }

  // ---- ioctl ---------------------------------------------------------------------------------

  /** The requests that a quiescent device grants. */
  predicate Granted(mode: Mode, req: Request) {
    match req
    case TxStreamOn(_) => !mode.rxStream
    case RxStreamOn(_) => !mode.txStream
    case SetWidth(bytes) => bytes in {1, 2, 4, 8, 16}
    case Unknown => false
    case _ => true
  }

  /** What an ioctl on a quiescent device does: a granted request sets or clears its stream flag, or sets the
      width, and leaves the rest of the mode; a STREAM_ON puts its argument in its side's address register; and
      the control register shows the outcome. Any other is refused and changes nothing. */
  lemma IoctlMeans(slots: nat, s: State, req: Request)
    requires Inv(slots, s) && s.call.pc == Idle && s.tx.Empty() && s.rx.Empty() && s.engine.length == 0
    ensures var s' := Alone(slots, s, req);
      && s'.call.code == (if Granted(s.mode, req) then Ok else if req.Unknown? || req.SetWidth? then NotTty else Busy)
      && (s'.mode.txStream <==> (Granted(s.mode, req) && req.TxStreamOn?) || (s.mode.txStream && !req.TxStreamOff?))
      && (s'.mode.rxStream <==> (Granted(s.mode, req) && req.RxStreamOn?) || (s.mode.rxStream && !req.RxStreamOff?))
      && s'.mode.width == (if Granted(s.mode, req) && req.SetWidth? then req.bytes else s.mode.width)
      && s'.mode.maxLength == s.mode.maxLength
      && s'.mode.launcher == (if !Granted(s.mode, req) || req.SetWidth? then s.mode.launcher
                              else if req.TxStreamOn? then RxOnly else if req.RxStreamOn? then TxOnly else Bidir)
      && s'.engine.raddr == (if Granted(s.mode, req) && req.TxStreamOn? then req.arg else s.engine.raddr)
      && s'.engine.waddr == (if Granted(s.mode, req) && req.RxStreamOn? then req.arg else s.engine.waddr)
      && s'.engine.length == 0 && s'.engine.busy == s.engine.busy
      && s'.engine.width == s'.mode.width && s'.engine.rcon == s'.mode.txStream && s'.engine.wcon == s'.mode.rxStream
  {
    IoctlAlone(slots, s, req);
    hide CallSteps, Alone, Contents, QueueInv;
  }
}
