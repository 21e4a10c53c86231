/** Safety of the JTAG UART driver over every run of the interleaved machine. */
module UartProofs {
  import opened Ring
  import opened UartMachine

  // ---- the invariant of the transmit side --------------------------------------------------

  /** Nothing is lost, duplicated or reordered on the way to the host. */
  predicate TxConserved(c: Config, tx: Channel)
    requires tx.Fits(c.len)
  {
    tx.consumed + tx.fifo + tx.Queue() == tx.produced
  }

  /** The block being copied is free, and what was copied of it so far is intact. */
  predicate PutUndisturbed(c: Config, tx: Channel, w: Writer)
    requires WriterFits(c, tx, w)
  {
    w.pc == WCopy ==>
      && w.snapIn == tx.end && 0 < w.n <= PutRoom(c.len, tx.first, tx.end)
      && tx.buf[tx.end..tx.end + w.j] == w.data[w.moved..w.moved + w.j]
  }

  /** Bytes to send never sit behind a disabled interrupt, unless the call is about to enable it. */
  predicate TxAwake(tx: Channel, w: Writer) {
    && (tx.first != tx.end ==> tx.enabled || w.dirty)
    && (w.dirty ==> w.pc in {WTop, WCopy, WEnable})
  }

  /** The result is the number of bytes accepted, or the error; a blocking call stops short only
      after it read a nonzero host_inactive. */
  predicate WriterHonest(w: Writer) {
    && (w.pc != WIdle ==> w.code == Running)
    && (w.pc in {WSpinOut, WSpinHost, WCheckHost} ==> w.moved < |w.data| && !w.nonblock)
    && (w.pc == WIdle && w.code != Running ==>
      && w.code == (if w.moved > 0 then Moved(w.moved) else if w.nonblock then WouldBlock else IoError)
      && (w.moved < |w.data| && !w.nonblock ==> w.sawInactive))
  }

  /** The routine's snapshot of the FIFO space is never too large, since only the host empties it. */
  predicate TxSpaceSafe(c: Config, tx: Channel, isr: Isr) {
    && |tx.fifo| <= c.txDepth
    && (isr.Rx? || isr.RxEnd? || isr.Tx? ==> isr.space <= c.txDepth - |tx.fifo|)
    && (isr.TxEnd? && isr.space > 0 ==> tx.first == tx.end)
  }

  predicate TxInv(c: Config, tx: Channel, w: Writer, isr: Isr) {
    && WriterFits(c, tx, w)
    && TxConserved(c, tx)
    && tx.produced == w.base + w.data[..w.moved]
    && PutUndisturbed(c, tx, w)
    && TxAwake(tx, w)
    && WriterHonest(w)
    && TxSpaceSafe(c, tx, isr)
  }

  // ---- the invariant of the receive side ---------------------------------------------------

  predicate RxConserved(c: Config, rx: Channel)
    requires rx.Fits(c.len)
  {
    rx.consumed + rx.Queue() + rx.fifo == rx.produced
  }

  predicate TakeUndisturbed(c: Config, rx: Channel, r: Reader)
    requires ReaderFits(c, rx, r)
  {
    r.pc == RCopy ==>
      && r.snapOut == rx.first && 0 < r.n <= TakeRoom(c.len, rx.first, rx.end)
      && rx.buf[rx.first..rx.first + |r.part|] == r.part
  }

  /** Receive interrupts are off only while the ring is full, or a call that freed space runs on. */
  predicate RxAwake(c: Config, rx: Channel, r: Reader, isr: Isr)
    requires rx.Fits(c.len)
  {
    && (!rx.enabled ==> Full(c.len, rx.first, rx.end) || (r.got != [] && r.pc != RIdle))
    && (isr.RxEnd? && isr.avail ==> Full(c.len, rx.first, rx.end))
  }

  /** The result is the number of bytes delivered, or the error; a blocking call with room for a
      byte fails only after it read a host_inactive not below the timeout. */
  predicate ReaderHonest(rx: Channel, r: Reader) {
    && (r.pc != RIdle ==> r.code == Running)
    && (r.pc == RTop ==> r.got == [])
    && (r.pc == RSnap ==> r.space > |r.got|)
    && (r.pc == RAfter && r.got == [] ==> r.space > 0 && r.snapIn == rx.first)
    && (r.pc in {RSpinIn, RSpinHost, RRecheck} ==>
      r.got == [] && r.space > 0 && !r.nonblock && r.snapIn == rx.first)
    && (r.pc == RRecheck && !r.sawTimeout ==> r.snapIn != rx.end)
    && (r.pc == RExit && r.got == [] && r.space > 0 && !r.nonblock ==> r.sawTimeout)
    && (r.pc == RIdle && r.code != Running ==>
      && r.code == (if r.got != [] then Moved(|r.got|) else if r.nonblock then WouldBlock else IoError)
      && (r.got == [] && r.space > 0 && !r.nonblock ==> r.sawTimeout))
  }

  predicate RxInv(c: Config, rx: Channel, r: Reader, isr: Isr) {
    && ReaderFits(c, rx, r)
    && |rx.fifo| <= c.rxDepth
    && RxConserved(c, rx)
    && rx.consumed == r.base + r.got
    && TakeUndisturbed(c, rx, r)
    && RxAwake(c, rx, r, isr)
    && ReaderHonest(rx, r)
  }

  predicate Inv(c: Config, s: State) {
    c.Ok() && TxInv(c, s.tx, s.w, s.isr) && RxInv(c, s.rx, s.r, s.isr) && s.host.inactive <= INT_MAX - 2
  }

  // ---- each kind of step keeps it ----------------------------------------------------------

  lemma WriterKeepsInv(c: Config, tx: Channel, host: HostWatch, w: Writer)
    requires TxInv(c, tx, w, Quiet)
    ensures var (tx', w') := WriterNext(c, tx, host, w); TxInv(c, tx', w', Quiet)
  {
    hide Contents, PutRoom, Wrap;
    if w.pc == WCopy && w.j < w.n {
      WriterCopyKeepsInv(c, tx, host, w);
    } else if w.pc == WCopy {
      WriterPublishKeepsInv(c, tx, host, w);
    } else if w.pc == WTop && w.moved < |w.data| {
      WriterSnapKeepsInv(c, tx, w);
    }
  }

  lemma WriterSnapKeepsInv(c: Config, tx: Channel, w: Writer)
    requires TxInv(c, tx, w, Quiet) && w.pc == WTop && w.moved < |w.data|
    ensures TxInv(c, tx, WriterSnap(c, tx, w), Quiet)
  {
    hide Contents;
  }

  lemma WriterCopyKeepsInv(c: Config, tx: Channel, host: HostWatch, w: Writer)
    requires TxInv(c, tx, w, Quiet) && w.pc == WCopy && w.j < w.n
    ensures var (tx', w') := WriterNext(c, tx, host, w); TxInv(c, tx', w', Quiet)
  {
    hide Contents;
    var b := w.data[w.moved + w.j];
    CopyConserves(c, tx, w.n, w.j, b);
    var tx' := tx.(buf := tx.buf[tx.end + w.j := b]);
    assert WriterNext(c, tx, host, w) == (tx', w.(j := w.j + 1));
    CopyKeepsBlock(c, tx, w);
    hide WriterNext, PutUndisturbed;
  }

  lemma CopyKeepsBlock(c: Config, tx: Channel, w: Writer)
    requires WriterFits(c, tx, w) && PutUndisturbed(c, tx, w) && w.pc == WCopy && w.j < w.n
    ensures var tx', w' := tx.(buf := tx.buf[tx.end + w.j := w.data[w.moved + w.j]]), w.(j := w.j + 1);
      WriterFits(c, tx', w') && PutUndisturbed(c, tx', w')
  {
    var b := w.data[w.moved + w.j];
    CopyConserves(c, tx, w.n, w.j, b);
    assert w.data[w.moved..w.moved + w.j + 1] == w.data[w.moved..w.moved + w.j] + [b];
  }

  lemma CopyConserves(c: Config, tx: Channel, n: nat, j: nat, b: byte)
    requires tx.Fits(c.len) && j < n <= PutRoom(c.len, tx.first, tx.end)
    ensures tx.end + n <= c.len
    ensures var tx' := tx.(buf := tx.buf[tx.end + j := b]);
      && tx'.Queue() == tx.Queue()
      && tx'.buf[tx.end..tx.end + j + 1] == tx.buf[tx.end..tx.end + j] + [b]
  {
  }

  lemma WriterPublishKeepsInv(c: Config, tx: Channel, host: HostWatch, w: Writer)
    requires TxInv(c, tx, w, Quiet) && w.pc == WCopy && w.j == w.n
    ensures var (tx', w') := WriterNext(c, tx, host, w); TxInv(c, tx', w', Quiet)
  {
    hide Contents;
    var block := w.data[w.moved..w.moved + w.n];
    assert tx.buf[tx.end..tx.end + w.n] == block;
    PublishConserves(c, tx, block);
    AppendPrefix(w.base, w.data, w.moved, w.n);
    var (tx', w') := WriterNext(c, tx, host, w);
    assert tx' == tx.(end := Wrap(c.len, tx.end + |block|), produced := tx.produced + block);
    assert w' == w.(pc := WTop, moved := w.moved + w.n, dirty := true);
    hide Wrap, PutRoom, TxConserved;
  }

  lemma AppendPrefix(base: seq<byte>, data: seq<byte>, k: nat, n: nat)
    requires k + n <= |data|
    ensures base + data[..k + n] == (base + data[..k]) + data[k..k + n]
  {
  }

  lemma PublishConserves(c: Config, tx: Channel, block: seq<byte>)
    requires tx.Fits(c.len) && 0 < |block| <= PutRoom(c.len, tx.first, tx.end)
    requires tx.end + |block| <= c.len && tx.buf[tx.end..tx.end + |block|] == block
    ensures var tx' := tx.(end := Wrap(c.len, tx.end + |block|), produced := tx.produced + block);
      tx'.Queue() == tx.Queue() + block && (TxConserved(c, tx) ==> TxConserved(c, tx'))
  {
    hide Contents;
    Publish(tx.buf, tx.first, tx.end, |block|);
    assert tx.consumed + tx.fifo + (tx.Queue() + block) == (tx.consumed + tx.fifo + tx.Queue()) + block;
  }

  lemma ReaderKeepsInv(c: Config, rx: Channel, host: HostWatch, r: Reader)
    requires RxInv(c, rx, r, Quiet)
    ensures var (rx', r') := ReaderNext(c, rx, host, r); RxInv(c, rx', r', Quiet)
  {
    hide Contents;
    if r.pc == RCopy && |r.part| < r.n {
      ReaderCopyKeepsInv(c, rx, host, r);
    } else if r.pc == RCopy {
      ReaderReleaseKeepsInv(c, rx, host, r);
    }
  }

  lemma ReaderCopyKeepsInv(c: Config, rx: Channel, host: HostWatch, r: Reader)
    requires RxInv(c, rx, r, Quiet) && r.pc == RCopy && |r.part| < r.n
    ensures var (rx', r') := ReaderNext(c, rx, host, r); RxInv(c, rx', r', Quiet)
  {
  }

  lemma ReaderReleaseKeepsInv(c: Config, rx: Channel, host: HostWatch, r: Reader)
    requires RxInv(c, rx, r, Quiet) && r.pc == RCopy && |r.part| == r.n
    ensures var (rx', r') := ReaderNext(c, rx, host, r); RxInv(c, rx', r', Quiet)
  {
    hide Contents;
    Release(rx.buf, rx.first, rx.end, r.n);
    var rest := Contents(rx.buf, Wrap(c.len, rx.first + r.n), rx.end);
    assert rx.consumed + (r.part + rest) + rx.fifo == (rx.consumed + r.part) + rest + rx.fifo;
    assert r.base + (r.got + r.part) == rx.consumed + r.part;
  }

  lemma RxTurnKeepsInv(c: Config, rx: Channel, r: Reader, isr: Isr)
    requires RxInv(c, rx, r, isr) && isr.Rx?
    ensures var (rx', again, avail) := RxTurn(c, rx, isr.avail);
      RxInv(c, rx', r, if again then Rx(avail, isr.wi, isr.space) else RxEnd(avail, isr.wi, isr.space))
  {
    if !Full(c.len, rx.first, rx.end) && rx.fifo != [] {
      RxPutConserves(c, rx);
      RxPutUndisturbed(c, rx, r);
    }
  }

  lemma RxPutConserves(c: Config, rx: Channel)
    requires rx.Fits(c.len) && RxConserved(c, rx) && !Full(c.len, rx.first, rx.end) && rx.fifo != []
    ensures RxConserved(c, RxTurn(c, rx, true).0)
    ensures RxTurn(c, rx, true).0.Queue() == rx.Queue() + [rx.fifo[0]]
  {
    var b, rest := rx.fifo[0], rx.fifo[1..];
    Put(rx.buf, rx.first, rx.end, b);
    assert rx.fifo == [b] + rest;
    assert rx.consumed + rx.Queue() + ([b] + rest) == rx.consumed + (rx.Queue() + [b]) + rest;
  }

  lemma RxPutUndisturbed(c: Config, rx: Channel, r: Reader)
    requires ReaderFits(c, rx, r) && TakeUndisturbed(c, rx, r)
    requires !Full(c.len, rx.first, rx.end) && rx.fifo != []
    ensures TakeUndisturbed(c, RxTurn(c, rx, true).0, r)
  {
  }

  lemma TxTurnKeepsInv(c: Config, tx: Channel, w: Writer, space: nat)
    requires TxInv(c, tx, w, Tx(space)) && space > 0 && tx.first != tx.end
    ensures TxInv(c, TxTurn(c, tx), w, Tx(space - 1))
  {
    TxTurnConserves(c, tx);
    RoomGrows(c.len, tx.first, tx.end);
  }

  lemma TxTurnConserves(c: Config, tx: Channel)
    requires tx.Fits(c.len) && TxConserved(c, tx) && |tx.fifo| < c.txDepth && tx.first != tx.end
    ensures TxConserved(c, TxTurn(c, tx))
  {
    var b, tx' := tx.buf[tx.first], TxTurn(c, tx);
    Take(tx.buf, tx.first, tx.end);
    assert tx'.Queue() == Contents(tx.buf, Wrap(c.len, tx.first + 1), tx.end);
    MoveOne(tx.consumed, tx.fifo, b, tx'.Queue());
  }

  lemma MoveOne<T>(s: seq<T>, t: seq<T>, x: T, u: seq<T>)
    ensures s + t + ([x] + u) == s + (t + [x]) + u
  {
  }

  lemma HostSendKeepsInv(c: Config, rx: Channel, r: Reader, isr: Isr, b: byte)
    requires RxInv(c, rx, r, isr)
    ensures RxInv(c, HostSendNext(c, rx, b), r, isr)
  {
  }

  lemma HostTakeKeepsInv(c: Config, tx: Channel, w: Writer, isr: Isr)
    requires TxInv(c, tx, w, isr)
    ensures TxInv(c, HostTakeNext(tx), w, isr)
  {
    if tx.fifo != [] {
      var b, rest := tx.fifo[0], tx.fifo[1..];
      assert tx.fifo == [b] + rest;
      assert tx.consumed + ([b] + rest) + tx.Queue() == (tx.consumed + [b]) + rest + tx.Queue();
    }
  }

  lemma IsrKeepsTxInv(c: Config, s: State, ri: bool, wi: bool)
    requires Inv(c, s)
    ensures var s' := IsrNext(c, s, ri, wi); TxInv(c, s'.tx, s'.w, s'.isr)
  {
    if s.isr.Tx? {
      if s.isr.space > 0 && s.tx.first != s.tx.end { TxTurnKeepsInv(c, s.tx, s.w, s.isr.space); }
    }
  }

  lemma IsrKeepsRxInv(c: Config, s: State, ri: bool, wi: bool)
    requires Inv(c, s)
    ensures var s' := IsrNext(c, s, ri, wi); RxInv(c, s'.rx, s'.r, s'.isr)
  {
    if s.isr.Rx? { RxTurnKeepsInv(c, s.rx, s.r, s.isr); }
  }

  lemma StepKeepsInv(c: Config, s: State, e: Event)
    requires Inv(c, s)
    ensures Inv(c, Step(c, s, e))
  {
    if e.IrqStep? {
      IsrKeepsTxInv(c, s, e.ri, e.wi);
      IsrKeepsRxInv(c, s, e.ri, e.wi);
    } else if e.HostSend? {
      HostSendKeepsInv(c, s.rx, s.r, s.isr, e.b);
    } else if e.HostTake? {
      HostTakeKeepsInv(c, s.tx, s.w, s.isr);
    } else if s.isr == Quiet {
      MainLineKeepsInv(c, s, e);
    }
  }

  lemma MainLineKeepsInv(c: Config, s: State, e: Event)
    requires Inv(c, s) && s.isr == Quiet && WaitsForIsr(e)
    ensures Inv(c, Step(c, s, e))
  {
    if e.WriterStep? {
      WriterKeepsInv(c, s.tx, s.host, s.w);
    } else if e.ReaderStep? {
      ReaderKeepsInv(c, s.rx, s.host, s.r);
    }
  }

  lemma InitInv(c: Config, timeout: nat, alarmStarted: bool)
    requires c.Ok()
    ensures Inv(c, Init(c, timeout, alarmStarted))
  {
  }

  lemma {:induction false} RunKeepsInv(c: Config, s: State, es: seq<Event>)
    requires Inv(c, s)
    ensures Inv(c, Run(c, s, es))
  {
    if es != [] {
      RunKeepsInv(c, s, es[..|es| - 1]);
      StepKeepsInv(c, Run(c, s, es[..|es| - 1]), es[|es| - 1]);
    }
  }
}
