/** When send and prepare lose descriptors: at which of their accesses, in which runs, and at which calls
    they risk it; each exactly. */
module DmaBreaches {
  import opened Options
  import opened Ring
  import opened Machine32
  import opened DmaMachine
  import opened DmaProofs
  import opened DmaTheorems
  import opened DmaOvertaking

  // ---- at which access ---------------------------------------------------------------------

  /** An access of a call that has chosen its slot leaves its ring holding what was accepted if and only if
      it does not spoil. */
  lemma SpoilsIff(slots: nat, s: State)
    requires Inv(slots, s) && s.call.pc in {Fill, Publish}
    ensures Intact(QueueOf(CallNext(slots, s), s.call.side)) <==> !Spoils(slots, s)
  {
    if !Spoils(slots, s) {
      CallKeepsInv(slots, s);
      InvIsIntact(slots, CallNext(slots, s), s.call.side);
    } else if s.call.pc == Fill {
      FillSpoils(slots, s);
    } else {
      PublishSpoils(slots, s);
    }
  }

  lemma InvIsIntact(slots: nat, s: State, side: Side)
    requires Inv(slots, s)
    ensures Intact(QueueOf(s, side))
  {
  }

  lemma FillSpoils(slots: nat, s: State)
    requires Inv(slots, s) && s.call.pc == Fill && Spoils(slots, s)
    ensures !Intact(QueueOf(CallNext(slots, s), s.call.side))
  {
    var p, q := s.call, QueueOf(s, s.call.side);
    StoreOutsideIff(q.buf, q.first, q.end, p.end, WithField(q.buf[p.end], p.slot, p.filled));
    hide Contents;
  }

  lemma PublishSpoils(slots: nat, s: State)
    requires Inv(slots, s) && s.call.pc == Publish && Spoils(slots, s)
    ensures !Intact(QueueOf(CallNext(slots, s), s.call.side))
  {
    var p, q := s.call, QueueOf(s, s.call.side);
    assert QueueOf(CallNext(slots, s), p.side) == q.(end := Wrap(slots, p.end + 1), posted := q.posted + [p.slot]);
    hide CallNext;
    PublishedIntact(q, p.end, p.slot);
  }

  lemma PublishedIntact(q: Queue, k: nat, slot: Slot)
    requires |q.buf| >= 2 && q.Fits(|q.buf|) && k < |q.buf| && Intact(q)
    ensures Intact(q.(end := Wrap(|q.buf|, k + 1), posted := q.posted + [slot])) ==>
      k == q.end && !q.Full(|q.buf|) && q.buf[k] == slot
  {
    assert (q.posted + [slot])[q.popped..] == q.posted[q.popped..] + [slot];
    hide Contents;
    PublishIntact(q.buf, q.first, q.end, k, slot);
  }

  /** Publishing up to index k appends x exactly if k is the end, there is room, and x stands there. */
  lemma PublishIntact<T>(buf: seq<T>, first: nat, end: nat, k: nat, x: T)
    requires |buf| >= 2 && first < |buf| && end < |buf| && k < |buf|
    ensures Contents(buf, first, Wrap(|buf|, k + 1)) == Contents(buf, first, end) + [x] ==>
      k == end && !Full(|buf|, first, end) && buf[k] == x
  {
    var a, b := Contents(buf, first, Wrap(|buf|, k + 1)), Contents(buf, first, end);
    ContentsLength(buf, first, Wrap(|buf|, k + 1));
    ContentsLength(buf, first, end);
    assert a == b + [x] ==> a[|a| - 1] == x;
  }

  // ---- in which runs -----------------------------------------------------------------------

  /** No ioctl of the run is risky when it is called. */
  predicate CalmIoctls(slots: nat, s: State, es: seq<Event>)
    requires Fits(slots, s)
  {
    forall k :: 0 <= k < |es| && es[k].IoctlCall? ==> Allowed(slots, Run(slots, s, es[..k]), es[k])
  }

  predicate BothIntact(slots: nat, s: State)
    requires Fits(slots, s)
  {
    Intact(s.tx) && Intact(s.rx)
  }

  /** A run without risky ioctls loses no accepted descriptor at any time if and only if it is orderly,
      however interrupts and callbacks fall. */
  lemma RunsIntactIff(slots: nat, maxLength: u32, es: seq<Event>)
    requires slots >= 2 && CalmIoctls(slots, Init(slots, maxLength), es)
    ensures (forall k :: 0 <= k <= |es| ==> BothIntact(slots, Reached(slots, maxLength, es[..k]))) <==>
      Orderly(slots, maxLength, es)
  {
    var s0 := Init(slots, maxLength);
    assert es[..|es|] == es && Inv(slots, s0);
    hide Run, Inv, BothIntact;
    if Orderly(slots, maxLength, es) {
      forall k | 0 <= k <= |es| ensures BothIntact(slots, Reached(slots, maxLength, es[..k])) {
        DisciplinedPrefix(slots, s0, es, k);
        ReachedInv(slots, maxLength, es[..k]);
        InvIsBothIntact(slots, Reached(slots, maxLength, es[..k]));
      }
    } else if forall k :: 0 <= k <= |es| ==> BothIntact(slots, Reached(slots, maxLength, es[..k])) {
      IntactIsDisciplined(slots, s0, es, |es|);
    }
  }

  lemma InvIsBothIntact(slots: nat, s: State)
    requires Inv(slots, s)
    ensures BothIntact(slots, s)
  {
    hide Contents;
  }

  lemma {:induction false} IntactIsDisciplined(slots: nat, s: State, es: seq<Event>, k: nat)
    requires Inv(slots, s) && CalmIoctls(slots, s, es) && k <= |es|
    requires forall j :: 0 <= j <= |es| ==> BothIntact(slots, Run(slots, s, es[..j]))
    ensures Disciplined(slots, s, es[..k]) && Inv(slots, Run(slots, s, es[..k]))
  {
    if k == 0 {
      assert es[..0] == [];
    } else {
      IntactIsDisciplined(slots, s, es, k - 1);
      IntactOneMore(slots, s, es, k - 1);
    }
  }

  lemma IntactOneMore(slots: nat, s: State, es: seq<Event>, k: nat)
    requires Inv(slots, s) && CalmIoctls(slots, s, es) && k < |es| && Disciplined(slots, s, es[..k])
    requires Inv(slots, Run(slots, s, es[..k])) && BothIntact(slots, Run(slots, s, es[..k + 1]))
    ensures Disciplined(slots, s, es[..k + 1]) && Inv(slots, Run(slots, s, es[..k + 1]))
  {
    var s1 := Run(slots, s, es[..k]);
    assert es[k].IoctlCall? ==> Allowed(slots, s1, es[k]);
    assert Fits(slots, s);
    hide *;
    OneMore(slots, s, es, k);
    IntactIsAllowed(slots, s1, es[k]);
    StepKeepsInv(slots, s1, es[k]);
    DisciplinedOneMore(slots, s, es, k);
  }

  lemma DisciplinedOneMore(slots: nat, s: State, es: seq<Event>, k: nat)
    requires Fits(slots, s) && k < |es| && Disciplined(slots, s, es[..k])
    requires Allowed(slots, Run(slots, s, es[..k]), es[k])
    ensures Disciplined(slots, s, es[..k + 1])
  {
    var p := es[..k + 1];
    forall j | 0 <= j < |p| ensures Allowed(slots, Run(slots, s, p[..j]), p[j]) {
      AllowedAt(slots, s, es, k, j);
    }
  }

  lemma AllowedAt(slots: nat, s: State, es: seq<Event>, k: nat, j: nat)
    requires Fits(slots, s) && j <= k < |es| && Disciplined(slots, s, es[..k])
    requires Allowed(slots, Run(slots, s, es[..k]), es[k])
    ensures Allowed(slots, Run(slots, s, es[..k + 1][..j]), es[..k + 1][j])
  {
    hide Run, Allowed;
    assert es[..k + 1][..j] == es[..j];
    if j < k { assert es[..k][..j] == es[..j] && es[..k][j] == es[j]; }
  }

  lemma IntactIsAllowed(slots: nat, s: State, e: Event)
    requires Inv(slots, s) && BothIntact(slots, Step(slots, s, e)) && (e.IoctlCall? ==> Allowed(slots, s, e))
    ensures Allowed(slots, s, e)
  {
    hide Intact, CallNext, Risky;
    if e.CallStep? && Spoils(slots, s) { SpoilsIff(slots, s); }
  }

  // ---- at which calls ----------------------------------------------------------------------

  /** Inside send or prepare, before the descriptor is published. */
  predicate Unpublished(s: State) { s.call.pc in {SnapStart, SnapEnd, Fill, Publish} }

  /** The call has been overtaken by nothing that matters: its full test is good, and the slot it has chosen
      is the next one, free, and filled as far as it has got. */
  predicate OnTrack(slots: nat, s: State)
    requires Fits(slots, s)
  {
    var p, q := s.call, QueueOf(s, s.call.side);
    && (p.pc == SnapEnd && q.Full(slots) ==> p.start == q.first)
    && (p.pc in {Fill, Publish} ==> p.end == q.end && !q.Full(slots))
    && (p.pc == Fill ==> q.buf[p.end] == Fields(q.buf[p.end], p.slot, p.filled))
    && (p.pc == Publish ==> q.buf[p.end] == p.slot)
  }

  predicate Calm(slots: nat, s: State)
    requires Fits(slots, s)
  {
    Unpublished(s) ==> !PostRisky(slots, s, s.call.side) && OnTrack(slots, s)
  }

  /** Whatever interrupts come during the call. */
  predicate LosesNothing(slots: nat, s: State, p: Post, es: seq<Event>)
    requires Fits(slots, s)
  {
    Intact(QueueOf(Run(slots, Step(slots, s, PostCall(p)), es), p.side))
  }

  /** A send or prepare loses no accepted descriptor, whatever interrupts come and whatever their callbacks
      post, if and only if it is not called while a callback is coming, other than on a ring that is full
      and, since its side streams, stays so. */
  lemma PostSafeIff(slots: nat, s: State, p: Post)
    requires Inv(slots, s) && s.call.pc == Idle && Acceptable(s.mode, p.slot)
    ensures (forall es :: OneCall(es) ==> LosesNothing(slots, s, p, es)) <==> !PostRisky(slots, s, p.side)
  {
    var s0 := Step(slots, s, PostCall(p));
    RiskWithoutCall(slots, s, s0.call);
    StepKeepsInv(slots, s, PostCall(p));
    if PostRisky(slots, s, p.side) {
      hide Intact;
      var es := LoseDescriptor(slots, s0);
      assert !LosesNothing(slots, s, p, es);
    } else {
      forall es | OneCall(es) ensures LosesNothing(slots, s, p, es) {
        CalmRun(slots, s0, es);
        InvIsIntact(slots, Run(slots, s0, es), p.side);
      }
    }
  }

  // ---- safe calls --------------------------------------------------------------------------

  lemma {:induction false} CalmRun(slots: nat, s: State, es: seq<Event>)
    requires Inv(slots, s) && Calm(slots, s) && OneCall(es)
    ensures var s' := Run(slots, s, es); Inv(slots, s') && Calm(slots, s')
  {
    if es != [] {
      var k := |es| - 1;
      assert es[k] in es && forall e :: e in es[..k] ==> e in es;
      CalmRun(slots, s, es[..k]);
      CalmStep(slots, Run(slots, s, es[..k]), es[k]);
    }
  }

  /** What is calm stays calm, and is allowed. */
  lemma CalmStep(slots: nat, s: State, e: Event)
    requires Inv(slots, s) && Calm(slots, s) && (e.CallStep? || e.Interrupt?)
    ensures Allowed(slots, s, e) && Inv(slots, Step(slots, s, e)) && Calm(slots, Step(slots, s, e))
  {
    assert Allowed(slots, s, e);
    StepKeepsInv(slots, s, e);
    hide Inv, Allowed;
    if e.CallStep? {
      CalmCall(slots, s);
    } else if s.engine.busy {
      CalmServe(slots, s, e.txPosts, e.rxPosts);
    }
  }

  lemma CalmCall(slots: nat, s: State)
    requires Inv(slots, s) && Calm(slots, s)
    ensures Calm(slots, CallNext(slots, s))
  {
    if Unpublished(s) {
      TrackedCall(slots, s);
      RiskAfterCall(slots, s);
      hide Inv, PostRisky, OnTrack;
    } else {
      StaysOutside(slots, s);
    }
  }

  lemma StaysOutside(slots: nat, s: State)
    requires Fits(slots, s) && !Unpublished(s)
    ensures !Unpublished(CallNext(slots, s))
  {
  }

  lemma TrackedCall(slots: nat, s: State)
    requires Core(slots, s) && Unpublished(s) && OnTrack(slots, s) && PostInv(slots, s)
    ensures OnTrack(slots, CallNext(slots, s))
    ensures CallNext(slots, s).call.side == s.call.side
  {
    hide Contents, QueueInv, ModeInv, EngineInv, ControlInv;
  }

  /** A store into a free slot does not change what is coming. */
  lemma RiskAfterCall(slots: nat, s: State)
    requires Core(slots, s) && Unpublished(s) && OnTrack(slots, s) && !PostRisky(slots, s, s.call.side)
    ensures var s' := CallNext(slots, s); Unpublished(s') ==> !PostRisky(slots, s', s.call.side)
  {
    var p, q, s' := s.call, QueueOf(s, s.call.side), CallNext(slots, s);
    if p.pc == Fill {
      StoreOutsideIff(q.buf, q.first, q.end, p.end, WithField(q.buf[p.end], p.slot, p.filled));
    }
    if Unpublished(s') {
      assert s'.tx.Pending() == s.tx.Pending() && s'.rx.Pending() == s.rx.Pending() by { hide Contents, Core; }
      SamePendingSameRisk(slots, s, s');
    }
    hide Core, Contents, CallbackComing;
  }

  lemma SamePendingSameRisk(slots: nat, s: State, s': State)
    requires Fits(slots, s) && Fits(slots, s') && s'.mode == s.mode && s'.engine.busy == s.engine.busy
    requires s'.tx.Pending() == s.tx.Pending() && s'.rx.Pending() == s.rx.Pending()
    ensures CallbackComing(slots, s') == CallbackComing(slots, s)
  {
    hide Contents;
    assert forall i :: 0 <= i < Ahead(slots, s) ==> CallsBackAt(slots, s', i) == CallsBackAt(slots, s, i);
  }

  lemma CalmServe(slots: nat, s: State, txPosts: seq<Post>, rxPosts: seq<Post>)
    requires Inv(slots, s) && Calm(slots, s) && s.engine.busy
    ensures Calm(slots, Serve(slots, s, txPosts, rxPosts))
  {
    ServeKeepsCore(slots, s, txPosts, rxPosts);
    if Unpublished(s) {
      var s', side := Serve(slots, s, txPosts, rxPosts), s.call.side;
      if CallbackComing(slots, s) {
        FullStreamStays(slots, s, side, txPosts, rxPosts);
        hide Inv, Serve, Serving, Extends, CallbackComing;
      } else {
        ServeQuietly(slots, s, txPosts, rxPosts);
        TrackedServe(slots, s, s');
        hide Inv, Serve, Serving, Extends, CallbackComing, OnTrack;
      }
    }
  }

  /** An interrupt that gets nothing onto the ring of the call. */
  lemma TrackedServe(slots: nat, s: State, s': State)
    requires Core(slots, s) && s.engine.busy && OnTrack(slots, s) && s' == Complete(slots, s)
    ensures OnTrack(slots, s')
  {
    CompleteRing(slots, s, s.call.side);
    hide Core, Complete, Contents;
  }

  /** A full ring whose side streams takes no post and is not popped. */
  lemma FullStreamStays(slots: nat, s: State, side: Side, txPosts: seq<Post>, rxPosts: seq<Post>)
    requires Fits(slots, s) && Streams(s.mode, side) && QueueOf(s, side).Full(slots)
    ensures QueueOf(Serve(slots, s, txPosts, rxPosts), side) == QueueOf(s, side)
  {
    var s1 := Complete(slots, s);
    assert QueueOf(s1, side) == QueueOf(s, side) by { hide LaunchNow; }
    var s2 := CallTx(slots, s1, s.tx.first, txPosts);
    FullRefuses(slots, s1.(callbacks := s1.callbacks + [TxDone(s1.tx.buf[s.tx.first].handle)]), side, txPosts);
    var served := s2.rx.buf[s.rx.first];
    FullRefuses(slots, s2.(callbacks := s2.callbacks + [RxDone(served.handle, served.addr)]), side, rxPosts);
    hide Complete, PostAll;
  }

  lemma {:induction false} FullRefuses(slots: nat, s: State, side: Side, ps: seq<Post>)
    requires Fits(slots, s) && QueueOf(s, side).Full(slots)
    ensures QueueOf(PostAll(slots, s, ps), side) == QueueOf(s, side)
    decreases |ps|
  {
    if ps != [] {
      assert QueueOf(PostNow(slots, s, ps[0]), side) == QueueOf(s, side) by { hide LaunchNow; }
      FullRefuses(slots, PostNow(slots, s, ps[0]), side, ps[1..]);
    }
  }

  /** A ring after the pop of an interrupt. */
  lemma CompleteRing(slots: nat, s: State, side: Side)
    requires Core(slots, s) && s.engine.busy
    ensures var q, c := QueueOf(s, side), QueueOf(Complete(slots, s), side);
      && c.end == q.end && c.posted == q.posted && c.buf == q.buf
      && c.popped <= |c.posted| && |c.Pending()| == |c.posted| - c.popped
      && (if if side == Send then s.mode.txStream else s.mode.rxStream then c == q
          else c.first == Wrap(slots, q.first + 1) && !c.Full(slots))
  {
    CompleteKeepsCore(slots, s);
    hide Serving, LaunchNow;
    assert QueueInv(slots, s.mode, QueueOf(Complete(slots, s), side)) by { hide Contents; }
  }

  // ---- risky calls -------------------------------------------------------------------------

  /** The rest of a call that has chosen its slot, up to the store that publishes the descriptor. */
  function Publication(slots: nat, s: State): (s': State)
    requires Fits(slots, s)
    ensures Fits(slots, s')
    decreases 5 - s.call.filled
  {
    if s.call.pc == Fill && s.call.filled < 4 then Publication(slots, CallNext(slots, s))
    else if s.call.pc == Publish then CallNext(slots, s)
    else s
  }

  predicate InFill(s: State) {
    (s.call.pc == Fill && s.call.filled < 4) || (s.call.pc == Publish && s.call.filled == 4)
  }

  /** It is a run of accesses. */
  lemma {:induction false} PublicationIsSteps(slots: nat, s: State, n: nat)
    requires Fits(slots, s) && InFill(s) && n == 5 - s.call.filled
    ensures Publication(slots, s) == CallSteps(slots, s, n)
    decreases n
  {
    hide *;
    FillMovesOn(slots, s);
    OneStep(slots, s);
    if n > 1 {
      PublicationIsSteps(slots, CallNext(slots, s), n - 1);
      CallStepsAdd(slots, s, 1, n - 1);
    }
  }

  lemma FillMovesOn(slots: nat, s: State)
    requires Fits(slots, s) && InFill(s)
    ensures s.call.filled <= 4 && (s.call.filled == 4 <==> s.call.pc == Publish)
    ensures s.call.pc == Publish ==> Publication(slots, s) == CallNext(slots, s)
    ensures s.call.pc != Publish ==>
      && InFill(CallNext(slots, s)) && CallNext(slots, s).call.filled == s.call.filled + 1
      && Publication(slots, s) == Publication(slots, CallNext(slots, s))
  {
  }

  lemma OneStep(slots: nat, s: State)
    requires Fits(slots, s)
    ensures CallSteps(slots, s, 1) == CallNext(slots, s)
  {
    hide CallNext;
    assert CallSteps(slots, s, 0) == s;
  }

  /** What it does to the ring. */
  lemma {:induction false} PublicationStores(slots: nat, s: State)
    requires Fits(slots, s) && InFill(s)
    ensures var q, q' := QueueOf(s, s.call.side), QueueOf(Publication(slots, s), s.call.side);
      && q'.first == q.first && q'.popped == q.popped && q'.end == Wrap(slots, s.call.end + 1)
      && q'.posted == q.posted + [s.call.slot] && Publication(slots, s).call.pc == Test
    decreases 5 - s.call.filled
  {
    if s.call.pc == Fill { PublicationStores(slots, CallNext(slots, s)); }
  }

  lemma FullCount(slots: nat, mode: Mode, q: Queue)
    requires QueueInv(slots, mode, q) && slots >= 2 && q.Full(slots)
    ensures |q.posted| - q.popped == slots - 1
  {
    ContentsLength(q.buf, q.first, q.end);
  }

  lemma LengthStep<T>(buf: seq<T>, buf': seq<T>, first: nat, end: nat)
    requires first < |buf| && end < |buf| && |buf'| == |buf| && !Full(|buf|, first, end)
    ensures |Contents(buf', first, Wrap(|buf|, end + 1))| == |Contents(buf, first, end)| + 1
  {
  }

  /** A ring published after a stale index is too short for what was accepted. */
  lemma PublishedLength(c: Queue, q: Queue)
    requires c.Fits(|c.buf|) && q.Fits(|c.buf|) && |q.buf| == |c.buf| >= 2 && !c.Full(|c.buf|)
    requires q.first == c.first && q.end == Wrap(|c.buf|, c.end + 1)
    requires |c.Pending()| < |q.posted| - q.popped - 1
    ensures !Intact(q)
  {
    LengthStep(c.buf, q.buf, c.first, c.end);
  }

  /** The full test passes on a full ring whose start index has moved since it was loaded; if nothing
      interrupts the rest of the call, the ring then looks empty. */
  lemma TornLoses(slots: nat, s: State)
    requires Core(slots, s) && s.call.pc == SnapEnd && !OnTrack(slots, s)
    ensures var s1 := CallNext(slots, s); var q := QueueOf(Publication(slots, s1), s.call.side);
      InFill(s1) && s1.call.filled == 0 && q.Empty() && |q.posted| - q.popped == slots && !Intact(q)
  {
    var s1, q := CallNext(slots, s), QueueOf(s, s.call.side);
    assert s1 == s.(call := s1.call) && s1.call.side == s.call.side && InFill(s1);
    assert s1.call.end == q.end && s1.call.filled == 0;
    FullCount(slots, s.mode, q);
    PublicationStores(slots, s1);
    hide Core, Publication, CallNext;
    var q' := QueueOf(Publication(slots, s1), s.call.side);
    ContentsLength(q'.buf, q'.first, q'.end);
  }

  /** The interrupt in which the callback of the transfer in flight posts one descriptor. */
  function OnePost(s: State, p: Post): Event
    requires s.tx.Fits(|s.tx.buf|)
  {
    CallbackEvent(s, seq(1, _ => p))
  }

  /** A callback posts on the ring of a call that has chosen its slot; if nothing interrupts the rest of the
      call, one of the two descriptors is not queued. */
  lemma ReentryLoses(slots: nat, s: State)
    requires Core(slots, s) && s.call.pc == Fill && s.call.filled == 0 && s.engine.busy && CallsBackAt(slots, s, 0)
    requires Acceptable(s.mode, s.call.slot)
    requires var q := QueueOf(s, s.call.side); s.call.end == q.end && !q.Full(slots)
    ensures var s1 := Step(slots, s, OnePost(s, Post(s.call.side, s.call.slot)));
      Fits(slots, s1) && s1.call == s.call && !Intact(QueueOf(Publication(slots, s1), s.call.side))
  {
    var side, d := s.call.side, s.call.slot;
    var c, s1 := QueueOf(Complete(slots, s), side), Step(slots, s, OnePost(s, Post(side, d)));
    CompleteRing(slots, s, side);
    NotFullCount(slots, c);
    CallbackPosts(slots, s, side, d, 1);
    LaterFacts(slots, s, s1);
    assert InFill(s1);
    CoreCount(slots, s1, side);
    PublicationStores(slots, s1);
    var q1, q2 := QueueOf(s1, side), QueueOf(Publication(slots, s1), side);
    assert q1.first == c.first && |q1.Pending()| == |c.Pending()| + 1;
    hide *;
    PublishedLength(c, q2);
  }

  lemma NotFullCount(slots: nat, q: Queue)
    requires slots >= 2 && q.Fits(slots) && !q.Full(slots)
    ensures |q.Pending()| + 1 <= slots - 1
  {
    ContentsLength(q.buf, q.first, q.end);
  }

  lemma CoreCount(slots: nat, s: State, side: Side)
    requires Core(slots, s)
    ensures var q := QueueOf(s, side); q.popped <= |q.posted| && |q.Pending()| == |q.posted| - q.popped
  {
    hide Contents;
  }

  /** From every risky state there is a run that loses a descriptor. */
  lemma LoseDescriptor(slots: nat, s: State) returns (es: seq<Event>)
    requires Core(slots, s) && s.call.pc == SnapStart && Acceptable(s.mode, s.call.slot)
    requires PostRisky(slots, s, s.call.side)
    ensures OneCall(es) && !Intact(QueueOf(Run(slots, s, es), s.call.side))
  {
    if !QueueOf(s, s.call.side).Full(slots) {
      es := LoseByReentry(slots, s);
    } else if CallsBackAt(slots, s, 0) {
      es := LoseByTearing(slots, s);
    } else {
      var i :| 0 <= i < Ahead(slots, s) && CallsBackAt(slots, s, i);
      QuietShifts(slots, s, i);
      QuietDrains(slots, s);
      var e, s1 := Interrupt([], []), Step(slots, s, Interrupt([], []));
      LaterFacts(slots, s, s1);
      assert OneCall([e]);
      hide *;
      var rest := LoseByReentry(slots, s1);
      RunFirst(slots, s, e, rest);
      OneCallOne(e, rest);
      es := [e] + rest;
    }
  }

  /** There is room when the call looks: let it choose its slot, let time pass until a callback comes, and
      have it post. */
  lemma LoseByReentry(slots: nat, s: State) returns (es: seq<Event>)
    requires Core(slots, s) && s.call.pc == SnapStart && Acceptable(s.mode, s.call.slot)
    requires CallbackComing(slots, s) && !QueueOf(s, s.call.side).Full(slots)
    ensures OneCall(es) && !Intact(QueueOf(Run(slots, s, es), s.call.side))
  {
    var s2 := CallNext(slots, CallNext(slots, s));
    SlotChosen(slots, s, s2);
    var seek := SeekCallback(slots, s2);
    var s3 := Run(slots, s2, seek);
    LaterFacts(slots, s2, s3);
    StillChosen(slots, s2, s3);
    var e := OnePost(s3, Post(s.call.side, s.call.slot));
    assert OneCall([e]) && OneCall([CallStep]) && OneCall(seek) && OneCall(seq(5, _ => CallStep));
    hide *;
    ReentryLoses(slots, s3);
    var tail := [e] + seq(5, _ => CallStep);
    var s4 := Step(slots, s3, e);
    PublicationRun(slots, s4);
    RunFirst(slots, s3, e, seq(5, _ => CallStep));
    RunAppend(slots, s2, seek, tail);
    RunSecond(slots, s, CallStep, CallStep, seek + tail);
    AreSteps(slots, s, CallNext(slots, s));
    OneCallOne(e, seq(5, _ => CallStep));
    OneCallAppend(seek, tail);
    OneCallTwo(CallStep, CallStep, seek + tail);
    es := [CallStep] + ([CallStep] + (seek + tail));
  }

  lemma SlotChosen(slots: nat, s: State, s2: State)
    requires Core(slots, s) && s.call.pc == SnapStart && CallbackComing(slots, s)
    requires !QueueOf(s, s.call.side).Full(slots) && s2 == CallNext(slots, CallNext(slots, s))
    ensures s2 == s.(call := s2.call) && Core(slots, s2) && Away(s2) && CallbackComing(slots, s2)
    ensures s2.call.pc == Fill && s2.call.filled == 0 && s2.call.side == s.call.side && s2.call.slot == s.call.slot
    ensures s2.call.end == QueueOf(s, s.call.side).end
  {
    RiskWithoutCall(slots, s, s2.call);
    hide CallbackComing, QueueInv, Contents, ModeInv, ControlInv, Programmed, CanLaunch;
  }

  lemma StillChosen(slots: nat, s: State, s': State)
    requires Fits(slots, s) && Fits(slots, s') && Drained(slots, s, s') && CallbackComing(slots, s')
    requires s'.call == s.call && !QueueOf(s, s.call.side).Full(slots)
    ensures s'.engine.busy && QueueOf(s', s.call.side).end == QueueOf(s, s.call.side).end
    ensures !QueueOf(s', s.call.side).Full(slots)
  {
  }

  lemma PublicationRun(slots: nat, s: State)
    requires Fits(slots, s) && s.call.pc == Fill && s.call.filled == 0
    ensures Run(slots, s, seq(5, _ => CallStep)) == Publication(slots, s)
  {
    assert InFill(s);
    hide *;
    PublicationIsSteps(slots, s, 5);
    CallStepsAreRun(slots, s, 5);
  }

  /** The ring is full when the call looks: have the callback post between its two loads. */
  lemma LoseByTearing(slots: nat, s: State) returns (es: seq<Event>)
    requires Core(slots, s) && s.call.pc == SnapStart && Acceptable(s.mode, s.call.slot) && s.engine.busy
    requires CallsBackAt(slots, s, 0) && QueueOf(s, s.call.side).Full(slots) && !Streams(s.mode, s.call.side)
    ensures OneCall(es) && !Intact(QueueOf(Run(slots, s, es), s.call.side))
  {
    var s1 := CallNext(slots, s);
    StartLoaded(slots, s, s1);
    var e := OnePost(s1, Post(s.call.side, s.call.slot));
    assert OneCall([e]) && OneCall([CallStep]) && OneCall(seq(5, _ => CallStep));
    CallbackTears(slots, s1);
    var s2 := Step(slots, s1, e);
    TornLoses(slots, s2);
    assert CallNext(slots, s2).call.side == s.call.side;
    hide *;
    PublicationRun(slots, CallNext(slots, s2));
    ThreeEvents(slots, s, CallStep, e, CallStep, seq(5, _ => CallStep));
    AreSteps(slots, s, s2);
    es := [CallStep] + ([e] + ([CallStep] + seq(5, _ => CallStep)));
  }

  lemma StartLoaded(slots: nat, s: State, s1: State)
    requires Core(slots, s) && s.call.pc == SnapStart && s1 == CallNext(slots, s)
    ensures s1 == s.(call := s1.call) && Core(slots, s1) && s1.call.pc == SnapEnd
    ensures s1.call.start == QueueOf(s, s.call.side).first && s1.call.side == s.call.side && s1.call.slot == s.call.slot
    ensures CallsBackAt(slots, s, 0) ==> CallsBackAt(slots, s1, 0)
  {
    hide QueueInv, Contents;
  }

  /** On a full ring, the callback of the transfer in flight posts between the two loads. */
  lemma CallbackTears(slots: nat, s: State)
    requires Core(slots, s) && s.call.pc == SnapEnd && s.engine.busy && CallsBackAt(slots, s, 0)
    requires Acceptable(s.mode, s.call.slot) && !Streams(s.mode, s.call.side)
    requires var q := QueueOf(s, s.call.side); q.Full(slots) && s.call.start == q.first
    ensures var s1 := Step(slots, s, OnePost(s, Post(s.call.side, s.call.slot)));
      Core(slots, s1) && s1.call == s.call && !OnTrack(slots, s1)
  {
    var side, d := s.call.side, s.call.slot;
    var q, c, s1 := QueueOf(s, side), QueueOf(Complete(slots, s), side), Step(slots, s, OnePost(s, Post(side, d)));
    CompleteRing(slots, s, side);
    NotFullCount(slots, c);
    CallbackPosts(slots, s, side, d, 1);
    LaterFacts(slots, s, s1);
    FullLength(slots, s.mode, q);
    CoreCount(slots, s, side);
    PoppedLength(c, q);
    ContentsLength(QueueOf(s1, side).buf, QueueOf(s1, side).first, QueueOf(s1, side).end);
    hide Core, Complete, Step, Contents, CallsBackAt;
  }

  lemma FullLength(slots: nat, mode: Mode, q: Queue)
    requires slots >= 2 && q.Fits(slots) && q.Full(slots)
    ensures |q.Pending()| == slots - 1
  {
    ContentsLength(q.buf, q.first, q.end);
  }

  lemma PoppedLength(c: Queue, q: Queue)
    requires q.Fits(|q.buf|) && !q.Empty() && c.Fits(|c.buf|) && c.buf == q.buf && c.end == q.end
    requires c.first == Wrap(|q.buf|, q.first + 1)
    ensures |c.Pending()| == |q.Pending()| - 1
  {
    Take(q.buf, q.first, q.end);
  }
}
