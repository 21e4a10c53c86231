/** Invariants of the descriptor pool over every run, and what exclusive locks guarantee. */
module FdProofs {
  import opened Options
  import opened FdTable

  /** The standard descriptors are open; every other open one is within the high-water mark; the lock
      flag marks only device descriptors, which are never file systems; free descriptors carry neither. */
  predicate PoolInv(t: Table) {
    && |t.fds| >= 3 && -1 <= t.maxFd < |t.fds| && (t.maxFd == -1 || t.maxFd >= 3)
    && (forall k :: 0 <= k < 3 ==> t.fds[k].dev.Some?)
    && (forall k :: 3 <= k < |t.fds| && t.fds[k].dev.Some? ==> k <= t.maxFd)
    && (forall k :: 0 <= k < |t.fds| ==> FlagsOk(t.fds[k]) && (t.maxFd == -1 ==> !Has(t.fds[k].flags, DEV)))
  }

  predicate FlagsOk(f: Fd) {
    && (Has(f.flags, EXCL) ==> Has(f.flags, DEV))
    && (Has(f.flags, DEV) ==> f.dev.Some? && !f.dev.value.isFs)
  }

  lemma OpenKeepsInv(t: Table, found: Option<Device>, flags: bv32, status: int)
    requires PoolInv(t)
    ensures PoolInv(Open(t, found, flags, status).0)
  {
    hide Has, Clear, CallerFlags, WithDev, WithExcl, WithoutExcl, FcntlUpdate;
  }

  lemma RedirectKeepsInv(t: Table, target: nat, found: Option<Device>, flags: bv32, status: int)
    requires PoolInv(t) && target < 3
    ensures PoolInv(Redirect(t, target, found, flags, status))
  {
    hide Has, Clear, CallerFlags, WithDev, WithExcl, WithoutExcl, FcntlUpdate;
    OpenKeepsInv(t, found, flags, status);
  }

  lemma ApplyKeepsInv(t: Table, op: Op)
    requires PoolInv(t) && Legal(|t.fds|, op)
    ensures PoolInv(Apply(t, op))
  {
    hide Has, Clear, CallerFlags, WithDev, WithExcl, WithoutExcl, FcntlUpdate;
    match op
    case DoOpen(found, flags, status) => OpenKeepsInv(t, found, flags, status);
    case DoClose(_, _) =>
    case DoIoctl(fd, _, _) =>
    case DoFcntl(fd, cmd) =>
    case DoRedirect(target, found, flags, status) => RedirectKeepsInv(t, target, found, flags, status);
  }

  lemma {:induction false} RunKeepsInv(t: Table, ops: seq<Op>)
    requires PoolInv(t) && forall op :: op in ops ==> Legal(|t.fds|, op)
    ensures PoolInv(Run(t, ops))
    decreases |ops|
  {
    if ops != [] {
      assert ops[0] in ops && forall op :: op in ops[1..] ==> op in ops;
      ApplyKeepsInv(t, ops[0]);
      RunKeepsInv(Apply(t, ops[0]), ops[1..]);
    }
  }

  lemma InitInv(len: nat)
    requires len >= 3
    ensures PoolInv(InitTable(len))
  {
  }

  /** From the initial table on. */
  lemma ReachedInv(len: nat, ops: seq<Op>)
    requires len >= 3 && forall op :: op in ops ==> Legal(len, op)
    ensures PoolInv(Run(InitTable(len), ops))
  {
    InitInv(len);
    RunKeepsInv(InitTable(len), ops);
  }

  // ---- opening -----------------------------------------------------------------------------

  /** A successful open takes the least free descriptor for the device and touches no other; a failed
      one leaves every descriptor's device as it was. */
  lemma OpenTakesLeastFree(t: Table, found: Option<Device>, flags: bv32, status: int)
    requires PoolInv(t)
    ensures var (t', r) := Open(t, found, flags, status);
      && (r.Success? ==>
        && 3 <= r.value < |t.fds| && found.Some? && t'.fds[r.value].dev == found
        && t.fds[r.value].dev.None? && (forall k :: 0 <= k < r.value ==> t.fds[k].dev.Some?)
        && forall k :: 0 <= k < |t.fds| && k != r.value ==> t'.fds[k] == t.fds[k])
      && (r.Failure? ==> forall k :: 0 <= k < |t.fds| ==> t'.fds[k].dev == t.fds[k].dev)
  {
    hide Has, Clear, CallerFlags, WithDev, WithExcl, WithoutExcl, FcntlUpdate;
  }

  /** An open of a device succeeds exactly if there is a free descriptor, the device is willing, and
      nobody holds the device exclusively: the scan up to the mark misses no descriptor. */
  lemma OpenSucceedsIff(t: Table, dev: Device, flags: bv32, status: int)
    requires PoolInv(t)
    ensures Open(t, Some(dev), flags, status).1.Success? <==>
      && (exists k :: 0 <= k < |t.fds| && t.fds[k].dev.None?)
      && status >= 0
      && !exists k :: 0 <= k < |t.fds| && t.fds[k].dev == Some(dev) && Has(t.fds[k].flags, EXCL)
  {
    hide Has, Clear, CallerFlags, WithDev, WithExcl, WithoutExcl, FcntlUpdate;
    var k := LeastFree(t.fds, 0);
    if k < |t.fds| {
      assert t.fds[k].dev.None?;
      var (t1, _) := GetFd(t, dev);
      var t2 := SetFlags(t1, k, CallerFlags(flags));
      var t3 := if dev.isFs then t2 else SetFlags(t2, k, WithDev(t2.fds[k].flags));
      assert forall j :: 0 <= j < |t.fds| && j != k ==> t3.fds[j] == t.fds[j];
      if j :| 0 <= j < |t.fds| && t.fds[j].dev == Some(dev) && Has(t.fds[j].flags, EXCL) {
        assert j != k && j <= t3.maxFd && LockedByOther(t3, k);
      }
    }
  }

  // ---- exclusive locks ---------------------------------------------------------------------

  /** Descriptor i is the only one on its device. */
  predicate Sole(t: Table, i: nat) {
    i < |t.fds| && t.fds[i].dev.Some? && forall k :: 0 <= k < |t.fds| && k != i ==> t.fds[k].dev != t.fds[i].dev
  }

  predicate Exclusive(t: Table, i: nat) {
    Sole(t, i) && Has(t.fds[i].flags, EXCL)
  }

  /** TIOCEXCL is granted to every sole descriptor; and when it is granted, the descriptor is the sole
      one if and only if the slot at the high-water mark is not another descriptor on the device. */
  lemma GrantSound(t: Table, i: nat)
    requires PoolInv(t) && i < |t.fds| && Has(t.fds[i].flags, DEV)
    ensures var (t', r) := Ioctl(t, i, Tiocexcl, None);
      && (Sole(t, i) ==> r.Success?)
      && (r.Success? ==> (Exclusive(t', i) <==> t.maxFd == i || t.fds[t.maxFd].dev != t.fds[i].dev))
  {
    hide Has, Clear, CallerFlags, WithDev, WithExcl, WithoutExcl, FcntlUpdate;
    var (t', r) := Ioctl(t, i, Tiocexcl, None);
    assert forall k :: 0 <= k < |t.fds| ==> t'.fds[k].dev == t.fds[k].dev;
    if r.Success? && t.maxFd != i && t.fds[t.maxFd].dev == t.fds[i].dev {
      assert !Sole(t', i);
    } else if r.Success? {
      forall k | 0 <= k < |t.fds| && k != i ensures t'.fds[k].dev != t'.fds[i].dev {
        assert k < t.maxFd || k == t.maxFd || t.fds[k].dev.None?;
      }
    }
  }

  /** Two opens of a device and a lock on the first: granted, although the second is still open. */
  lemma GrantMissesLastSlot(len: nat, dev: Device)
    requires len >= 5 && !dev.isFs && dev != DEV_NULL
    ensures var t1 := Apply(InitTable(len), DoOpen(Some(dev), 0, 0)); var t := Apply(t1, DoOpen(Some(dev), 0, 0));
      var (t', r) := Ioctl(t, 3, Tiocexcl, None);
      r.Success? && Has(t'.fds[3].flags, EXCL) && t'.fds[4].dev == t'.fds[3].dev == Some(dev)
  {
    hide Has, Clear, CallerFlags, WithDev, WithExcl, WithoutExcl, FcntlUpdate;
    var t0 := InitTable(len);
    assert t0.fds[0].dev.Some? && t0.fds[1].dev.Some? && t0.fds[2].dev.Some? && t0.fds[3].dev.None?;
    assert t0.fds[4].dev.None? && LeastFree(t0.fds, 0) == 3;
    var t1 := Apply(t0, DoOpen(Some(dev), 0, 0));
    assert !Has(t0.fds[0].flags, EXCL) && !Has(t0.fds[1].flags, EXCL) && !Has(t0.fds[2].flags, EXCL);
    assert t1.fds[3].dev == Some(dev) && t1.maxFd == 3 && t1.fds[4] == t0.fds[4] && LeastFree(t1.fds, 0) == 4;
    var t := Apply(t1, DoOpen(Some(dev), 0, 0));
    assert t.fds[4].dev == Some(dev) && t.maxFd == 4;
  }

  /** An operation that gives the lock up: it unlocks or closes the holder, or redirects over it. */
  predicate GivesUp(op: Op, i: nat) {
    match op
    case DoClose(fd, _) => fd == i
    case DoIoctl(fd, req, _) => fd == i && req == Tiocnxcl
    case DoRedirect(target, _, _, _) => target == i
    case _ => false
  }

  lemma OpenKeepsLock(t: Table, i: nat, found: Option<Device>, flags: bv32, status: int)
    requires PoolInv(t) && Exclusive(t, i)
    ensures var (t', r) := Open(t, found, flags, status);
      Exclusive(t', i) && t'.fds[i] == t.fds[i] && (found == t.fds[i].dev ==> r.Failure?)
  {
    hide Has, Clear, CallerFlags, WithDev, WithExcl, WithoutExcl, FcntlUpdate;
  }

  lemma ApplyKeepsLock(t: Table, i: nat, op: Op)
    requires PoolInv(t) && Exclusive(t, i) && Legal(|t.fds|, op) && !GivesUp(op, i)
    ensures Exclusive(Apply(t, op), i) && Apply(t, op).fds[i].dev == t.fds[i].dev
  {
    hide Has, Clear, CallerFlags, WithDev, WithExcl, WithoutExcl, FcntlUpdate;
    match op
    case DoOpen(found, flags, status) => OpenKeepsLock(t, i, found, flags, status);
    case DoClose(_, _) =>
    case DoIoctl(fd, _, _) =>
    case DoFcntl(fd, cmd) =>
    case DoRedirect(target, found, flags, status) => OpenKeepsLock(t, i, found, flags, status);
  }

  /** An exclusive holder stays the only descriptor on its device through every run that does not give
      its lock up, and every open of the device in the meantime fails. */
  lemma {:induction false} LockStable(t: Table, i: nat, ops: seq<Op>)
    requires PoolInv(t) && Exclusive(t, i)
    requires forall op :: op in ops ==> Legal(|t.fds|, op) && !GivesUp(op, i)
    ensures var t' := Run(t, ops);
      && Exclusive(t', i) && t'.fds[i].dev == t.fds[i].dev
      && forall flags, status :: Open(t', t.fds[i].dev, flags, status).1.Failure?
    decreases |ops|
  {
    hide Has, Clear, CallerFlags, WithDev, WithExcl, WithoutExcl, FcntlUpdate;
    if ops == [] {
      forall flags, status ensures Open(t, t.fds[i].dev, flags, status).1.Failure? {
        OpenKeepsLock(t, i, t.fds[i].dev, flags, status);
      }
    } else {
      assert ops[0] in ops && forall op :: op in ops[1..] ==> op in ops;
      ApplyKeepsInv(t, ops[0]);
      ApplyKeepsLock(t, i, ops[0]);
      LockStable(Apply(t, ops[0]), i, ops[1..]);
    }
  }
}
