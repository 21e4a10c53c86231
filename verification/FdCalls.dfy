/** What each call on descriptors does, slot by slot and bit by bit. */
module FdCalls {
  import opened Options
  import opened FdTable
  import opened FdProofs

  /** No slot but i has changed. */
  predicate OnlyAt(t: Table, t': Table, i: int) {
    |t'.fds| == |t.fds| && forall k :: 0 <= k < |t.fds| && k != i ==> t'.fds[k] == t.fds[k]
  }

  predicate Free(t: Table, k: nat) { k < |t.fds| && t.fds[k].dev.None? }

  /** The first free slot, if there is one. */
  predicate FirstFree(t: Table, k: nat) { Free(t, k) && forall j :: 0 <= j < k ==> !Free(t, j) }

  predicate LockedDevice(t: Table, dev: Device) {
    exists k :: 0 <= k < |t.fds| && t.fds[k].dev == Some(dev) && Has(t.fds[k].flags, EXCL)
  }

  /** The flags of a new descriptor: the caller's without the two reserved bits, and the device bit. */
  function NewFlags(dev: Device, flags: bv32): bv32 {
    if dev.isFs then flags & 0x3FFF_FFFF else (flags & 0x3FFF_FFFF) | 0x4000_0000
  }

  // ---- open and redirection ------------------------------------------------------------------

  lemma FreeSlot(t: Table)
    ensures var k := LeastFree(t.fds, 0); if k < |t.fds| then FirstFree(t, k) else forall j :: !Free(t, j)
  {
  }

  /** The descriptor that a successful open leaves: its device, the caller's flags without the two reserved
      bits, the device bit, and no lock. */
  lemma OpenedSlot(t: Table, found: Option<Device>, flags: bv32, status: int)
    requires PoolInv(t)
    ensures var (t', r) := Open(t, found, flags, status);
      r.Success? ==>
        && found.Some? && FirstFree(t, r.value) && OnlyAt(t, t', r.value)
        && t'.fds[r.value] == Fd(found, t.fds[r.value].priv, NewFlags(found.value, flags))
  {
    FreeSlot(t);
    OpenTakesLeastFree(t, found, flags, status);
    OpenFlags(flags);
    hide LockedByOther;
  }

  lemma OpenFlags(flags: bv32)
    ensures CallerFlags(flags) == flags & 0x3FFF_FFFF
    ensures WithDev(CallerFlags(flags)) == (flags & 0x3FFF_FFFF) | 0x4000_0000
  {
  }

  /** Why an open fails, and that it then leaves nothing behind but a slot that is free as before. */
  lemma OpenFails(t: Table, found: Option<Device>, flags: bv32, status: int)
    requires PoolInv(t)
    ensures var (t', r) := Open(t, found, flags, status);
      r.Failure? ==>
        && r.errno == (if found.None? then ENODEV else if forall k :: !Free(t, k) then EMFILE
                       else if !found.value.isFs && LockedDevice(t, found.value) then EACCES else Driver(-status))
        && |t'.fds| == |t.fds|
        && forall k :: 0 <= k < |t.fds| ==>
          t'.fds[k] == t.fds[k] || (FirstFree(t, k) && Free(t', k) && t'.fds[k].flags == 0)
  {
    FreeSlot(t);
    if found.Some? && !found.value.isFs && LeastFree(t.fds, 0) < |t.fds| { ScanFinds(t, found.value, flags); }
    hide Has, CallerFlags, WithDev, LockedByOther, LockedDevice;
  }

  /** The scan up to the mark misses no lock. */
  lemma ScanFinds(t: Table, dev: Device, flags: bv32)
    requires PoolInv(t) && LeastFree(t.fds, 0) < |t.fds| && !dev.isFs
    ensures var k := LeastFree(t.fds, 0); var t2 := SetFlags(GetFd(t, dev).0, k, CallerFlags(flags));
      LockedByOther(SetFlags(t2, k, WithDev(t2.fds[k].flags)), k) <==> LockedDevice(t, dev)
  {
    hide Has, CallerFlags, WithDev;
    var k := LeastFree(t.fds, 0);
    var t2 := SetFlags(GetFd(t, dev).0, k, CallerFlags(flags));
    var t3 := SetFlags(t2, k, WithDev(t2.fds[k].flags));
    assert forall j :: 0 <= j < |t.fds| && j != k ==> t3.fds[j] == t.fds[j];
    if j :| 0 <= j < |t.fds| && t.fds[j].dev == Some(dev) && Has(t.fds[j].flags, EXCL) {
      assert j != k && j <= t3.maxFd && LockedByOther(t3, k);
    }
  }

  /** What an open needs. */
  ghost predicate CanOpen(t: Table, found: Option<Device>, status: int) {
    && found.Some? && (exists k: nat :: Free(t, k)) && status >= 0
    && (found.value.isFs || !LockedDevice(t, found.value))
  }

  lemma OpenSucceeds(t: Table, found: Option<Device>, flags: bv32, status: int)
    requires PoolInv(t)
    ensures Open(t, found, flags, status).1.Success? <==> CanOpen(t, found, status)
  {
    FreeSlot(t);
    if found.Some? {
      OpenSucceedsIff(t, found.value, flags, status);
      if k :| 0 <= k < |t.fds| && t.fds[k].dev.None? { assert Free(t, k); }
    }
    hide Open, Has;
  }

  /** The target has become what open makes of slot i, which is free again; the rest is as it was. */
  predicate Redirected(t: Table, t': Table, target: nat, i: nat, dev: Device, flags: bv32) {
    && FirstFree(t, i) && target < |t.fds| == |t'.fds|
    && t'.fds[target] == Fd(Some(dev), t.fds[i].priv, NewFlags(dev, flags))
    && Free(t', i) && forall k :: 0 <= k < |t.fds| && k != target && k != i ==> t'.fds[k] == t.fds[k]
  }

  /** alt_open_fd redirects the descriptor exactly if the open can succeed; otherwise no descriptor has changed
      its device, and the target is unchanged. */
  lemma RedirectMeans(t: Table, target: nat, found: Option<Device>, flags: bv32, status: int)
    requires PoolInv(t) && target < 3
    ensures var t' := Redirect(t, target, found, flags, status);
      if CanOpen(t, found, status) then exists i: nat :: Redirected(t, t', target, i, found.value, flags)
      else t'.fds[target] == t.fds[target] && forall k :: 0 <= k < |t.fds| ==> t'.fds[k].dev == t.fds[k].dev
  {
    OpenSucceeds(t, found, flags, status);
    var (t1, r) := Open(t, found, flags, status);
    OpenedSlot(t, found, flags, status);
    OpenFails(t, found, flags, status);
    OpenTakesLeastFree(t, found, flags, status);
    hide Open, Has, NewFlags, LockedDevice, Clear;
    if r.Success? {
      var t' := Redirect(t, target, found, flags, status);
      assert Redirected(t, t', target, r.value, found.value, flags);
    }
  }

  // ---- close -----------------------------------------------------------------------------------

  /** Closing frees the slot, whatever the device says, unless it is a standard descriptor. */
  lemma CloseMeans(t: Table, fd: int, status: int)
    requires fd < |t.fds|
    ensures var (t', r) := Close(t, fd, status);
      && r == (if fd < 0 then Failure(EBADFD) else if status < 0 then Failure(Driver(-status)) else Success(0))
      && OnlyAt(t, t', fd) && t'.maxFd == t.maxFd
      && (fd > 2 ==> Free(t', fd) && t'.fds[fd].flags == 0 && t'.fds[fd].priv == t.fds[fd].priv)
      && (fd <= 2 ==> t' == t)
  {
  }

  // ---- locks -----------------------------------------------------------------------------------

  /** A granted lock sets the lock bit of its descriptor, and a refused one nothing. */
  lemma LockMeans(t: Table, i: nat, driver: Option<int>)
    requires i < |t.fds| && Has(t.fds[i].flags, DEV)
    ensures var (t', r) := Ioctl(t, i, Tiocexcl, driver);
      && OnlyAt(t, t', i) && t'.maxFd == t.maxFd && (r == Success(0) || r == Failure(EACCES))
      && t'.fds[i] == if r.Success? then t.fds[i].(flags := t.fds[i].flags | 0x8000_0000) else t.fds[i]
  {
    LockBits(t.fds[i].flags);
    hide SharedBelowMax, Has, WithExcl, WithoutExcl;
  }

  /** An unlock always succeeds, and clears it. */
  lemma UnlockMeans(t: Table, i: nat, driver: Option<int>)
    requires i < |t.fds| && Has(t.fds[i].flags, DEV)
    ensures var (t', r) := Ioctl(t, i, Tiocnxcl, driver);
      && OnlyAt(t, t', i) && t'.maxFd == t.maxFd && r == Success(0)
      && t'.fds[i] == t.fds[i].(flags := t.fds[i].flags & 0x7FFF_FFFF)
  {
    LockBits(t.fds[i].flags);
    hide Has, WithExcl, WithoutExcl;
  }

  lemma LockBits(f: bv32)
    ensures WithoutExcl(f) == f & 0x7FFF_FFFF && WithExcl(f) == f | 0x8000_0000
  {
  }

  lemma DeviceBit(f: bv32)
    ensures Has(f, DEV) <==> f & 0x4000_0000 != 0
  {
  }

  /** After the unlock of an exclusive holder its device can be opened again: with a free slot and a willing
      device, an open that failed before succeeds. */
  lemma UnlockAdmits(t: Table, i: nat, flags: bv32, status: int)
    requires PoolInv(t) && Exclusive(t, i) && status >= 0 && exists k: nat :: Free(t, k)
    ensures var t' := Ioctl(t, i, Tiocnxcl, None).0;
      Open(t, t.fds[i].dev, flags, status).1.Failure? && Open(t', t.fds[i].dev, flags, status).1.Success?
  {
    var t' := Ioctl(t, i, Tiocnxcl, None).0;
    ApplyKeepsInv(t, DoIoctl(i, Tiocnxcl, None));
    OpenKeepsLock(t, i, t.fds[i].dev, flags, status);
    var k: nat :| Free(t, k);
    assert t'.fds[k].dev.None?;
    hide Has, Clear, CallerFlags, WithDev, WithExcl, WithoutExcl, FcntlUpdate;
    OpenSucceedsIff(t', t.fds[i].dev.value, flags, status);
  }

  /** All other requests go to the device, and change no descriptor. */
  lemma OtherRequests(t: Table, fd: int, req: IoctlRequest, driver: Option<int>)
    requires fd < |t.fds| && (fd >= 0 && t.fds[fd].flags & 0x4000_0000 != 0 ==> req == Other)
    ensures Ioctl(t, fd, req, driver) == (t,
      if fd < 0 then Failure(EBADFD) else if driver.None? then Failure(ENOTTY)
      else if driver.value < 0 then Failure(Driver(-driver.value)) else Success(driver.value))
  {
    if fd >= 0 { DeviceBit(t.fds[fd].flags); }
  }

  // ---- fcntl -----------------------------------------------------------------------------------

  /** F_SETFL sets O_APPEND and O_NONBLOCK as asked and leaves every other bit; F_GETFL returns all but the
      two reserved bits; nothing else is known. */
  lemma FcntlMeans(t: Table, fd: nat, cmd: FcntlCommand)
    requires fd < |t.fds|
    ensures var (t', r) := Fcntl(t, fd, cmd); var f, f' := t.fds[fd].flags, t'.fds[fd].flags;
      && OnlyAt(t, t', fd) && t'.maxFd == t.maxFd && t'.fds[fd] == t.fds[fd].(flags := f')
      && match cmd
         case GetFl => f' == f && r == Success((f & 0x3FFF_FFFF) as int)
         case SetFl(arg) =>
           f' & 0x4008 == arg & 0x4008 && f' & 0xFFFF_BFF7 == f & 0xFFFF_BFF7 && r == Success(0)
         case OtherCommand => f' == f && r == Failure(EINVAL)
  {
    if cmd.SetFl? { Update(t.fds[fd].flags, cmd.arg); }
    hide FcntlUpdate;
  }

  lemma Update(f: bv32, arg: bv32)
    ensures FcntlUpdate(f, arg) & 0x4008 == arg & 0x4008
    ensures FcntlUpdate(f, arg) & 0xFFFF_BFF7 == f & 0xFFFF_BFF7
  {
  }
}
