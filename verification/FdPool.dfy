/** The descriptor pool as the HAL keeps it: an array updated in place and scanned in loops. */
module FdPool {
  import opened Options
  import opened FdTable
  import opened FdProofs

  /** The table is indexed by 32-bit signed integers. */
  const MAX_LEN: nat := 0x8000_0000

  class Pool {
    const fds: array<Fd>
    var maxFd: int

    ghost function T(): Table
      reads this, fds
    {
      Table(fds[..], maxFd)
    }

    ghost predicate Valid()
      reads this, fds
    {
      PoolInv(T()) && fds.Length < MAX_LEN
    }

    constructor (len: nat)
      requires 3 <= len < MAX_LEN
      ensures Valid() && T() == InitTable(len) && fresh(fds)
    {
      fds := new Fd[len](i => Fd(if i < 3 then Some(DEV_NULL) else None, 0, Clear()));
      maxFd := -1;
      new;
      InitInv(len);
      assert fds[..] == InitTable(len).fds;
    }

    /** alt_get_fd. */
    method GetFd(dev: Device) returns (r: Result)
      modifies this, fds
      ensures (T(), r) == FdTable.GetFd(old(T()), dev)
    {
      var i := 0;
      while i < fds.Length
        invariant 0 <= i <= fds.Length && T() == old(T())
        invariant LeastFree(fds[..], 0) == LeastFree(fds[..], i)
      {
        if fds[i].dev.None? {
          fds[i] := fds[i].(dev := Some(dev));
          if i > maxFd { maxFd := i; }
          return Success(i);
        }
        i := i + 1;
      }
      r := Failure(EMFILE);
    }

    /** alt_release_fd. */
    method ReleaseFd(fd: int)
      requires fd < fds.Length
      modifies fds
      ensures T() == FdTable.ReleaseFd(old(T()), fd)
    {
      if fd > 2 {
        fds[fd] := fds[fd].(flags := Clear());
        fds[fd] := fds[fd].(dev := None);
      }
    }

    /** alt_file_locked. The mark is compared as an unsigned number, so a mark of -1 would send the scan
        past the table; open() calls it only after an allocation. */
    method FileLocked(i: nat) returns (locked: bool)
      requires i < fds.Length && 0 <= maxFd < fds.Length < MAX_LEN
      modifies fds
      ensures T() == SetFlags(old(T()), i, WithDev(old(fds[i].flags)))
      ensures locked == LockedByOther(T(), i)
    {
      fds[i] := fds[i].(flags := WithDev(fds[i].flags));
      var last := maxFd % 0x1_0000_0000;
      var k := 0;
      while k <= last
        invariant 0 <= k <= last + 1
        invariant forall j :: 0 <= j < k && j != i ==> !(fds[j].dev == fds[i].dev && Has(fds[j].flags, EXCL))
      {
        if fds[k].dev == fds[i].dev && Has(fds[k].flags, EXCL) && k != i {
          assert T().fds[k] == fds[k];
          return true;
        }
        k := k + 1;
      }
      locked := false;
    }

    /** open(). */
    method Open(found: Option<Device>, flags: bv32, status: int) returns (r: Result)
      requires Valid()
      modifies this, fds
      ensures Valid() && (T(), r) == FdTable.Open(old(T()), found, flags, status)
    {
      OpenKeepsInv(T(), found, flags, status);
      if found.None? { return Failure(ENODEV); }
      var dev := found.value;
      r := GetFd(dev);
      if r.Failure? { return; }
      var i: nat := r.value;
      var rc := Configure(i, dev, flags, status);
      if rc.Failure? {
        ReleaseFd(i);
        r := rc;
      }
    }

    /** The part of open() that may fail after a descriptor was allocated. */
    method Configure(i: nat, dev: Device, flags: bv32, status: int) returns (r: Result)
      requires i < fds.Length && 0 <= maxFd < fds.Length < MAX_LEN
      modifies fds
      ensures var t2 := SetFlags(old(T()), i, CallerFlags(flags));
        var t3 := if dev.isFs then t2 else SetFlags(t2, i, WithDev(t2.fds[i].flags));
        && T() == t3
        && r == if !dev.isFs && LockedByOther(t3, i) then Failure(EACCES)
                else if status < 0 then Failure(Driver(-status)) else Success(status)
    {
      fds[i] := fds[i].(flags := CallerFlags(flags));
      var locked := false;
      if !dev.isFs { locked := FileLocked(i); }
      r := if locked then Failure(EACCES) else if status < 0 then Failure(Driver(-status)) else Success(status);
    }

    /** close(). */
    method Close(fd: int, status: int) returns (r: Result)
      requires Valid() && fd < fds.Length
      modifies fds
      ensures Valid() && (T(), r) == FdTable.Close(old(T()), fd, status)
    {
      ApplyKeepsInv(T(), DoClose(fd, status));
      if fd < 0 { return Failure(EBADFD); }
      ReleaseFd(fd);
      r := if status < 0 then Failure(Driver(-status)) else Success(0);
    }

    /** alt_fd_lock. */
    method FdLock(i: nat) returns (r: Result)
      requires i < fds.Length && maxFd < fds.Length
      modifies fds
      ensures (T(), r) == FdTable.FdLock(old(T()), i)
    {
      var k := 0;
      while k < maxFd
        invariant 0 <= k && (maxFd >= 0 ==> k <= maxFd)
        invariant forall j :: 0 <= j < k && j != i && j < maxFd ==> fds[j].dev != fds[i].dev
      {
        if k != i && fds[k].dev == fds[i].dev { return Failure(EACCES); }
        k := k + 1;
      }
      fds[i] := fds[i].(flags := WithExcl(fds[i].flags));
      r := Success(0);
    }

    /** alt_fd_unlock. */
    method FdUnlock(i: nat)
      requires i < fds.Length
      modifies fds
      ensures T() == FdTable.FdUnlock(old(T()), i)
    {
      fds[i] := fds[i].(flags := WithoutExcl(fds[i].flags));
    }

    /** ioctl(). */
    method Ioctl(fd: int, req: IoctlRequest, driver: Option<int>) returns (r: Result)
      requires Valid() && fd < fds.Length
      modifies fds
      ensures Valid() && (T(), r) == FdTable.Ioctl(old(T()), fd, req, driver)
    {
      ApplyKeepsInv(T(), DoIoctl(fd, req, driver));
      if fd < 0 { return Failure(EBADFD); }
      if Has(fds[fd].flags, DEV) {
        if req == Tiocexcl {
          r := FdLock(fd);
          return;
        } else if req == Tiocnxcl {
          FdUnlock(fd);
          return Success(0);
        }
      }
      r := match driver case None => Failure(ENOTTY)
                        case Some(rc) => if rc < 0 then Failure(Driver(-rc)) else Success(rc);
    }

    /** fcntl(). */
    method Fcntl(fd: int, cmd: FcntlCommand) returns (r: Result)
      requires Valid() && fd < fds.Length
      modifies fds
      ensures Valid() && (T(), r) == FdTable.Fcntl(old(T()), fd, cmd)
    {
      ApplyKeepsInv(T(), DoFcntl(fd, cmd));
      if fd < 0 { return Failure(EBADFD); }
      match cmd {
        case GetFl => r := Success(CallerFlags(fds[fd].flags) as int);
        case SetFl(arg) =>
          fds[fd] := fds[fd].(flags := FcntlUpdate(fds[fd].flags, arg));
          r := Success(0);
        case OtherCommand => r := Failure(EINVAL);
      }
    }

    /** alt_open_fd. */
    method Redirect(target: nat, found: Option<Device>, flags: bv32, status: int)
      requires Valid() && target < 3
      modifies this, fds
      ensures Valid() && T() == FdTable.Redirect(old(T()), target, found, flags, status)
    {
      RedirectKeepsInv(T(), target, found, flags, status);
      var r := Open(found, flags, status);
      if r.Success? {
        var i: nat := r.value;
        fds[target] := fds[i];
        ReleaseFd(i);
      }
    }

    /** One system call. */
    method Perform(op: Op)
      requires Valid() && Legal(fds.Length, op)
      modifies this, fds
      ensures Valid() && T() == Apply(old(T()), op)
    {
      match op {
        case DoOpen(found, flags, status) => var _ := Open(found, flags, status);
        case DoClose(fd, status) => var _ := Close(fd, status);
        case DoIoctl(fd, req, driver) => var _ := Ioctl(fd, req, driver);
        case DoFcntl(fd, cmd) => var _ := Fcntl(fd, cmd);
        case DoRedirect(target, found, flags, status) => Redirect(target, found, flags, status);
      }
    }

    /** Any calls in any order, so that what holds of runs holds of this table. */
    method PerformAll(ops: seq<Op>)
      requires Valid() && forall op :: op in ops ==> Legal(fds.Length, op)
      modifies this, fds
      ensures Valid() && T() == Run(old(T()), ops)
    {
      var i := 0;
      while i < |ops|
        invariant i <= |ops| && Valid()
        invariant Run(T(), ops[i..]) == Run(old(T()), ops)
      {
        assert ops[i] in ops && ops[i..][0] == ops[i] && ops[i..][1..] == ops[i + 1..];
        Perform(ops[i]);
        i := i + 1;
      }
    }
  }
}
