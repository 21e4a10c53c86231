/** The file descriptor pool: allocation, exclusive device locks and the operations on them, as
    functions of the table. */
module FdTable {
  import opened Options

  /** A registered device, or a file system, which open() looks for only if no device matches. */
  datatype Device = Device(id: nat, isFs: bool)

  datatype Fd = Fd(dev: Option<Device>, priv: int, flags: bv32)

  datatype Table = Table(fds: seq<Fd>, maxFd: int)

  const EXCL: bv32 := 0x8000_0000
  const DEV: bv32 := 0x4000_0000
  const FD_FLAGS: bv32 := EXCL | DEV
  /** The flags F_SETFL may change: O_APPEND and O_NONBLOCK, with the values of newlib. */
  const FCNTL_FLAGS: bv32 := 0x0000_4008

  predicate Has(flags: bv32, bit: bv32) { flags & bit != 0 }

  // The operations on flags; the two reserved bits are independent of each other and of the rest.

  function Clear(): (g: bv32)
    ensures !Has(g, DEV) && !Has(g, EXCL)
  {
    0
  }

  function CallerFlags(f: bv32): (g: bv32)
    ensures !Has(g, DEV) && !Has(g, EXCL)
  {
    f & !FD_FLAGS
  }

  function WithDev(f: bv32): (g: bv32)
    ensures Has(g, DEV) && (Has(g, EXCL) <==> Has(f, EXCL))
  {
    f | DEV
  }

  function WithExcl(f: bv32): (g: bv32)
    ensures Has(g, EXCL) && (Has(g, DEV) <==> Has(f, DEV))
  {
    f | EXCL
  }

  function WithoutExcl(f: bv32): (g: bv32)
    ensures !Has(g, EXCL) && (Has(g, DEV) <==> Has(f, DEV))
  {
    f & !EXCL
  }

  function FcntlUpdate(f: bv32, arg: bv32): (g: bv32)
    ensures (Has(g, DEV) <==> Has(f, DEV)) && (Has(g, EXCL) <==> Has(f, EXCL))
  {
    (f & !FCNTL_FLAGS) | (arg & FCNTL_FLAGS)
  }

  datatype Errno = ENODEV | EMFILE | EACCES | EBADFD | EINVAL | ENOTTY | Driver(code: int)
  datatype Result = Success(value: int) | Failure(errno: Errno)

  // ---- allocation --------------------------------------------------------------------------

  /** The first free index not below i, or the length. */
  function LeastFree(fds: seq<Fd>, i: nat): (k: nat)
    requires i <= |fds|
    ensures i <= k <= |fds| && (forall j :: i <= j < k ==> fds[j].dev.Some?)
    ensures k < |fds| ==> fds[k].dev.None?
    decreases |fds| - i
  {
    if i == |fds| || fds[i].dev.None? then i else LeastFree(fds, i + 1)
  }

  function GetFd(t: Table, dev: Device): (Table, Result) {
    var k := LeastFree(t.fds, 0);
    if k == |t.fds| then (t, Failure(EMFILE))
    else (Table(t.fds[k := t.fds[k].(dev := Some(dev))], if k > t.maxFd then k else t.maxFd), Success(k))
  }

  /** Standard input, output and error are never freed. */
  function ReleaseFd(t: Table, fd: int): Table
    requires fd < |t.fds|
  {
    if fd > 2 then t.(fds := t.fds[fd := t.fds[fd].(dev := None, flags := Clear())]) else t
  }

  // ---- locks -------------------------------------------------------------------------------

  /** Another descriptor up to the high-water mark holds the device of descriptor i exclusively. */
  predicate LockedByOther(t: Table, i: nat)
    requires i < |t.fds|
  {
    exists k :: 0 <= k < |t.fds| && k <= t.maxFd && k != i
      && t.fds[k].dev == t.fds[i].dev && Has(t.fds[k].flags, EXCL)
  }

  /** The scan of alt_fd_lock, which stops before the high-water mark. */
  predicate SharedBelowMax(t: Table, i: nat)
    requires i < |t.fds|
  {
    exists k :: 0 <= k < |t.fds| && k < t.maxFd && k != i && t.fds[k].dev == t.fds[i].dev
  }

  function SetFlags(t: Table, i: nat, flags: bv32): Table
    requires i < |t.fds|
  {
    t.(fds := t.fds[i := t.fds[i].(flags := flags)])
  }

  function FdLock(t: Table, i: nat): (Table, Result)
    requires i < |t.fds|
  {
    if SharedBelowMax(t, i) then (t, Failure(EACCES)) else (SetFlags(t, i, WithExcl(t.fds[i].flags)), Success(0))
  }

  function FdUnlock(t: Table, i: nat): Table
    requires i < |t.fds|
  {
    SetFlags(t, i, WithoutExcl(t.fds[i].flags))
  }

  // ---- system calls ------------------------------------------------------------------------

  /** open(), for a name that `found` resolves; `status` is what the device's own open returns (zero
      or more if it has none). */
  function Open(t: Table, found: Option<Device>, flags: bv32, status: int): (Table, Result) {
    if found.None? then (t, Failure(ENODEV))
    else
      var (t1, r) := GetFd(t, found.value);
      if r.Failure? then (t1, r)
      else
        var i: nat := r.value;
        var t2 := SetFlags(t1, i, CallerFlags(flags));
        var t3 := if found.value.isFs then t2 else SetFlags(t2, i, WithDev(t2.fds[i].flags));
        if !found.value.isFs && LockedByOther(t3, i) then (ReleaseFd(t3, i), Failure(EACCES))
        else if status < 0 then (ReleaseFd(t3, i), Failure(Driver(-status)))
        else (t3, r)
  }

  function Close(t: Table, fd: int, status: int): (Table, Result)
    requires fd < |t.fds|
  {
    if fd < 0 then (t, Failure(EBADFD))
    else (ReleaseFd(t, fd), if status < 0 then Failure(Driver(-status)) else Success(0))
  }

  datatype IoctlRequest = Tiocexcl | Tiocnxcl | Other

  /** ioctl(); `driver` is what the device's own ioctl returns, if it has one. */
  function Ioctl(t: Table, fd: int, req: IoctlRequest, driver: Option<int>): (Table, Result)
    requires fd < |t.fds|
  {
    if fd < 0 then (t, Failure(EBADFD))
    else if Has(t.fds[fd].flags, DEV) && req == Tiocexcl then FdLock(t, fd)
    else if Has(t.fds[fd].flags, DEV) && req == Tiocnxcl then (FdUnlock(t, fd), Success(0))
    else (t, match driver case None => Failure(ENOTTY)
                          case Some(rc) => if rc < 0 then Failure(Driver(-rc)) else Success(rc))
  }

  datatype FcntlCommand = GetFl | SetFl(arg: bv32) | OtherCommand

  function Fcntl(t: Table, fd: int, cmd: FcntlCommand): (Table, Result)
    requires fd < |t.fds|
  {
    if fd < 0 then (t, Failure(EBADFD))
    else match cmd
      case GetFl => (t, Success(CallerFlags(t.fds[fd].flags) as int))
      case SetFl(arg) => (SetFlags(t, fd, FcntlUpdate(t.fds[fd].flags, arg)), Success(0))
      case OtherCommand => (t, Failure(EINVAL))
  }

  /** alt_open_fd: opens, copies the new descriptor over `target`, and releases the new one. */
  function Redirect(t: Table, target: nat, found: Option<Device>, flags: bv32, status: int): Table
    requires target < 3 <= |t.fds|
  {
    var (t1, r) := Open(t, found, flags, status);
    if r.Failure? then t1
    else
      var i: nat := r.value;
      ReleaseFd(t1.(fds := t1.fds[target := t1.fds[i]]), i)
  }

  // ---- runs --------------------------------------------------------------------------------

  datatype Op =
    | DoOpen(found: Option<Device>, flags: bv32, status: int)
    | DoClose(fd: int, status: int)
    | DoIoctl(fd: int, req: IoctlRequest, driver: Option<int>)
    | DoFcntl(fd: int, cmd: FcntlCommand)
    | DoRedirect(target: nat, found: Option<Device>, flags: bv32, status: int)

  /** What the calls demand of their callers: an index inside the table. */
  predicate Legal(len: nat, op: Op) {
    match op
    case DoOpen(_, _, _) => true
    case DoClose(fd, _) => fd < len
    case DoIoctl(fd, _, _) => fd < len
    case DoFcntl(fd, _) => fd < len
    case DoRedirect(target, _, _, _) => target < 3
  }

  function Apply(t: Table, op: Op): (t': Table)
    requires |t.fds| >= 3 && Legal(|t.fds|, op)
    ensures |t'.fds| == |t.fds|
  {
    match op
    case DoOpen(found, flags, status) => Open(t, found, flags, status).0
    case DoClose(fd, status) => Close(t, fd, status).0
    case DoIoctl(fd, req, driver) => Ioctl(t, fd, req, driver).0
    case DoFcntl(fd, cmd) => Fcntl(t, fd, cmd).0
    case DoRedirect(target, found, flags, status) => Redirect(t, target, found, flags, status)
  }

  function Run(t: Table, ops: seq<Op>): (t': Table)
    requires |t.fds| >= 3 && forall op :: op in ops ==> Legal(|t.fds|, op)
    ensures |t'.fds| == |t.fds|
    decreases |ops|
  {
    if ops == [] then t else Run(Apply(t, ops[0]), ops[1..])
  }

  const DEV_NULL := Device(0, false)

  /** Three standard descriptors on /dev/null, all others free. */
  function InitTable(len: nat): Table
    requires len >= 3
  {
    Table(seq(len, i => Fd(if i < 3 then Some(DEV_NULL) else None, 0, Clear())), -1)
  }
}
