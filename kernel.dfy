/** The operating system as the region lifecycle sees it: a filesystem that maps
    paths to directories and regular files, a table of open descriptors, and the
    mapping library. Each external call is an abstract operation; whether the
    environment makes it fail is a parameter (`faults`), and every call, failed
    or not, is appended to a history so that the order of calls can be stated. */
module Kernel {
  import opened Wrappers

  /** What a path names. */
  datatype Node = Dir | Regular(size: nat)

  /** The external calls: those of the `os` package and of the mmap-go library. */
  datatype Syscall = Create | OpenFile | Stat | Truncate | Close | MapRegion | Map | Unmap | Flush

  /** An open `*os.File`, known by its descriptor. */
  datatype Handle = Handle(fd: int)

  /** Descriptors below this one are the standard streams and never name a
      file opened here. */
  const FirstFd := 3

  datatype OsState = OsState(files: map<string, Node>, open: map<int, string>, nextFd: int, calls: seq<Syscall>)
  {
    predicate IsDir(path: string) {
      path in files && files[path].Dir?
    }

    /** `fd` is open on a regular file. */
    predicate IsOpen(fd: int) {
      fd in open && open[fd] in files && files[open[fd]].Regular?
    }

    function SizeOf(fd: int): nat
      requires IsOpen(fd)
    {
      files[open[fd]].size
    }

    function Log(c: Syscall): OsState {
      this.(calls := calls + [c])
    }

    /** `os.Create`: makes an empty regular file (truncating one that exists)
        and opens it on a fresh descriptor. A directory cannot be created over. */
    function DoCreate(path: string, faults: set<Syscall>): (o: (OsState, Result<Handle, Syscall>))
      ensures WellFormed(this) ==> WellFormed(o.0) && Extends(this, o.0)
      ensures WellFormed(this) && o.1.Success? ==> o.1.value.fd !in open && o.0.IsOpen(o.1.value.fd)
    {
      if Create in faults || IsDir(path) then (Log(Create), Failure(Create))
      else
        (OsState(files[path := Regular(0)], open[nextFd := path], nextFd + 1, calls + [Create]), Success(Handle(nextFd)))
    }

    /** `os.OpenFile(path, O_RDWR)`: opens an existing regular file on a fresh
        descriptor. */
    function DoOpenFile(path: string, faults: set<Syscall>): (o: (OsState, Result<Handle, Syscall>))
      ensures WellFormed(this) ==> WellFormed(o.0) && Extends(this, o.0)
      ensures WellFormed(this) && o.1.Success? ==> o.1.value.fd !in open && o.0.IsOpen(o.1.value.fd)
    {
      if OpenFile in faults || path !in files || files[path].Dir? then (Log(OpenFile), Failure(OpenFile))
      else (OsState(files, open[nextFd := path], nextFd + 1, calls + [OpenFile]), Success(Handle(nextFd)))
    }

    /** `(*os.File).Stat().Size()`: the current size of the open file. */
    function DoStat(h: Handle, faults: set<Syscall>): (o: (OsState, Result<nat, Syscall>))
      ensures WellFormed(this) ==> WellFormed(o.0) && Extends(this, o.0)
    {
      if Stat in faults || !IsOpen(h.fd) then (Log(Stat), Failure(Stat))
      else (Log(Stat), Success(SizeOf(h.fd)))
    }

    /** `(*os.File).Truncate`: a nil file is an invalid argument, and so is a
        negative size; otherwise the file is grown or shrunk to `size`. */
    function DoTruncate(h: Option<Handle>, size: int, faults: set<Syscall>): (o: (OsState, Result<(), Syscall>))
      ensures WellFormed(this) ==> WellFormed(o.0) && Extends(this, o.0)
    {
      if Truncate in faults || h.None? || !IsOpen(h.value.fd) || size < 0 then (Log(Truncate), Failure(Truncate))
      else (OsState(files[open[h.value.fd] := Regular(size)], open, nextFd, calls + [Truncate]), Success(()))
    }

    /** `(*os.File).Close`: the descriptor is released whatever the outcome;
        closing one that is not open reports an error, and so may the
        environment. */
    function DoClose(h: Handle, faults: set<Syscall>): (o: (OsState, bool))
      ensures WellFormed(this) ==> WellFormed(o.0) && Extends(this, o.0)
      ensures h.fd !in o.0.open && !o.0.IsOpen(h.fd)
    {
      (OsState(files, open - {h.fd}, nextFd, calls + [Close]), Close !in faults && h.fd in open)
    }

    /** `mmap.MapRegion(nil, size, ...)`: an anonymous mapping of `size` bytes.
        The kernel refuses a mapping of length zero or less. */
    function DoMapRegion(size: int, faults: set<Syscall>): (o: (OsState, Result<nat, Syscall>))
      ensures WellFormed(this) ==> WellFormed(o.0) && Extends(this, o.0)
      ensures o.1.Success? ==> o.1.value > 0
    {
      if MapRegion in faults || size <= 0 then (Log(MapRegion), Failure(MapRegion))
      else (Log(MapRegion), Success(size))
    }

    /** `mmap.Map(file, ...)`: maps the whole file; the buffer's length is the
        file's size. A nil file cannot be mapped, nor can an empty one, since
        the kernel refuses a mapping of length zero. */
    function DoMap(h: Option<Handle>, faults: set<Syscall>): (o: (OsState, Result<nat, Syscall>))
      ensures WellFormed(this) ==> WellFormed(o.0) && Extends(this, o.0)
      ensures o.1.Success? ==> o.1.value > 0
    {
      if Map in faults || h.None? || !IsOpen(h.value.fd) || SizeOf(h.value.fd) == 0 then (Log(Map), Failure(Map))
      else (Log(Map), Success(SizeOf(h.value.fd)))
    }

    /** `(*mmap.MMap).Unmap`: fails on a slice that is already nil (`mapped`
        false); the library sets the slice to nil whatever the outcome. */
    function DoUnmap(mapped: bool, faults: set<Syscall>): (o: (OsState, bool))
      ensures WellFormed(this) ==> WellFormed(o.0) && Extends(this, o.0)
      ensures o.1 ==> mapped
    {
      (Log(Unmap), Unmap !in faults && mapped)
    }

    /** `(*mmap.MMap).Flush`: writes dirty pages back; nothing here observes it. */
    function DoFlush(faults: set<Syscall>): (o: (OsState, bool))
      ensures WellFormed(this) ==> WellFormed(o.0) && Extends(this, o.0)
    {
      (Log(Flush), Flush !in faults)
    }
  }

  /** Every open descriptor was handed out here, above the standard streams,
      and names a regular file. */
  predicate WellFormed(s: OsState) {
    && s.nextFd >= FirstFd
    && forall fd | fd in s.open :: FirstFd <= fd < s.nextFd && s.IsOpen(fd)
  }

  /** The part of the OS state every lifecycle call leaves as it was or only
      extends: no path disappears or changes between directory and regular
      file, new paths are regular files, descriptors are never handed out
      twice, and the call history only grows. */
  predicate Extends(s: OsState, t: OsState) {
    && s.nextFd <= t.nextFd
    && (forall fd | fd in t.open && fd !in s.open :: s.nextFd <= fd)
    && (forall p | p in s.files :: p in t.files && t.files[p].Dir? == s.files[p].Dir?)
    && (forall p | p in t.files && p !in s.files :: t.files[p].Regular?)
    && s.calls <= t.calls
  }

  /** The OS as mutable state: the same fields as `OsState`, changed in place by
      methods that behave as the functions above. */
  class Os {
    var files: map<string, Node>
    var open: map<int, string>
    var nextFd: int
    var calls: seq<Syscall>

    function State(): OsState
      reads this
    {
      OsState(files, open, nextFd, calls)
    }

    ghost predicate Valid()
      reads this
    {
      WellFormed(State())
    }

    constructor (files: map<string, Node>)
      ensures Valid()
      ensures State() == OsState(files, map[], FirstFd, [])
    {
      this.files, this.open, this.nextFd, this.calls := files, map[], FirstFd, [];
    }

    method Set(s: OsState)
      modifies this
      ensures State() == s
    {
      files, open, nextFd, calls := s.files, s.open, s.nextFd, s.calls;
    }

    method Create(path: string, faults: set<Syscall>) returns (r: Result<Handle, Syscall>)
      modifies this
      ensures (State(), r) == old(State()).DoCreate(path, faults)
    {
      var o := State().DoCreate(path, faults);
      Set(o.0);
      r := o.1;
    }

    method OpenFile(path: string, faults: set<Syscall>) returns (r: Result<Handle, Syscall>)
      modifies this
      ensures (State(), r) == old(State()).DoOpenFile(path, faults)
    {
      var o := State().DoOpenFile(path, faults);
      Set(o.0);
      r := o.1;
    }

    method Stat(h: Handle, faults: set<Syscall>) returns (r: Result<nat, Syscall>)
      modifies this
      ensures (State(), r) == old(State()).DoStat(h, faults)
    {
      var o := State().DoStat(h, faults);
      Set(o.0);
      r := o.1;
    }

    method Truncate(h: Option<Handle>, size: int, faults: set<Syscall>) returns (r: Result<(), Syscall>)
      modifies this
      ensures (State(), r) == old(State()).DoTruncate(h, size, faults)
    {
      var o := State().DoTruncate(h, size, faults);
      Set(o.0);
      r := o.1;
    }

    method Close(h: Handle, faults: set<Syscall>) returns (ok: bool)
      modifies this
      ensures (State(), ok) == old(State()).DoClose(h, faults)
    {
      var o := State().DoClose(h, faults);
      Set(o.0);
      ok := o.1;
    }

    method MapRegion(size: int, faults: set<Syscall>) returns (r: Result<array<byte>, Syscall>)
      modifies this
      ensures State() == old(State()).DoMapRegion(size, faults).0
      ensures Lengths(r) == old(State()).DoMapRegion(size, faults).1
      ensures r.Success? ==> fresh(r.value)
    {
      var o := State().DoMapRegion(size, faults);
      Set(o.0);
      if o.1.Success? {
        var buf := new byte[o.1.value];
        r := Success(buf);
      } else {
        r := Failure(o.1.error);
      }
    }

    method Map(h: Option<Handle>, faults: set<Syscall>) returns (r: Result<array<byte>, Syscall>)
      modifies this
      ensures State() == old(State()).DoMap(h, faults).0
      ensures Lengths(r) == old(State()).DoMap(h, faults).1
      ensures r.Success? ==> fresh(r.value)
    {
      var o := State().DoMap(h, faults);
      Set(o.0);
      if o.1.Success? {
        var buf := new byte[o.1.value];
        r := Success(buf);
      } else {
        r := Failure(o.1.error);
      }
    }

    method Unmap(mapped: bool, faults: set<Syscall>) returns (ok: bool)
      modifies this
      ensures (State(), ok) == old(State()).DoUnmap(mapped, faults)
    {
      var o := State().DoUnmap(mapped, faults);
      Set(o.0);
      ok := o.1;
    }

    method Flush(faults: set<Syscall>) returns (ok: bool)
      modifies this
      ensures (State(), ok) == old(State()).DoFlush(faults)
    {
      var o := State().DoFlush(faults);
      Set(o.0);
      ok := o.1;
    }
  }

  newtype byte = b: int | 0 <= b < 0x100

  /** A mapping result with the buffer replaced by its length. */
  function Lengths(r: Result<array<byte>, Syscall>): Result<nat, Syscall> {
    match r
    case Success(buf) => Success(buf.Length)
    case Failure(e) => Failure(e)
  }
}
