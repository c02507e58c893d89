/** The region lifecycle of malloc.go as functions over values: an MmapMalloc
    is a `Region`, the operating system an `OsState`, and each operation returns
    the new OS state with its result. The methods of module Offheap are proved
    to behave exactly as these functions; the properties the source promises are
    stated here, in the functions' contracts. The two syncs change nothing but
    the call history and have no function here: their methods state that
    directly. */
module Spec {
  import opened Wrappers
  import opened Kernel

  /** Why an operation fails. `NotFileBacked` and `NotLarger` from Growmap are
      returned errors in the source; every other failure is a `panic` there. */
  datatype Error =
    | NegativeSizeWithoutPath
    | PathIsDirectory(path: string)
    | NotFileBacked
    | NotLarger
    | Failed(call: Syscall)

  /** The descriptor of an anonymous region. */
  const Sentinel := -1

  /** The fields of an MmapMalloc as values. The two buffers `MMap` and `Mem`
      are known by the length of `Mem` and by whether `MMap` still refers to
      the mapping (`mapped`); the mapping library sets `MMap` to nil when it
      unmaps it, so a freed region has `mapped` false. */
  datatype Region = Region(
    path: string,
    file: Option<Handle>,
    fd: int,
    fileBytesLen: int,
    bytesAlloc: int,
    memLen: nat,
    mapped: bool)

  /** The backing decision of Malloc: an empty path means an anonymous region,
      which needs a non-negative size; a directory cannot back a region; an
      existing file is opened and a missing one created. `Success(None)` is the
      anonymous backing. */
  function Back(s: OsState, numBytes: int, path: string, faults: set<Syscall>): (o: (OsState, Result<Option<Handle>, Error>))
    requires WellFormed(s)
    ensures WellFormed(o.0) && Extends(s, o.0)
    ensures path == "" ==> o == (s, if numBytes < 0 then Failure(NegativeSizeWithoutPath) else Success(None))
    ensures path != "" && s.IsDir(path) ==> o == (s, Failure(PathIsDirectory(path)))
    ensures path != "" && !s.IsDir(path) ==>
              (o.1.Success? <==> (if path in s.files then OpenFile else Create) !in faults)
    ensures path != "" && o.1.Success? ==>
              && o.1.value.Some?
              && FirstFd <= o.1.value.value.fd
              && o.1.value.value.fd !in s.open
              && o.0.IsOpen(o.1.value.value.fd)
              && o.0.open[o.1.value.value.fd] == path
    ensures path == "" || path in s.files || o.1.Failure? ==> o.0.files == s.files
    ensures path != "" && path !in s.files && o.1.Success? ==> o.0.files == s.files[path := Regular(0)]
  {
    if path == "" then
      (s, if numBytes < 0 then Failure(NegativeSizeWithoutPath) else Success(None))
    else if s.IsDir(path) then
      (s, Failure(PathIsDirectory(path)))
    else
      var (t, opening) := if path in s.files then s.DoOpenFile(path, faults) else s.DoCreate(path, faults);
      match opening
      case Success(h) => (t, Success(Some(h)))
      case Failure(call) => (t, Failure(Failed(call)))
  }

  /** The size Malloc maps: for an anonymous region the requested size; for a
      file, the file's current size when the requested size is negative, and
      otherwise the requested size, to which the file is truncated. Whatever the
      path, a resolved size is never negative, and the backing file's size is
      the resolved size. */
  function ResolveSize(s: OsState, numBytes: int, path: string, file: Option<Handle>, faults: set<Syscall>): (o: (OsState, Result<int, Error>))
    requires WellFormed(s)
    requires path == "" ==> numBytes >= 0
    requires path != "" ==> file.Some? && s.IsOpen(file.value.fd)
    ensures WellFormed(o.0) && Extends(s, o.0) && o.0.open == s.open
    ensures o.1.Success? ==> o.1.value >= 0
    ensures o.1.Success? && path != "" ==> o.0.IsOpen(file.value.fd) && o.0.SizeOf(file.value.fd) == o.1.value
    ensures path == "" ==> o == (s, Success(numBytes))
    ensures path != "" && numBytes < 0 ==>
              && o.0.files == s.files
              && (o.1.Success? <==> Stat !in faults)
              && (o.1.Success? ==> o.1.value == s.SizeOf(file.value.fd))
    ensures path != "" && numBytes >= 0 ==>
              && (o.1.Success? <==> Truncate !in faults)
              && (o.1.Success? ==> o.1.value == numBytes && o.0.files == s.files[s.open[file.value.fd] := Regular(numBytes)])
              && (o.1.Failure? ==> o.0.files == s.files)
  {
    if path == "" then
      (s, Success(numBytes))
    else if numBytes < 0 then
      var (t, stat) := s.DoStat(file.value, faults);
      match stat
      case Success(size) => (t, Success(size))
      case Failure(call) => (t, Failure(Failed(call)))
    else
      var (t, truncated) := s.DoTruncate(file, numBytes, faults);
      match truncated
      case Success(_) => (t, Success(numBytes))
      case Failure(call) => (t, Failure(Failed(call)))
  }

  /** The mapping step of Malloc: an anonymous mapping of `sz` bytes when the
      descriptor is the sentinel, otherwise a mapping of the whole file. The
      buffer is as long as what was asked for, and nothing of length zero is
      mapped. */
  function MapMemory(s: OsState, fd: int, file: Option<Handle>, sz: int, faults: set<Syscall>): (o: (OsState, Result<nat, Error>))
    requires WellFormed(s)
    ensures WellFormed(o.0) && Extends(s, o.0) && o.0.files == s.files && o.0.open == s.open
    ensures fd == Sentinel ==>
              && (o.1.Success? <==> MapRegion !in faults && sz > 0)
              && (o.1.Success? ==> o.1.value == sz)
    ensures fd != Sentinel ==>
              && (o.1.Success? <==> Map !in faults && file.Some? && s.IsOpen(file.value.fd) && s.SizeOf(file.value.fd) > 0)
              && (o.1.Success? ==> o.1.value == s.SizeOf(file.value.fd))
  {
    var (t, mapped) := if fd == Sentinel then s.DoMapRegion(sz, faults) else s.DoMap(file, faults);
    match mapped
    case Success(len) => (t, Success(len))
    case Failure(call) => (t, Failure(Failed(call)))
  }

  /** Malloc: decide the backing, resolve the size, then map. The argument
      errors come before any external call; an anonymous region has the
      sentinel descriptor, no file and the requested length; a file-backed
      region's file, `FileBytesLen`, `BytesAlloc` and buffer all have the
      resolved size. A file created or truncated before a later failure stays
      as it is. */
  function Malloc(s: OsState, numBytes: int, path: string, faults: set<Syscall>): (o: (OsState, Result<Region, Error>))
    requires WellFormed(s)
    ensures WellFormed(o.0) && Extends(s, o.0)
    // the kernel maps nothing of length zero
    ensures o.1.Success? ==> o.1.value.bytesAlloc > 0
    // argument errors, before anything is created, opened or mapped
    ensures path == "" && numBytes < 0 ==> o == (s, Failure(NegativeSizeWithoutPath))
    ensures path != "" && s.IsDir(path) ==> o == (s, Failure(PathIsDirectory(path)))
    // anonymous regions
    ensures path == "" ==> o.0.files == s.files && o.0.open == s.open
    ensures path == "" && numBytes >= 0 ==> (o.1.Success? <==> MapRegion !in faults && numBytes > 0)
    ensures path == "" && o.1.Success? ==> o.1.value == Region("", None, Sentinel, 0, numBytes, numBytes, true)
    // file-backed regions
    ensures path != "" && o.1.Success? ==>
              && o.1.value.path == path
              && o.1.value.file == Some(Handle(o.1.value.fd))
              && o.1.value.fd != Sentinel && FirstFd <= o.1.value.fd
              && o.1.value.fd !in s.open
              && o.0.IsOpen(o.1.value.fd) && o.0.open[o.1.value.fd] == path
              && o.1.value.fileBytesLen == o.1.value.bytesAlloc == o.1.value.memLen == o.0.SizeOf(o.1.value.fd)
              && o.1.value.mapped
  {
    var (s1, back) := Back(s, numBytes, path, faults);
    match back
    case Failure(e) => (s1, Failure(e))
    case Success(file) =>
      var fd := if file.Some? then file.value.fd else Sentinel;
      var (s2, resolved) := ResolveSize(s1, numBytes, path, file, faults);
      match resolved
      case Failure(e) => (s2, Failure(e))
      case Success(sz) =>
        var fileBytesLen := if path != "" then sz else 0;
        var (s3, mapped) := MapMemory(s2, fd, file, sz, faults);
        match mapped
        case Failure(e) => (s3, Failure(e))
        case Success(len) => (s3, Success(Region(path, file, fd, fileBytesLen, sz, len, true)))
  }

  /** A file-backed Malloc succeeds exactly when opening or creating the file,
      the stat or the truncation, and the mapping all succeed, and the size to
      map is positive. */
  lemma MallocFileSucceedsExactly(s: OsState, numBytes: int, path: string, faults: set<Syscall>)
    requires WellFormed(s)
    requires path != "" && !s.IsDir(path)
    ensures Malloc(s, numBytes, path, faults).1.Success? <==>
              && (if path in s.files then OpenFile else Create) !in faults
              && (if numBytes < 0 then Stat else Truncate) !in faults
              && Map !in faults
              && (if numBytes < 0 then path in s.files && s.files[path].size > 0 else numBytes > 0)
  {
  }

  /** With a non-negative size, once the file is opened or created and
      truncated, it has exactly that size, even when the mapping then fails;
      a region returned has that size. */
  lemma MallocTruncatesFile(s: OsState, numBytes: int, path: string, faults: set<Syscall>)
    requires WellFormed(s)
    requires path != "" && !s.IsDir(path) && numBytes >= 0
    requires (if path in s.files then OpenFile else Create) !in faults && Truncate !in faults
    ensures Malloc(s, numBytes, path, faults).0.files == s.files[path := Regular(numBytes)]
    ensures Malloc(s, numBytes, path, faults).1.Success? ==> Malloc(s, numBytes, path, faults).1.value.bytesAlloc == numBytes
  {
  }

  /** With a negative size the file's length is never changed: an existing
      file keeps its size, a missing one is created empty; a region returned
      has the file's size. */
  lemma MallocInheritsSize(s: OsState, numBytes: int, path: string, faults: set<Syscall>)
    requires WellFormed(s)
    requires path != "" && !s.IsDir(path) && numBytes < 0
    ensures var o := Malloc(s, numBytes, path, faults);
            && (path in s.files ==> o.0.files == s.files)
            && (path !in s.files ==> o.0.files == s.files || o.0.files == s.files[path := Regular(0)])
            && (o.1.Success? ==> path in s.files && o.1.value.bytesAlloc == s.files[path].size)
  {
  }

  /** A file-backed region owns its descriptor: two successive file-backed
      Mallocs, even of the same path, never return the same descriptor. */
  lemma MallocsOwnDistinctDescriptors(s: OsState, n1: int, p1: string, f1: set<Syscall>, n2: int, p2: string, f2: set<Syscall>)
    requires WellFormed(s)
    requires p1 != "" && p2 != ""
    ensures var (s1, r1) := Malloc(s, n1, p1, f1);
            var (s2, r2) := Malloc(s1, n2, p2, f2);
            r1.Success? && r2.Success? ==> r1.value.fd != r2.value.fd
  {
  }

  /** TruncateTo: only a file-backed region can do it, and it changes nothing
      but the size of the backing file. */
  function TruncateTo(s: OsState, r: Region, newSize: int, faults: set<Syscall>): (o: (OsState, Result<(), Error>))
    requires WellFormed(s)
    ensures WellFormed(o.0) && Extends(s, o.0) && o.0.open == s.open
    ensures r.file.None? ==> o == (s, Failure(NotFileBacked))
    ensures r.file.Some? ==> (o.1.Success? <==> Truncate !in faults && s.IsOpen(r.file.value.fd) && newSize >= 0)
    ensures o.1.Success? ==> o.0.files == s.files[s.open[r.file.value.fd] := Regular(newSize)]
    ensures o.1.Failure? ==> o.0.files == s.files
  {
    match r.file
    case None => (s, Failure(NotFileBacked))
    case Some(_) =>
      var (t, truncated) := s.DoTruncate(r.file, newSize, faults);
      match truncated
      case Success(_) => (t, Success(()))
      case Failure(call) => (t, Failure(Failed(call)))
  }

  /** Free: the file, if any, is closed first and then the buffer unmapped. A
      failed close is ignored; only a failed unmap is reported, and a region
      that is already unmapped cannot be unmapped again. */
  function Free(s: OsState, r: Region, faults: set<Syscall>): (o: (OsState, Region, Result<(), Error>))
    requires WellFormed(s)
    ensures WellFormed(o.0) && Extends(s, o.0) && o.0.files == s.files
    ensures o.0.calls == s.calls + (if r.file.Some? then [Close, Unmap] else [Unmap])
    ensures o.0.open == if r.file.Some? then s.open - {r.file.value.fd} else s.open
    ensures o.1 == r.(mapped := false)
    ensures o.2.Success? <==> r.mapped && Unmap !in faults
    ensures o.2.Failure? ==> o.2.error == Failed(Unmap)
  {
    var s1 := if r.file.Some? then s.DoClose(r.file.value, faults).0 else s;
    var (s2, unmapped) := s1.DoUnmap(r.mapped, faults);
    (s2, r.(mapped := false), if unmapped then Success(()) else Failure(Failed(Unmap)))
  }

  /** The argument checks of Growmap: the old region must have a path and a
      positive descriptor, and the new size must exceed both `BytesAlloc` and
      `FileBytesLen`. */
  function CheckGrow(prev: Region, newSize: int): (e: Option<Error>)
    ensures e.None? <==> prev.path != "" && prev.fd > 0 && newSize > prev.bytesAlloc && newSize > prev.fileBytesLen
    ensures e == Some(NotFileBacked) <==> prev.path == "" || prev.fd <= 0
  {
    if prev.path == "" || prev.fd <= 0 then Some(NotFileBacked)
    else if newSize <= prev.bytesAlloc || newSize <= prev.fileBytesLen then Some(NotLarger)
    else None
  }

  /** The second half of Growmap: truncate the backing file to the new size
      through `file`, map it again, and assemble a region with the given path
      and descriptor whose `FileBytesLen` and `BytesAlloc` are the new size.
      It succeeds exactly when `file` is an open file and the new size is
      positive; without a file it fails at the truncation. */
  function Remap(s: OsState, path: string, file: Option<Handle>, fd: int, newSize: int, faults: set<Syscall>): (o: (OsState, Result<Region, Error>))
    requires WellFormed(s)
    ensures WellFormed(o.0) && Extends(s, o.0) && o.0.open == s.open
    ensures o.1.Success? <==> file.Some? && s.IsOpen(file.value.fd) && newSize > 0 && Truncate !in faults && Map !in faults
    ensures o.1.Success? ==>
              && newSize > 0
              && o.1.value == Region(path, file, fd, newSize, newSize, newSize, true)
              && o.0.files == s.files[s.open[file.value.fd] := Regular(newSize)]
    ensures file.None? ==> o == (s.Log(Truncate), Failure(Failed(Truncate)))
  {
    var (s1, truncated) := s.DoTruncate(file, newSize, faults);
    match truncated
    case Failure(call) => (s1, Failure(Failed(call)))
    case Success(_) =>
      var (s2, mapped) := s1.DoMap(file, faults);
      match mapped
      case Failure(call) => (s2, Failure(Failed(call)))
      case Success(len) => (s2, Success(Region(path, file, fd, newSize, newSize, len, true)))
  }

  /** Growmap as written: the new region takes the old one's path and
      descriptor, but its file handle is never assigned, so the truncation
      through it is always an invalid argument and Growmap never succeeds. A
      rejected request changes nothing. */
  function Growmap(s: OsState, prev: Region, newSize: int, faults: set<Syscall>): (o: (OsState, Result<Region, Error>))
    requires WellFormed(s)
    ensures WellFormed(o.0) && Extends(s, o.0) && o.0.files == s.files && o.0.open == s.open
    ensures o.1.Failure?
    ensures CheckGrow(prev, newSize).Some? ==> o == (s, Failure(CheckGrow(prev, newSize).value))
    ensures CheckGrow(prev, newSize).None? ==> o == (s.Log(Truncate), Failure(Failed(Truncate)))
  {
    match CheckGrow(prev, newSize)
    case Some(e) => (s, Failure(e))
    case None => Remap(s, prev.path, None, prev.fd, newSize, faults)  // newmap.File is never assigned
  }

  /** Growmap as intended: the new region reuses the old region's file, which
      is truncated to the new size and mapped again. The new region shares the
      old one's path, file and descriptor, and its file, `FileBytesLen`,
      `BytesAlloc` and buffer all have the new size. */
  function GrowmapReusingFile(s: OsState, prev: Region, newSize: int, faults: set<Syscall>): (o: (OsState, Result<Region, Error>))
    requires WellFormed(s)
    ensures WellFormed(o.0) && Extends(s, o.0) && o.0.open == s.open
    ensures CheckGrow(prev, newSize).Some? ==> o == (s, Failure(CheckGrow(prev, newSize).value))
    ensures CheckGrow(prev, newSize).None? ==>
              (o.1.Success? <==>
                 prev.file.Some? && s.IsOpen(prev.file.value.fd) && newSize > 0 && Truncate !in faults && Map !in faults)
    ensures o.1.Success? ==>
              && prev.file.Some? && newSize > 0
              && o.1.value == Region(prev.path, prev.file, prev.fd, newSize, newSize, newSize, true)
              && newSize > prev.bytesAlloc && newSize > prev.fileBytesLen
              && o.0.files == s.files[s.open[prev.file.value.fd] := Regular(newSize)]
  {
    match CheckGrow(prev, newSize)
    case Some(e) => (s, Failure(e))
    case None => Remap(s, prev.path, prev.file, prev.fd, newSize, faults)
  }

  /** Freeing is not repeatable: whatever the environment does, a second Free
      of the same region fails at the unmap, after closing the file again. */
  lemma SecondFreeFails(s: OsState, r: Region, first: set<Syscall>, second: set<Syscall>)
    requires WellFormed(s)
    ensures var (s1, r1, _) := Free(s, r, first);
            && !r1.mapped
            && Free(s1, r1, second).2 == Failure(Failed(Unmap))
  {
  }

  /** A request Growmap should grant: a 4096-byte file-backed region asked to
      grow to 8192 bytes. As written, Growmap fails at the truncation; reusing
      the old region's file, the region grows. */
  lemma GrowmapFailsOnValidRequest()
    ensures var s := OsState(map["data" := Regular(4096)], map[], FirstFd, []);
            var (s1, r) := Malloc(s, -1, "data", {});
            && r == Success(Region("data", Some(Handle(FirstFd)), FirstFd, 4096, 4096, 4096, true))
            && CheckGrow(r.value, 8192).None?
            && Growmap(s1, r.value, 8192, {}).1 == Failure(Failed(Truncate))
            && GrowmapReusingFile(s1, r.value, 8192, {}).1 == Success(Region("data", Some(Handle(FirstFd)), FirstFd, 8192, 8192, 8192, true))
  {
  }

  /** Once a file-backed region is freed its descriptor is closed, so
      truncating its file afterwards fails, whatever the environment. */
  lemma TruncateAfterFreeFails(s: OsState, r: Region, newSize: int, first: set<Syscall>, second: set<Syscall>)
    requires WellFormed(s)
    requires r.file.Some?
    ensures var (s1, r1, _) := Free(s, r, first);
            TruncateTo(s1, r1, newSize, second).1 == Failure(Failed(Truncate))
  {
  }
}
