/** The MmapMalloc struct and its operations, step by step as malloc.go does
    them, each proved to behave exactly as its counterpart in module Spec. */
module Offheap {
  import opened Wrappers
  import opened Kernel
  import Spec

  /** A region of memory from the mapping library: anonymous and private when
      `path` is empty, otherwise a mapping of the file at `path`. `mmap` and
      `mem` are the same buffer until the region is freed, when the mapping
      library sets `mmap` to nil; `mem` keeps pointing at the released memory. */
  class MmapMalloc {
    var path: string
    var file: Option<Handle>
    var fd: int
    var fileBytesLen: int
    var bytesAlloc: int
    var mmap: array?<byte>
    var mem: array<byte>

    ghost predicate Valid()
      reads this
    {
      mmap == null || mmap == mem
    }

    /** The buffer is still mapped: the region has not been freed. */
    ghost predicate Live()
      reads this
    {
      mmap != null
    }

    ghost function View(): Spec.Region
      reads this
    {
      Spec.Region(path, file, fd, fileBytesLen, bytesAlloc, mem.Length, mmap != null)
    }

    constructor (path: string, file: Option<Handle>, fd: int, fileBytesLen: int, bytesAlloc: int, buf: array<byte>)
      ensures Valid() && Live() && mmap == buf && mem == buf
      ensures View() == Spec.Region(path, file, fd, fileBytesLen, bytesAlloc, buf.Length, true)
    {
      this.path, this.file, this.fd := path, file, fd;
      this.fileBytesLen, this.bytesAlloc := fileBytesLen, bytesAlloc;
      this.mmap, this.mem := buf, buf;
    }

    /** Resizes the backing file only; the region itself is not modified. */
    method TruncateTo(os: Os, newSize: int, faults: set<Syscall>) returns (r: Result<(), Spec.Error>)
      requires os.Valid()
      modifies os
      ensures os.Valid()
      ensures (os.State(), r) == Spec.TruncateTo(old(os.State()), View(), newSize, faults)
    {
      if file.None? {
        return Failure(Spec.NotFileBacked);
      }
      var truncated := os.Truncate(file, newSize, faults);
      if truncated.Failure? {
        return Failure(Spec.Failed(truncated.error));
      }
      r := Success(());
    }

    /** Closes the file, if any, ignoring the outcome, then unmaps. */
    method Free(os: Os, faults: set<Syscall>) returns (r: Result<(), Spec.Error>)
      requires os.Valid() && Valid()
      modifies os, this`mmap
      ensures os.Valid() && Valid() && !Live() && mem == old(mem)
      ensures (os.State(), View(), r) == Spec.Free(old(os.State()), old(View()), faults)
    {
      if file.Some? {
        var _ := os.Close(file.value, faults);
      }
      var unmapped := os.Unmap(mmap != null, faults);
      mmap := null;
      if !unmapped {
        return Failure(Spec.Failed(Unmap));
      }
      r := Success(());
    }

    /** Flushes and drops the outcome: only the call is observable. */
    method BlockUntilSync(os: Os, faults: set<Syscall>)
      requires os.Valid()
      modifies os
      ensures os.Valid() && os.State() == old(os.State()).Log(Flush)
    {
      var _ := os.Flush(faults);
    }

    /** The same call as BlockUntilSync; waiting for the write-back is not
        something this model can observe. */
    method BackgroundSync(os: Os, faults: set<Syscall>)
      requires os.Valid()
      modifies os
      ensures os.Valid() && os.State() == old(os.State()).Log(Flush)
    {
      var _ := os.Flush(faults);
    }
  }

  /** `r` is the outcome `spec` describes, with the region as an object. */
  ghost predicate Matches(r: Result<MmapMalloc, Spec.Error>, spec: Result<Spec.Region, Spec.Error>)
    reads if r.Success? then {r.value} else {}
  {
    match r
    case Success(mm) => spec == Success(mm.View())
    case Failure(e) => spec == Failure(e)
  }

  /** Creates a region: anonymous for an empty path, otherwise backed by the
      file at `path`, created when missing, whose size is kept when `numBytes`
      is negative and set to `numBytes` otherwise. */
  method Malloc(os: Os, numBytes: int, path: string, faults: set<Syscall>) returns (r: Result<MmapMalloc, Spec.Error>)
    requires os.Valid()
    modifies os
    ensures os.Valid()
    ensures os.State() == Spec.Malloc(old(os.State()), numBytes, path, faults).0
    ensures Matches(r, Spec.Malloc(old(os.State()), numBytes, path, faults).1)
    ensures r.Success? ==> fresh(r.value) && fresh(r.value.mem) && r.value.Valid() && r.value.Live() && r.value.mmap == r.value.mem
  {
    var fd: int;
    var file: Option<Handle> := None;
    if path == "" {
      fd := Spec.Sentinel;
      if numBytes < 0 {
        return Failure(Spec.NegativeSizeWithoutPath);
      }
    } else {
      if os.State().IsDir(path) {
        return Failure(Spec.PathIsDirectory(path));
      }
      var opening: Result<Handle, Syscall>;
      if path !in os.files {
        opening := os.Create(path, faults);
      } else {
        opening := os.OpenFile(path, faults);
      }
      if opening.Failure? {
        return Failure(Spec.Failed(opening.error));
      }
      file := Some(opening.value);
      fd := opening.value.fd;
    }

    var sz := numBytes;
    var fileBytesLen := 0;
    if path != "" {
      if numBytes < 0 {
        var stat := os.Stat(file.value, faults);
        if stat.Failure? {
          return Failure(Spec.Failed(stat.error));
        }
        sz := stat.value;
      } else {
        var truncated := os.Truncate(file, numBytes, faults);
        if truncated.Failure? {
          return Failure(Spec.Failed(truncated.error));
        }
      }
      fileBytesLen := sz;
    }
    assert sz >= 0;
    var bytesAlloc := sz;

    var mapped: Result<array<byte>, Syscall>;
    if fd == Spec.Sentinel {
      mapped := os.MapRegion(sz, faults);
    } else {
      mapped := os.Map(file, faults);
    }
    if mapped.Failure? {
      return Failure(Spec.Failed(mapped.error));
    }
    var mm := new MmapMalloc(path, file, fd, fileBytesLen, bytesAlloc, mapped.value);
    r := Success(mm);
  }

  /** Truncates the backing file through `file`, maps it again, and assembles
      the new region with the given path and descriptor. */
  method Remap(os: Os, path: string, file: Option<Handle>, fd: int, newSize: int, faults: set<Syscall>)
    returns (r: Result<MmapMalloc, Spec.Error>)
    requires os.Valid()
    modifies os
    ensures os.Valid()
    ensures os.State() == Spec.Remap(old(os.State()), path, file, fd, newSize, faults).0
    ensures Matches(r, Spec.Remap(old(os.State()), path, file, fd, newSize, faults).1)
    ensures r.Success? ==> fresh(r.value) && fresh(r.value.mem) && r.value.Valid() && r.value.Live() && r.value.mmap == r.value.mem
  {
    var truncated := os.Truncate(file, newSize, faults);
    if truncated.Failure? {
      return Failure(Spec.Failed(truncated.error));
    }
    var mapped := os.Map(file, faults);
    if mapped.Failure? {
      return Failure(Spec.Failed(mapped.error));
    }
    var newmap := new MmapMalloc(path, file, fd, newSize, newSize, mapped.value);
    r := Success(newmap);
  }

  /** Growmap as written: the new region gets the old one's path and
      descriptor but never its file, and the truncation goes through that
      missing file. The old region is not modified. */
  method Growmap(os: Os, oldmap: MmapMalloc, newSize: int, faults: set<Syscall>) returns (r: Result<MmapMalloc, Spec.Error>)
    requires os.Valid()
    modifies os
    ensures os.Valid()
    ensures os.State() == Spec.Growmap(old(os.State()), oldmap.View(), newSize, faults).0
    ensures Matches(r, Spec.Growmap(old(os.State()), oldmap.View(), newSize, faults).1)
  {
    if oldmap.path == "" || oldmap.fd <= 0 {
      return Failure(Spec.NotFileBacked);
    }
    if newSize <= oldmap.bytesAlloc || newSize <= oldmap.fileBytesLen {
      return Failure(Spec.NotLarger);
    }
    r := Remap(os, oldmap.path, None, oldmap.fd, newSize, faults);
  }

  /** Growmap as intended: the same checks, then the old region's file is
      truncated and mapped again. The old region is not modified; the new one
      shares its path, file and descriptor. */
  method GrowmapReusingFile(os: Os, oldmap: MmapMalloc, newSize: int, faults: set<Syscall>)
    returns (r: Result<MmapMalloc, Spec.Error>)
    requires os.Valid()
    modifies os
    ensures os.Valid()
    ensures os.State() == Spec.GrowmapReusingFile(old(os.State()), oldmap.View(), newSize, faults).0
    ensures Matches(r, Spec.GrowmapReusingFile(old(os.State()), oldmap.View(), newSize, faults).1)
    ensures r.Success? ==> fresh(r.value) && fresh(r.value.mem) && r.value.Valid() && r.value.Live() && r.value.mmap == r.value.mem
  {
    if oldmap.path == "" || oldmap.fd <= 0 {
      return Failure(Spec.NotFileBacked);
    }
    if newSize <= oldmap.bytesAlloc || newSize <= oldmap.fileBytesLen {
      return Failure(Spec.NotLarger);
    }
    r := Remap(os, oldmap.path, oldmap.file, oldmap.fd, newSize, faults);
  }
}
