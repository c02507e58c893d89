# MmapMalloc region lifecycle, modelled in Dafny

This project models the region allocator of the `offheap` Go package
(`malloc.go`): a region of memory obtained straight from the kernel with
`mmap`, either anonymous and private (empty path) or backed by a file. It
covers the lifecycle of one `MmapMalloc`: `Malloc` (choose the backing,
resolve the size, map), `TruncateTo` (resize the backing file only), `Free`
(close the file, then unmap), `BlockUntilSync`/`BackgroundSync` (flush, error
discarded) and `Growmap` (check the request, truncate, map again).

Files:

- `wrappers.dfy` — `Option` (a nil pointer) and `Result` (a panic or returned error).
- `kernel.dfy` — the operating system as an abstract value `OsState`: a
  filesystem mapping paths to `Dir | Regular(size)`, a table of open
  descriptors, the next descriptor to hand out, and the history of external
  calls. Each `os`/mmap-go call (`Create`, `OpenFile`, `Stat`, `Truncate`,
  `Close`, `MapRegion`, `Map`, `Unmap`, `Flush`) is a function on it; whether
  the environment makes a call fail is the parameter `faults: set<Syscall>`.
  Class `Os` holds the same state as mutable fields and performs those calls.
- `spec.dfy` — module `Spec`: the fields of an `MmapMalloc` as a value
  `Region`, and every operation except the two syncs as a function from the
  OS state to the new OS state and the result. Their contracts state what the
  source promises. `BlockUntilSync` and `BackgroundSync` have no `Spec`
  function: their methods state directly that they only log one flush.
- `offheap.dfy` — module `Offheap`: class `MmapMalloc` with the struct's fields
  (`mmap` nullable, since mmap-go sets it to nil on unmap; ghost `Live()` is
  "not yet freed"), its methods, and `Malloc`/`Growmap` written step by step as
  in Go. Each method except the two syncs is proved to produce exactly the OS
  state and result of its `Spec` counterpart.
- `lifecycle.dfy` — module `Lifecycle`: arbitrary sequences of calls on any
  regions, under any failures, and the invariants they keep.
- `offheap_test.dfy` — the scenario of `malloc_test.go` as a verified client.

Every `panic` of the source becomes a `Failure` carrying an `Error`:
`NegativeSizeWithoutPath`, `PathIsDirectory`, `NotFileBacked`, `NotLarger` or
`Failed(call)` naming the external call that failed. In Go, only
`NotFileBacked` and `NotLarger` from `Growmap` are returned errors; all the
others are panics.

Behaviour of `malloc.go` worth noting:

- `Growmap` rejects any descriptor `<= 0`, not only the sentinel `-1`.
- With `GrowmapReusingFile`, freeing the old region after a grow is not a
  no-op. The new region shares the old one's file, so the second `Free` closes
  the same file again. That close fails and is ignored, as every close failure
  is. `Growmap` as written never returns a region, and a region with no file
  would close nothing when freed.
- A failed close in `Free` is dropped, not reported as a secondary error.
- `BlockUntilSync` and `BackgroundSync` on an anonymous or freed region do
  nothing observable; the flush error is discarded.
- After `Free`, the file descriptor is closed and `MMap` is nil. A later
  `TruncateTo` fails because the descriptor is closed. A second `Free` fails at
  the unmap.

## Model

| member | source | states |
|---|---|---|
| `Spec.Back` | malloc.go:80-109 | an empty path gives anonymous backing, and fails with a negative size; a directory fails and changes nothing; otherwise the file is opened if present and created if absent, on a descriptor above the standard streams that was not open before; the only filesystem change is creating the missing file empty |
| `Spec.ResolveSize` | malloc.go:111-132 | the resolved size is never negative; it is the requested size, or the file's current size when the request is negative (file unchanged); a non-negative request truncates the file to exactly that size; on success the backing file's size equals the resolved size |
| `Spec.MapMemory` | malloc.go:140-150 | with the sentinel descriptor an anonymous mapping of exactly `sz` bytes, which succeeds exactly when `sz > 0` and the call does not fail; otherwise the whole file is mapped, succeeding exactly when the file is open, non-empty and the call does not fail; files and descriptors are untouched |
| `Spec.Malloc` | malloc.go:74-157 | the two argument errors leave the OS untouched and precede every external call; a region returned is never empty, since the kernel refuses a zero-length mapping; an anonymous region has `Fd == -1`, no file, empty path, `FileBytesLen == 0` and `BytesAlloc == len(Mem) == numBytes`, and it is obtained exactly when `numBytes > 0` and the mapping does not fail; a file-backed region has a non-sentinel descriptor, one that was not open before the call, open on `path`, and `FileBytesLen == BytesAlloc == len(Mem) ==` the file's size |
| `Spec.MallocFileSucceedsExactly` | malloc.go:80-150 | a file-backed Malloc succeeds exactly when the open or create, the stat or truncate, and the map all succeed and the size to map is positive (the requested size, or the existing file's size when the request is negative) |
| `Spec.MallocTruncatesFile` | malloc.go:123-134 | with a non-negative size, once the file is opened and truncated it has exactly that size, even when the mapping then fails; a region returned has that size |
| `Spec.MallocInheritsSize` | malloc.go:95-134 | with a negative size no file's length changes (a missing file is at most created empty), and a region returned has the existing file's size |
| `Spec.MallocsOwnDistinctDescriptors` | malloc.go:95-108 | two successive file-backed Mallocs, even of the same path, never hold the same descriptor, so no region shares its descriptor with a region opened before it |
| `Spec.TruncateTo` | malloc.go:36-44 | fails and changes nothing without a file; otherwise succeeds exactly when the descriptor is open, the size non-negative and truncation does not fail, and then only that file's size changes |
| `Spec.Free` | malloc.go:50-58 | the close (when there is a file) comes before the unmap; the file's descriptor is released; the region is no longer mapped; success exactly when the region was still mapped and the unmap did not fail, so a close failure is never reported |
| `Spec.CheckGrow` | malloc.go:176-182 | a grow request passes exactly when the region has a path, a descriptor above 0, and the new size exceeds both `BytesAlloc` and `FileBytesLen`; descriptor 0 is rejected like the sentinel |
| `Spec.Remap` | malloc.go:184-213 | truncating and remapping through a file succeeds exactly when the file is open, the size positive and neither call fails, giving a region with `FileBytesLen == BytesAlloc == len(Mem) == newSize` and the given path and descriptor; with no file it fails at the truncation |
| `Spec.Growmap` | malloc.go:174-214 | as written it never succeeds: a rejected request changes nothing, and an accepted one fails at the truncation through the unassigned file |
| `Spec.GrowmapReusingFile` | malloc.go:174-214 | with the old file reused, a valid request on an open file succeeds exactly when truncate and map do and the new size is positive; the new region shares path, file and descriptor, all its sizes equal `newSize`, which exceeds both old sizes, and the file now has that size |
| `Spec.SecondFreeFails` | malloc.go:50-58 | freeing a region a second time fails at the unmap, whatever the environment |
| `Spec.TruncateAfterFreeFails` | malloc.go:36-58 | once a file-backed region is freed, truncating its file fails, whatever the environment, because `Free` closed the descriptor |
| `Spec.GrowmapFailsOnValidRequest` | malloc.go:184-196 | for a 4096-byte file region grown to 8192 bytes, Growmap as written fails at the truncation while the file-reusing variant returns the grown region |
| `Offheap.MmapMalloc.constructor` | malloc.go:22-30 | a new region has the given fields, and `MMap` and `Mem` are the same buffer |
| `Offheap.MmapMalloc.TruncateTo` | malloc.go:36-44 | changes the OS exactly as `Spec.TruncateTo` and does not modify the region |
| `Offheap.MmapMalloc.Free` | malloc.go:50-58 | changes the OS and the region exactly as `Spec.Free`; afterwards `MMap` is nil and `Mem` still refers to the released buffer |
| `Offheap.MmapMalloc.BlockUntilSync` | malloc.go:160-162 | issues one flush and changes nothing else |
| `Offheap.MmapMalloc.BackgroundSync` | malloc.go:169-171 | issues one flush and changes nothing else |
| `Offheap.Malloc` | malloc.go:74-157 | produces exactly the OS state and result of `Spec.Malloc`; a returned region is new, with `MMap` and `Mem` the same new buffer |
| `Offheap.Remap` | malloc.go:184-213 | produces exactly the OS state and result of `Spec.Remap` |
| `Offheap.Growmap` | malloc.go:174-214 | produces exactly the OS state and result of `Spec.Growmap` and does not modify the old region |
| `Offheap.GrowmapReusingFile` | malloc.go:174-214 | produces exactly the OS state and result of `Spec.GrowmapReusingFile` and does not modify the old region |
| `Lifecycle.Step` | malloc.go:36-214 | any one call keeps the OS well formed; no path disappears or changes kind, and new paths are regular files; descriptors are never handed out twice (every newly open descriptor is at or above the old next descriptor); a region changes only by being freed (it stays equal or only becomes unmapped); new regions are appended |
| `Lifecycle.Run` | malloc.go:36-214 | the same for any sequence of calls: the OS stays well formed and only extends, and every existing region stays as it was or becomes unmapped |
| `Lifecycle.StepKeepsConsistent` | malloc.go:130-154 | one call keeps every region's invariants: `len(Mem) == BytesAlloc > 0`; anonymous regions have no file, the sentinel and `FileBytesLen == 0`; file-backed regions hold their own descriptor and `FileBytesLen == BytesAlloc` |
| `Lifecycle.RunKeepsConsistent` | malloc.go:130-154 | those region invariants hold after any sequence of calls under any failures |
| `Lifecycle.FreedStaysFreed` | malloc.go:50-58 | a freed region stays freed through any sequence of calls |
| `OffheapTest.TestMalloc` | malloc_test.go:9-17 | a 10 KiB anonymous region is always allocated; the 26 bytes written at offset 0 read back unchanged before the region is freed, and the free succeeds |

## Findings

| source | as written | input that shows it | evidently intended | confidence | as-written member | corrected member |
|---|---|---|---|---|---|---|
| malloc.go:184-196 | `newmap.File` is never assigned, so `newmap.File.Truncate(newSize)` runs on a nil `*os.File`. It returns an invalid-argument error and the code panics, so Growmap can never succeed | a 4096-byte region backed by file `data`, grown to 8192 bytes | truncate and map the old region's file (`oldmap.File`) | high, not executed | `Spec.Growmap` | `Spec.GrowmapReusingFile` |

## Left out

- The `os` and mmap-go calls are abstract operations over `OsState`. Environmental failures come from the `faults` parameter. Permission modes, missing parent directories, page alignment and the zero-filling of pages are not modelled. A mapping of length zero always fails, as the kernel refuses it with an invalid-argument error; `Malloc(0, "")`, and a negative size on a missing or empty file, therefore never succeed.
- The assumption that mmap-go's `Unmap` sets the slice to nil and fails on a nil slice comes from that library. mmap-go is not part of this model.
- `dirExists` and `fileExists` are not part of this model. They are taken as lookups in the filesystem map: is this path a directory, and is this path present.
- Logging (`vprintf`) is dropped.
- The `int64` fields and arguments are unbounded integers. No arithmetic is done on them, so no overflow is lost. The `int64` to `int` conversion at malloc.go:143 is not modelled.
- Descriptors are handed out in increasing order from 3 and never reused. A real kernel reuses the lowest free descriptor, and could hand out descriptor 0 if standard input were closed.
- The bytes in a file-backed buffer are not tied to the file's contents. Durability, write-back and the difference between the two syncs are not modelled: `BlockUntilSync` and `BackgroundSync` only record the flush call.
- Use of `Mem` after `Free` is not prevented. The model only records that the region is no longer live (`MMap` is nil).
- Concurrency on a shared region or a shared descriptor is not modelled.
- The difference between a panic and a returned error is kept only in the description of `Error`. Both become a `Failure` result.
