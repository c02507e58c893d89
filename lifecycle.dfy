/** Any sequence of lifecycle calls, on any regions, under any failures of the
    environment: what stays true of the OS and of every region created. */
module Lifecycle {
  import opened Wrappers
  import opened Kernel
  import Spec

  /** One call of the public surface; a region is named by its position among
      the regions created so far. */
  datatype Op =
    | Alloc(numBytes: int, path: string)
    | TruncateFile(target: nat, newSize: int)
    | Release(target: nat)
    | Sync(target: nat)
    | Grow(target: nat, newSize: int)
    | GrowReusingFile(target: nat, newSize: int)

  /** A call together with the external calls the environment makes fail. */
  datatype Call = Call(op: Op, faults: set<Syscall>)

  /** The OS and every region created so far, in order of creation. */
  datatype World = World(os: OsState, regions: seq<Spec.Region>)

  /** A region has what the lifecycle gives it: a buffer as long as
      `BytesAlloc`, which is positive; an anonymous region has no file, the
      sentinel descriptor and no file length; a file-backed region holds the
      file it was opened with, on a descriptor the OS handed out, and its
      `FileBytesLen` equals `BytesAlloc`. */
  predicate RegionOk(s: OsState, r: Spec.Region) {
    && r.bytesAlloc > 0
    && r.memLen == r.bytesAlloc
    && (r.path == "" ==> r.file == None && r.fd == Spec.Sentinel && r.fileBytesLen == 0)
    && (r.path != "" ==> r.file == Some(Handle(r.fd)) && FirstFd <= r.fd < s.nextFd && r.fileBytesLen == r.bytesAlloc)
  }

  predicate Consistent(w: World) {
    && WellFormed(w.os)
    && forall i | 0 <= i < |w.regions| :: RegionOk(w.os, w.regions[i])
  }

  /** One call. A call on a region that does not exist does nothing. A region
      is changed only by freeing it; Malloc and a successful grow add a new
      region and leave the others as they are. */
  function Step(w: World, c: Call): (v: World)
    requires WellFormed(w.os)
    ensures WellFormed(v.os) && Extends(w.os, v.os)
    ensures |w.regions| <= |v.regions|
    ensures forall i | 0 <= i < |w.regions| ::
              v.regions[i] == w.regions[i] || v.regions[i] == w.regions[i].(mapped := false)
  {
    match c.op
    case Alloc(numBytes, path) =>
      var (s, r) := Spec.Malloc(w.os, numBytes, path, c.faults);
      Added(s, w.regions, r)
    case TruncateFile(i, newSize) =>
      if i < |w.regions| then World(Spec.TruncateTo(w.os, w.regions[i], newSize, c.faults).0, w.regions) else w
    case Release(i) =>
      if i < |w.regions| then
        var (s, freed, _) := Spec.Free(w.os, w.regions[i], c.faults);
        World(s, w.regions[i := freed])
      else w
    case Sync(i) =>
      if i < |w.regions| then World(w.os.DoFlush(c.faults).0, w.regions) else w
    case Grow(i, newSize) =>
      if i < |w.regions| then
        var (s, r) := Spec.Growmap(w.os, w.regions[i], newSize, c.faults);
        Added(s, w.regions, r)
      else w
    case GrowReusingFile(i, newSize) =>
      if i < |w.regions| then
        var (s, r) := Spec.GrowmapReusingFile(w.os, w.regions[i], newSize, c.faults);
        Added(s, w.regions, r)
      else w
  }

  /** The world after a call that may have created a region. */
  function Added(s: OsState, regions: seq<Spec.Region>, r: Result<Spec.Region, Spec.Error>): World {
    match r
    case Success(region) => World(s, regions + [region])
    case Failure(_) => World(s, regions)
  }

  /** A sequence of calls. Directories are never created, changed or removed,
      no path disappears, descriptors are never handed out twice, and a region
      changes only by being freed. */
  function Run(w: World, calls: seq<Call>): (v: World)
    requires WellFormed(w.os)
    ensures WellFormed(v.os) && Extends(w.os, v.os)
    ensures |w.regions| <= |v.regions|
    ensures forall i | 0 <= i < |w.regions| ::
              v.regions[i] == w.regions[i] || v.regions[i] == w.regions[i].(mapped := false)
    decreases |calls|
  {
    if calls == [] then w else Run(Step(w, calls[0]), calls[1..])
  }

  /** One call keeps the region invariants: Malloc and a successful grow add
      regions that have them, freeing keeps them, and the descriptor bound
      only rises. */
  lemma StepKeepsConsistent(w: World, c: Call)
    requires Consistent(w)
    ensures Consistent(Step(w, c))
  {
  }

  /** The region invariants hold after any sequence of calls. */
  lemma {:induction false} RunKeepsConsistent(w: World, calls: seq<Call>)
    requires Consistent(w)
    ensures Consistent(Run(w, calls))
    decreases |calls|
  {
    if calls != [] {
      StepKeepsConsistent(w, calls[0]);
      RunKeepsConsistent(Step(w, calls[0]), calls[1..]);
    }
  }

  /** Freeing cannot be undone: a freed region stays freed through any
      sequence of calls. */
  lemma {:induction false} FreedStaysFreed(w: World, calls: seq<Call>, i: nat)
    requires WellFormed(w.os)
    requires i < |w.regions| && !w.regions[i].mapped
    ensures i < |Run(w, calls).regions| && !Run(w, calls).regions[i].mapped
    decreases |calls|
  {
    if calls != [] {
      FreedStaysFreed(Step(w, calls[0]), calls[1..], i);
    }
  }
}
