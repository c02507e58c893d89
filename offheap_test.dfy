/** The scenario of malloc_test.go, as a client of the model. */
module OffheapTest {
  import opened Wrappers
  import opened Kernel
  import Offheap

  /** The bytes of a string whose characters all fit in a byte. */
  function Bytes(s: string): (b: seq<byte>)
    requires forall i | 0 <= i < |s| :: s[i] as int < 0x100
    ensures |b| == |s| && forall i | 0 <= i < |s| :: b[i] as int == s[i] as int
  {
    seq(|s|, i requires 0 <= i < |s| => s[i] as int as byte)
  }

  /** An anonymous region of 10 KiB is allocated whatever the filesystem
      holds; 26 bytes copied to its start read back unchanged, and freeing it
      succeeds. */
  method TestMalloc(os: Os) returns (readBack: seq<byte>)
    requires os.Valid()
    modifies os
    ensures os.Valid()
    ensures readBack == Bytes("hello memory mapped WORLD\n")
  {
    var writeme := Bytes("hello memory mapped WORLD\n");
    var created := Offheap.Malloc(os, 10 * 1024, "", {});
    var mm2 := created.value;
    assert mm2.mem.Length == 10 * 1024;
    forall i | 0 <= i < |writeme| {
      mm2.mem[i] := writeme[i];
    }
    readBack := mm2.mem[0..|writeme|];
    var freed := mm2.Free(os, {});
    assert freed.Success?;
  }
}
