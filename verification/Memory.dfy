/** The 64 MB physical memory as a sequence of bytes, with little-endian accessors. */
module Memory {
  import opened Words

  const MEM_SIZE: Word := 0x0400_0000
  const MMIO_BASE: Word := 0x03F0_0000

  type Mem = m: seq<Byte> | |m| == 0x0400_0000 witness seq(0x0400_0000, _ => 0)

  /** Bytes past the end of the array read as zero (in C such an access is undefined). */
  function ByteAt(m: seq<Byte>, a: nat): Byte {
    if a < |m| then m[a] else 0
  }

  function Read16(m: seq<Byte>, a: nat): Word {
    ByteAt(m, a) + 0x100 * ByteAt(m, a + 1)
  }

  function Read32(m: seq<Byte>, a: nat): Word {
    ByteAt(m, a) + 0x100 * ByteAt(m, a + 1) + 0x1_0000 * ByteAt(m, a + 2) + 0x100_0000 * ByteAt(m, a + 3)
  }

  function Write8(m: seq<Byte>, a: nat, v: int): (m': seq<Byte>)
    requires a < |m|
    ensures |m'| == |m|
  {
    m[a := v % 0x100]
  }

  function Write16(m: seq<Byte>, a: nat, v: int): (m': seq<Byte>)
    requires a + 2 <= |m|
    ensures |m'| == |m|
  {
    Write8(Write8(m, a, v), a + 1, v / 0x100)
  }

  function Write32(m: seq<Byte>, a: nat, v: int): (m': seq<Byte>)
    requires a + 4 <= |m|
    ensures |m'| == |m|
  {
    Write16(Write16(m, a, v), a + 2, v / 0x1_0000)
  }

  /** Little-endian access of 1, 2 or 4 bytes. */
  type Width = n: int | n == 1 || n == 2 || n == 4 witness 1

  function ReadN(m: seq<Byte>, a: nat, n: Width): Word {
    if n == 1 then ByteAt(m, a) else if n == 2 then Read16(m, a) else Read32(m, a)
  }

  function WriteN(m: seq<Byte>, a: nat, n: Width, v: int): (m': seq<Byte>)
    requires a + n <= |m|
    ensures |m'| == |m|
  {
    if n == 1 then Write8(m, a, v) else if n == 2 then Write16(m, a, v) else Write32(m, a, v)
  }

  lemma ReadOverWrite(m: seq<Byte>, a: nat, n: Width, v: Word)
    requires a + n <= |m|
    ensures ReadN(WriteN(m, a, n, v), a, n) == (if n == 1 then v % 0x100 else if n == 2 then v % 0x1_0000 else v)
  {
    WordBytes(v);
    var m' := WriteN(m, a, n, v);
    assert m'[a] == v % 0x100;
    if n >= 2 {
      assert m'[a + 1] == v / 0x100 % 0x100;
    }
    if n == 4 {
      assert m'[a + 2] == v / 0x1_0000 % 0x100;
      assert m'[a + 3] == v / 0x100_0000;
    }
  }

  /** A word outside the written bytes reads as before. */
  lemma ReadMissesWrite(m: seq<Byte>, a: nat, n: Width, v: int, b: nat)
    requires a + n <= |m| && (b + 4 <= a || a + n <= b)
    ensures Read32(WriteN(m, a, n, v), b) == Read32(m, b)
  {
  }
}
