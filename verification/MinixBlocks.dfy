/** 1 KiB blocks as bytes and as tables of little-endian 16-bit zone numbers
    (kernel/fs/minix/inode.c, kernel/fs/minix/file.c). */
module MinixBlocks {

  const BLOCK: nat := 1024
  const ENTRIES: nat := 512

  type Byte = b: nat | b < 256

  type Block = s: seq<Byte> | |s| == BLOCK witness Zeros()

  function Zeros(): (s: seq<Byte>)
    ensures |s| == BLOCK && forall i :: 0 <= i < BLOCK ==> s[i] == 0
  {
    seq(BLOCK, i => 0)
  }

  /** Entry `i` of a block read as `uint16_t` values. */
  function Entry(b: Block, i: nat): (z: nat)
    requires i < ENTRIES
    ensures z < 0x10000
  {
    var lo: nat, hi: nat := b[2 * i], b[2 * i + 1];
    lo + 256 * hi
  }

  function SetEntry(b: Block, i: nat, z: nat): (r: Block)
    requires i < ENTRIES && z < 0x10000
    ensures Entry(r, i) == z
    ensures forall j :: 0 <= j < ENTRIES && j != i ==> Entry(r, j) == Entry(b, j)
  {
    b[2 * i := z % 256][2 * i + 1 := z / 256]
  }

  /** A block is determined by its entries. */
  lemma SameEntries(b: Block, c: Block)
    requires forall i :: 0 <= i < ENTRIES ==> Entry(b, i) == Entry(c, i)
    ensures b == c
  {
    forall k | 0 <= k < BLOCK ensures b[k] == c[k] {
      assert Entry(b, k / 2) == Entry(c, k / 2);
      assert k == 2 * (k / 2) || k == 2 * (k / 2) + 1;
    }
  }

  lemma ZeroEntries()
    ensures forall i :: 0 <= i < ENTRIES ==> Entry(Zeros(), i) == 0
  {
  }

  /** `bytes` copied into a block at `at`. */
  function Put(b: Block, at: nat, bytes: seq<Byte>): (r: Block)
    requires at + |bytes| <= BLOCK
    ensures forall k :: 0 <= k < BLOCK ==> r[k] == if at <= k < at + |bytes| then bytes[k - at] else b[k]
  {
    b[..at] + bytes + b[at + |bytes|..]
  }
}
