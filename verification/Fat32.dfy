/** Read-only FAT32: the geometry a volume is accepted with, the cluster chain and file reads
    (kernel/fs/fat32/super.c, fat.c, file.c). */
module Fat32 {
  import opened Arith
  import opened Base

  const SECTOR: nat := 512
  const EOC_MIN: nat := 0x0fff_fff8
  const ENTRY_MASK: nat := 0x1000_0000
  const MIN_CLUSTERS: nat := 65525

  type Byte = b: nat | b < 256

  type Sector = s: seq<Byte> | |s| == SECTOR witness Blank()

  function Blank(): (s: seq<Byte>)
    ensures |s| == SECTOR
  {
    seq(SECTOR, i => 0)
  }

  function Rd16(s: Sector, i: nat): (r: nat)
    requires i + 1 < SECTOR
    ensures r < 0x1_0000
  {
    var a: nat, b: nat := s[i], s[i + 1];
    a + 0x100 * b
  }

  function Rd32(s: Sector, i: nat): (r: nat)
    requires i + 3 < SECTOR
    ensures r < 0x1_0000_0000
  {
    Rd16(s, i) + 0x1_0000 * Rd16(s, i + 2)
  }

  // ------------------------------------------------------------------------
  // Geometry
  // ------------------------------------------------------------------------

  datatype Volume = Volume(secPerClus: nat, rsvd: nat, fatSz: nat, rootClus: nat, dataStart: nat, clusters: nat)
  {
    predicate Valid(c: nat) {
      2 <= c < clusters + 2
    }

    /** `fat32_cluster_lba`. */
    function Lba(c: nat): nat
      requires c >= 2
    {
      dataStart + Mul(c - 2, secPerClus)
    }

    /** The FAT sector and the offset in it of the entry for `c`. */
    function FatSector(c: nat): nat {
      rsvd + (c * 4) / SECTOR
    }

    function ClusterBytes(): nat {
      secPerClus * SECTOR
    }

    /** What every accepted volume satisfies: the first FAT lies before the data region and has
        an entry for every cluster, the data region lies on the device, and end-of-chain marks are
        no cluster numbers. */
    ghost predicate Sound(sectors: nat) {
      && 1 <= secPerClus <= 128
      && rsvd + fatSz <= dataStart
      && dataStart + Mul(clusters, secPerClus) <= sectors
      && (clusters + 2) * 4 <= fatSz * SECTOR
      && clusters + 2 <= EOC_MIN
      && Valid(rootClus)
    }
  }

  /** The fields of the boot sector. */
  datatype Bpb = Bpb(bytesPerSec: nat, secPerClus: nat, rsvd: nat, numFats: nat, rootEntCnt: nat, totSec16: nat,
                     fatSz16: nat, totSec: nat, fatSz: nat, rootClus: nat)

  function Fields(b: Sector): Bpb {
    Bpb(Rd16(b, 11), b[13], Rd16(b, 14), b[16], Rd16(b, 17), Rd16(b, 19), Rd16(b, 22), Rd32(b, 32), Rd32(b, 36),
        Rd32(b, 44))
  }

  function Total(f: Bpb): nat {
    if f.totSec == 0 then f.totSec16 else f.totSec
  }

  /** A FAT32 boot sector whose regions fit the device. */
  ghost predicate Acceptable(f: Bpb, sectors: nat) {
    && f.bytesPerSec == SECTOR && f.secPerClus in {1, 2, 4, 8, 16, 32, 64, 128}
    && f.rsvd > 0 && f.numFats > 0 && f.fatSz > 0 && f.rootEntCnt == 0 && f.fatSz16 == 0
    && var data := f.rsvd + Mul(f.numFats, f.fatSz);
       && data < Total(f) <= sectors
       && var clusters := Quot(Total(f) - data, f.secPerClus);
          && MIN_CLUSTERS <= clusters && 2 <= f.rootClus < clusters + 2
          && (clusters + 2) * 4 <= f.fatSz * SECTOR
          && (data + Mul(clusters, f.secPerClus)) * 16 <= 0xffff_ffff
  }

  /** The checks of `fat32_parse_bpb` on the decoded fields. */
  method CheckBpb(f: Bpb, sectors: nat) returns (r: Option<Volume>)
    ensures r.Some? ==> r.value.Sound(sectors)
    ensures r.Some? ==> r.value.secPerClus == f.secPerClus && r.value.rsvd == f.rsvd && r.value.fatSz == f.fatSz
    ensures r.Some? ==> r.value.rootClus == f.rootClus && r.value.dataStart == f.rsvd + Mul(f.numFats, f.fatSz)
    ensures r.Some? ==> Fills(r.value, Total(f))
    ensures r.Some? <==> Acceptable(f, sectors)
  {
    hide Mul, Quot;
    r := None;
    if f.bytesPerSec != SECTOR {
      return;
    }
    if f.secPerClus !in {1, 2, 4, 8, 16, 32, 64, 128} {
      return;
    }
    if f.rsvd == 0 || f.numFats == 0 || f.fatSz == 0 {
      return;
    }
    if f.rootEntCnt != 0 || f.fatSz16 != 0 {
      return;
    }
    if f.rootClus < 2 {
      return;
    }
    var totSec := if f.totSec == 0 then f.totSec16 else f.totSec;
    if totSec == 0 {
      return;
    }
    var dataSec := f.rsvd + Mul(f.numFats, f.fatSz);
    if dataSec >= totSec {
      return;
    }
    var clusters := Quot(totSec - dataSec, f.secPerClus);
    if clusters < MIN_CLUSTERS {
      return;
    }
    if f.rootClus >= clusters + 2 {
      return;
    }
    if totSec > sectors {
      return;
    }
    if f.fatSz * SECTOR < (clusters + 2) * 4 {
      return;
    }
    if (dataSec + Mul(clusters, f.secPerClus)) * 16 > 0xffff_ffff {
      return;
    }
    var v := Volume(f.secPerClus, f.rsvd, f.fatSz, f.rootClus, dataSec, clusters);
    SoundGeometry(v, f.numFats, totSec, sectors);
    r := Some(v);
  }

  /** `fat32_parse_bpb` on the boot sector of a device of `sectors` sectors. */
  method ParseBpb(b: Sector, sectors: nat) returns (r: Option<Volume>)
    ensures r.Some? ==> r.value.Sound(sectors)
    ensures r.Some? <==> b[510] == 0x55 && b[511] == 0xaa && Acceptable(Fields(b), sectors)
  {
    hide Volume.Sound, Rd16, Rd32, Acceptable;
    if b[510] != 0x55 || b[511] != 0xaa {
      return None;
    }
    r := CheckBpb(Fields(b), sectors);
  }

  /** As many whole clusters as the volume's sectors allow. */
  ghost predicate Fills(v: Volume, totSec: nat) {
    v.dataStart + Mul(v.clusters, v.secPerClus) <= totSec < v.dataStart + Mul(v.clusters + 1, v.secPerClus)
  }

  lemma SoundGeometry(v: Volume, numFats: nat, totSec: nat, sectors: nat)
    requires 1 <= v.secPerClus <= 128 && v.rsvd > 0 && numFats > 0
    requires v.dataStart == v.rsvd + Mul(numFats, v.fatSz) < totSec <= sectors
    requires v.clusters == Quot(totSec - v.dataStart, v.secPerClus) && v.fatSz * SECTOR >= (v.clusters + 2) * 4
    requires (v.dataStart + Mul(v.clusters, v.secPerClus)) * 16 <= 0xffff_ffff && v.Valid(v.rootClus)
    ensures v.Sound(sectors) && Fills(v, totSec)
  {
    QuotBounds(totSec - v.dataStart, v.secPerClus);
    assert Mul(numFats, v.fatSz) >= v.fatSz;
    hide Mul, Quot;
  }

  // ------------------------------------------------------------------------
  // Sectors stay inside their regions
  // ------------------------------------------------------------------------

  /** Every sector of a valid cluster is on the device, past the FATs. */
  lemma DataInside(v: Volume, sectors: nat, c: nat, s: nat)
    requires v.Sound(sectors) && v.Valid(c) && s < v.secPerClus
    ensures v.rsvd + v.fatSz <= v.Lba(c) + s < sectors
  {
    assert Mul(c - 2, v.secPerClus) + v.secPerClus == Mul(c - 1, v.secPerClus);
    MulUp(c - 1, v.clusters, v.secPerClus);
    hide Mul;
  }

  /** The FAT entry of a valid cluster lies in the first FAT. */
  lemma FatInside(v: Volume, sectors: nat, c: nat)
    requires v.Sound(sectors) && v.Valid(c)
    ensures v.rsvd <= v.FatSector(c) < v.rsvd + v.fatSz <= sectors
    ensures (c * 4) % SECTOR + 3 < SECTOR
  {
    hide Mul;
  }

  // ------------------------------------------------------------------------
  // The chain
  // ------------------------------------------------------------------------

  /** The first FAT as one run of bytes. */
  ghost function FatByte(v: Volume, dev: seq<Sector>, k: nat): Byte
    requires v.Sound(|dev|) && k < v.fatSz * SECTOR
  {
    dev[v.rsvd + k / SECTOR][k % SECTOR]
  }

  /** The cluster after `c`: the c-th little-endian word of the FAT, without its top four bits. */
  ghost function Next(v: Volume, dev: seq<Sector>, c: nat): nat
    requires v.Sound(|dev|) && v.Valid(c)
  {
    var k := 4 * c;
    (FatByte(v, dev, k) + 0x100 * FatByte(v, dev, k + 1) + 0x1_0000 * FatByte(v, dev, k + 2)
      + 0x100_0000 * FatByte(v, dev, k + 3)) % ENTRY_MASK
  }

  lemma InOneSector(k: nat, j: nat)
    requires k % 4 == 0 && j < 4
    ensures (k + j) / SECTOR == k / SECTOR && (k + j) % SECTOR == k % SECTOR + j < SECTOR
  {
  }

  lemma FatRoom(v: Volume, sectors: nat, c: nat)
    requires v.Sound(sectors) && v.Valid(c)
    ensures 4 * c + 3 < v.fatSz * SECTOR
  {
    hide Mul;
  }

  /** The four bytes of an entry lie side by side in one sector. */
  lemma FatByteAt(v: Volume, dev: seq<Sector>, k: nat, j: nat)
    requires v.Sound(|dev|) && k % 4 == 0 && j < 4 && k + j < v.fatSz * SECTOR
    ensures v.rsvd + k / SECTOR < |dev| && k % SECTOR + j < SECTOR
    ensures FatByte(v, dev, k + j) == dev[v.rsvd + k / SECTOR][k % SECTOR + j]
  {
    hide Mul;
    InOneSector(k, j);
  }

  /** The clusters reached from `c` in at most `n` steps, up to the end of the chain. */
  ghost function Visit(v: Volume, dev: seq<Sector>, c: nat, n: nat): seq<nat>
    requires v.Sound(|dev|)
    decreases n
  {
    if !v.Valid(c) then []
    else [c] + if n == 0 then [] else Visit(v, dev, Next(v, dev, c), n - 1)
  }

  lemma {:induction false} VisitAt(v: Volume, dev: seq<Sector>, c: nat, n: nat, i: nat)
    requires v.Sound(|dev|) && i < |Visit(v, dev, c, n)|
    ensures i <= n && v.Valid(Visit(v, dev, c, n)[i])
    ensures Visit(v, dev, c, n)[i..] == Visit(v, dev, Visit(v, dev, c, n)[i], n - i)
    ensures i == 0 ==> Visit(v, dev, c, n)[0] == c
    decreases n
  {
    hide Next, Volume.Sound, Volume.Valid, Visit;
    var cs := Visit(v, dev, c, n);
    VisitFirst(v, dev, c, n);
    if i == 0 {
      assert cs[0..] == cs;
    } else {
      VisitAt(v, dev, Next(v, dev, c), n - 1, i - 1);
      var rest := Visit(v, dev, Next(v, dev, c), n - 1);
      assert cs[i] == rest[i - 1];
      assert cs[i..] == rest[i - 1..];
    }
  }

  lemma VisitFirst(v: Volume, dev: seq<Sector>, c: nat, n: nat)
    requires v.Sound(|dev|) && Visit(v, dev, c, n) != []
    ensures v.Valid(c) && Visit(v, dev, c, n) == [c] + if n == 0 then [] else Visit(v, dev, Next(v, dev, c), n - 1)
  {
    hide Next, Volume.Sound, Volume.Valid;
  }

  /** The entry after the i-th cluster: the next one if the walk goes on, no valid cluster if it
      ends before its `n` steps. */
  lemma VisitNext(v: Volume, dev: seq<Sector>, c: nat, n: nat, i: nat)
    requires v.Sound(|dev|) && i < |Visit(v, dev, c, n)|
    ensures v.Valid(Visit(v, dev, c, n)[i])
    ensures var cs := Visit(v, dev, c, n);
      if i + 1 < |cs| then i + 1 <= n && Next(v, dev, cs[i]) == cs[i + 1] && v.Valid(cs[i + 1])
      else i == n || !v.Valid(Next(v, dev, cs[i]))
  {
    hide Next, Volume.Sound, Volume.Valid, Visit;
    var cs := Visit(v, dev, c, n);
    VisitAt(v, dev, c, n, i);
    if i + 1 < |cs| {
      VisitAt(v, dev, c, n, i + 1);
    }
    assert cs[i..] == [cs[i]] + cs[i + 1..];
    VisitStep(v, dev, cs[i], n - i);
  }

  lemma VisitStep(v: Volume, dev: seq<Sector>, c: nat, n: nat)
    requires v.Sound(|dev|) && v.Valid(c)
    ensures var cs := Visit(v, dev, c, n);
      |cs| > 1 ==> n > 0 && cs[1] == Next(v, dev, c)
    ensures |Visit(v, dev, c, n)| == 1 ==> n == 0 || !v.Valid(Next(v, dev, c))
    ensures Visit(v, dev, c, n) != [] && Visit(v, dev, c, n)[0] == c
  {
    hide Next, Volume.Sound, Volume.Valid;
  }

  // ------------------------------------------------------------------------
  // File contents
  // ------------------------------------------------------------------------

  /** Byte `k` of a cluster. */
  ghost function ByteOf(v: Volume, dev: seq<Sector>, c: nat, k: nat): Byte
    requires v.Sound(|dev|) && v.Valid(c) && k < v.ClusterBytes()
  {
    DataInside(v, |dev|, c, k / SECTOR);
    dev[v.Lba(c) + k / SECTOR][k % SECTOR]
  }

  /** The bytes of one cluster. */
  ghost function ClusterData(v: Volume, dev: seq<Sector>, c: nat): (r: seq<Byte>)
    requires v.Sound(|dev|) && v.Valid(c)
  {
    seq(v.ClusterBytes(), k requires 0 <= k < v.ClusterBytes() => ByteOf(v, dev, c, k))
  }

  /** The bytes of a chain of clusters, one after the other. */
  ghost function Concat(v: Volume, dev: seq<Sector>, cs: seq<nat>): seq<Byte>
    requires v.Sound(|dev|) && forall i :: 0 <= i < |cs| ==> v.Valid(cs[i])
  {
    if cs == [] then [] else Concat(v, dev, cs[..|cs| - 1]) + ClusterData(v, dev, cs[|cs| - 1])
  }

  lemma {:induction false} ConcatLength(v: Volume, dev: seq<Sector>, cs: seq<nat>)
    requires v.Sound(|dev|) && forall i :: 0 <= i < |cs| ==> v.Valid(cs[i])
    ensures |Concat(v, dev, cs)| == Mul(|cs|, v.ClusterBytes())
  {
    hide Volume.Sound;
    if cs != [] {
      ConcatLength(v, dev, cs[..|cs| - 1]);
      assert Mul(|cs|, v.ClusterBytes()) == Mul(|cs| - 1, v.ClusterBytes()) + v.ClusterBytes();
    }
  }

  lemma {:induction false} ConcatAt(v: Volume, dev: seq<Sector>, cs: seq<nat>, i: nat, k: nat)
    requires v.Sound(|dev|) && (forall i :: 0 <= i < |cs| ==> v.Valid(cs[i])) && i < |cs| && k < v.ClusterBytes()
    ensures Mul(i, v.ClusterBytes()) + k < |Concat(v, dev, cs)|
    ensures Concat(v, dev, cs)[Mul(i, v.ClusterBytes()) + k] == ClusterData(v, dev, cs[i])[k]
  {
    hide Volume.Sound, ClusterData;
    var init := cs[..|cs| - 1];
    ConcatLength(v, dev, init);
    ConcatLength(v, dev, cs);
    if i < |init| {
      ConcatAt(v, dev, init, i, k);
    }
  }

  /** What a read returns: the bytes of the chain from `offset`, cut at the requested length, the
      file size and the end of the chain. */
  ghost function Slice(all: seq<Byte>, size: nat, offset: nat, len: nat): seq<Byte> {
    var stop := Min(Min(size, offset + len), |all|);
    if offset >= stop then [] else all[offset..stop]
  }

  function Min(a: nat, b: nat): nat {
    if a < b then a else b
  }

  /** `fat32_next_cluster` with readable sectors: the word lies in the one sector that is read. */
  method NextCluster(v: Volume, dev: seq<Sector>, c: nat) returns (r: nat)
    requires v.Sound(|dev|) && v.Valid(c)
    ensures r == Next(v, dev, c)
  {
    hide FatByte, Volume.Sound;
    FatInside(v, |dev|, c);
    FatRoom(v, |dev|, c);
    FatByteAt(v, dev, 4 * c, 0);
    FatByteAt(v, dev, 4 * c, 1);
    FatByteAt(v, dev, 4 * c, 2);
    FatByteAt(v, dev, 4 * c, 3);
    r := Rd32(dev[v.FatSector(c)], (c * 4) % SECTOR) % ENTRY_MASK;
  }

  /** Where a walk of `i` steps stands: at the i-th cluster, or past the end of the chain. */
  ghost predicate Stands(v: Volume, cs: seq<nat>, c: nat, i: nat) {
    i <= |cs| && if i < |cs| then c == cs[i] && v.Valid(c) else !v.Valid(c)
  }

  /** Following the chain to its `index`-th cluster; None when it ends before. */
  method Walk(v: Volume, dev: seq<Sector>, first: nat, index: nat) returns (r: Option<nat>)
    requires v.Sound(|dev|)
    ensures var cs := Visit(v, dev, first, v.clusters);
      if r.None? then |cs| <= index else index <= v.clusters && Stands(v, cs, r.value, index)
  {
    hide Visit, Next, Mul;
    ghost var cs := Visit(v, dev, first, v.clusters);
    StartStands(v, dev, first);
    var cluster: nat, i := first, 0;
    while i < index
      invariant 0 <= i <= index && i <= v.clusters && Stands(v, cs, cluster, i)
    {
      if !v.Valid(cluster) {
        return None;
      }
      VisitNext(v, dev, first, v.clusters, i);
      cluster := NextCluster(v, dev, cluster);
      if cluster >= EOC_MIN || i + 1 > v.clusters {
        return None;
      }
      i := i + 1;
    }
    r := Some(cluster);
  }

  lemma StartStands(v: Volume, dev: seq<Sector>, first: nat)
    requires v.Sound(|dev|)
    ensures Stands(v, Visit(v, dev, first, v.clusters), first, 0)
  {
  }

  lemma ChainLength(v: Volume, dev: seq<Sector>, cs: seq<nat>, at: nat, index: nat)
    requires v.Sound(|dev|) && (forall i :: 0 <= i < |cs| ==> v.Valid(cs[i])) && Mul(index, v.ClusterBytes()) <= at
    ensures |cs| <= index ==> |Concat(v, dev, cs)| <= at
    ensures |cs| == index && at == Mul(index, v.ClusterBytes()) ==> |Concat(v, dev, cs)| == at
  {
    hide Volume.Sound, Concat, Mul;
    ConcatLength(v, dev, cs);
    if |cs| <= index {
      MulUp(|cs|, index, v.ClusterBytes());
    }
  }

  /** A piece of one sector is a piece of the chain's bytes. */
  lemma PieceOf(v: Volume, dev: seq<Sector>, cs: seq<nat>, index: nat, coff: nat, chunk: nat)
    requires v.Sound(|dev|) && (forall i :: 0 <= i < |cs| ==> v.Valid(cs[i])) && index < |cs| && v.Valid(cs[index])
    requires coff < v.ClusterBytes() && coff % SECTOR + chunk <= SECTOR
    ensures coff / SECTOR < v.secPerClus && coff + chunk <= v.ClusterBytes()
    ensures v.Lba(cs[index]) + coff / SECTOR < |dev|
    ensures var at := Mul(index, v.ClusterBytes()) + coff;
      && at + chunk <= |Concat(v, dev, cs)|
      && Concat(v, dev, cs)[at..at + chunk] ==
          dev[v.Lba(cs[index]) + coff / SECTOR][coff % SECTOR..coff % SECTOR + chunk]
  {
    hide Concat, Mul;
    DataInside(v, |dev|, cs[index], coff / SECTOR);
    var at, soff := Mul(index, v.ClusterBytes()) + coff, coff % SECTOR;
    var sector := dev[v.Lba(cs[index]) + coff / SECTOR];
    var all := Concat(v, dev, cs);
    ConcatAt(v, dev, cs, index, v.ClusterBytes() - 1);
    forall x | at <= x < at + chunk ensures all[x] == sector[x - at + soff] {
      var k := x - at + coff;
      ConcatAt(v, dev, cs, index, k);
      assert k / SECTOR == coff / SECTOR && k % SECTOR == soff + (x - at);
    }
    assert all[at..at + chunk] == sector[soff..soff + chunk];
  }

  /** The copying loop of `fat32_read`, from cluster number `index` of the chain. */
  method CopyOut(v: Volume, dev: seq<Sector>, first: nat, start: nat, index: nat, offset: nat, len: nat)
    returns (data: seq<Byte>)
    requires v.Sound(|dev|) && index == Quot(offset, v.ClusterBytes()) && index <= v.clusters
    requires Stands(v, Visit(v, dev, first, v.clusters), start, index)
    ensures data == Slice(Chain(v, dev, first), offset + len, offset, len)
  {
    hide Visit, Next, Mul, Quot, Concat, Volume.Sound, Slice, Copied;
    ghost var cs, all := Visit(v, dev, first, v.clusters), Chain(v, dev, first);
    ChainValid(v, dev, first);
    var cb := v.ClusterBytes();
    SomeBytes(v, |dev|);
    var cluster: nat, guard: nat := start, index;
    data := [];
    NoneCopied(all, offset);
    while |data| < len
      invariant |data| <= len && guard <= v.clusters && Stands(v, cs, cluster, guard)
      invariant |data| < len ==> Quot(offset + |data|, cb) == guard
      invariant Copied(all, offset, data)
      decreases len - |data|
    {
      var cur := offset + |data|;
      var coff := cur % cb;
      var sector, soff := coff / SECTOR, coff % SECTOR;
      DivMod(cur, cb);
      ChainLength(v, dev, cs, cur, guard);
      if !v.Valid(cluster) {
        break;
      }
      var chunk := Min(SECTOR - soff, len - |data|);
      PieceOf(v, dev, cs, guard, coff, chunk);
      CopiedMore(all, offset, data, chunk);
      data := data + dev[v.Lba(cluster) + sector][soff..soff + chunk];
      Advance(cur, cb, guard, coff, chunk);
      ChainLength(v, dev, cs, cur + chunk, guard + if coff + chunk == cb then 1 else 0);
      if |data| < len && (cur + chunk) % cb == 0 {
        VisitNext(v, dev, first, v.clusters, guard);
        cluster := NextCluster(v, dev, cluster);
        EocInvalid(v, |dev|, cluster);
        if cluster >= EOC_MIN || guard + 1 > v.clusters {
          break;
        }
        guard := guard + 1;
      }
    }
    CopiedAll(all, offset, len, data);
  }

  /** `data` is what the chain holds from `offset`. */
  ghost predicate Copied(all: seq<Byte>, offset: nat, data: seq<Byte>) {
    data == [] || (offset + |data| <= |all| && data == all[offset..offset + |data|])
  }

  lemma NoneCopied(all: seq<Byte>, offset: nat)
    ensures Copied(all, offset, [])
  {
  }

  lemma CopiedMore(all: seq<Byte>, offset: nat, data: seq<Byte>, n: nat)
    requires Copied(all, offset, data) && offset + |data| + n <= |all|
    ensures Copied(all, offset, data + all[offset + |data|..offset + |data| + n])
  {
    assert data != [] ==>
        all[offset..offset + |data|] + all[offset + |data|..offset + |data| + n] == all[offset..offset + |data| + n];
  }

  lemma CopiedAll(all: seq<Byte>, offset: nat, len: nat, data: seq<Byte>)
    requires Copied(all, offset, data) && |data| <= len && (|data| == len || offset + |data| >= |all|)
    ensures data == Slice(all, offset + len, offset, len)
  {
  }

  /** The bytes of a file's whole chain. */
  ghost function Chain(v: Volume, dev: seq<Sector>, first: nat): seq<Byte>
    requires v.Sound(|dev|)
  {
    ChainValid(v, dev, first);
    Concat(v, dev, Visit(v, dev, first, v.clusters))
  }

  lemma ChainValid(v: Volume, dev: seq<Sector>, first: nat)
    requires v.Sound(|dev|)
    ensures var cs := Visit(v, dev, first, v.clusters);
      |cs| <= v.clusters + 1 && forall i :: 0 <= i < |cs| ==> v.Valid(cs[i])
  {
    var cs := Visit(v, dev, first, v.clusters);
    forall i | 0 <= i < |cs| ensures v.Valid(cs[i]) && i <= v.clusters {
      VisitAt(v, dev, first, v.clusters, i);
    }
    if cs != [] {
      VisitAt(v, dev, first, v.clusters, |cs| - 1);
    }
  }

  lemma SomeBytes(v: Volume, sectors: nat)
    requires v.Sound(sectors)
    ensures v.ClusterBytes() >= SECTOR
  {
  }

  lemma EocInvalid(v: Volume, sectors: nat, c: nat)
    requires v.Sound(sectors)
    ensures c >= EOC_MIN ==> !v.Valid(c)
  {
  }

  /** Moving on by a piece of a sector: a multiple of the cluster size is reached exactly at the
      end of the cluster. */
  lemma Advance(cur: nat, cb: nat, index: nat, coff: nat, chunk: nat)
    requires cur == Mul(index, cb) + coff && coff < cb && 0 < chunk && coff + chunk <= cb
    ensures (cur + chunk) % cb == 0 <==> coff + chunk == cb
    ensures coff + chunk == cb ==> cur + chunk == Mul(index + 1, cb) && Quot(cur + chunk, cb) == index + 1
    ensures coff + chunk < cb ==> Quot(cur + chunk, cb) == index && cur + chunk >= Mul(index, cb)
  {
    assert Mul(index + 1, cb) == Mul(index, cb) + cb;
    hide Mul, Quot;
    if coff + chunk == cb {
      DivModUnique(cur + chunk, cb, index + 1, 0);
    } else {
      DivModUnique(cur + chunk, cb, index, coff + chunk);
    }
  }

  datatype ReadResult = Read(data: seq<Byte>) | Failed(e: Err)

  /** `fat32_read` with readable sectors, on any chain: the requested slice of the clusters the
      walk reaches, cut at the file size or the end of the chain. */
  method ReadFile(v: Volume, dev: seq<Sector>, isDir: bool, size: nat, first: nat, offset: nat, len: nat)
    returns (r: ReadResult)
    requires v.Sound(|dev|)
    ensures r == if isDir then Failed(EISDIR) else Read(Slice(Chain(v, dev, first), size, offset, len))
  {
    hide Visit, Next, Mul, Quot, Concat, Volume.Sound, Chain;
    if isDir {
      return Failed(EISDIR);
    }
    if offset >= size {
      return Read([]);
    }
    var n := if len > size - offset then size - offset else len;
    if n == 0 {
      return Read([]);
    }
    SomeBytes(v, |dev|);
    var index := Quot(offset, v.ClusterBytes());
    var cluster := Walk(v, dev, first, index);
    if cluster.None? {
      ChainValid(v, dev, first);
      DivMod(offset, v.ClusterBytes());
      ChainEnds(v, dev, first, offset, index);
      return Read([]);
    }
    var data := CopyOut(v, dev, first, cluster.value, index, offset, n);
    r := Read(data);
  }

  lemma ChainEnds(v: Volume, dev: seq<Sector>, first: nat, at: nat, index: nat)
    requires v.Sound(|dev|) && Mul(index, v.ClusterBytes()) <= at && |Visit(v, dev, first, v.clusters)| <= index
    ensures |Chain(v, dev, first)| <= at
  {
    hide Visit, Mul, Concat;
    ChainValid(v, dev, first);
    ChainLength(v, dev, Visit(v, dev, first, v.clusters), at, index);
  }

  // ------------------------------------------------------------------------
  // Acyclic chains
  // ------------------------------------------------------------------------

  /** `cs` is the chain starting at `first`: distinct valid clusters, each entry leading to the
      next, the last one out of the chain. */
  ghost predicate IsChain(v: Volume, dev: seq<Sector>, first: nat, cs: seq<nat>)
    requires v.Sound(|dev|)
  {
    && (forall i, j :: 0 <= i < j < |cs| ==> cs[i] != cs[j])
    && (forall i :: 0 <= i < |cs| ==> v.Valid(cs[i]))
    && (if cs == [] then !v.Valid(first) else cs[0] == first && !v.Valid(Next(v, dev, cs[|cs| - 1])))
    && (forall i :: 0 <= i < |cs| - 1 ==> Next(v, dev, cs[i]) == cs[i + 1])
  }

  lemma {:induction false} DistinctBound(cs: seq<nat>, lo: nat, hi: nat)
    requires lo <= hi && (forall i, j :: 0 <= i < j < |cs| ==> cs[i] != cs[j])
    requires forall i :: 0 <= i < |cs| ==> lo <= cs[i] < hi
    ensures |cs| <= hi - lo
    decreases hi
  {
    if cs != [] {
      assert lo <= cs[0] < hi;
      if i :| 0 <= i < |cs| && cs[i] == hi - 1 {
        var rest := cs[..i] + cs[i + 1..];
        DistinctBound(rest, lo, hi - 1);
      } else {
        DistinctBound(cs, lo, hi - 1);
      }
    }
  }

  /** The walk follows an acyclic chain to its end: its length guard never cuts one short. */
  lemma AcyclicChain(v: Volume, dev: seq<Sector>, first: nat, cs: seq<nat>)
    requires v.Sound(|dev|) && IsChain(v, dev, first, cs)
    ensures Visit(v, dev, first, v.clusters) == cs
  {
    DistinctBound(cs, 2, v.clusters + 2);
    VisitChain(v, dev, first, cs, v.clusters);
  }

  lemma {:induction false} VisitChain(v: Volume, dev: seq<Sector>, first: nat, cs: seq<nat>, n: nat)
    requires v.Sound(|dev|) && IsChain(v, dev, first, cs) && |cs| <= n
    ensures Visit(v, dev, first, n) == cs
    decreases n
  {
    hide Next, Volume.Sound;
    if cs != [] {
      var rest := cs[1..];
      assert cs == [first] + rest;
      assert forall i :: 0 <= i < |rest| ==> rest[i] == cs[i + 1];
      if rest != [] {
        assert Next(v, dev, cs[0]) == cs[1];
        assert rest[|rest| - 1] == cs[|cs| - 1];
      }
      VisitChain(v, dev, Next(v, dev, first), rest, n - 1);
    }
  }
}
