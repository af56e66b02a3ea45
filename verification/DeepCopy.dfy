/** What a user program may observe of memory: a reference machine in which fork
    copies every page at once and every mapped page exists from the start. */
module DeepCopy {
  import opened Base
  import opened Vmas

  type Byte = b: int | 0 <= b < 256

  type Page = p: seq<Byte> | |p| == PAGE_SIZE witness Zeros()

  function Zeros(): seq<Byte> {
    seq(PAGE_SIZE, _ => 0)
  }

  const ZERO: Page := Zeros()

  /** A page of an address space, named by the space and the page's address. */
  datatype Key = Key(space: int, va: int)

  datatype MappedPage = MappedPage(flags: Flags, page: Page)

  type Memory = imap<Key, MappedPage>

  ghost predicate In(k: Key, s: int, lo: int, hi: int) {
    k.space == s && lo <= k.va < hi
  }

  ghost function Map(m: Memory, s: int, lo: int, hi: int, f: Flags): Memory {
    imap k | k in m || (In(k, s, lo, hi) && Aligned(k.va)) ::
      if In(k, s, lo, hi) then MappedPage(f, ZERO) else m[k]
  }

  ghost function Unmap(m: Memory, s: int, lo: int, hi: int): Memory {
    imap k | k in m && !In(k, s, lo, hi) :: m[k]
  }

  ghost function Protect(m: Memory, s: int, lo: int, hi: int, f: Flags): Memory {
    imap k | k in m :: if In(k, s, lo, hi) then m[k].(flags := f) else m[k]
  }

  ghost function Fork(m: Memory, parent: int, child: int): Memory {
    imap k: Key | (if k.space == child then Key(parent, k.va) in m else k in m) ::
      m[if k.space == child then Key(parent, k.va) else k]
  }

  ghost function Destroy(m: Memory, s: int): Memory {
    imap k: Key | k in m && k.space != s :: m[k]
  }

  ghost function Store(m: Memory, s: int, a: nat, b: Byte): Memory {
    var k := Key(s, PageDown(a));
    if k in m then m[k := m[k].(page := m[k].page[a % PAGE_SIZE := b])] else m
  }

  // ------------------------------------------------------------------------
  // Runs
  // ------------------------------------------------------------------------

  const ASLR_PAGES: nat := 262144
  const MMAP_BASE: nat := 0x5555_0000_0000

  datatype Prot = Prot(read: bool, write: bool, exec: bool)

  function ProtToFlags(p: Prot): Flags {
    Flags(p.read, p.write, p.exec)
  }

  /** The flag word of mmap: the three known bits, and whether any other bit is set. */
  datatype MapFlags = MapFlags(isPrivate: bool, anonymous: bool, fixed: bool, unknown: bool)

  /** One system call or user access, acting on space `s`. */
  datatype Op =
    | OpCreate(s: int, aslr: nat)
    | OpFork(s: int, parent: int, aslr: nat)
    | OpDestroy(s: int)
    | OpMap(s: int, addr: nat, length: nat, prot: Prot, flags: MapFlags)
    | OpUnmap(s: int, addr: nat, length: nat)
    | OpProtect(s: int, addr: nat, length: nat, prot: Prot)
    | OpStore(s: int, a: nat, b: Byte)
    | OpLoad(s: int, a: nat)
    | OpFetch(s: int, a: nat)

  /** The argument checks of `sys_munmap` and `sys_mprotect`, with 64-bit sums: the end of
      the page range, or None where they answer EINVAL. */
  function UserRange(addr: nat, length: nat): (end: Option<nat>)
    requires addr < U64 && length < U64
    ensures end.Some? <==> Aligned(addr) && 0 < length <= U64 - PAGE_SIZE && addr + PageAlignUp(length) <= USER_TOP
    ensures end.Some? ==> end.value == addr + PageAlignUp(length) && addr < end.value && Aligned(end.value)
  {
    var len := PageAlignUp(length);
    var end := (addr + len) % U64;
    if !Aligned(addr) || len == 0 || end < addr || end > USER_TOP then None else Some(end)
  }

  /** The MAP_FIXED checks of `vmm_map_anonymous`. */
  predicate FixedRange(addr: nat, len: nat)
    requires addr < U64 && len < U64 && Aligned(len)
    ensures FixedRange(addr, len) ==>
              Aligned(addr) && PAGE_SIZE <= addr && addr + len <= USER_TOP && Aligned(addr + len)
  {
    && Aligned(addr)
    && PAGE_SIZE <= addr < USER_TOP
    && (addr + len) % U64 >= addr
    && (addr + len) % U64 <= USER_TOP
  }

  /** The argument checks of `vmm_map_anonymous` that do not depend on the address. */
  predicate MapArgs(length: nat, prot: Prot, flags: MapFlags)
    requires length < U64
    ensures MapArgs(length, prot, flags) ==> !(prot.write && prot.exec) && 0 < length && 0 < PageAlignUp(length)
  {
    && length != 0
    && PageAlignUp(length) != 0
    && !flags.unknown
    && flags.isPrivate
    && flags.anonymous
    && !(prot.write && prot.exec)
  }

  /** Arguments are 64-bit words. */
  predicate OpOk(op: Op) {
    match op
    case OpCreate(_, aslr) => aslr < ASLR_PAGES
    case OpFork(_, _, aslr) => aslr < ASLR_PAGES
    case OpMap(_, addr, length, _, _) => addr < U64 && length < U64
    case OpUnmap(_, addr, length) => addr < U64 && length < U64
    case OpProtect(_, addr, length, _) => addr < U64 && length < U64
    case _ => true
  }

  /** The reference machine: the live spaces with the ceiling of their mappings, and all memory. */
  datatype Ref = Ref(ceiling: map<int, nat>, mem: Memory)

  /** What came back.  Cleared is MAP_FIXED out of memory after the old range was removed; Killed
      is an access that ends the process. */
  datatype Result = Failed(e: Err) | Cleared | Done | At(addr: nat) | Value(b: Byte) | Killed

  /** What the reference machine does not know of: whether the kernel heap had room during the
      call, whether there were frames for it, and whether the page to be read or executed had an
      entry, and one with NX. */
  datatype Conditions = Conditions(heap: bool, frames: bool, present: bool, nx: bool)

  function Ceiling(aslr: nat): nat
    requires aslr < ASLR_PAGES
  {
    MMAP_BASE - aslr * PAGE_SIZE
  }

  /** The reference machine after one step. */
  ghost function Apply(m: Ref, op: Op, r: Result): Ref {
    match (op, r)
    case (OpCreate(s, aslr), Done) => m.(ceiling := m.ceiling[s := Ceiling(aslr % ASLR_PAGES)])
    case (OpFork(s, parent, aslr), Done) =>
      Ref(m.ceiling[s := Ceiling(aslr % ASLR_PAGES)], Fork(m.mem, parent, s))
    case (OpDestroy(s), Done) => Ref(m.ceiling - {s}, Destroy(m.mem, s))
    case (OpMap(s, _, length, prot, _), At(addr)) =>
      m.(mem := Map(m.mem, s, addr, addr + PageAlignUp(length % U64), ProtToFlags(prot)))
    case (OpMap(s, addr, length, _, _), Cleared) => m.(mem := Unmap(m.mem, s, addr, addr + PageAlignUp(length % U64)))
    case (OpUnmap(s, addr, length), Done) => m.(mem := Unmap(m.mem, s, addr, addr + PageAlignUp(length % U64)))
    case (OpProtect(s, addr, length, prot), Done) =>
      m.(mem := Protect(m.mem, s, addr, addr + PageAlignUp(length % U64), ProtToFlags(prot)))
    case (OpStore(s, a, b), Done) => m.(mem := Store(m.mem, s, a, b))
    case _ => m
  }

  /** [b, b + len) of space `s` is free and lies between the first page and the ceiling. */
  ghost predicate Room(m: Memory, s: int, len: nat, ceiling: nat, b: int) {
    && Aligned(b)
    && PAGE_SIZE <= b
    && b + len <= ceiling
    && forall k :: In(k, s, b, b + len) ==> k !in m
  }

  /** `b` is the highest place with room, and 0 when there is none. */
  ghost predicate HighestRoom(m: Memory, s: int, len: nat, ceiling: nat, b: int) {
    && (b != 0 ==> Room(m, s, len, ceiling, b))
    && forall c :: Room(m, s, len, ceiling, c) ==> c <= b
  }

  /** The page is mapped with flags that allow the access. */
  ghost predicate Readable(m: Memory, s: int, a: nat) {
    Key(s, PageDown(a)) in m && m[Key(s, PageDown(a))].flags.read
  }

  ghost predicate Writable(m: Memory, s: int, a: nat) {
    Key(s, PageDown(a)) in m && m[Key(s, PageDown(a))].flags.write
  }

  ghost predicate Executable(m: Memory, s: int, a: nat) {
    Key(s, PageDown(a)) in m && m[Key(s, PageDown(a))].flags.exec
  }

  /** The results of mmap: the address asked for, or the highest place with room; an error only for
      bad arguments, no room, or a full heap. */
  ghost predicate MapSound(m: Ref, s: int, addr: nat, length: nat, prot: Prot, flags: MapFlags, heap: bool, r: Result)
    requires addr < U64 && length < U64
  {
    var len := PageAlignUp(length);
    if s !in m.ceiling || !MapArgs(length, prot, flags) || (flags.fixed && !FixedRange(addr, len)) then
      r == Failed(EINVAL)
    else if flags.fixed then
      r == At(addr) || (!heap && (r == Failed(ENOMEM) || r == Cleared))
    else
      || (r.At? && r.addr != 0 && HighestRoom(m.mem, s, len, m.ceiling[s], r.addr))
      || (r == Failed(ENOMEM) && (!heap || HighestRoom(m.mem, s, len, m.ceiling[s], 0)))
  }

  /** What a result must be. */
  ghost predicate Sound(m: Ref, op: Op, c: Conditions, r: Result)
    requires OpOk(op)
  {
    match op
    case OpCreate(s, _) =>
      if s in m.ceiling then r == Failed(EEXIST)
      else r == Done || (r == Failed(ENOMEM) && !(c.heap && c.frames))
    case OpFork(s, parent, _) =>
      if parent !in m.ceiling then r == Failed(EINVAL)
      else if s in m.ceiling then r == Failed(EEXIST)
      else r == Done || (r == Failed(ENOMEM) && !(c.heap && c.frames))
    case OpDestroy(s) => r == if s in m.ceiling then Done else Failed(EINVAL)
    case OpMap(s, addr, length, prot, flags) => MapSound(m, s, addr, length, prot, flags, c.heap, r)
    case OpUnmap(s, addr, length) =>
      if s !in m.ceiling || UserRange(addr, length) == None then r == Failed(EINVAL)
      else r == Done || (r == Failed(ENOMEM) && !c.heap)
    case OpProtect(s, addr, length, prot) =>
      if s !in m.ceiling || UserRange(addr, length) == None || (prot.write && prot.exec) then r == Failed(EINVAL)
      else r == Done || (r == Failed(ENOMEM) && !c.heap)
    case OpStore(s, a, _) =>
      (r == Done && Writable(m.mem, s, a)) || (r == Killed && !(Writable(m.mem, s, a) && c.frames))
    case OpLoad(s, a) =>
      || (&& r.Value? && (Readable(m.mem, s, a) || c.present) && Key(s, PageDown(a)) in m.mem
          && r.b == m.mem[Key(s, PageDown(a))].page[a % PAGE_SIZE])
      || (r == Killed && !c.present && !(Readable(m.mem, s, a) && c.frames))
    case OpFetch(s, a) =>
      (r == Done && Executable(m.mem, s, a)) || (r == Killed && !(Executable(m.mem, s, a) && c.frames && !c.nx))
  }

  /** The one request on which the gap search overflows 64 bits: a mapping of all but one page of
      the address space, where nothing is mapped yet. */
  ghost predicate Overflows(m: Ref, op: Op) {
    && op.OpMap? && op.s in m.ceiling && !op.flags.fixed
    && op.length < U64 && PageAlignUp(op.length) == U64 - PAGE_SIZE
    && forall k: Key :: k in m.mem ==> k.space != op.s
  }

  ghost function Replay(m: Ref, ops: seq<Op>, rs: seq<Result>): Ref
    requires |ops| == |rs|
  {
    if ops == [] then m
    else
      var n := |ops| - 1;
      Apply(Replay(m, ops[..n], rs[..n]), ops[n], rs[n])
  }

  ghost predicate AllSound(m: Ref, ops: seq<Op>, cs: seq<Conditions>, rs: seq<Result>)
    requires |ops| == |cs| == |rs| && forall i :: 0 <= i < |ops| ==> OpOk(ops[i])
  {
    forall i :: 0 <= i < |ops| ==> Sound(Replay(m, ops[..i], rs[..i]), ops[i], cs[i], rs[i])
  }

  lemma ReplayStep(m: Ref, ops: seq<Op>, cs: seq<Conditions>, rs: seq<Result>, op: Op, c: Conditions, r: Result)
    requires |ops| == |cs| == |rs| && OpOk(op) && forall i :: 0 <= i < |ops| ==> OpOk(ops[i])
    requires AllSound(m, ops, cs, rs) && Sound(Replay(m, ops, rs), op, c, r)
    ensures Replay(m, ops + [op], rs + [r]) == Apply(Replay(m, ops, rs), op, r)
    ensures AllSound(m, ops + [op], cs + [c], rs + [r])
  {
    hide Sound, Apply;
    assert (ops + [op])[..|ops|] == ops && (rs + [r])[..|ops|] == rs;
    forall i | 0 <= i < |ops|
      ensures (ops + [op])[..i] == ops[..i] && (rs + [r])[..i] == rs[..i]
    {
    }
  }

  /** A run that acts only on other spaces leaves every page of space `t` as it was. */
  lemma {:induction false} Isolation(m: Ref, ops: seq<Op>, rs: seq<Result>, t: int)
    requires |ops| == |rs|
    requires forall i :: 0 <= i < |ops| ==> ops[i].s != t
    ensures var m' := Replay(m, ops, rs);
      forall k: Key :: k.space == t ==> (k in m'.mem <==> k in m.mem) && (k in m.mem ==> m'.mem[k] == m.mem[k])
  {
    if ops != [] {
      var n := |ops| - 1;
      Isolation(m, ops[..n], rs[..n], t);
    }
  }

  /** After fork, whatever the other spaces do, the child reads what the parent held at the fork. */
  lemma {:induction false} ForkSnapshot(m: Ref, parent: int, child: int, aslr: nat, ops: seq<Op>, rs: seq<Result>)
    requires |ops| == |rs| && parent != child
    requires forall i :: 0 <= i < |ops| ==> ops[i].s != child
    ensures var m' := Replay(Apply(m, OpFork(child, parent, aslr), Done), ops, rs);
      forall va: int :: (Key(child, va) in m'.mem <==> Key(parent, va) in m.mem) &&
                        (Key(parent, va) in m.mem ==> m'.mem[Key(child, va)] == m.mem[Key(parent, va)])
  {
    Isolation(Apply(m, OpFork(child, parent, aslr), Done), ops, rs, child);
  }
}
