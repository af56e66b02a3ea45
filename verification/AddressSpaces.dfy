/** Address spaces: copy-on-write fork, lazy fill, mmap, munmap and mprotect
    (kernel/mm/vmm.c, clone_space.c, mmap.c, vma.c, the user-page part of pmm.c, and
    kernel/arch/x86_64/paging.c and exceptions.c). */
module AddressSpaces {
  import opened Base
  import opened Vmas
  import opened DeepCopy
  import opened Accounts

  /** The parts of a state that only failures depend on. */
  datatype Snap = Snap(pool: Pool, tables: map<TableKey, Frame>, pte: map<Key, Pte>)

  /** The conditions an operation meets: a user access takes at most four frames, a fork at most as
      many as its parent has tables. */
  ghost function Under(x: Snap, op: Op, heap: bool): Conditions {
    var frames :=
      match op
      case OpCreate(_, _) => x.pool.free != {}
      case OpFork(_, parent, _) => |x.pool.free| >= |TablesOf(x.tables, parent)|
      case OpStore(_, _, _) => |x.pool.free| >= 4
      case OpLoad(_, _) => |x.pool.free| >= 4
      case OpFetch(_, _) => |x.pool.free| >= 4
      case _ => true;
    var present := (op.OpLoad? || op.OpFetch?) && Key(op.s, PageDown(op.a)) in x.pte;
    Conditions(heap, frames, present, present && x.pte[Key(op.s, PageDown(op.a))].nx)
  }

  ghost function UnderAll(trace: seq<Snap>, ops: seq<Op>, heap: seq<bool>): (cs: seq<Conditions>)
    requires |trace| > |ops| && |heap| >= |ops|
    ensures |cs| == |ops|
  {
    seq(|ops|, i requires 0 <= i < |ops| => Under(trace[i], ops[i], heap[i]))
  }

  lemma UnderMore(trace: seq<Snap>, x: Snap, ops: seq<Op>, op: Op, heap: seq<bool>)
    requires |trace| == |ops| + 1 && |heap| > |ops|
    ensures UnderAll(trace + [x], ops + [op], heap) ==
            UnderAll(trace, ops, heap) + [Under(trace[|ops|], op, heap[|ops|])]
  {
    hide Under;
  }

  lemma NoneSound(m: Ref)
    ensures AllSound(m, [], [], [])
  {
  }

  function MapResult(err: Err, chosen: nat, cleared: bool): Result {
    if err == Ok then At(chosen) else if cleared then Cleared else Failed(err)
  }

  /** From what `vmm_map_anonymous` promises to what the reference machine asks of a mapping. */
  lemma MapOutcome(m: Ref, op: Op, c: Conditions, err: Err, chosen: nat, cleared: bool, mem: Memory)
    requires OpOk(op) && op.OpMap? && err in {Ok, EINVAL, ENOMEM}
    requires err == EINVAL <==>
               || op.s !in m.ceiling || !MapArgs(op.length, op.prot, op.flags)
               || (op.flags.fixed && !FixedRange(op.addr, PageAlignUp(op.length)))
    requires cleared ==> op.flags.fixed && err == ENOMEM
    requires err == ENOMEM && c.heap ==>
               !op.flags.fixed && HighestRoom(m.mem, op.s, PageAlignUp(op.length), m.ceiling[op.s], 0)
    requires err == Ok && op.flags.fixed ==> chosen == op.addr
    requires err == Ok && !op.flags.fixed ==>
               chosen != 0 && HighestRoom(m.mem, op.s, PageAlignUp(op.length), m.ceiling[op.s], chosen)
    requires var hi := PageAlignUp(op.length);
      mem == if err == Ok then Map(m.mem, op.s, chosen, chosen + hi, ProtToFlags(op.prot))
             else if cleared then Unmap(m.mem, op.s, op.addr, op.addr + hi) else m.mem
    ensures var r := MapResult(err, chosen, cleared); Apply(m, op, r) == m.(mem := mem) && Sound(m, op, c, r)
  {
    hide Map, Unmap, PageAlignUp, HighestRoom, FixedRange, MapArgs;
  }

  class Mm {
    var pool: Pool
    var spaces: map<int, Space>
    var pte: map<Key, Pte>
    var tables: map<TableKey, Frame>
    ghost var owner: map<Frame, TableKey>
    var halted: bool

    ghost predicate Inv()
      reads this
    {
      && Accounted(pool, tables, owner, pte, {})
      && AllPlaced(spaces, tables, pte)
      && SpacesOk(spaces, tables)
    }

    ghost function Mem(): Memory
      reads this
    {
      View(spaces, pte, pool.bytes)
    }

    /** Boot: every managed frame but the zero page is free and zero (`pmm_init`). */
    constructor (frames: set<Frame>, zero: Frame)
      requires zero in frames
      ensures pool.frames == frames && pool.zero == zero
      ensures Inv() && !halted && spaces == map[] && Mem() == imap[]
    {
      pool := Pool(frames, zero, frames - {zero}, map f | f in frames :: 0, map f | f in frames :: ZERO);
      spaces := map[];
      pte := map[];
      tables := map[];
      owner := map[];
      halted := false;
      new;
      assert forall f :: Refs(pte, f) == {};
    }

    // ----------------------------------------------------------------------
    // Frames
    // ----------------------------------------------------------------------

    /** `pmm_alloc_pages(0)`: some free frame, or none when there is none. */
    method AllocFrame() returns (f: Option<Frame>)
      modifies this`pool
      ensures f == None <==> old(pool.free) == {}
      ensures f == None ==> pool == old(pool)
      ensures f.Some? ==> f.value in old(pool.free) && pool == old(pool).(free := old(pool.free) - {f.value})
    {
      if pool.free == {} {
        return None;
      }
      var g :| g in pool.free;
      pool := pool.(free := pool.free - {g});
      f := Some(g);
    }

    /** `pmm_free_pages(pa, 0)`: the frame is zeroed before it is published. */
    method FreeFrame(f: Frame)
      requires f !in pool.free
      modifies this`pool
      ensures pool == old(pool).(free := old(pool.free) + {f}, bytes := old(pool.bytes)[f := ZERO])
    {
      pool := pool.(bytes := pool.bytes[f := ZERO]);
      pool := pool.(free := pool.free + {f});
    }

    /** `pmm_alloc_user_page`. */
    method AllocUserPage() returns (f: Option<Frame>)
      modifies this`pool
      ensures f == None <==> old(pool.free) == {}
      ensures f == None ==> pool == old(pool)
      ensures f.Some? ==> f.value in old(pool.free) && pool == Taken(old(pool), f.value)
    {
      f := AllocFrame();
      if f.Some? {
        pool := pool.(refs := pool.refs[f.value := 1]);
      }
    }

    /** `pmm_put_user_page`; its precondition is what the source panics on otherwise. */
    method PutUserPage(f: Frame)
      requires f != pool.zero && f !in pool.free && f in pool.refs && pool.refs[f] > 0
      modifies this`pool
      ensures pool == Released(old(pool), f)
    {
      pool := pool.(refs := pool.refs[f := pool.refs[f] - 1]);
      if pool.refs[f] == 0 {
        FreeFrame(f);
      }
    }

    // ----------------------------------------------------------------------
    // Page tables
    // ----------------------------------------------------------------------

    /** One level of `table_for` with `create` set. */
    method EnsureTable(t: TableKey) returns (ok: bool)
      requires PoolOk(pool, tables, owner)
      modifies this`pool, this`tables, this`owner
      ensures PoolOk(pool, tables, owner) && Grew(old(pool), pool, old(tables), tables, t.space)
      ensures old(tables).Keys <= tables.Keys
      ensures ok ==> t in tables && tables == old(tables)[t := tables[t]]
      ensures !ok ==> tables == old(tables) && owner == old(owner) && pool == old(pool)
      ensures ok ==> |pool.free| >= |old(pool.free)| - 1
      ensures !ok ==> old(pool.free) == {} && t !in tables
      ensures old(t in tables) ==> ok && pool == old(pool) && tables == old(tables) && owner == old(owner)
    {
      hide PoolOk, Grew;
      GrewNot(pool, tables, t.space);
      if t !in tables {
        var f := AllocFrame();
        if f == None {
          return false;
        }
        var words: Page := *;
        TakeTable(old(pool), tables, owner, t, f.value, words);
        GrewOne(old(pool), tables, t, f.value, words);
        tables, owner := tables[t := f.value], owner[f.value := t];
        pool := pool.(bytes := pool.bytes[f.value := words]);
      }
      ok := true;
    }

    /** `paging_map` of one page: missing tables are allocated on the way down. */
    method PagingMap(k: Key, e: Pte) returns (ok: bool)
      requires PoolOk(pool, tables, owner) && TableOf(k, 4) in tables
      modifies this`pool, this`tables, this`owner, this`pte
      ensures PoolOk(pool, tables, owner) && Grew(old(pool), pool, old(tables), tables, k.space)
      ensures pte == if ok then old(pte)[k := e] else old(pte)
      ensures ok ==> Walked(tables, k)
      ensures !ok ==> |old(pool.free)| < 3 && pool.free == {} && !Walked(tables, k)
      ensures forall t :: t in tables ==> t in old(tables) || t in {TableOf(k, 1), TableOf(k, 2), TableOf(k, 3)}
      ensures old(Walked(tables, k)) ==> ok && pool == old(pool) && tables == old(tables) && owner == old(owner)
    {
      hide PoolOk, Grew, Walked, TableOf, WellFormed;
      WalkLevels(tables, k);
      ok := EnsureTable(TableOf(k, 3));
      if !ok {
        WalkLevels(tables, k);
        return;
      }
      ghost var p, ts := pool, tables;
      ok := EnsureTable(TableOf(k, 2));
      GrewTwice(old(pool), p, pool, old(tables), ts, tables, k.space);
      if !ok {
        WalkLevels(tables, k);
        return;
      }
      p, ts := pool, tables;
      ok := EnsureTable(TableOf(k, 1));
      GrewTwice(old(pool), p, pool, old(tables), ts, tables, k.space);
      if !ok {
        WalkLevels(tables, k);
        return;
      }
      WalkLevels(tables, k);
      pte := pte[k := e];
      ok := true;
    }

    /** `paging_protect` of one page: the frame stays, the permissions are replaced. */
    method PagingProtect(k: Key, user: bool, write: bool, nx: bool) returns (err: Err)
      modifies this`pte
      ensures err == if Walked(tables, k) && k in old(pte) then Ok else ENOENT
      ensures pte == if err == Ok then old(pte)[k := Pte(old(pte)[k].frame, user, write, nx)] else old(pte)
    {
      if !Walked(tables, k) || k !in pte {
        return ENOENT;
      }
      pte := pte[k := Pte(pte[k].frame, user, write, nx)];
      err := Ok;
    }

    // ----------------------------------------------------------------------
    // Faults
    // ----------------------------------------------------------------------

    /** `vmm_handle_cow_fault`, reached for a page of a writable area. */
    method HandleCowFault(k: Key) returns (err: Err)
      requires Inv() && Covered(spaces, k) && FlagsAt(spaces[k.space].vmas, k.va).value.write
      modifies this`pte, this`pool, this`tables, this`owner
      ensures Inv() && Mem() == old(Mem())
      ensures pte.Keys == old(pte).Keys && tables == old(tables)
      ensures err == if k !in pte then ENOENT else if pte[k].write then Ok else ENOMEM
      ensures err == ENOMEM ==> old(pool.free) == {}
      ensures err != Ok ==> pte == old(pte) && pool == old(pool)
    {
      hide PoolOk, RefsOk, AllHeld, SpacesOk, Covered, FlagsAt, View;
      if k !in pte {
        return ENOENT;
      }
      var e := pte[k];
      EntryFacts(pool, tables, owner, spaces, pte, k);
      var g := e.(write := true, nx := true);
      if e.frame != pool.zero && pool.refs[e.frame] == 1 {
        ReprotectEntry(pool, tables, owner, pte, k, g);
        err := PagingProtect(k, e.user, true, true);
        SameView(spaces, old(pte), pool.bytes, pte, pool.bytes);
        return;
      }
      var f := AllocUserPage();
      if f == None {
        return ENOMEM;
      }
      TakeFrame(old(pool), tables, owner, pte, f.value);
      FillPinned(pool, tables, owner, pte, f.value, pool.bytes[e.frame]);
      pool := pool.(bytes := pool.bytes[f.value := pool.bytes[e.frame]]);
      g := g.(frame := f.value);
      var ok := PagingMap(k, g);
      InstallPinned(pool, tables, owner, old(pte), k, g);
      if e.frame != pool.zero {
        ReleasePin(pool, tables, owner, pte, e.frame);
        PutUserPage(e.frame);
      }
      SameView(spaces, old(pte), old(pool.bytes), pte, pool.bytes);
      err := Ok;
    }

    /** `vmm_handle_lazy_fault`: the access decides between the zero page and a fresh frame. */
    method HandleLazyFault(k: Key, access: Access) returns (err: Err)
      requires Inv() && Covered(spaces, k) && k !in pte
      modifies this`pte, this`pool, this`tables, this`owner
      ensures Inv() && Mem() == old(Mem())
      ensures err in {Ok, EACCES, ENOMEM}
      ensures err == EACCES <==> !Allows(FlagsAt(spaces[k.space].vmas, k.va).value, access)
      ensures err == ENOMEM ==> |old(pool.free)| < 4
      ensures err == Ok ==> k in pte && pte == old(pte)[k := pte[k]]
      ensures err == Ok ==> pte[k].write == access.Write? && pte[k].nx == !access.Fetch?
      ensures err != Ok ==> pte == old(pte)
    {
      hide PoolOk, RefsOk, AllHeld, SpacesOk, AllPlaced, Grew, FlagsAt;
      SpaceFacts(spaces, tables, k.space);
      FindFlags(spaces[k.space].vmas, k.va);
      if !Allows(spaces[k.space].vmas[Find(spaces[k.space].vmas, k.va)].flags, access) {
        return EACCES;
      }
      var f := Some(pool.zero);
      if access != Read {
        f := AllocUserPage();
        if f == None {
          return ENOMEM;
        }
        TakeFrame(old(pool), tables, owner, pte, f.value);
      }
      ghost var p, pins := pool, if access == Read then {} else {f.value};
      ZeroFacts(old(pool), tables, owner);
      assert f.value !in p.free && f.value in p.bytes && p.bytes[f.value] == ZERO;
      var e := Pte(f.value, true, access == Write, access != Fetch);
      var ok := PagingMap(k, e);
      GrewAccounted(p, pool, old(tables), tables, old(owner), owner, old(pte), pins, k.space);
      GrewPlaced(p, pool, old(tables), tables, spaces, old(pte), k.space);
      if !ok {
        if access != Read {
          ReleasePin(pool, tables, owner, pte, f.value);
          PutUserPage(f.value);
        }
        SameView(spaces, old(pte), old(pool.bytes), pte, pool.bytes);
        return ENOMEM;
      }
      PlaceEntry(spaces, tables, old(pte), k, e);
      if access == Read {
        InstallZero(pool, tables, owner, old(pte), k, e);
      } else {
        InstallPinned(pool, tables, owner, old(pte), k, e);
      }
      GrewBytes(p, pool, old(tables), tables, k.space, f.value);
      SameView(spaces, old(pte), old(pool.bytes), pte, pool.bytes);
      err := Ok;
    }

    /** The user #PF branch of `exceptions_handle`; false means the process is killed. */
    method HandleUserFault(s: int, cr2: nat, access: Access) returns (handled: bool)
      requires Inv() && s in spaces && !Permits(pte, Key(s, PageDown(cr2)), access)
      modifies this`pte, this`pool, this`tables, this`owner
      ensures Inv() && Mem() == old(Mem())
      ensures var k := Key(s, PageDown(cr2));
        && (handled ==>
            Covered(spaces, k) && Permits(pte, k, access) && Allows(FlagsAt(spaces[s].vmas, k.va).value, access))
        && (handled && k !in old(pte) ==> pte[k].nx == (access != Fetch))
        && (handled && k in old(pte) ==> access == Write)
        && (!handled && k !in old(pte) ==>
              !Covered(spaces, k) || !Allows(FlagsAt(spaces[s].vmas, k.va).value, access) || |old(pool.free)| < 4)
        && (!handled && k in old(pte) ==>
              access == Fetch || !FlagsAt(spaces[s].vmas, k.va).value.write || old(pool.free) == {})
    {
      hide PoolOk, RefsOk, AllHeld, AllPlaced, SpacesOk;
      var va := PageDown(cr2);
      var k := Key(s, va);
      SpaceFacts(spaces, tables, s);
      FindFlags(spaces[s].vmas, va);
      SameArea(spaces[s].vmas, cr2);
      var vs := spaces[s].vmas;
      if k in pte {
        EntryFacts(pool, tables, owner, spaces, pte, k);
        if access == Write && Find(vs, cr2) < |vs| && vs[Find(vs, cr2)].flags.write {
          var err := HandleCowFault(k);
          EntryFacts(pool, tables, owner, spaces, pte, k);
          return err == Ok;
        }
      } else if Find(vs, cr2) < |vs| {
        var err := HandleLazyFault(k, access);
        if err == Ok {
          EntryFacts(pool, tables, owner, spaces, pte, k);
        }
        return err == Ok;
      }
      handled := false;
    }

    // ----------------------------------------------------------------------
    // User accesses
    // ----------------------------------------------------------------------

    ghost predicate Allowed(s: int, a: nat, access: Access)
      reads this
    {
      var k := Key(s, PageDown(a));
      Covered(spaces, k) && Allows(FlagsAt(spaces[s].vmas, k.va).value, access)
    }

    /** The MMU check of a user access, with the one fault it may take on the way. */
    method Translate(s: int, a: nat, access: Access) returns (ok: bool)
      requires Inv() && s in spaces
      modifies this`pte, this`pool, this`tables, this`owner
      ensures Inv() && Mem() == old(Mem())
      ensures ok ==> Covered(spaces, Key(s, PageDown(a))) && Permits(pte, Key(s, PageDown(a)), access)
      ensures ok && (access != Read || Key(s, PageDown(a)) !in old(pte)) ==> Allowed(s, a, access)
      ensures !ok && access == Write ==> !Allowed(s, a, access) || |old(pool.free)| < 4
      ensures !ok && Key(s, PageDown(a)) !in old(pte) ==> !Allowed(s, a, access) || |old(pool.free)| < 4
      ensures Key(s, PageDown(a)) in old(pte) && access == Read ==> ok
      ensures Key(s, PageDown(a)) in old(pte) && access == Fetch ==> ok == !old(pte)[Key(s, PageDown(a))].nx
      ensures ok && Key(s, PageDown(a)) !in old(pte) ==> pte[Key(s, PageDown(a))].nx == (access != Fetch)
    {
      hide PoolOk, RefsOk, AllHeld, AllPlaced, SpacesOk;
      var k := Key(s, PageDown(a));
      if k in pte {
        EntryFacts(pool, tables, owner, spaces, pte, k);
      }
      ok := true;
      if !Permits(pte, k, access) {
        ok := HandleUserFault(s, a, access);
      }
    }

    /** A user store: it happens exactly where the area is writable, unless memory
        runs out, and then one byte of one page of one space changes. */
    method UserStore(s: int, a: nat, b: Byte) returns (ok: bool)
      requires Inv() && s in spaces
      modifies this`pte, this`pool, this`tables, this`owner
      ensures Inv()
      ensures Mem() == if ok then Store(old(Mem()), s, a, b) else old(Mem())
      ensures ok ==> Allowed(s, a, Write)
      ensures !ok ==> !Allowed(s, a, Write) || |old(pool.free)| < 4
    {
      hide PoolOk, RefsOk, AllHeld, AllPlaced, SpacesOk;
      ok := Translate(s, a, Write);
      if ok {
        var k := Key(s, PageDown(a));
        EntryFacts(pool, tables, owner, spaces, pte, k);
        var f := pte[k].frame;
        var page: Page := pool.bytes[f][a % PAGE_SIZE := b];
        WriteByte(pool, tables, owner, pte, k, page);
        StoreView(spaces, pte, pool.bytes, pool.bytes[f := page], s, a, b);
        pool := pool.(bytes := pool.bytes[f := page]);
      }
    }

    /** A user load returns what the reference memory holds. */
    method UserLoad(s: int, a: nat) returns (v: Option<Byte>)
      requires Inv() && s in spaces
      modifies this`pte, this`pool, this`tables, this`owner
      ensures Inv() && Mem() == old(Mem())
      ensures v.Some? ==> Key(s, PageDown(a)) in Mem() && v.value == Mem()[Key(s, PageDown(a))].page[a % PAGE_SIZE]
      ensures v == None ==> !Allowed(s, a, Read) || |old(pool.free)| < 4
      ensures Key(s, PageDown(a)) in old(pte) ==> v.Some?
      ensures v.Some? && Key(s, PageDown(a)) !in old(pte) ==> Allowed(s, a, Read)
      ensures v.Some? ==> Key(s, PageDown(a)) in pte
      ensures v.Some? && Key(s, PageDown(a)) !in old(pte) ==> pte[Key(s, PageDown(a))].nx
    {
      hide PoolOk, RefsOk, AllHeld, AllPlaced, SpacesOk;
      var ok := Translate(s, a, Read);
      var k := Key(s, PageDown(a));
      if !ok {
        return None;
      }
      EntryFacts(pool, tables, owner, spaces, pte, k);
      v := Some(pool.bytes[pte[k].frame][a % PAGE_SIZE]);
    }

    /** An instruction fetch.  It succeeds only in an executable area.  With memory to spare it
        goes by the area's flags exactly when the page is untouched, its entry is not NX, or the
        area forbids the fetch anyway. */
    method UserFetch(s: int, a: nat) returns (ok: bool)
      requires Inv() && s in spaces
      modifies this`pte, this`pool, this`tables, this`owner
      ensures Inv() && Mem() == old(Mem())
      ensures ok ==> Allowed(s, a, Fetch)
      ensures Key(s, PageDown(a)) in old(pte) ==> ok == !old(pte)[Key(s, PageDown(a))].nx
      ensures Key(s, PageDown(a)) !in old(pte) && !ok ==> !Allowed(s, a, Fetch) || |old(pool.free)| < 4
      ensures |old(pool.free)| >= 4 ==>
                ((ok <==> Allowed(s, a, Fetch)) <==>
                 Key(s, PageDown(a)) !in old(pte) || !old(pte)[Key(s, PageDown(a))].nx || !Allowed(s, a, Fetch))
    {
      ok := Translate(s, a, Fetch);
    }

    /** Laziness is not invisible to fetches: reading an untouched page of an executable
        area maps the zero page NX, and the fetch that would have succeeded is refused. */
    method FetchAfterRead(s: int, a: nat) returns (ok: bool)
      requires Inv() && s in spaces && Key(s, PageDown(a)) !in pte
      requires Allowed(s, a, Read) && Allowed(s, a, Fetch) && |pool.free| >= 4
      modifies this`pte, this`pool, this`tables, this`owner
      ensures !ok && Allowed(s, a, Fetch)
    {
      var v := UserLoad(s, a);
      assert v.Some?;
      ok := UserFetch(s, a);
    }

    // ----------------------------------------------------------------------
    // Unmapping
    // ----------------------------------------------------------------------

    /** `paging_unmap` of one page. */
    method UnmapPage(k: Key)
      requires Inv()
      modifies this`pte, this`pool
      ensures Inv() && pte == old(pte) - {k}
      ensures pool.frames == old(pool.frames) && pool.zero == old(pool.zero)
      ensures forall j :: j != k ==> PageOf(pte, pool.bytes, j) == PageOf(old(pte), old(pool.bytes), j)
    {
      hide PoolOk, RefsOk, AllHeld, AllPlaced, SpacesOk;
      if k in pte {
        EntryFacts(pool, tables, owner, spaces, pte, k);
        var e := pte[k];
        RemoveEntry(pool, tables, owner, pte, k);
        if e.frame != pool.zero {
          ReleasePin(pool, tables, owner, pte - {k}, e.frame);
          PutUserPage(e.frame);
        }
        pte := pte - {k};
        FewerPlaced(spaces, tables, old(pte), pte);
      } else {
        assert pte - {k} == pte;
      }
    }

    /** `paging_unmap` of the pages of [lo, hi). */
    method PagingUnmap(s: int, lo: int, hi: int)
      requires Inv() && Aligned(lo) && Aligned(hi) && lo <= hi
      modifies this`pte, this`pool
      ensures Inv() && pte == Without(old(pte), s, lo, hi)
      ensures forall j :: !In(j, s, lo, hi) ==> PageOf(pte, pool.bytes, j) == PageOf(old(pte), old(pool.bytes), j)
    {
      hide PoolOk, RefsOk, AllHeld, AllPlaced, SpacesOk;
      EntriesAligned(spaces, tables, pte);
      var va := lo;
      while va < hi
        invariant lo <= va <= hi && Aligned(va)
        invariant Inv() && pte == Without(old(pte), s, lo, va)
        invariant forall j :: !In(j, s, lo, va) ==> PageOf(pte, pool.bytes, j) == PageOf(old(pte), old(pool.bytes), j)
      {
        WithoutStep(old(pte), s, lo, va);
        UnmapPage(Key(s, va));
        va := va + PAGE_SIZE;
      }
    }

    /** One turn of `vma_remove_range`: an area goes, with the pages it covered. */
    method RemoveArea(s: int, i: nat)
      requires Inv() && s in spaces && i < |spaces[s].vmas|
      modifies this`spaces, this`pte, this`pool
      ensures Inv() && s in spaces
      ensures spaces == old(spaces)[s := old(spaces)[s].(vmas := RemoveAt(old(spaces)[s].vmas, i))]
      ensures WellFormed(spaces[s].vmas)
      ensures forall a :: FlagsAt(spaces[s].vmas, a) ==
                if old(spaces)[s].vmas[i].Contains(a) then None else FlagsAt(old(spaces)[s].vmas, a)
      ensures forall j :: !In(j, s, old(spaces)[s].vmas[i].start, old(spaces)[s].vmas[i].end) ==>
                PageOf(pte, pool.bytes, j) == PageOf(old(pte), old(pool.bytes), j)
    {
      hide PoolOk, RefsOk, AllHeld, AllPlaced, SpacesOk, FlagsAt;
      SpaceFacts(spaces, tables, s);
      var v := spaces[s].vmas[i];
      PagingUnmap(s, v.start, v.end);
      RemoveAtFlags(spaces[s].vmas, i);
      EntriesCovered(spaces, tables, pte);
      Relist(spaces, tables, pte, s, RemoveAt(spaces[s].vmas, i));
      spaces := spaces[s := spaces[s].(vmas := RemoveAt(spaces[s].vmas, i))];
    }

    /** The splits that open `vma_remove_range` and `sys_mprotect` change no address's flags. */
    method SplitAreas(s: int, start: nat, end: nat, heap: bool) returns (err: Err)
      requires Inv() && s in spaces && Aligned(start) && Aligned(end) && start < end
      modifies this`spaces
      ensures Inv() && s in spaces && spaces == old(spaces)[s := old(spaces)[s].(vmas := spaces[s].vmas)]
      ensures err == Ok || (err == ENOMEM && !heap)
      ensures forall a :: FlagsAt(spaces[s].vmas, a) == FlagsAt(old(spaces)[s].vmas, a)
      ensures Mem() == old(Mem())
      ensures err == Ok ==> NoStraddle(spaces[s].vmas, start) && NoStraddle(spaces[s].vmas, end)
    {
      hide PoolOk, RefsOk, AllHeld, AllPlaced, SpacesOk, FlagsAt, WellFormed, NoStraddle;
      SpaceFacts(spaces, tables, s);
      var vs;
      err, vs := SplitRange(spaces[s].vmas, start, end, heap);
      KeepsPlaced(spaces, tables, pte, s, vs);
      spaces := spaces[s := spaces[s].(vmas := vs)];
      UnmapView(old(spaces), spaces, pte, pte, pool.bytes, pool.bytes, s, start, start);
    }

    /** The walk of `vma_remove_range`. */
    method RemoveAreas(s: int, start: nat, end: nat)
      requires Inv() && s in spaces && start < end
      requires NoStraddle(spaces[s].vmas, start) && NoStraddle(spaces[s].vmas, end)
      modifies this`spaces, this`pte, this`pool
      ensures Inv() && s in spaces && spaces == old(spaces)[s := old(spaces)[s].(vmas := spaces[s].vmas)]
      ensures forall a :: FlagsAt(spaces[s].vmas, a) == if start <= a < end then None
                else FlagsAt(old(spaces)[s].vmas, a)
      ensures forall j :: !In(j, s, start, end) ==> PageOf(pte, pool.bytes, j) == PageOf(old(pte), old(pool.bytes), j)
    {
      hide Accounted, AllPlaced, SpacesOk, FlagsAt, PageOf;
      SpaceFacts(spaces, tables, s);
      var i := FirstFrom(spaces[s].vmas, start);
      ghost var b := start;
      while i < |spaces[s].vmas| && spaces[s].vmas[i].start < end
        invariant start <= b <= end
        invariant Inv() && s in spaces && spaces == old(spaces)[s := old(spaces)[s].(vmas := spaces[s].vmas)]
        invariant WellFormed(spaces[s].vmas) && NoStraddle(spaces[s].vmas, end)
        invariant 0 <= i <= |spaces[s].vmas|
        invariant forall j :: 0 <= j < i ==> spaces[s].vmas[j].end <= start
        invariant forall j :: i <= j < |spaces[s].vmas| ==> b <= spaces[s].vmas[j].start
        invariant forall a :: FlagsAt(spaces[s].vmas, a) == if start <= a < b then None
                  else FlagsAt(old(spaces)[s].vmas, a)
        invariant forall j :: !In(j, s, start, b) ==> PageOf(pte, pool.bytes, j) == PageOf(old(pte), old(pool.bytes), j)
        decreases |spaces[s].vmas| - i
      {
        var v := spaces[s].vmas[i];
        if v.start >= start && v.end <= end {
          NextFlags(spaces[s].vmas, i, b);
          RemoveArea(s, i);
          b := v.end;
        } else {
          assert false;
        }
      }
      GapFlags(spaces[s].vmas, i, b, end);
    }

    /** `vma_remove_range`: exactly [start, end) of space `s` loses its areas and its pages.
        When a split runs out of memory nothing observable has changed. */
    method RemoveRange(s: int, start: nat, end: nat, heap: bool) returns (err: Err)
      requires Inv() && s in spaces && Aligned(start) && Aligned(end)
      modifies this`spaces, this`pte, this`pool
      ensures Inv() && s in spaces && spaces == old(spaces)[s := old(spaces)[s].(vmas := spaces[s].vmas)]
      ensures err in {Ok, EINVAL, ENOMEM} && (err == EINVAL <==> start >= end) && (err == ENOMEM ==> !heap)
      ensures Mem() == if err == Ok then Unmap(old(Mem()), s, start, end) else old(Mem())
      ensures err == Ok ==> forall a :: start <= a < end ==> FlagsAt(spaces[s].vmas, a) == None
    {
      hide Accounted, AllPlaced, SpacesOk, FlagsAt, PageOf, NoStraddle;
      if start >= end {
        return EINVAL;
      }
      err := SplitAreas(s, start, end, heap);
      if err == Ok {
        RemoveAreas(s, start, end);
        UnmapView(old(spaces), spaces, old(pte), pte, old(pool.bytes), pool.bytes, s, start, end);
      }
    }

    // ----------------------------------------------------------------------
    // mmap and munmap
    // ----------------------------------------------------------------------

    /** The insertion that ends `vmm_map_anonymous`: no entries, only an area. */
    method AddArea(s: int, v: Vma, heap: bool) returns (err: Err)
      requires Inv() && s in spaces && (v.Ok() || spaces[s].vmas == [])
      requires v.Ok() ==> forall a :: v.Contains(a) ==> FlagsAt(spaces[s].vmas, a) == None
      modifies this`spaces
      ensures s in spaces && spaces == old(spaces)[s := old(spaces)[s].(vmas := spaces[s].vmas)]
      ensures err == Ok || (err == ENOMEM && !heap)
      ensures err != Ok ==> Inv() && Mem() == old(Mem())
      ensures err == Ok && v.Ok() ==> Inv() && Mem() == Map(old(Mem()), s, v.start, v.end, v.flags)
      ensures err == Ok && !v.Ok() ==> !Inv() && spaces[s].vmas == [v]
    {
      hide PoolOk, RefsOk, AllHeld, AllPlaced, SpacesOk, FlagsAt;
      SpaceFacts(spaces, tables, s);
      var haveMemory := Kzalloc(heap);
      if !haveMemory {
        return ENOMEM;
      }
      var vs;
      if v.Ok() {
        UncoveredFits(spaces[s].vmas, v);
      }
      err, vs := Insert(spaces[s].vmas, v);
      if v.Ok() {
        EntriesCovered(spaces, tables, pte);
        Relist(spaces, tables, pte, s, vs);
        MapView(spaces, spaces[s := spaces[s].(vmas := vs)], pte, pool.bytes, s, v.start, v.end, v.flags);
      }
      spaces := spaces[s := spaces[s].(vmas := vs)];
      if !v.Ok() {
        BadList(spaces, tables, s);
      }
    }

    /** Where a mapping goes: at `addr`, clearing what is there, or in the highest gap. */
    method PlaceRange(s: int, addr: nat, len: nat, fixed: bool, heap: bool) returns (err: Err, chosen: nat)
      requires Inv() && s in spaces && addr < U64 && 0 < len < U64 && Aligned(len)
      modifies this`spaces, this`pte, this`pool
      ensures Inv() && s in spaces && spaces == old(spaces)[s := old(spaces)[s].(vmas := spaces[s].vmas)]
      ensures err in {Ok, EINVAL, ENOMEM} && (err == EINVAL <==> fixed && !FixedRange(addr, len))
      ensures fixed && err == ENOMEM ==> !heap
      ensures err != Ok ==> Mem() == old(Mem())
      ensures err == Ok && fixed ==> chosen == addr && Mem() == Unmap(old(Mem()), s, addr, addr + len)
      ensures !fixed ==> spaces == old(spaces) && Mem() == old(Mem())
      ensures !fixed && Wraps(spaces[s], len) ==> err == Ok && chosen == spaces[s].mmapBase + PAGE_SIZE
      ensures !fixed && !Wraps(spaces[s], len) ==> (err == Ok <==> chosen != 0)
      ensures !fixed && !Wraps(spaces[s], len) ==> Highest(spaces[s].vmas, len, spaces[s].mmapBase, chosen)
      ensures err == Ok && (fixed || !Wraps(spaces[s], len)) ==>
                && Aligned(chosen) && PAGE_SIZE <= chosen && chosen + len <= USER_TOP
                && forall a :: chosen <= a < chosen + len ==> FlagsAt(spaces[s].vmas, a) == None
    {
      hide Accounted, AllPlaced, SpacesOk, FlagsAt, FixedRange, PageOf, View;
      SpaceFacts(spaces, tables, s);
      if fixed {
        if !FixedRange(addr, len) {
          return EINVAL, 0;
        }
        chosen := addr;
        err := RemoveRange(s, chosen, chosen + len, heap);
      } else {
        chosen := FindGapTopDown(spaces[s].vmas, len, spaces[s].mmapBase);
        if chosen == 0 {
          return ENOMEM, 0;
        }
        if !Wraps(spaces[s], len) {
          FitsUncovered(spaces[s].vmas, len, spaces[s].mmapBase, chosen);
        }
        err := Ok;
      }
    }

    /** `vmm_map_anonymous`.  The mapped pages read as zero at once.  The one failure that
        leaves a trace is MAP_FIXED running out of memory after the old range is gone.
        A success keeps the invariant exactly when the gap search did not wrap. */
    method MapAnonymous(s: int, addr: nat, length: nat, prot: Prot, flags: MapFlags, heap: bool)
      returns (err: Err, chosen: nat, cleared: bool)
      requires Inv() && addr < U64 && length < U64
      modifies this`spaces, this`pte, this`pool
      ensures Ceilings(spaces) == Ceilings(old(spaces)) && spaces.Keys == old(spaces).Keys
      ensures err in {Ok, EINVAL, ENOMEM}
      ensures err == EINVAL <==>
                || s !in spaces || !MapArgs(length, prot, flags)
                || (flags.fixed && !FixedRange(addr, PageAlignUp(length)))
      ensures err != Ok ==> Inv() && Mem() == if cleared then Unmap(old(Mem()), s, addr, addr + PageAlignUp(length))
                else old(Mem())
      ensures cleared ==> flags.fixed && err == ENOMEM
      ensures err == ENOMEM && heap ==>
                !flags.fixed && Highest(old(spaces)[s].vmas, PageAlignUp(length), old(spaces)[s].mmapBase, 0)
      ensures err == Ok ==> (Inv() <==> flags.fixed || !Wraps(old(spaces)[s], PageAlignUp(length)))
      ensures err == Ok && Inv() ==>
                && Aligned(chosen) && PAGE_SIZE <= chosen && chosen + PageAlignUp(length) <= USER_TOP
                && Mem() == Map(old(Mem()), s, chosen, chosen + PageAlignUp(length), ProtToFlags(prot))
      ensures err == Ok && flags.fixed ==> chosen == addr
      ensures err == Ok && Inv() && !flags.fixed ==>
                && Highest(old(spaces)[s].vmas, PageAlignUp(length), old(spaces)[s].mmapBase, chosen)
                && forall k :: In(k, s, chosen, chosen + PageAlignUp(length)) ==> k !in old(Mem())
      ensures err == Ok && !Inv() ==>
                spaces[s].vmas == [Vma(old(spaces)[s].mmapBase + PAGE_SIZE, old(spaces)[s].mmapBase, ProtToFlags(prot))]
    {
      hide Inv, FlagsAt, PageAlignUp, View, Map, Unmap, Highest, FixedRange, Ceilings;
      var len := PageAlignUp(length);
      if s !in spaces || !MapArgs(length, prot, flags) {
        return EINVAL, 0, false;
      }
      Listed(s);
      MemAligned(spaces, pte, pool.bytes);
      err, chosen := PlaceRange(s, addr, len, flags.fixed, heap);
      SameCeilings(old(spaces), s, spaces[s].vmas);
      if err != Ok {
        return err, chosen, false;
      }
      ghost var was := spaces;
      if flags.fixed || !Wraps(spaces[s], len) {
        UncoveredKeys(spaces, pte, pool.bytes, s, chosen, chosen + len);
        MapAfterUnmap(old(Mem()), s, chosen, chosen + len, ProtToFlags(prot));
      }
      err := AddArea(s, Vma(chosen, (chosen + len) % U64, ProtToFlags(prot)), heap);
      SameCeilings(was, s, spaces[s].vmas);
      cleared := flags.fixed && err != Ok;
    }

    /** `sys_munmap`. */
    method Munmap(s: int, addr: nat, length: nat, heap: bool) returns (err: Err)
      requires Inv() && s in spaces && addr < U64 && length < U64
      modifies this`spaces, this`pte, this`pool
      ensures Inv() && Ceilings(spaces) == Ceilings(old(spaces))
      ensures Mem() == if err == Ok then Unmap(old(Mem()), s, addr, addr + PageAlignUp(length)) else old(Mem())
      ensures err in {Ok, EINVAL, ENOMEM} && (err == EINVAL <==> UserRange(addr, length) == None)
      ensures (err == ENOMEM ==> !heap)
    {
      hide Accounted, AllPlaced, SpacesOk, View, UserRange;
      var end := UserRange(addr, length);
      if end == None {
        return EINVAL;
      }
      err := RemoveRange(s, addr, end.value, heap);
      SameCeilings(old(spaces), s, spaces[s].vmas);
    }

    // ----------------------------------------------------------------------
    // mprotect
    // ----------------------------------------------------------------------

    /** The per-page body of `sys_mprotect`: write is withheld from shared pages and the zero page. */
    method ProtectPage(k: Key, f: Flags) returns (err: Err)
      requires Accounted(pool, tables, owner, pte, {}) && !(f.write && f.exec)
      requires k in pte ==> Placed(spaces, tables, k, Bare(pte[k])) && FlagsAt(spaces[k.space].vmas, k.va) == Some(f)
      modifies this`pte
      ensures err == Ok && Accounted(pool, tables, owner, pte, {})
      ensures pte.Keys == old(pte).Keys && forall j :: j in pte && j != k ==> pte[j] == old(pte)[j]
      ensures k in pte ==> Placed(spaces, tables, k, pte[k])
      ensures forall j :: PageOf(pte, pool.bytes, j) == PageOf(old(pte), pool.bytes, j)
    {
      hide PoolOk, RefsOk, SpacesOk, FlagsAt;
      if k !in pte {
        return Ok;
      }
      var e := pte[k];
      assert Held(pool, e);
      var write := f.write && e.frame != pool.zero && pool.refs[e.frame] <= 1;
      ReprotectEntry(pool, tables, owner, pte, k, Pte(e.frame, true, write, !f.exec));
      err := PagingProtect(k, true, write, !f.exec);
    }

    /** One turn of `sys_mprotect`: an area inside the range takes the new flags. */
    method ProtectArea(s: int, i: nat, f: Flags)
      requires Inv() && s in spaces && i < |spaces[s].vmas| && !(f.write && f.exec)
      modifies this`spaces, this`pte
      ensures Inv() && s in spaces
      ensures var vs := old(spaces)[s].vmas;
        spaces == old(spaces)[s := old(spaces)[s].(vmas := vs[i := vs[i].(flags := f)])]
      ensures WellFormed(spaces[s].vmas)
      ensures forall a :: FlagsAt(spaces[s].vmas, a) ==
                if old(spaces)[s].vmas[i].Contains(a) then Some(f) else FlagsAt(old(spaces)[s].vmas, a)
      ensures forall j :: PageOf(pte, pool.bytes, j) == PageOf(old(pte), pool.bytes, j)
    {
      hide Accounted, AllPlaced, HalfPlaced, SpacesOk, FlagsAt, PageOf, Placed;
      SpaceFacts(spaces, tables, s);
      var v := spaces[s].vmas[i];
      ReflagHalfPlaced(spaces, tables, pte, s, i, f);
      SetFlagsFlags(spaces[s].vmas, i, f);
      spaces := spaces[s := spaces[s].(vmas := spaces[s].vmas[i := v.(flags := f)])];
      var va := v.start;
      while va < v.end
        modifies this`pte
        invariant v.start <= va <= v.end && Aligned(va)
        invariant Accounted(pool, tables, owner, pte, {}) && HalfPlaced(spaces, tables, pte, s, va, v.end)
        invariant forall j :: PageOf(pte, pool.bytes, j) == PageOf(old(pte), pool.bytes, j)
      {
        ghost var was := pte;
        assert v.Contains(va);
        assert FlagsAt(spaces[s].vmas, va) == Some(f);
        HalfPlacedAt(spaces, tables, pte, s, va, v.end, Key(s, va));
        var err := ProtectPage(Key(s, va), f);
        ProtectStep(spaces, tables, was, pte, s, va, v.end);
        va := va + PAGE_SIZE;
      }
      HalfPlacedDone(spaces, tables, pte, s, v.end);
    }

    /** The walk of `sys_mprotect`. */
    method ProtectAreas(s: int, start: nat, end: nat, f: Flags)
      requires Inv() && s in spaces && start < end && !(f.write && f.exec)
      requires NoStraddle(spaces[s].vmas, start) && NoStraddle(spaces[s].vmas, end)
      modifies this`spaces, this`pte
      ensures Inv() && s in spaces && spaces == old(spaces)[s := old(spaces)[s].(vmas := spaces[s].vmas)]
      ensures forall a :: FlagsAt(spaces[s].vmas, a) ==
                if start <= a < end && FlagsAt(old(spaces)[s].vmas, a).Some? then Some(f)
                    else FlagsAt(old(spaces)[s].vmas, a)
      ensures forall j :: PageOf(pte, pool.bytes, j) == PageOf(old(pte), pool.bytes, j)
    {
      hide Inv, FlagsAt, PageOf, WellFormed, NoStraddle;
      Listed(s);
      var i := FirstFrom(spaces[s].vmas, start);
      StartsFrom(spaces[s].vmas, i, start);
      ghost var b := start;
      while i < |spaces[s].vmas| && spaces[s].vmas[i].start < end
        invariant start <= b <= end
        invariant Inv() && s in spaces && spaces == old(spaces)[s := old(spaces)[s].(vmas := spaces[s].vmas)]
        invariant WellFormed(spaces[s].vmas) && NoStraddle(spaces[s].vmas, end)
        invariant 0 <= i <= |spaces[s].vmas|
        invariant forall j :: 0 <= j < i ==> spaces[s].vmas[j].end <= b
        invariant forall j :: i <= j < |spaces[s].vmas| ==> b <= spaces[s].vmas[j].start
        invariant forall a :: FlagsAt(spaces[s].vmas, a) ==
                    if start <= a < b && FlagsAt(old(spaces)[s].vmas, a).Some? then Some(f)
                        else FlagsAt(old(spaces)[s].vmas, a)
        invariant forall j :: PageOf(pte, pool.bytes, j) == PageOf(old(pte), pool.bytes, j)
        decreases |spaces[s].vmas| - i
      {
        var v := spaces[s].vmas[i];
        if v.start >= start && v.end <= end {
          Reflagged(spaces[s].vmas, i, f, b, end);
          AreaFlags(spaces[s].vmas, i);
          ProtectArea(s, i, f);
          b := v.end;
        } else {
          Inside(spaces[s].vmas, i, start, end);
          assert false;
        }
        i := i + 1;
      }
      Onward(spaces[s].vmas, i, end);
      GapFlags(spaces[s].vmas, i, b, end);
    }

    /** `sys_mprotect`: every covered address of the range takes the new flags, nothing else
        changes, and no page's contents change. */
    method Mprotect(s: int, addr: nat, length: nat, prot: Prot, heap: bool) returns (err: Err)
      requires Inv() && s in spaces && addr < U64 && length < U64
      modifies this`spaces, this`pte
      ensures Inv() && Ceilings(spaces) == Ceilings(old(spaces))
      ensures err in {Ok, EINVAL, ENOMEM} && (err == ENOMEM ==> !heap)
      ensures err == EINVAL <==> (prot.write && prot.exec) || UserRange(addr, length) == None
      ensures Mem() == if err == Ok then Protect(old(Mem()), s, addr, addr + PageAlignUp(length), ProtToFlags(prot))
                else old(Mem())
    {
      hide Accounted, AllPlaced, SpacesOk, FlagsAt, PageOf, NoStraddle, UserRange;
      var end := UserRange(addr, length);
      if (prot.write && prot.exec) || end == None {
        return EINVAL;
      }
      err := SplitAreas(s, addr, end.value, heap);
      SameCeilings(old(spaces), s, spaces[s].vmas);
      if err != Ok {
        return;
      }
      ghost var was, wasPte := spaces, pte;
      ProtectAreas(s, addr, end.value, ProtToFlags(prot));
      SameCeilings(was, s, spaces[s].vmas);
      ProtectView(was, spaces, wasPte, pte, pool.bytes, s, addr, end.value, ProtToFlags(prot));
    }

    // ----------------------------------------------------------------------
    // Creating and destroying spaces
    // ----------------------------------------------------------------------

    /** `vmm_create_space`: `s` is the fresh descriptor and `aslr` the random page offset. */
    method CreateSpace(s: int, aslr: nat, heap: bool) returns (ok: bool)
      requires Inv() && s !in spaces && aslr < ASLR_PAGES
      modifies this`spaces, this`tables, this`owner, this`pool
      ensures Inv() && Mem() == old(Mem())
      ensures ok ==> spaces == old(spaces)[s := Space([], Ceiling(aslr))]
      ensures ok ==> TablesOf(tables, s) == {TableKey(s, 4, 0)} && |pool.free| + 1 == |old(pool.free)|
      ensures !ok ==> !heap || old(pool.free) == {}
      ensures OtherTables(tables, s) == OtherTables(old(tables), s)
      ensures !ok ==> spaces == old(spaces) && tables == old(tables) && pool == old(pool)
      ensures pool.frames == old(pool.frames) && pool.zero == old(pool.zero)
      ensures forall k :: PageOf(pte, pool.bytes, k) == PageOf(pte, old(pool.bytes), k)
    {
      hide Accounted, AllPlaced, SpacesOk, Grew, PageOf, View, OtherTables, PoolOk, FlagsAt;
      AccountedPool(pool, tables, owner, pte);
      var haveMemory := Kzalloc(heap);
      if !haveMemory {
        return false;
      }
      var base := Ceiling(aslr);
      NoTables(spaces, tables, s);
      NewSpace(spaces, tables, pte, pool.bytes, s, base, 0);
      ok := EnsureTable(TableKey(s, 4, 0));
      if ok {
        GrewCount(old(pool), pool, old(tables), tables, s);
        GrewAccounted(old(pool), pool, old(tables), tables, old(owner), owner, pte, {}, s);
        GrewOthers(old(pool), pool, old(tables), tables, s);
        NewSpace(spaces, old(tables), pte, pool.bytes, s, base, tables[TableKey(s, 4, 0)]);
        SameView(spaces, pte, old(pool.bytes), pte, pool.bytes);
        spaces := spaces[s := Space([], base)];
      }
    }

    /** One iteration of the last loops of `paging_destroy_user_half`. */
    method FreeTable(t: TableKey)
      requires Accounted(pool, tables, owner, pte, {}) && AllPlaced(spaces, tables, pte) && t in tables
      requires forall k :: k in pte ==> k.space != t.space
      modifies this`tables, this`owner, this`pool
      ensures Accounted(pool, tables, owner, pte, {}) && AllPlaced(spaces, tables, pte)
      ensures tables == old(tables) - {t}
      ensures pool.frames == old(pool.frames) && pool.zero == old(pool.zero)
      ensures forall k :: PageOf(pte, pool.bytes, k) == PageOf(pte, old(pool.bytes), k)
    {
      hide PoolOk, RefsOk, AllHeld, AllPlaced;
      var f := tables[t];
      DropTable(pool, tables, owner, pte, t);
      DropTablePlaced(spaces, tables, pte, t);
      FreeFrame(f);
      tables, owner := tables - {t}, owner - {f};
    }

    /** `vmm_destroy_space`: everything the space held is returned; nobody else notices. */
    method DestroySpace(s: int)
      requires Inv() && s in spaces
      modifies this`spaces, this`pte, this`tables, this`owner, this`pool
      ensures Inv() && spaces == old(spaces) - {s}
      ensures pte == Others(old(pte), s)
      ensures tables == OtherTables(old(tables), s)
      ensures pool.frames == old(pool.frames) && pool.zero == old(pool.zero)
      ensures Mem() == Destroy(old(Mem()), s)
      ensures forall k: Key :: k.space != s ==> PageOf(pte, pool.bytes, k) == PageOf(old(pte), old(pool.bytes), k)
    {
      hide Accounted, AllPlaced, SpacesOk, PageOf, View;
      var mine := set k | k in pte && k.space == s;
      while mine != {}
        modifies this`pte, this`pool
        invariant Inv()
        invariant mine == set k | k in pte && k.space == s
        invariant Others(pte, s) == Others(old(pte), s)
        invariant pool.frames == old(pool.frames) && pool.zero == old(pool.zero)
        invariant forall k: Key :: k.space != s ==> PageOf(pte, pool.bytes, k) == PageOf(old(pte), old(pool.bytes), k)
        decreases mine
      {
        var k :| k in mine;
        UnmapPage(k);
        mine := mine - {k};
      }
      forall k | k in pte ensures k.space != s {
        assert k !in mine;
      }
      assert pte == Others(pte, s);
      DropSpacePlaced(spaces, tables, pte, s);
      ReleaseTables(s);
      DestroyView(old(spaces), old(pte), pte, old(pool.bytes), pool.bytes, s);
    }

    /** The tables of a space without entries are freed, and the space is gone. */
    method ReleaseTables(s: int)
      requires Inv() && s in spaces && (forall k :: k in pte ==> k.space != s)
      modifies this`spaces, this`tables, this`owner, this`pool
      ensures Inv() && spaces == old(spaces) - {s}
      ensures tables == OtherTables(old(tables), s)
      ensures pool.frames == old(pool.frames) && pool.zero == old(pool.zero)
      ensures forall k :: PageOf(pte, pool.bytes, k) == PageOf(pte, old(pool.bytes), k)
    {
      hide Accounted, AllPlaced, PageOf;
      DropSpacePlaced(spaces, tables, pte, s);
      spaces := spaces - {s};
      var mine := set t | t in tables && t.space == s;
      while mine != {}
        modifies this`tables, this`owner, this`pool
        invariant Accounted(pool, tables, owner, pte, {}) && AllPlaced(spaces, tables, pte)
        invariant mine == set t | t in tables && t.space == s
        invariant tables.Keys <= old(tables).Keys
        invariant forall t :: t in old(tables) && t.space != s ==> t in tables
        invariant forall t :: t in tables ==> tables[t] == old(tables)[t]
        invariant pool.frames == old(pool.frames) && pool.zero == old(pool.zero)
        invariant forall k :: PageOf(pte, pool.bytes, k) == PageOf(pte, old(pool.bytes), k)
        decreases mine
      {
        var t :| t in mine;
        FreeTable(t);
        mine := mine - {t};
      }
      forall t | t in tables ensures t.space != s {
        assert t !in mine;
      }
    }

    // ----------------------------------------------------------------------
    // fork
    // ----------------------------------------------------------------------

    /** What cloning towards `dst` leaves alone: other spaces' frames, contents and tables. */
    twostate predicate OnlyAdds(dst: int)
      reads this
    {
      && SameFrames(Others(old(pte), dst), Others(pte, dst))
      && OtherTables(tables, dst) == OtherTables(old(tables), dst)
      && pool.frames == old(pool.frames)
      && pool.zero == old(pool.zero)
      && |pool.free| + |TablesOf(tables, dst)| == |old(pool.free)| + |TablesOf(old(tables), dst)|
      && forall k: Key :: k.space != dst ==> PageOf(pte, pool.bytes, k) == PageOf(old(pte), old(pool.bytes), k)
    }

    /** The frames ran out before `dst` had as many tables as `src`. */
    ghost predicate Starved(src: int, dst: int)
      reads this
    {
      pool.free == {} && |TablesOf(tables, dst)| < |TablesOf(tables, src)|
    }

    /** `pmm_get_user_page`: the one panic that can fire is the overflow of a 16-bit count. */
    method GetUserPage(f: Frame)
      requires f != pool.zero && f !in pool.free && f in pool.refs && pool.refs[f] > 0
      modifies this`pool, this`halted
      ensures halted == (old(halted) || old(pool.refs)[f] == REFCOUNT_MAX)
      ensures !halted ==> pool == old(pool).(refs := old(pool.refs)[f := old(pool.refs)[f] + 1])
    {
      if pool.refs[f] == REFCOUNT_MAX {
        halted := true;
        return;
      }
      pool := pool.(refs := pool.refs[f := pool.refs[f] + 1]);
    }

    /** The parent's side of sharing: its entry loses PTE_WRITE, if it had it. */
    method MakeReadOnly(k: Key) returns (err: Err)
      requires Inv() && k in pte
      modifies this`pte
      ensures err == Ok && Inv() && pte == old(pte)[k := old(pte)[k].(write := false)]
      ensures forall j :: PageOf(pte, pool.bytes, j) == PageOf(old(pte), pool.bytes, j)
    {
      hide PoolOk, RefsOk, AllHeld, AllPlaced, SpacesOk, Covered;
      var e := pte[k];
      EntryFacts(pool, tables, owner, spaces, pte, k);
      err := Ok;
      if e.write {
        ReprotectEntry(pool, tables, owner, pte, k, e.(write := false));
        PlaceEntry(spaces, tables, pte, k, e.(write := false));
        err := PagingProtect(k, e.user, false, e.nx);
      } else {
        assert pte[k := e.(write := false)] == pte;
      }
    }

    /** The child's side of sharing: an entry for the same frame, and one reference more. */
    method SharePage(k: Key, child: Key) returns (ok: bool)
      requires Inv() && !halted && k in pte && !pte[k].write && child !in pte && Covered(spaces, child)
      requires k.space != child.space && child.va == k.va && Mirrored(tables, k.space, child.space)
      requires k.space in spaces && FlagsAt(spaces[child.space].vmas, k.va) == FlagsAt(spaces[k.space].vmas, k.va)
      modifies this`pte, this`pool, this`tables, this`owner, this`halted
      ensures !halted ==> Inv() && pte == if ok then old(pte)[child := old(pte)[k]] else old(pte)
      ensures !halted ==> pool.frames == old(pool.frames) && pool.zero == old(pool.zero)
      ensures !halted ==> OtherTables(tables, child.space) == OtherTables(old(tables), child.space)
      ensures !halted ==>
                |pool.free| + |TablesOf(tables, child.space)| == |old(pool.free)| + |TablesOf(old(tables), child.space)|
      ensures !halted ==> Mirrored(tables, k.space, child.space) && (!ok ==> Starved(k.space, child.space))
      ensures !halted ==> forall j :: PageOf(old(pte), pool.bytes, j) == PageOf(old(pte), old(pool.bytes), j)
    {
      hide PoolOk, RefsOk, AllHeld, AllPlaced, SpacesOk, Grew, OtherTables, PageOf, Mirrored, Walked, TablesOf, FlagsAt;
      var e := pte[k];
      EntryFacts(pool, tables, owner, spaces, pte, k);
      SpaceFacts(spaces, tables, child.space);
      ok := PagingMap(child, e);
      GrewAccounted(old(pool), pool, old(tables), tables, old(owner), owner, old(pte), {}, child.space);
      GrewPlaced(old(pool), pool, old(tables), tables, spaces, old(pte), child.space);
      GrewOthers(old(pool), pool, old(tables), tables, child.space);
      GrewCount(old(pool), pool, old(tables), tables, child.space);
      MirrorWalk(old(tables), tables, k, child);
      if !ok {
        MissingTable(tables, k, child);
        return;
      }
      PlaceEntry(spaces, tables, old(pte), child, e);
      if e.frame != pool.zero {
        EntryFacts(pool, tables, owner, spaces, old(pte), k);
        ShareEntry(pool, tables, owner, old(pte), k, child, e);
        GetUserPage(e.frame);
      } else {
        InstallZero(pool, tables, owner, old(pte), child, e);
      }
    }

    /** The page loop body of `clone_one_vma`. */
    method ClonePage(src: int, dst: int, va: int) returns (err: Err)
      requires Inv() && !halted && src in spaces && dst in spaces && src != dst
      requires Key(dst, va) !in pte && Covered(spaces, Key(dst, va))
      requires FlagsAt(spaces[dst].vmas, va) == FlagsAt(spaces[src].vmas, va) && Mirrored(tables, src, dst)
      modifies this`pte, this`pool, this`tables, this`owner, this`halted
      ensures !halted ==> Inv() && OnlyAdds(dst) && (err == Ok || (err == ENOMEM && Starved(src, dst)))
      ensures !halted ==> Mirrored(tables, src, dst)
      ensures !halted ==> forall k: Key :: k.space == dst && k != Key(dst, va) ==>
                (k in pte <==> k in old(pte)) && PageOf(pte, pool.bytes, k) == PageOf(old(pte), old(pool.bytes), k)
      ensures !halted && err == Ok ==>
                PageOf(pte, pool.bytes, Key(dst, va)) == PageOf(old(pte), old(pool.bytes), Key(src, va))
    {
      hide Inv, Covered, Others, OtherTables, SameFrames, PageOf, Mirrored, TablesOf, FlagsAt, Starved;
      SameFramesRefl(Others(pte, dst));
      PageOfAbsent(pte, pool.bytes);
      var k, child := Key(src, va), Key(dst, va);
      if k !in pte {
        return Ok;
      }
      var e := pte[k];
      err := MakeReadOnly(k);
      if err != Ok {
        return;
      }
      ghost var shared := pte;
      var ok := SharePage(k, child);
      if !halted {
        SharedPages(old(pte), shared, old(pool.bytes), pool.bytes, k, child, shared[k], shared[child := shared[k]]);
      }
      err := if ok then Ok else ENOMEM;
    }

    /** Every covered page of `dst` reads as the same page of `src`. */
    ghost predicate Mirrors(src: int, dst: int)
      reads this
      requires dst in spaces
    {
      forall va :: FlagsAt(spaces[dst].vmas, va).Some? && Aligned(va) ==>
        PageOf(pte, pool.bytes, Key(dst, va)) == PageOf(pte, pool.bytes, Key(src, va))
    }

    /** The page loop of `clone_one_vma`. */
    method ClonePages(src: int, dst: int, v: Vma) returns (err: Err)
      requires Inv() && !halted && src in spaces && dst in spaces && src != dst && v.Ok()
      requires forall a :: v.Contains(a) ==>
                FlagsAt(spaces[dst].vmas, a) == FlagsAt(spaces[src].vmas, a) == Some(v.flags)
      requires (forall k :: In(k, dst, v.start, v.end) ==> k !in pte) && Mirrored(tables, src, dst)
      modifies this`pte, this`pool, this`tables, this`owner, this`halted
      ensures !halted ==> Inv() && OnlyAdds(dst) && (err == Ok || (err == ENOMEM && Starved(src, dst)))
      ensures !halted ==> Mirrored(tables, src, dst)
      ensures !halted ==> forall k: Key :: k.space == dst && !v.Contains(k.va) ==>
                PageOf(pte, pool.bytes, k) == PageOf(old(pte), old(pool.bytes), k)
      ensures !halted && err == Ok ==> forall va :: v.Contains(va) && Aligned(va) ==>
                PageOf(pte, pool.bytes, Key(dst, va)) == PageOf(old(pte), old(pool.bytes), Key(src, va))
    {
      hide Inv, FlagsAt, PageOf, Others, OtherTables, SameFrames, Mirrored, TablesOf, Starved;
      SameFramesRefl(Others(pte, dst));
      var va := v.start;
      while va < v.end
        modifies this`pte, this`pool, this`tables, this`owner, this`halted
        invariant v.start <= va <= v.end && Aligned(va)
        invariant Inv() && !halted && OnlyAdds(dst) && Mirrored(tables, src, dst)
        invariant forall k :: In(k, dst, va, v.end) ==> k !in pte
        invariant forall k: Key :: k.space == dst && !v.Contains(k.va) ==>
                    PageOf(pte, pool.bytes, k) == PageOf(old(pte), old(pool.bytes), k)
        invariant forall a :: v.start <= a < va && Aligned(a) ==>
                    PageOf(pte, pool.bytes, Key(dst, a)) == PageOf(old(pte), old(pool.bytes), Key(src, a))
      {
        assert v.Contains(va);
        ghost var was := pte;
        err := ClonePage(src, dst, va);
        if halted {
          return;
        }
        SameFramesTrans(Others(old(pte), dst), Others(was, dst), Others(pte, dst));
        if err != Ok {
          return;
        }
        forall a | va <= a < va + PAGE_SIZE && Aligned(a) ensures a == va {
          AlignedAlone(va, a);
        }
        va := va + PAGE_SIZE;
      }
      err := Ok;
    }

    /** `clone_one_vma`: the area is inserted in `dst`, then its pages are shared. */
    method CloneArea(src: int, dst: int, i: nat, heap: bool) returns (err: Err)
      requires Inv() && !halted && src in spaces && dst in spaces && src != dst
      requires i < |spaces[src].vmas| && spaces[dst].vmas == spaces[src].vmas[..i] && Mirrors(src, dst)
      requires Mirrored(tables, src, dst)
      modifies this`spaces, this`pte, this`pool, this`tables, this`owner, this`halted
      ensures !halted ==> Inv() && OnlyAdds(dst) && dst in spaces && Mirrored(tables, src, dst)
      ensures !halted ==> err == Ok || (err == ENOMEM && (!heap || Starved(src, dst)))
      ensures !halted ==> spaces == old(spaces)[dst := old(spaces)[dst].(vmas := spaces[dst].vmas)]
      ensures !halted && err == Ok ==> spaces[dst].vmas == old(spaces)[src].vmas[..i + 1] && Mirrors(src, dst)
    {
      hide Accounted, AllPlaced, SpacesOk, FlagsAt, PageOf, Others, OtherTables, SameFrames, Mirrored, TablesOf;
      SpaceFacts(spaces, tables, src);
      var v := spaces[src].vmas[i];
      PrefixInsert(spaces[src].vmas, i);
      SameFramesRefl(Others(pte, dst));
      var haveMemory := Kzalloc(heap);
      if !haveMemory {
        return ENOMEM;
      }
      var vs;
      err, vs := Insert(spaces[dst].vmas, v);
      if err != Ok {
        return;
      }
      ghost var p :| 0 <= p <= i && vs == InsertAt(spaces[dst].vmas, p, v);
      InsertedOnce(spaces[dst].vmas, v, p, i);
      EntriesCovered(spaces, tables, pte);
      Relist(spaces, tables, pte, dst, vs);
      spaces := spaces[dst := spaces[dst].(vmas := vs)];
      AreaFlags(spaces[src].vmas, i);
      err := ClonePages(src, dst, v);
    }

    /** `vmm_clone_space`.  A successful fork is a deep copy; a failed one gives back every
        frame, table and reference, and no space reads differently. */
    method CloneSpace(src: int, dst: int, aslr: nat, heap: bool) returns (err: Err)
      requires Inv() && !halted && src in spaces && dst !in spaces && aslr < ASLR_PAGES
      modifies this
      ensures !halted ==> Inv()
      ensures !halted && err == Ok ==> Ceilings(spaces) == Ceilings(old(spaces))[dst := Ceiling(aslr)]
      ensures !halted && err == Ok ==> Mem() == Fork(old(Mem()), src, dst)
      ensures !halted && err != Ok ==> err == ENOMEM && (!heap || |old(pool.free)| < |TablesOf(old(tables), src)|)
      ensures !halted && err != Ok ==> spaces == old(spaces) && Mem() == old(Mem())
      ensures !halted && err != Ok ==>
                tables == old(tables) && pool.free == old(pool.free) && pool.refs == old(pool.refs)
    {
      hide Accounted, AllPlaced, SpacesOk, FlagsAt, PageOf, Others, OtherTables, SameFrames, View, Mirrored, TablesOf;
      FreshSpace(spaces, tables, pte, dst);
      NoTables(spaces, tables, dst);
      SomeTable(spaces, tables, src);
      var ok := CreateSpace(dst, aslr, heap);
      if !ok {
        return ENOMEM;
      }
      OneTable(spaces, tables, src, dst);
      err := CloneAreas(src, dst, heap);
      if halted {
        return;
      }
      SameTables(old(tables), tables, src, dst);
      if err != Ok {
        DestroySpace(dst);
        FreeDetermined(old(pool), pool, tables, old(owner), owner, old(pte), pte);
        SameView(spaces, old(pte), old(pool.bytes), pte, pool.bytes);
        return;
      }
      assert spaces == old(spaces)[dst := spaces[dst]];
      SameCeilings(old(spaces)[dst := Space([], Ceiling(aslr))], dst, spaces[dst].vmas);
      ForkView(old(spaces), old(pte), pte, old(pool.bytes), pool.bytes, src, dst, spaces[dst]);
    }

    /** The loop of `vmm_clone_space` over the areas of `src`. */
    method CloneAreas(src: int, dst: int, heap: bool) returns (err: Err)
      requires Inv() && !halted && src in spaces && dst in spaces && src != dst && spaces[dst].vmas == []
      requires Mirrored(tables, src, dst)
      modifies this`spaces, this`pte, this`pool, this`tables, this`owner, this`halted
      ensures !halted ==> Inv() && OnlyAdds(dst) && dst in spaces
      ensures !halted ==> err == Ok || (err == ENOMEM && (!heap || Starved(src, dst)))
      ensures !halted ==> spaces == old(spaces)[dst := old(spaces)[dst].(vmas := spaces[dst].vmas)]
      ensures !halted && err == Ok ==> spaces[dst].vmas == old(spaces)[src].vmas && Mirrors(src, dst)
    {
      hide Accounted, AllPlaced, SpacesOk, PageOf, Others, OtherTables, SameFrames, Mirrored, TablesOf;
      SameFramesRefl(Others(pte, dst));
      var i := 0;
      while i < |spaces[src].vmas|
        invariant Inv() && !halted && OnlyAdds(dst) && dst in spaces && src in spaces && Mirrored(tables, src, dst)
        invariant spaces == old(spaces)[dst := old(spaces)[dst].(vmas := spaces[dst].vmas)]
        invariant 0 <= i <= |spaces[src].vmas| && spaces[dst].vmas == spaces[src].vmas[..i] && Mirrors(src, dst)
        decreases |spaces[src].vmas| - i
      {
        ghost var was := pte;
        err := CloneArea(src, dst, i, heap);
        if halted {
          return;
        }
        SameFramesTrans(Others(old(pte), dst), Others(was, dst), Others(pte, dst));
        if err != Ok {
          return;
        }
        i := i + 1;
      }
      err := Ok;
    }

    // ----------------------------------------------------------------------
    // Whole runs
    // ----------------------------------------------------------------------

    ghost function Now(): Snap
      reads this
    {
      Snap(pool, tables, pte)
    }

    ghost function Seen(): Ref
      reads this
    {
      Ref(Ceilings(spaces), Mem())
    }

    /** One step of a run.  `wrapped` tells that a mapping has overflowed the gap search. */
    method Step(op: Op, heap: bool) returns (r: Result, wrapped: bool)
      requires Inv() && !halted && OpOk(op)
      modifies this
      ensures wrapped ==> r.At? && Overflows(old(Seen()), op)
      ensures !halted && !wrapped ==>
                Inv() && Seen() == Apply(old(Seen()), op, r) && Sound(old(Seen()), op, Under(old(Now()), op, heap), r)
    {
      hide Inv, View, Apply, Sound, Overflows, Under, Ceilings;
      wrapped := false;
      match op
      case OpCreate(_, _) => r := SpaceStep(op, heap);
      case OpFork(_, _, _) => r := SpaceStep(op, heap);
      case OpDestroy(_) => r := SpaceStep(op, heap);
      case OpMap(_, _, _, _, _) => r, wrapped := DoMap(op, heap);
      case OpUnmap(_, _, _) => r := DoUnmap(op, heap);
      case OpProtect(_, _, _, _) => r := DoProtect(op, heap);
      case OpStore(_, _, _) => r := UserStep(op, heap);
      case OpLoad(_, _) => r := UserStep(op, heap);
      case OpFetch(_, _) => r := UserStep(op, heap);
    }

    method SpaceStep(op: Op, heap: bool) returns (r: Result)
      requires Inv() && !halted && OpOk(op) && (op.OpCreate? || op.OpFork? || op.OpDestroy?)
      modifies this
      ensures !halted ==>
                Inv() && Seen() == Apply(old(Seen()), op, r) && Sound(old(Seen()), op, Under(old(Now()), op, heap), r)
    {
      hide Inv, View, Fork, Destroy, TablesOf;
      match op
      case OpCreate(s, aslr) =>
        if s in spaces {
          return Failed(EEXIST);
        }
        var ok := CreateSpace(s, aslr, heap);
        r := if ok then Done else Failed(ENOMEM);
      case OpFork(s, parent, aslr) =>
        if parent !in spaces {
          return Failed(EINVAL);
        }
        if s in spaces {
          return Failed(EEXIST);
        }
        var err := CloneSpace(parent, s, aslr, heap);
        r := if err == Ok then Done else Failed(err);
      case OpDestroy(s) =>
        if s !in spaces {
          return Failed(EINVAL);
        }
        DestroySpace(s);
        r := Done;
    }

    method DoMap(op: Op, heap: bool) returns (r: Result, wrapped: bool)
      requires Inv() && !halted && OpOk(op) && op.OpMap?
      modifies this`spaces, this`pte, this`pool
      ensures wrapped ==> r.At? && Overflows(old(Seen()), op)
      ensures !wrapped ==>
                Inv() && Seen() == Apply(old(Seen()), op, r) && Sound(old(Seen()), op, Under(old(Now()), op, heap), r)
    {
      hide Inv, View, Map, Unmap, PageAlignUp, Highest, HighestRoom, FixedRange, MapArgs, Ceilings;
      hide Apply, Sound, MapSound;
      Listed(op.s);
      var wraps := op.s in spaces && !op.flags.fixed && Wraps(spaces[op.s], PageAlignUp(op.length));
      var err, chosen, cleared := MapAnonymous(op.s, op.addr, op.length, op.prot, op.flags, heap);
      wrapped := err == Ok && wraps;
      r := MapResult(err, chosen, cleared);
      if !wrapped {
        if !op.flags.fixed && err != EINVAL && (err == Ok || heap) {
          HighestIsHighest(old(spaces), old(pte), old(pool.bytes), op.s, PageAlignUp(op.length),
                           if err == Ok then chosen else 0);
        }
        MapOutcome(old(Seen()), op, Under(old(Now()), op, heap), err, chosen, cleared, Mem());
      }
    }

    /** What the reference machine sees of one space. */
    lemma Listed(s: int)
      requires Inv()
      ensures s in spaces <==> s in Ceilings(spaces)
      ensures s in spaces ==> WellFormed(spaces[s].vmas) && Ceilings(spaces)[s] == spaces[s].mmapBase
      ensures s in spaces ==> Aligned(spaces[s].mmapBase) && spaces[s].mmapBase <= MMAP_BASE
      ensures s in spaces && spaces[s].vmas == [] ==> forall k :: k in Mem() ==> k.space != s
      ensures s !in spaces ==> forall k: Key :: k.space == s ==> k !in pte && k !in Mem()
    {
      hide FlagsAt;
      if s in spaces && spaces[s].vmas == [] {
        NothingMapped(spaces, pte, pool.bytes, s);
      }
      EntriesAligned(spaces, tables, pte);
    }

    method DoUnmap(op: Op, heap: bool) returns (r: Result)
      requires Inv() && !halted && OpOk(op) && op.OpUnmap?
      modifies this`spaces, this`pte, this`pool
      ensures Inv() && Seen() == Apply(old(Seen()), op, r) && Sound(old(Seen()), op, Under(old(Now()), op, heap), r)
    {
      hide Inv, View, Unmap, PageAlignUp, UserRange, Ceilings;
      Listed(op.s);
      if op.s !in spaces {
        return Failed(EINVAL);
      }
      var err := Munmap(op.s, op.addr, op.length, heap);
      r := if err == Ok then Done else Failed(err);
    }

    method DoProtect(op: Op, heap: bool) returns (r: Result)
      requires Inv() && !halted && OpOk(op) && op.OpProtect?
      modifies this`spaces, this`pte
      ensures Inv() && Seen() == Apply(old(Seen()), op, r) && Sound(old(Seen()), op, Under(old(Now()), op, heap), r)
    {
      hide Inv, View, Protect, PageAlignUp, UserRange, Ceilings;
      Listed(op.s);
      if op.s !in spaces {
        return Failed(EINVAL);
      }
      var err := Mprotect(op.s, op.addr, op.length, op.prot, heap);
      r := if err == Ok then Done else Failed(err);
    }

    method UserStep(op: Op, heap: bool) returns (r: Result)
      requires Inv() && !halted && OpOk(op) && (op.OpStore? || op.OpLoad? || op.OpFetch?)
      modifies this`pte, this`pool, this`tables, this`owner
      ensures Inv() && Seen() == Apply(old(Seen()), op, r) && Sound(old(Seen()), op, Under(old(Now()), op, heap), r)
    {
      hide Inv, FlagsAt, PageOf, Store, View, Ceilings;
      Listed(op.s);
      r := Killed;
      if op.s !in spaces {
        return;
      }
      AllowedSeen(op.s, op.a);
      match op
      case OpStore(s, a, b) =>
        var ok := UserStore(s, a, b);
        r := if ok then Done else Killed;
      case OpLoad(s, a) =>
        var v := UserLoad(s, a);
        r := if v.Some? then Value(v.value) else Killed;
      case OpFetch(s, a) =>
        var ok := UserFetch(s, a);
        r := if ok then Done else Killed;
    }

    lemma AllowedSeen(s: int, a: nat)
      requires s in spaces
      ensures Allowed(s, a, Read) <==> Readable(Mem(), s, a)
      ensures Allowed(s, a, Write) <==> Writable(Mem(), s, a)
      ensures Allowed(s, a, Fetch) <==> Executable(Mem(), s, a)
    {
      hide FlagsAt, PageOf, View;
      ViewAt(spaces, pte, pool.bytes, Key(s, PageDown(a)));
    }

    /** Copy-on-write and lazy fill are invisible: every run behaves as the reference machine, in
        which fork copies, and every failure has its reason there, in a full kernel heap, or in
        the frames and entries of that moment (`trace`).  A run ends early only when a refcount
        overflows or a mapping wraps the gap search. */
    method Run(ops: seq<Op>, heap: seq<bool>) returns (rs: seq<Result>, ghost trace: seq<Snap>, wrapped: bool)
      requires Inv() && !halted && |heap| == |ops| && forall i :: 0 <= i < |ops| ==> OpOk(ops[i])
      modifies this
      ensures |rs| <= |ops| && |trace| == |rs| + 1 && trace[0] == old(Now())
      ensures AllSound(old(Seen()), ops[..|rs|], UnderAll(trace, ops[..|rs|], heap), rs)
      ensures !halted && !wrapped ==> |rs| == |ops| && Inv()
      ensures !halted && !wrapped ==> Seen() == Replay(old(Seen()), ops, rs) && trace[|rs|] == Now()
      ensures wrapped ==> |rs| < |ops| && Overflows(Replay(old(Seen()), ops[..|rs|], rs), ops[|rs|])
    {
      hide Inv, View, Apply, Sound, AllSound, Overflows, Under, Ceilings;
      rs, trace, wrapped := [], [Now()], false;
      NoneSound(Seen());
      var i := 0;
      while i < |ops|
        invariant 0 <= i <= |ops| && |rs| == i && |trace| == i + 1 && trace[0] == old(Now()) && trace[i] == Now()
        invariant Inv() && !halted && !wrapped
        invariant Seen() == Replay(old(Seen()), ops[..i], rs)
        invariant AllSound(old(Seen()), ops[..i], UnderAll(trace, ops[..i], heap), rs)
      {
        ghost var x := Now();
        var r;
        r, wrapped := Step(ops[i], heap[i]);
        if halted || wrapped {
          return;
        }
        ReplayStep(old(Seen()), ops[..i], UnderAll(trace, ops[..i], heap), rs, ops[i], Under(x, ops[i], heap[i]), r);
        assert ops[..i + 1] == ops[..i] + [ops[i]];
        UnderMore(trace, Now(), ops[..i], ops[i], heap);
        rs, trace := rs + [r], trace + [Now()];
        i := i + 1;
      }
      assert ops[..i] == ops;
    }
  }
}
