/** The inode cache, mount crossing and path walks (kernel/fs/vfs.c). */
module Vfs {
  import opened Base
  import opened Paths

  const BUCKETS: nat := 64
  const MOUNTS: nat := 8

  /** `exec` is any of the execute bits of the mode. */
  datatype Inode = Inode(mnt: nat, ino: nat, refs: nat, isDir: bool, exec: bool)

  /** What a filesystem's lookup finds, or the error it returns. */
  datatype Entry = Found(ino: nat) | Missing(e: Err)

  /** The mounted filesystems during one walk: names in directories, and inode attributes. */
  datatype Disk = Disk(lookup: (nat, nat, string) -> Entry, isDir: (nat, nat) -> bool, exec: (nat, nat) -> bool)

  /** `root` is the pinned root inode of the mount, whose number is `rootIno`. */
  datatype Mount = Mount(used: bool, covered: nat, coveredIno: nat, root: nat, rootIno: nat)

  type Objects = map<nat, Inode>
  type Chains = map<nat, seq<nat>>
  type Hash = (nat, nat) -> nat

  // ------------------------------------------------------------------------
  // The cache
  // ------------------------------------------------------------------------

  ghost predicate ChainOk(objects: Objects, hash: Hash, b: nat, chain: seq<nat>) {
    && (forall i, j :: 0 <= i < j < |chain| ==> chain[i] != chain[j])
    && (forall i :: 0 <= i < |chain| ==>
          chain[i] in objects && hash(objects[chain[i]].mnt, objects[chain[i]].ino) % BUCKETS == b)
  }

  /** At most one object per (mount, inode number). */
  ghost predicate Canonical(objects: Objects, o: nat, q: nat)
    requires o in objects && q in objects
  {
    objects[o].mnt == objects[q].mnt && objects[o].ino == objects[q].ino ==> o == q
  }

  /** The chains hold every object, each in its bucket; objects are unique per key; reference
      counts are the references held. */
  ghost predicate CacheOk(objects: Objects, chains: Chains, hash: Hash, held: multiset<nat>) {
    && (forall b :: 0 <= b < BUCKETS ==> b in chains)
    && (forall b :: b in chains ==> ChainOk(objects, hash, b, chains[b]))
    && (forall o :: o in objects ==> o in chains[hash(objects[o].mnt, objects[o].ino) % BUCKETS])
    && (forall o, q :: o in objects && q in objects ==> Canonical(objects, o, q))
    && (forall o :: o in objects ==> objects[o].refs > 0 && objects[o].refs == held[o])
    && (forall o :: o in held ==> o in objects)
  }

  /** One more reference to a cached object. */
  lemma Referenced(objects: Objects, chains: Chains, hash: Hash, held: multiset<nat>, o: nat)
    requires CacheOk(objects, chains, hash, held) && o in objects
    ensures CacheOk(objects[o := objects[o].(refs := objects[o].refs + 1)], chains, hash, held + multiset{o})
  {
    var objects' := objects[o := objects[o].(refs := objects[o].refs + 1)];
    forall b | b in chains ensures ChainOk(objects', hash, b, chains[b]) {
      assert ChainOk(objects, hash, b, chains[b]);
    }
    forall p, q | p in objects' && q in objects' ensures Canonical(objects', p, q) {
      assert Canonical(objects, p, q);
    }
  }

  /** A new object for a key not in the cache. */
  lemma Inserted(objects: Objects, chains: Chains, hash: Hash, held: multiset<nat>, o: nat, x: Inode)
    requires CacheOk(objects, chains, hash, held) && o !in objects && x.refs == 1
    requires forall q :: q in objects ==> !(objects[q].mnt == x.mnt && objects[q].ino == x.ino)
    ensures var b := hash(x.mnt, x.ino) % BUCKETS;
      && b in chains
      && CacheOk(objects[o := x], chains[b := [o] + chains[b]], hash, held + multiset{o})
  {
    var b := hash(x.mnt, x.ino) % BUCKETS;
    var objects', chains' := objects[o := x], chains[b := [o] + chains[b]];
    forall c | c in chains' ensures ChainOk(objects', hash, c, chains'[c]) {
      assert ChainOk(objects, hash, c, chains[c]);
    }
    forall p, q | p in objects' && q in objects' ensures Canonical(objects', p, q) {
      assert p != o && q != o ==> Canonical(objects, p, q);
    }
  }

  /** One reference less, others remaining. */
  lemma Dropped(objects: Objects, chains: Chains, hash: Hash, held: multiset<nat>, o: nat)
    requires CacheOk(objects, chains, hash, held) && o in objects && objects[o].refs > 1
    ensures CacheOk(objects[o := objects[o].(refs := objects[o].refs - 1)], chains, hash, held - multiset{o})
  {
    var objects' := objects[o := objects[o].(refs := objects[o].refs - 1)];
    forall b | b in chains ensures ChainOk(objects', hash, b, chains[b]) {
      assert ChainOk(objects, hash, b, chains[b]);
    }
    forall p, q | p in objects' && q in objects' ensures Canonical(objects', p, q) {
      assert Canonical(objects, p, q);
    }
  }

  /** The last reference goes, and the object with it. */
  lemma Removed(objects: Objects, chains: Chains, hash: Hash, held: multiset<nat>, o: nat, i: nat)
    requires CacheOk(objects, chains, hash, held) && o in objects && objects[o].refs == 1
    requires var b := hash(objects[o].mnt, objects[o].ino) % BUCKETS; i < |chains[b]| && chains[b][i] == o
    ensures var b := hash(objects[o].mnt, objects[o].ino) % BUCKETS;
      CacheOk(objects - {o}, chains[b := chains[b][..i] + chains[b][i + 1..]], hash, held - multiset{o})
  {
    var b := hash(objects[o].mnt, objects[o].ino) % BUCKETS;
    var cut := chains[b][..i] + chains[b][i + 1..];
    var objects', chains' := objects - {o}, chains[b := cut];
    assert ChainOk(objects, hash, b, chains[b]);
    forall u ensures u in cut <==> u in chains[b] && u != o {
      CutMember(chains[b], i, u);
    }
    forall c | c in chains' ensures ChainOk(objects', hash, c, chains'[c]) {
      assert ChainOk(objects, hash, c, chains[c]);
      RemovedChain(objects, chains, hash, o, b, i, c);
    }
    forall p, q | p in objects' && q in objects' ensures Canonical(objects', p, q) {
      assert Canonical(objects, p, q);
    }
  }

  lemma RemovedChain(objects: Objects, chains: Chains, hash: Hash, o: nat, b: nat, i: nat, c: nat)
    requires b in chains && c in chains && ChainOk(objects, hash, b, chains[b]) && ChainOk(objects, hash, c, chains[c])
    requires o in objects && hash(objects[o].mnt, objects[o].ino) % BUCKETS == b && i < |chains[b]| && chains[b][i] == o
    ensures ChainOk(objects - {o}, hash, c, chains[b := chains[b][..i] + chains[b][i + 1..]][c])
  {
    if c == b {
      var l, cut := chains[b], chains[b][..i] + chains[b][i + 1..];
      assert forall j :: 0 <= j < |cut| ==> cut[j] == if j < i then l[j] else l[j + 1];
    } else {
      assert o !in chains[c];
    }
  }

  /** An object is what it was born as. */
  ghost predicate BornAs(objects: Objects, born: seq<(nat, nat)>) {
    forall o :: o in objects ==> o < |born| && born[o] == (objects[o].mnt, objects[o].ino)
  }

  ghost predicate Grown(before: seq<(nat, nat)>, after: seq<(nat, nat)>) {
    |before| <= |after| && forall i :: 0 <= i < |before| ==> after[i] == before[i]
  }

  /** One reference is traded for another, or given up. */
  lemma Traded(base: multiset<nat>, before: multiset<nat>, after: multiset<nat>, o: nat, p: nat)
    requires before == base + multiset{o}
    ensures after == before - multiset{o} + multiset{p} ==> after == base + multiset{p} && p in after
    ensures after == before - multiset{o} ==> after == base
  {
  }

  lemma GrownSelf(born: seq<(nat, nat)>)
    ensures Grown(born, born)
  {
  }

  lemma GrownTrans(a: seq<(nat, nat)>, b: seq<(nat, nat)>, c: seq<(nat, nat)>)
    requires Grown(a, b) && Grown(b, c)
    ensures Grown(a, c)
  {
  }

  lemma BornNew(objects: Objects, born: seq<(nat, nat)>, x: Inode)
    requires BornAs(objects, born)
    ensures |born| !in objects && BornAs(objects[|born| := x], born + [(x.mnt, x.ino)])
    ensures Grown(born, born + [(x.mnt, x.ino)])
  {
  }

  lemma BornSame(objects: Objects, born: seq<(nat, nat)>, o: nat, refs: nat)
    requires BornAs(objects, born) && o in objects
    ensures BornAs(objects[o := objects[o].(refs := refs)], born) && BornAs(objects - {o}, born)
  {
  }

  // ------------------------------------------------------------------------
  // Mounts
  // ------------------------------------------------------------------------

  /** A mount covers a directory of an earlier slot. */
  ghost predicate Stacked(mounts: seq<Mount>) {
    |mounts| == MOUNTS && forall i :: 1 <= i < MOUNTS && mounts[i].used ==> mounts[i].covered < i
  }

  /** Slots fill from the front, in stacking order; root inodes stay pinned; every cached inode is
      on a mounted filesystem. */
  ghost predicate MountsOk(mounts: seq<Mount>, objects: Objects, pins: multiset<nat>) {
    && Stacked(mounts)
    && (forall i, j :: 0 <= i < j < MOUNTS && mounts[j].used ==> mounts[i].used)
    && (forall i :: 0 <= i < MOUNTS && mounts[i].used ==>
          mounts[i].root in pins && mounts[i].root in objects && objects[mounts[i].root].mnt == i
          && objects[mounts[i].root].ino == mounts[i].rootIno)
    && (forall o :: o in objects ==> objects[o].mnt < MOUNTS && mounts[objects[o].mnt].used)
  }

  /** Slot `i` is mounted on the directory. */
  predicate Covers(m: Mount, mnt: nat, ino: nat) {
    m.used && m.covered == mnt && m.coveredIno == ino
  }

  ghost predicate Uncovered(mounts: seq<Mount>, mnt: nat, ino: nat) {
    forall i :: 1 <= i < |mounts| ==> !Covers(mounts[i], mnt, ino)
  }

  /** Cached attributes are those on disk. */
  ghost predicate Agrees(d: Disk, objects: Objects) {
    forall o :: o in objects ==>
      objects[o].isDir == d.isDir(objects[o].mnt, objects[o].ino) &&
          objects[o].exec == d.exec(objects[o].mnt, objects[o].ino)
  }

  // ------------------------------------------------------------------------
  // What a path means
  // ------------------------------------------------------------------------

  datatype Place = At(mnt: nat, ino: nat) | Fails(e: Err)

  /** The first slot mounted on the directory, or MOUNTS. */
  function FirstCover(mounts: seq<Mount>, mnt: nat, ino: nat, i: nat): (r: nat)
    requires |mounts| == MOUNTS && i <= MOUNTS
    ensures i <= r <= MOUNTS
    ensures r < MOUNTS ==> Covers(mounts[r], mnt, ino)
    ensures forall j :: i <= j < r ==> !Covers(mounts[j], mnt, ino)
    decreases MOUNTS - i
  {
    if i == MOUNTS || Covers(mounts[i], mnt, ino) then i else FirstCover(mounts, mnt, ino, i + 1)
  }

  /** The place reached by entering whatever is mounted there, again and again. */
  ghost function Entered(d: Disk, mounts: seq<Mount>, mnt: nat, ino: nat): (p: Place)
    requires Stacked(mounts) && mnt < MOUNTS
    decreases MOUNTS - mnt
  {
    var i := FirstCover(mounts, mnt, ino, 1);
    if i == MOUNTS then At(mnt, ino)
    else match d.lookup(i, mounts[i].rootIno, ".")
      case Missing(e) => Fails(e)
      case Found(n) => Entered(d, mounts, i, n)
  }

  /** Where one name leads from a directory; `exec` asks for search permission. */
  ghost function Stepped(d: Disk, mounts: seq<Mount>, mnt: nat, ino: nat, name: string, exec: bool): Place
    requires Stacked(mounts) && mnt < MOUNTS
  {
    if !d.isDir(mnt, ino) then Fails(ENOTDIR)
    else if exec && !d.exec(mnt, ino) then Fails(EACCES)
    else match d.lookup(mnt, ino, name)
      case Missing(e) => Fails(e)
      case Found(n) => Entered(d, mounts, mnt, n)
  }

  /** Following names from a place, entering mounts after each. */
  ghost function Followed(d: Disk, mounts: seq<Mount>, p: Place, comps: seq<string>, exec: bool): Place
    requires Stacked(mounts) && (p.At? ==> p.mnt < MOUNTS)
    decreases |comps|
  {
    if p.Fails? || comps == [] then p
    else
      SteppedBound(d, mounts, p.mnt, p.ino, comps[0], exec);
      Followed(d, mounts, Stepped(d, mounts, p.mnt, p.ino, comps[0], exec), comps[1..], exec)
  }

  lemma SteppedBound(d: Disk, mounts: seq<Mount>, mnt: nat, ino: nat, name: string, exec: bool)
    requires Stacked(mounts) && mnt < MOUNTS
    ensures var p := Stepped(d, mounts, mnt, ino, name, exec); p.At? ==>
              p.mnt < MOUNTS && Uncovered(mounts, p.mnt, p.ino)
  {
    if d.lookup(mnt, ino, name).Found? {
      EnteredBound(d, mounts, mnt, d.lookup(mnt, ino, name).ino);
    }
  }

  lemma StackedLength(mounts: seq<Mount>)
    requires Stacked(mounts)
    ensures |mounts| == MOUNTS
  {
  }

  lemma EnterStep(d: Disk, mounts: seq<Mount>, mnt: nat, ino: nat)
    requires Stacked(mounts) && mnt < MOUNTS
    ensures |mounts| == MOUNTS
    ensures var i := FirstCover(mounts, mnt, ino, 1);
      if i == MOUNTS then Entered(d, mounts, mnt, ino) == At(mnt, ino)
      else
        && mounts[i].used && mnt < i
        && Entered(d, mounts, mnt, ino) == match d.lookup(i, mounts[i].rootIno, ".")
             case Missing(e) => Fails(e)
             case Found(n) => Entered(d, mounts, i, n)
  {
  }

  lemma {:induction false} EnteredBound(d: Disk, mounts: seq<Mount>, mnt: nat, ino: nat)
    requires Stacked(mounts) && mnt < MOUNTS
    ensures var p := Entered(d, mounts, mnt, ino);
      p.At? ==> p.mnt < MOUNTS && Uncovered(mounts, p.mnt, p.ino)
    decreases MOUNTS - mnt
  {
    var i := FirstCover(mounts, mnt, ino, 1);
    if i < MOUNTS && d.lookup(i, mounts[i].rootIno, ".").Found? {
      EnteredBound(d, mounts, i, d.lookup(i, mounts[i].rootIno, ".").ino);
    }
  }

  /** Where walks start. */
  ghost function Origin(d: Disk, mounts: seq<Mount>): Place
    requires Stacked(mounts)
  {
    match d.lookup(0, mounts[0].rootIno, ".")
    case Missing(e) => Fails(e)
    case Found(n) => Entered(d, mounts, 0, n)
  }

  /** What `vfs_open` promises for a path. */
  ghost function Resolve(d: Disk, mounts: seq<Mount>, path: string): Place
    requires Stacked(mounts)
  {
    if !mounts[0].used then Fails(ENOENT)
    else if path == "" || path[0] != '/' then Fails(EINVAL)
    else match Fold([], Components(path))
      case None => Fails(ENAMETOOLONG)
      case Some(stack) =>
        OriginBound(d, mounts);
        Followed(d, mounts, Origin(d, mounts), stack, true)
  }

  lemma OriginBound(d: Disk, mounts: seq<Mount>)
    requires Stacked(mounts)
    ensures var p := Origin(d, mounts); p.At? ==> p.mnt < MOUNTS && Uncovered(mounts, p.mnt, p.ino)
  {
    if d.lookup(0, mounts[0].rootIno, ".").Found? {
      EnteredBound(d, mounts, 0, d.lookup(0, mounts[0].rootIno, ".").ino);
    }
  }

  lemma {:induction false} FollowedUncovered(d: Disk, mounts: seq<Mount>, p: Place, comps: seq<string>, exec: bool)
    requires Stacked(mounts) && (p.At? ==> p.mnt < MOUNTS && Uncovered(mounts, p.mnt, p.ino))
    ensures var q := Followed(d, mounts, p, comps, exec); q.At? ==> q.mnt < MOUNTS && Uncovered(mounts, q.mnt, q.ino)
    decreases |comps|
  {
    hide Stacked, Stepped, Uncovered;
    if p.At? && comps != [] {
      SteppedBound(d, mounts, p.mnt, p.ino, comps[0], exec);
      FollowedUncovered(d, mounts, Stepped(d, mounts, p.mnt, p.ino, comps[0], exec), comps[1..], exec);
    }
  }

  /** A path never leads to a directory that something is mounted on. */
  lemma ResolvedUncovered(d: Disk, mounts: seq<Mount>, path: string)
    requires Stacked(mounts)
    ensures var p := Resolve(d, mounts, path); p.At? ==> p.mnt < MOUNTS && Uncovered(mounts, p.mnt, p.ino)
  {
    hide Uncovered, Origin, Followed, Fold;
    OriginBound(d, mounts);
    if Fold([], Components(path)).Some? {
      FollowedUncovered(d, mounts, Origin(d, mounts), Fold([], Components(path)).value, true);
    }
  }

  lemma FollowStep(d: Disk, mounts: seq<Mount>, mnt: nat, ino: nat, comps: seq<string>, exec: bool)
    requires Stacked(mounts) && mnt < MOUNTS
    ensures comps == [] ==> Followed(d, mounts, At(mnt, ino), comps, exec) == At(mnt, ino)
    ensures comps != [] ==>
      var p := Stepped(d, mounts, mnt, ino, comps[0], exec);
      && (p.At? ==> p.mnt < MOUNTS)
      && Followed(d, mounts, At(mnt, ino), comps, exec) == if p.Fails? then p
          else Followed(d, mounts, p, comps[1..], exec)
  {
    if comps != [] {
      SteppedBound(d, mounts, mnt, ino, comps[0], exec);
    }
  }

  function Front(comps: seq<string>): seq<string> {
    if comps == [] then [] else comps[..|comps| - 1]
  }

  function Last(comps: seq<string>): string {
    if comps == [] then "" else comps[|comps| - 1]
  }

  lemma FrontLast(c: string, rest: seq<string>)
    ensures rest == [] ==> Front([c] + rest) == [] && Last([c] + rest) == c
    ensures rest != [] ==> Front([c] + rest) != [] && Front([c] + rest)[0] == c && Front([c] + rest)[1..] == Front(rest)
    ensures rest != [] ==> Last([c] + rest) == Last(rest)
  {
    if rest != [] {
      assert Front([c] + rest) == [c] + Front(rest);
    }
  }

  /** `path_has_more`. */
  lemma AnyLeft(p: string, q: nat)
    requires q <= |p| && (q < |p| ==> p[q] != '/')
    ensures Components(p[q..]) == [] <==> q == |p|
  {
  }

  /** What `vfs_parent` promises for a path: the directory holding its last component. */
  ghost function ParentOf(d: Disk, mounts: seq<Mount>, path: string): Place
    requires Stacked(mounts)
  {
    if !mounts[0].used then Fails(ENOENT)
    else if path == "" || path[0] != '/' then Fails(EINVAL)
    else match Fold([], Components(path))
      case None => Fails(ENAMETOOLONG)
      case Some(stack) =>
        OriginBound(d, mounts);
        if Origin(d, mounts).Fails? then Origin(d, mounts)
        else if stack == [] then Fails(EINVAL)
        else Followed(d, mounts, Origin(d, mounts), Front(stack), false)
  }

  predicate AllNames(comps: seq<string>) {
    forall i :: 0 <= i < |comps| ==> Name(comps[i])
  }

  lemma RestNames(c: string, rest: seq<string>)
    ensures ([c] + rest)[1..] == rest
    ensures AllNames([c] + rest) ==> AllNames(rest) && Name(c)
  {
    if AllNames([c] + rest) {
      assert ([c] + rest)[0] == c;
      forall i | 0 <= i < |rest| ensures Name(rest[i]) {
        assert ([c] + rest)[i + 1] == rest[i];
      }
    }
  }

  lemma NamesAll(stack: seq<string>)
    requires Names(stack)
    ensures AllNames(stack)
  {
  }

  lemma FirstName(comps: seq<string>)
    requires AllNames(comps) && comps != []
    ensures Name(comps[0])
  {
  }

  lemma CachedDir(d: Disk, objects: Objects, o: nat)
    requires Agrees(d, objects) && o in objects
    ensures objects[o].isDir == d.isDir(objects[o].mnt, objects[o].ino)
  {
  }

  /** The outcome of mounting on a directory. */
  ghost function MountError(d: Disk, mounts: seq<Mount>, target: string, mounted: Entry): Err
    requires Stacked(mounts)
  {
    if !mounts[0].used then ENOENT
    else match Resolve(d, mounts, target)
      case Fails(e) => e
      case At(mnt, ino) =>
        if !d.isDir(mnt, ino) then ENOTDIR
        else if forall i :: 1 <= i < MOUNTS ==> mounts[i].used then ENOSPC
        else if mounted.Missing? then mounted.e
        else Ok
  }

  /** The first free slot, which comes after that of the place, now covers the place. */
  ghost predicate AddsMount(before: seq<Mount>, after: seq<Mount>, p: Place, slot: nat, root: nat, rootIno: nat) {
    && p.At? && p.mnt < slot < |before|
    && (forall i :: 0 <= i < |before| ==> (before[i].used <==> i < slot))
    && after == before[slot := Mount(true, p.mnt, p.ino, root, rootIno)]
  }

  /** Where a walk that ends at the directory goes on to once something is mounted there. */
  ghost function NewRoot(d: Disk, slot: nat, rootIno: nat): Place {
    match d.lookup(slot, rootIno, ".")
    case Missing(e) => Fails(e)
    case Found(n) => At(slot, n)
  }

  /** A mount changes where entering leads exactly for the walks that ended at the directory. */
  lemma {:induction false} MountEnters(d: Disk, before: seq<Mount>, after: seq<Mount>, p: Place, slot: nat, root: nat,
                                       rootIno: nat, mnt: nat, ino: nat)
    requires Stacked(before) && AddsMount(before, after, p, slot, root, rootIno)
    requires Uncovered(before, p.mnt, p.ino) && mnt < slot
    ensures Stacked(after)
    ensures var q := Entered(d, before, mnt, ino);
      && (q.At? ==> q.mnt < slot)
      && Entered(d, after, mnt, ino) == if q == p then NewRoot(d, slot, rootIno) else q
    decreases MOUNTS - mnt
  {
    var i := FirstCover(before, mnt, ino, 1);
    if i < MOUNTS {
      assert FirstCover(after, mnt, ino, 1) == i;
      if d.lookup(i, before[i].rootIno, ".").Found? {
        MountEnters(d, before, after, p, slot, root, rootIno, i, d.lookup(i, before[i].rootIno, ".").ino);
      }
    } else if At(mnt, ino) == p {
      assert FirstCover(after, mnt, ino, 1) == slot;
      if d.lookup(slot, rootIno, ".").Found? {
        assert FirstCover(after, slot, d.lookup(slot, rootIno, ".").ino, 1) == MOUNTS;
      }
    } else {
      assert FirstCover(after, mnt, ino, 1) == MOUNTS;
    }
  }

  lemma MountSteps(d: Disk, before: seq<Mount>, after: seq<Mount>, p: Place, slot: nat, root: nat, rootIno: nat,
                   mnt: nat, ino: nat, name: string, exec: bool)
    requires Stacked(before) && AddsMount(before, after, p, slot, root, rootIno)
    requires Uncovered(before, p.mnt, p.ino) && mnt < slot
    ensures Stacked(after)
    ensures var q := Stepped(d, before, mnt, ino, name, exec);
      && (q.At? ==> q.mnt < slot)
      && Stepped(d, after, mnt, ino, name, exec) == if q == p then NewRoot(d, slot, rootIno) else q
  {
    hide Entered, Uncovered;
    MountEnters(d, before, after, p, slot, root, rootIno, mnt, ino);
    if d.lookup(mnt, ino, name).Found? {
      MountEnters(d, before, after, p, slot, root, rootIno, mnt, d.lookup(mnt, ino, name).ino);
    }
  }

  /** The walk does not pass through the place on its way. */
  ghost predicate Avoids(d: Disk, mounts: seq<Mount>, q: Place, comps: seq<string>, p: Place)
    requires Stacked(mounts) && (q.At? ==> q.mnt < MOUNTS)
  {
    forall k :: 0 <= k < |comps| ==> Followed(d, mounts, q, comps[..k], true) != p
  }

  lemma AvoidsTail(d: Disk, mounts: seq<Mount>, q: Place, comps: seq<string>, p: Place)
    requires Stacked(mounts) && q.At? && q.mnt < MOUNTS && comps != [] && Avoids(d, mounts, q, comps, p)
    ensures var q' := Stepped(d, mounts, q.mnt, q.ino, comps[0], true);
      q != p && (q'.At? ==> q'.mnt < MOUNTS) && Avoids(d, mounts, q', comps[1..], p)
  {
    hide Stacked, Stepped, Uncovered;
    SteppedBound(d, mounts, q.mnt, q.ino, comps[0], true);
    var q' := Stepped(d, mounts, q.mnt, q.ino, comps[0], true);
    assert comps[..0] == [] && Followed(d, mounts, q, comps[..0], true) == q;
    forall k | 0 <= k < |comps| - 1 ensures Followed(d, mounts, q', comps[1..][..k], true) != p {
      assert comps[..k + 1][1..] == comps[1..][..k] && comps[..k + 1][0] == comps[0];
      assert Followed(d, mounts, q, comps[..k + 1], true) == Followed(d, mounts, q', comps[1..][..k], true);
    }
  }

  lemma {:induction false} MountFollows(d: Disk, before: seq<Mount>, after: seq<Mount>, p: Place, slot: nat, root: nat,
                                        rootIno: nat, q: Place, comps: seq<string>)
    requires Stacked(before) && Stacked(after) && AddsMount(before, after, p, slot, root, rootIno)
    requires Uncovered(before, p.mnt, p.ino) && (q.At? ==> q.mnt < slot && slot < MOUNTS)
    requires comps != [] && Avoids(d, before, q, comps, p)
    ensures Followed(d, after, q, comps, true) ==
      var r := Followed(d, before, q, comps, true); if r == p then NewRoot(d, slot, rootIno) else r
    decreases |comps|
  {
    hide Stacked, Stepped, Uncovered, Avoids, NewRoot;
    if q.At? {
      MountSteps(d, before, after, p, slot, root, rootIno, q.mnt, q.ino, comps[0], true);
      AvoidsTail(d, before, q, comps, p);
      var q' := Stepped(d, before, q.mnt, q.ino, comps[0], true);
      if |comps| == 1 {
        assert comps[1..] == [];
      } else {
        AvoidsHead(d, before, q', comps[1..], p);
        MountFollows(d, before, after, p, slot, root, rootIno, q', comps[1..]);
      }
    }
  }

  lemma AvoidsHead(d: Disk, mounts: seq<Mount>, q: Place, comps: seq<string>, p: Place)
    requires Stacked(mounts) && (q.At? ==> q.mnt < MOUNTS) && comps != [] && Avoids(d, mounts, q, comps, p)
    ensures q != p
  {
    assert comps[..0] == [] && Followed(d, mounts, q, comps[..0], true) == q;
  }

  /** After a mount on a directory, a path that ended there ends at the root of what was mounted,
      and every other path that does not pass through the directory ends where it did. */
  lemma MountResolves(d: Disk, before: seq<Mount>, after: seq<Mount>, p: Place, slot: nat, root: nat, rootIno: nat,
                      path: string)
    requires Stacked(before) && AddsMount(before, after, p, slot, root, rootIno) && Uncovered(before, p.mnt, p.ino)
    requires var o := Origin(d, before); o.At? ==> o.mnt < MOUNTS
    requires Fold([], Components(path)).Some? ==>
              Avoids(d, before, Origin(d, before), Fold([], Components(path)).value, p)
    ensures Stacked(after)
    ensures Resolve(d, after, path) ==
      var r := Resolve(d, before, path); if r == p then NewRoot(d, slot, rootIno) else r
  {
    hide Entered, Uncovered, Stepped, Avoids, Fold;
    var n := d.lookup(0, before[0].rootIno, ".");
    MountEnters(d, before, after, p, slot, root, rootIno, 0, if n.Found? then n.ino else 0);
    var o := Origin(d, before);
    assert Origin(d, after) == if o == p then NewRoot(d, slot, rootIno) else o;
    if Fold([], Components(path)).Some? {
      var stack := Fold([], Components(path)).value;
      if stack != [] {
        AvoidsHead(d, before, Origin(d, before), stack, p);
        MountFollows(d, before, after, p, slot, root, rootIno, Origin(d, before), stack);
      }
    }
  }

  /** The scan for a free slot, refusing a directory that is mounted on already. */
  method FreeSlot(mounts: seq<Mount>, mnt: nat, ino: nat) returns (busy: bool, slot: nat)
    requires |mounts| == MOUNTS
    ensures busy <==> !Uncovered(mounts, mnt, ino)
    ensures !busy && slot == 0 ==> forall i :: 1 <= i < MOUNTS ==> mounts[i].used
    ensures !busy && slot != 0 ==> slot < MOUNTS && !mounts[slot].used && forall i :: 1 <= i < slot ==> mounts[i].used
  {
    busy, slot := false, 0;
    var i := 1;
    while i < MOUNTS
      invariant 1 <= i <= MOUNTS && !busy
      invariant forall j :: 1 <= j < i ==> !Covers(mounts[j], mnt, ino)
      invariant slot == 0 ==> forall j :: 1 <= j < i ==> mounts[j].used
      invariant slot != 0 ==> slot < i && !mounts[slot].used && forall j :: 1 <= j < slot ==> mounts[j].used
    {
      if Covers(mounts[i], mnt, ino) {
        return true, slot;
      }
      if !mounts[i].used && slot == 0 {
        slot := i;
      }
      i := i + 1;
    }
  }

  /** The slot of a mounted filesystem comes before the first free one. */
  lemma FillOrder(mounts: seq<Mount>, objects: Objects, pins: multiset<nat>, slot: nat, covered: nat)
    requires MountsOk(mounts, objects, pins) && 0 < slot < MOUNTS && !mounts[slot].used
    requires mounts[0].used && covered < MOUNTS && mounts[covered].used
    requires forall i :: 1 <= i < slot ==> mounts[i].used
    ensures covered < slot && forall i :: 0 <= i < MOUNTS ==> (mounts[i].used <==> i < slot)
  {
  }

  lemma NewMount(mounts: seq<Mount>, objects: Objects, pins: multiset<nat>, slot: nat, covered: nat, coveredIno: nat,
                 root: nat, x: Inode)
    requires MountsOk(mounts, objects, pins) && slot < |mounts| && !mounts[slot].used && (slot > 0 ==> covered < slot)
    requires (forall i :: 0 <= i < slot ==> mounts[i].used) && root !in objects && x.mnt == slot
    ensures forall q :: q in objects ==> !(objects[q].mnt == x.mnt && objects[q].ino == x.ino)
    ensures MountsOk(mounts[slot := Mount(true, covered, coveredIno, root, x.ino)], objects[root := x],
              pins + multiset{root})
  {
  }

  lemma {:induction false} FollowedLawful(d: Disk, mounts: seq<Mount>, p: Place, comps: seq<string>, exec: bool)
    requires Stacked(mounts) && Lawful(d) && (p.At? ==> p.mnt < MOUNTS) && p != Fails(Ok)
    ensures Followed(d, mounts, p, comps, exec) != Fails(Ok)
    decreases |comps|
  {
    if p.At? && comps != [] {
      SteppedBound(d, mounts, p.mnt, p.ino, comps[0], exec);
      if d.lookup(p.mnt, p.ino, comps[0]).Found? {
        EnteredLawful(d, mounts, p.mnt, d.lookup(p.mnt, p.ino, comps[0]).ino);
      }
      FollowedLawful(d, mounts, Stepped(d, mounts, p.mnt, p.ino, comps[0], exec), comps[1..], exec);
    }
  }

  lemma ResolveLawful(d: Disk, mounts: seq<Mount>, path: string)
    requires Stacked(mounts) && Lawful(d)
    ensures Resolve(d, mounts, path) != Fails(Ok)
  {
    hide Fold, Components;
    OriginLawful(d, mounts);
    OriginBound(d, mounts);
    match Fold([], Components(path)) {
      case None =>
      case Some(stack) => FollowedLawful(d, mounts, Origin(d, mounts), stack, true);
    }
  }

  lemma MountsStacked(mounts: seq<Mount>, objects: Objects, pins: multiset<nat>)
    requires MountsOk(mounts, objects, pins)
    ensures Stacked(mounts)
  {
  }

  lemma {:induction false} EnteredLawful(d: Disk, mounts: seq<Mount>, mnt: nat, ino: nat)
    requires Stacked(mounts) && mnt < MOUNTS && Lawful(d)
    ensures Entered(d, mounts, mnt, ino) != Fails(Ok)
    decreases MOUNTS - mnt
  {
    var i := FirstCover(mounts, mnt, ino, 1);
    if i < MOUNTS && d.lookup(i, mounts[i].rootIno, ".").Found? {
      EnteredLawful(d, mounts, i, d.lookup(i, mounts[i].rootIno, ".").ino);
    }
  }

  lemma OriginLawful(d: Disk, mounts: seq<Mount>)
    requires Stacked(mounts) && Lawful(d)
    ensures Origin(d, mounts) != Fails(Ok)
  {
    if d.lookup(0, mounts[0].rootIno, ".").Found? {
      EnteredLawful(d, mounts, 0, d.lookup(0, mounts[0].rootIno, ".").ino);
    }
  }

  lemma FailedWalk(d: Disk, mounts: seq<Mount>, p: Place, comps: seq<string>, exec: bool)
    requires Stacked(mounts) && p.Fails?
    ensures Followed(d, mounts, p, comps, exec) == p
  {
  }

  lemma RootPinned(mounts: seq<Mount>, objects: Objects, pins: multiset<nat>, i: nat)
    requires MountsOk(mounts, objects, pins) && i < |mounts| && mounts[i].used
    ensures i < MOUNTS && mounts[i].root in objects && objects[mounts[i].root].ino == mounts[i].rootIno
  {
  }

  /** Failed lookups report an error. */
  ghost predicate Lawful(d: Disk) {
    forall m, n, c :: d.lookup(m, n, c).Missing? ==> d.lookup(m, n, c).e != Ok
  }

  /** The scan of the mount table. */
  method FindCover(mounts: seq<Mount>, mnt: nat, ino: nat) returns (i: nat)
    requires |mounts| == MOUNTS
    ensures i == FirstCover(mounts, mnt, ino, 1)
  {
    i := 1;
    while i < MOUNTS && !Covers(mounts[i], mnt, ino)
      invariant 1 <= i <= MOUNTS && FirstCover(mounts, mnt, ino, 1) == FirstCover(mounts, mnt, ino, i)
    {
      i := i + 1;
    }
  }

  /** An object added or changed, on a mounted filesystem. */
  lemma MountsUpdate(mounts: seq<Mount>, objects: Objects, pins: multiset<nat>, o: nat, x: Inode)
    requires MountsOk(mounts, objects, pins) && x.mnt < MOUNTS && mounts[x.mnt].used
    requires o in objects ==> x.mnt == objects[o].mnt && x.ino == objects[o].ino
    ensures MountsOk(mounts, objects[o := x], pins)
  {
  }

  lemma MountsRemove(mounts: seq<Mount>, objects: Objects, pins: multiset<nat>, o: nat)
    requires MountsOk(mounts, objects, pins) && o !in pins
    ensures MountsOk(mounts, objects - {o}, pins)
  {
  }

  lemma ObjectMounted(mounts: seq<Mount>, objects: Objects, pins: multiset<nat>, o: nat)
    requires MountsOk(mounts, objects, pins) && o in objects
    ensures Stacked(mounts) && objects[o].mnt < MOUNTS && mounts[objects[o].mnt].used
  {
  }

  /** The chain walk of the canonicalisation. */
  method Search(objects: Objects, chain: seq<nat>, mnt: nat, ino: nat) returns (r: Option<nat>)
    requires forall i :: 0 <= i < |chain| ==> chain[i] in objects
    ensures r.Some? ==> r.value in objects && objects[r.value].mnt == mnt && objects[r.value].ino == ino
    ensures r.None? ==> forall i :: 0 <= i < |chain| ==> !(objects[chain[i]].mnt == mnt && objects[chain[i]].ino == ino)
  {
    var i := 0;
    while i < |chain|
      invariant 0 <= i <= |chain|
      invariant forall j :: 0 <= j < i ==> !(objects[chain[j]].mnt == mnt && objects[chain[j]].ino == ino)
    {
      if objects[chain[i]].mnt == mnt && objects[chain[i]].ino == ino {
        return Some(chain[i]);
      }
      i := i + 1;
    }
    r := None;
  }

  method FindIn(l: seq<nat>, o: nat) returns (i: nat)
    requires o in l
    ensures i < |l| && l[i] == o
  {
    i := 0;
    while l[i] != o
      invariant 0 <= i < |l| && o !in l[..i]
      decreases |l| - i
    {
      assert l == l[..i + 1] + l[i + 1..] && l[..i + 1] == l[..i] + [l[i]];
      i := i + 1;
    }
  }

  lemma ChainsExist(objects: Objects, chains: Chains, hash: Hash, held: multiset<nat>)
    requires CacheOk(objects, chains, hash, held)
    ensures forall b :: 0 <= b < BUCKETS ==> b in chains
  {
  }

  lemma ChainMembers(objects: Objects, chains: Chains, hash: Hash, held: multiset<nat>, b: nat)
    requires CacheOk(objects, chains, hash, held) && b in chains
    ensures forall i :: 0 <= i < |chains[b]| ==> chains[b][i] in objects
  {
    assert ChainOk(objects, hash, b, chains[b]);
  }

  /** A key its bucket does not show is nowhere. */
  lemma NotCached(objects: Objects, chains: Chains, hash: Hash, held: multiset<nat>, b: nat, mnt: nat, ino: nat)
    requires CacheOk(objects, chains, hash, held) && b == hash(mnt, ino) % BUCKETS && b in chains
    requires forall i :: 0 <= i < |chains[b]| ==>
      chains[b][i] in objects && !(objects[chains[b][i]].mnt == mnt && objects[chains[b][i]].ino == ino)
    ensures forall q :: q in objects ==> !(objects[q].mnt == mnt && objects[q].ino == ino)
  {
  }

  lemma HeldCached(objects: Objects, chains: Chains, hash: Hash, held: multiset<nat>, o: nat)
    requires CacheOk(objects, chains, hash, held) && o in held
    ensures o in objects && objects[o].refs > 0 && objects[o].refs == held[o]
    ensures var b := hash(objects[o].mnt, objects[o].ino) % BUCKETS; b in chains && o in chains[b]
  {
  }

  // ------------------------------------------------------------------------
  // The file system
  // ------------------------------------------------------------------------

  class Fs {
    const hash: Hash
    var objects: Objects
    var chains: Chains
    var mounts: seq<Mount>
    var next: nat
    /** References held by callers, and by the mount table. */
    var users: multiset<nat>
    ghost var pins: multiset<nat>
    /** The mount and inode number of every object there ever was. */
    ghost var born: seq<(nat, nat)>

    ghost predicate Inv()
      reads this
    {
      && CacheOk(objects, chains, hash, users + pins)
      && MountsOk(mounts, objects, pins)
      && |born| == next && BornAs(objects, born)
    }

    constructor (hash: Hash)
      ensures Inv() && users == multiset{} && pins == multiset{} && objects == map[]
      ensures forall i :: 0 <= i < MOUNTS ==> !mounts[i].used
    {
      this.hash := hash;
      objects := map[];
      chains := NoLists(BUCKETS);
      mounts := seq(MOUNTS, i => Mount(false, 0, 0, 0, 0));
      next := 0;
      users, pins := multiset{}, multiset{};
      born := [];
    }

    /** The cached object of the inode gets one more reference. */
    method Reuse(o: nat)
      requires Inv() && o in objects
      modifies this`objects, this`users
      ensures Inv() && users == old(users) + multiset{o}
      ensures objects == old(objects)[o := old(objects)[o].(refs := old(objects)[o].refs + 1)]
    {
      hide CacheOk, MountsOk, BornAs;
      BornSame(objects, born, o, objects[o].refs + 1);
      Referenced(objects, chains, hash, users + pins, o);
      ObjectMounted(mounts, objects, pins, o);
      MountsUpdate(mounts, objects, pins, o, objects[o].(refs := objects[o].refs + 1));
      objects := objects[o := objects[o].(refs := objects[o].refs + 1)];
      users := users + multiset{o};
      assert users + pins == old(users) + pins + multiset{o};
    }

    /** An inode that is not cached becomes an object of its own. */
    method Keep(x: Inode) returns (r: nat)
      requires Inv() && x.refs == 1 && x.mnt < MOUNTS && x.mnt < |mounts| && mounts[x.mnt].used
      requires forall q :: q in objects ==> !(objects[q].mnt == x.mnt && objects[q].ino == x.ino)
      modifies this`objects, this`chains, this`next, this`born, this`users
      ensures Inv() && Grown(old(born), born) && users == old(users) + multiset{r}
      ensures r !in old(objects) && objects == old(objects)[r := x]
    {
      hide CacheOk, MountsOk, BornAs, Grown;
      ChainsExist(objects, chains, hash, users + pins);
      var h := hash(x.mnt, x.ino) % BUCKETS;
      r := next;
      BornNew(objects, born, x);
      Inserted(objects, chains, hash, users + pins, r, x);
      MountsUpdate(mounts, objects, pins, r, x);
      next := next + 1;
      born := born + [(x.mnt, x.ino)];
      objects := objects[r := x];
      chains := chains[h := [r] + chains[h]];
      users := users + multiset{r};
      assert users + pins == old(users) + pins + multiset{r};
    }

    /** `vfs_icache_canonicalize` of a freshly built inode. */
    method Canonicalize(d: Disk, mnt: nat, ino: nat) returns (r: nat)
      requires Inv() && Agrees(d, objects) && mnt < MOUNTS && mnt < |mounts| && mounts[mnt].used
      modifies this`objects, this`chains, this`next, this`born, this`users
      ensures Grown(old(born), born)
      ensures Inv() && Agrees(d, objects) && users == old(users) + multiset{r}
      ensures r in objects && objects[r].mnt == mnt && objects[r].ino == ino
    {
      hide CacheOk, MountsOk, BornAs, Grown;
      GrownSelf(born);
      ChainsExist(objects, chains, hash, users + pins);
      var h := hash(mnt, ino) % BUCKETS;
      ChainMembers(objects, chains, hash, users + pins, h);
      var found := Search(objects, chains[h], mnt, ino);
      if found.Some? {
        r := found.value;
        Reuse(r);
      } else {
        NotCached(objects, chains, hash, users + pins, h, mnt, ino);
        r := Keep(Inode(mnt, ino, 1, d.isDir(mnt, ino), d.exec(mnt, ino)));
      }
    }

    /** `vfs_iput` of a reference the caller holds. */
    method Iput(o: nat)
      requires Inv() && o in users
      modifies this`objects, this`chains, this`users
      ensures Inv() && users == old(users) - multiset{o}
      ensures forall p :: p in objects ==>
                p in old(objects) && objects[p].(refs := old(objects)[p].refs) == old(objects)[p]
      ensures forall d: Disk :: Agrees(d, old(objects)) ==> Agrees(d, objects)
    {
      hide CacheOk, MountsOk, BornAs;
      HeldCached(objects, chains, hash, users + pins, o);
      assert users + pins - multiset{o} == users - multiset{o} + pins;
      var x := objects[o].(refs := objects[o].refs - 1);
      BornSame(objects, born, o, x.refs);
      if x.refs > 0 {
        Dropped(objects, chains, hash, users + pins, o);
        ObjectMounted(mounts, objects, pins, o);
        MountsUpdate(mounts, objects, pins, o, x);
        objects := objects[o := x];
      } else {
        var h := hash(x.mnt, x.ino) % BUCKETS;
        var i := FindIn(chains[h], o);
        Removed(objects, chains, hash, users + pins, o, i);
        MountsRemove(mounts, objects, pins, o);
        chains := chains[h := chains[h][..i] + chains[h][i + 1..]];
        objects := objects - {o};
      }
      users := users - multiset{o};
    }

    lemma Started()
      requires Inv()
      ensures Stacked(mounts) && |mounts| == MOUNTS
    {
    }

    lemma Known(o: nat)
      requires Inv() && o in users
      ensures o in objects && objects[o].mnt < MOUNTS && Stacked(mounts)
    {
      HeldCached(objects, chains, hash, users + pins, o);
    }

    /** One round of `cross_mounts`: a reference is traded for one to the root mounted there. */
    method Descend(d: Disk, cur: nat, sub: nat) returns (err: Err, root: nat)
      requires Inv() && Agrees(d, objects) && Lawful(d) && cur in users && sub < |mounts| && mounts[sub].used
      modifies this`objects, this`chains, this`next, this`born, this`users
      ensures Grown(old(born), born)
      ensures Inv() && Agrees(d, objects)
      ensures match d.lookup(sub, mounts[sub].rootIno, ".")
        case Found(n) =>
          && err == Ok && users == old(users) - multiset{cur} + multiset{root}
          && root in objects && objects[root].mnt == sub && objects[root].ino == n
        case Missing(e) => err == e && users == old(users) - multiset{cur}
    {
      hide CacheOk, MountsOk, BornAs, Grown;
      GrownSelf(born);
      RootPinned(mounts, objects, pins, sub);
      var entry := d.lookup(sub, objects[mounts[sub].root].ino, ".");
      match entry {
        case Missing(e) =>
          Iput(cur);
          err, root := e, cur;
        case Found(n) =>
          root := Canonicalize(d, sub, n);
          ghost var before := objects;
          Iput(cur);
          HeldCached(objects, chains, hash, users + pins, root);
          err := Ok;
      }
    }

    /** `cross_mounts` on a reference the caller holds: it is traded for one to the place entered,
        or given up on failure. */
    method CrossMounts(d: Disk, start: nat) returns (err: Err, cur: nat)
      requires Inv() && Agrees(d, objects) && start in users && Lawful(d)
      modifies this`objects, this`chains, this`next, this`born, this`users
      ensures Grown(old(born), born)
      ensures Inv() && Agrees(d, objects)
      ensures Stacked(mounts) && start in old(objects) && old(objects)[start].mnt < MOUNTS
      ensures match Entered(d, mounts, old(objects)[start].mnt, old(objects)[start].ino)
        case At(m, n) =>
          && err == Ok && users == old(users) - multiset{start} + multiset{cur}
          && cur in objects && objects[cur].mnt == m && objects[cur].ino == n
        case Fails(e) => err == e && users == old(users) - multiset{start}
    {
      hide Inv, Agrees, Entered, FirstCover, Stacked, Grown;
      GrownSelf(born);
      cur := start;
      Known(start);
      ghost var goal := Entered(d, mounts, objects[start].mnt, objects[start].ino);
      ghost var base := users - multiset{start};
      while true
        invariant Inv() && Agrees(d, objects) && cur in users && cur in objects && users == base + multiset{cur}
        invariant Grown(old(born), born)
        invariant objects[cur].mnt < MOUNTS && goal == Entered(d, mounts, objects[cur].mnt, objects[cur].ino)
        decreases MOUNTS - objects[cur].mnt
      {
        StackedLength(mounts);
        var sub := FindCover(mounts, objects[cur].mnt, objects[cur].ino);
        EnterStep(d, mounts, objects[cur].mnt, objects[cur].ino);
        if sub == MOUNTS {
          return Ok, cur;
        }
        ghost var was, held, from := born, users, cur;
        err, cur := Descend(d, cur, sub);
        GrownTrans(old(born), was, born);
        Traded(base, held, users, from, cur);
        if err != Ok {
          return;
        }
      }
    }

    /** The start of a walk: a reference to the root, crossed into whatever is mounted on it. */
    method Begin(d: Disk) returns (err: Err, cur: nat)
      requires Inv() && Agrees(d, objects) && Lawful(d) && |mounts| == MOUNTS && mounts[0].used
      modifies this`objects, this`chains, this`next, this`born, this`users
      ensures Grown(old(born), born)
      ensures Inv() && Agrees(d, objects) && Stacked(mounts)
      ensures match Origin(d, mounts)
        case At(m, n) =>
          && err == Ok && users == old(users) + multiset{cur}
          && cur in objects && objects[cur].mnt == m && objects[cur].ino == n
        case Fails(e) => err == e && users == old(users)
    {
      hide CacheOk, Entered, Agrees, BornAs, Grown;
      GrownSelf(born);
      RootPinned(mounts, objects, pins, 0);
      var entry := d.lookup(0, objects[mounts[0].root].ino, ".");
      match entry {
        case Missing(e) =>
          err, cur := e, 0;
        case Found(n) =>
          cur := Canonicalize(d, 0, n);
          ghost var was := born;
          err, cur := CrossMounts(d, cur);
          GrownTrans(old(born), was, born);
      }
    }

    /** One component of a walk: the reference is traded for one to the entry, mounts entered. */
    method Forward(d: Disk, dir: nat, name: string) returns (err: Err, cur: nat)
      requires Inv() && Agrees(d, objects) && Lawful(d) && dir in users
      modifies this`objects, this`chains, this`next, this`born, this`users
      ensures Grown(old(born), born)
      ensures Inv() && Agrees(d, objects) && Stacked(mounts)
      ensures dir in old(objects) && old(objects)[dir].mnt < MOUNTS
      ensures match d.lookup(old(objects)[dir].mnt, old(objects)[dir].ino, name)
        case Missing(e) => err == e && users == old(users) - multiset{dir}
        case Found(n) =>
          match Entered(d, mounts, old(objects)[dir].mnt, n)
          case At(m, k) =>
            && err == Ok && users == old(users) - multiset{dir} + multiset{cur}
            && cur in objects && objects[cur].mnt == m && objects[cur].ino == k
          case Fails(e) => err == e && users == old(users) - multiset{dir}
    {
      hide CacheOk, MountsOk, Entered, Agrees, Stacked, BornAs, Grown;
      GrownSelf(born);
      HeldCached(objects, chains, hash, users + pins, dir);
      ObjectMounted(mounts, objects, pins, dir);
      StackedLength(mounts);
      var mnt := objects[dir].mnt;
      var entry := d.lookup(mnt, objects[dir].ino, name);
      match entry {
        case Missing(e) =>
          Iput(dir);
          err, cur := e, dir;
        case Found(n) =>
          cur := Canonicalize(d, mnt, n);
          Iput(dir);
          HeldCached(objects, chains, hash, users + pins, cur);
          ghost var base := users - multiset{cur};
          ghost var was := born;
          err, cur := CrossMounts(d, cur);
          GrownTrans(old(born), was, born);
          assert base == old(users) - multiset{dir};
      }
    }

    /** `vfs_open`: exactly one new reference, to the place the path means; none on failure. */
    method Open(d: Disk, path: string) returns (err: Err, cur: nat)
      requires Inv() && Agrees(d, objects) && Lawful(d)
      modifies this`objects, this`chains, this`next, this`born, this`users
      ensures Grown(old(born), born)
      ensures Inv() && Agrees(d, objects) && Stacked(mounts)
      ensures match Resolve(d, mounts, path)
        case At(m, n) =>
          && err == Ok && users == old(users) + multiset{cur}
          && cur in objects && objects[cur].mnt == m && objects[cur].ino == n
        case Fails(e) => err == e && users == old(users)
    {
      hide Inv, Entered, Agrees, Stacked, Components, Fold, Join, Followed, Lawful, Origin, Uncovered, Grown, Names, Name, AllNames;
      GrownSelf(born);
      Started();
      cur := 0;
      if !mounts[0].used {
        return ENOENT, cur;
      }
      var buf := new char[PATH_MAX];
      var len;
      err, len := Normalize(path, buf);
      if err != Ok {
        return;
      }
      var norm := buf[..len];
      Idempotent(path);
      NamesAll(Fold([], Components(path)).value);
      err, cur := Begin(d);
      OriginLawful(d, mounts);
      if err != Ok {
        FailedWalk(d, mounts, Origin(d, mounts), Components(norm), true);
        return;
      }
      ghost var was := born;
      err, cur := Follow(d, cur, norm);
      GrownTrans(old(born), was, born);
    }

    /** One component, with the checks before the lookup. */
    method Advance(d: Disk, dir: nat, name: string, exec: bool) returns (err: Err, cur: nat)
      requires Inv() && Agrees(d, objects) && Lawful(d) && dir in users
      modifies this`objects, this`chains, this`next, this`born, this`users
      ensures Grown(old(born), born)
      ensures Inv() && Agrees(d, objects) && Stacked(mounts)
      ensures dir in old(objects) && old(objects)[dir].mnt < MOUNTS
      ensures match Stepped(d, mounts, old(objects)[dir].mnt, old(objects)[dir].ino, name, exec)
        case At(m, k) =>
          && err == Ok && users == old(users) - multiset{dir} + multiset{cur}
          && cur in objects && objects[cur].mnt == m && objects[cur].ino == k
        case Fails(e) => err == e && err != Ok && users == old(users) - multiset{dir}
    {
      hide Inv, Entered, Stacked, Grown;
      GrownSelf(born);
      Known(dir);
      cur := dir;
      if !objects[dir].isDir {
        Iput(dir);
        return ENOTDIR, cur;
      }
      if exec && !objects[dir].exec {
        Iput(dir);
        return EACCES, cur;
      }
      if d.lookup(objects[dir].mnt, objects[dir].ino, name).Found? {
        EnteredLawful(d, mounts, objects[dir].mnt, d.lookup(objects[dir].mnt, objects[dir].ino, name).ino);
      }
      err, cur := Forward(d, dir, name);
    }

    /** The walk along a normalised path, from a reference the caller holds. */
    method Follow(d: Disk, start: nat, norm: string) returns (err: Err, cur: nat)
      requires Inv() && Agrees(d, objects) && Lawful(d) && start in users
      requires AllNames(Components(norm))
      modifies this`objects, this`chains, this`next, this`born, this`users
      ensures Grown(old(born), born)
      ensures Inv() && Agrees(d, objects) && Stacked(mounts)
      ensures start in old(objects) && old(objects)[start].mnt < MOUNTS
      ensures match Followed(d, mounts, At(old(objects)[start].mnt, old(objects)[start].ino), Components(norm), true)
        case At(m, n) =>
          && err == Ok && users == old(users) - multiset{start} + multiset{cur}
          && cur in objects && objects[cur].mnt == m && objects[cur].ino == n
        case Fails(e) => err == e && users == old(users) - multiset{start}
    {
      hide Inv, Entered, Stacked, Components, Fold, Join, Followed, Stepped, Agrees, Lawful, Uncovered, Grown, AllNames;
      GrownSelf(born);
      Known(start);
      cur := start;
      var pos := 0;
      assert norm[0..] == norm;
      ghost var goal := Followed(d, mounts, At(objects[start].mnt, objects[start].ino), Components(norm), true);
      ghost var base := users - multiset{start};
      while true
        invariant 0 <= pos <= |norm| && Inv() && Agrees(d, objects) && Stacked(mounts)
        invariant cur in users && users == base + multiset{cur} && cur in objects && objects[cur].mnt < MOUNTS
        invariant goal == Followed(d, mounts, At(objects[cur].mnt, objects[cur].ino), Components(norm[pos..]), true)
        invariant Grown(old(born), born)
        invariant AllNames(Components(norm[pos..]))
        decreases |norm| - pos
      {
        var step := NextComponent(norm, pos, NAME_MAX);
        FollowStep(d, mounts, objects[cur].mnt, objects[cur].ino, Components(norm[pos..]), true);
        match step {
          case End =>
            return Ok, cur;
          case TooLong =>
            FirstName(Components(norm[pos..]));
            assert false;
          case Got(c, next) =>
            RestNames(c, Components(norm[next..]));
            pos := next;
            ghost var was, held, from := born, users, cur;
            err, cur := Advance(d, cur, c, true);
            GrownTrans(old(born), was, born);
            Traded(base, held, users, from, cur);
            if err != Ok {
              return;
            }
        }
      }
    }

    /** The walk of `vfs_parent`: all components but the last, whose name is returned. */
    method FollowParent(d: Disk, start: nat, norm: string) returns (err: Err, cur: nat, name: string)
      requires Inv() && Agrees(d, objects) && Lawful(d) && start in users
      requires Components(norm) != [] && AllNames(Components(norm))
      modifies this`objects, this`chains, this`next, this`born, this`users
      ensures Grown(old(born), born)
      ensures Inv() && Agrees(d, objects) && Stacked(mounts)
      ensures start in old(objects) && old(objects)[start].mnt < MOUNTS
      ensures match Followed(d, mounts, At(old(objects)[start].mnt, old(objects)[start].ino), Front(Components(norm)),
                false)
        case At(m, n) =>
          && err == Ok && users == old(users) - multiset{start} + multiset{cur} && name == Last(Components(norm))
          && cur in objects && objects[cur].mnt == m && objects[cur].ino == n
        case Fails(e) => err == e && users == old(users) - multiset{start}
    {
      hide Inv, Entered, Stacked, Components, Fold, Join, Followed, Stepped, Agrees, Lawful, Uncovered, Grown, AllNames;
      GrownSelf(born);
      Known(start);
      cur := start;
      var pos := 0;
      assert norm[0..] == norm;
      ghost var goal := Followed(d, mounts, At(objects[start].mnt, objects[start].ino), Front(Components(norm)), false);
      ghost var base := users - multiset{start};
      while true
        invariant 0 <= pos <= |norm| && Inv() && Agrees(d, objects) && Stacked(mounts) && Components(norm[pos..]) != []
        invariant cur in users && users == base + multiset{cur} && cur in objects && objects[cur].mnt < MOUNTS
        invariant goal == Followed(d, mounts, At(objects[cur].mnt, objects[cur].ino), Front(Components(norm[pos..])),
                  false)
        invariant Last(Components(norm[pos..])) == Last(Components(norm))
        invariant Grown(old(born), born)
        invariant AllNames(Components(norm[pos..]))
        decreases |norm| - pos
      {
        var step := NextComponent(norm, pos, NAME_MAX);
        FollowStep(d, mounts, objects[cur].mnt, objects[cur].ino, Front(Components(norm[pos..])), false);
        match step {
          case End =>
            assert false;
          case TooLong =>
            FirstName(Components(norm[pos..]));
            assert false;
          case Got(c, next) =>
            ghost var rest := Components(norm[next..]);
            RestNames(c, rest);
            FrontLast(c, rest);
            var more := SkipSlash(norm, next);
            AnyLeft(norm, more);
            if more == |norm| {
              return Ok, cur, c;
            }
            pos := next;
            ghost var was, held, from := born, users, cur;
            err, cur := Advance(d, cur, c, false);
            GrownTrans(old(born), was, born);
            Traded(base, held, users, from, cur);
            if err != Ok {
              name := "";
              return;
            }
        }
      }
    }

    /** `vfs_parent`: one new reference, to the directory the last component is looked up in. */
    method Parent(d: Disk, path: string) returns (err: Err, cur: nat, name: string)
      requires Inv() && Agrees(d, objects) && Lawful(d)
      modifies this`objects, this`chains, this`next, this`born, this`users
      ensures Grown(old(born), born)
      ensures Inv() && Agrees(d, objects) && Stacked(mounts)
      ensures match ParentOf(d, mounts, path)
        case At(m, n) =>
          && err == Ok && users == old(users) + multiset{cur}
          && cur in objects && objects[cur].mnt == m && objects[cur].ino == n
          && Fold([], Components(path)).Some? && Fold([], Components(path)).value != []
          && name == Last(Fold([], Components(path)).value)
        case Fails(e) => err == e && users == old(users)
    {
      hide Inv, Entered, Agrees, Stacked, Components, Fold, Join, Followed, Lawful, Origin, Uncovered, Grown, Names, Name, AllNames;
      GrownSelf(born);
      Started();
      cur, name := 0, "";
      if !mounts[0].used {
        return ENOENT, cur, name;
      }
      var buf := new char[PATH_MAX];
      var len;
      err, len := Normalize(path, buf);
      if err != Ok {
        return;
      }
      var norm := buf[..len];
      Idempotent(path);
      NamesAll(Fold([], Components(path)).value);
      err, cur := Begin(d);
      OriginLawful(d, mounts);
      if err != Ok {
        FailedWalk(d, mounts, Origin(d, mounts), Front(Components(norm)), false);
        return;
      }
      var more := SkipSlash(norm, 0);
      assert norm[0..] == norm;
      AnyLeft(norm, more);
      if more == |norm| {
        Iput(cur);
        return EINVAL, cur, name;
      }
      ghost var was := born;
      err, cur, name := FollowParent(d, cur, norm);
      GrownTrans(old(born), was, born);
    }

    /** The root of a new mount in the first free slot becomes a pinned cache entry. */
    method PinRoot(d: Disk, slot: nat, covered: nat, coveredIno: nat, rootIno: nat)
      requires Inv() && Agrees(d, objects) && slot < |mounts| && !mounts[slot].used && (slot > 0 ==> covered < slot)
      requires forall i :: 0 <= i < slot ==> mounts[i].used
      modifies this`objects, this`chains, this`next, this`born, this`mounts, this`pins
      ensures Grown(old(born), born)
      ensures Inv() && Agrees(d, objects)
      ensures exists root :: mounts == old(mounts)[slot := Mount(true, covered, coveredIno, root, rootIno)] &&
                pins == old(pins) + multiset{root}
    {
      hide CacheOk, MountsOk, BornAs, Grown;
      ChainsExist(objects, chains, hash, users + pins);
      var root := next;
      next := next + 1;
      var x := Inode(slot, rootIno, 1, d.isDir(slot, rootIno), d.exec(slot, rootIno));
      BornNew(objects, born, x);
      born := born + [(slot, rootIno)];
      var h := hash(slot, rootIno) % BUCKETS;
      NewMount(mounts, objects, pins, slot, covered, coveredIno, root, x);
      Inserted(objects, chains, hash, users + pins, root, x);
      objects := objects[root := x];
      chains := chains[h := [root] + chains[h]];
      mounts := mounts[slot := Mount(true, covered, coveredIno, root, rootIno)];
      pins := pins + multiset{root};
      assert users + pins == users + old(pins) + multiset{root};
    }

    /** `vfs_mount` on "/": `mounted` is what the filesystem's mount operation gives. */
    method MountRoot(d: Disk, mounted: Entry) returns (err: Err)
      requires Inv() && Agrees(d, objects) && Lawful(d) && (mounted.Missing? ==> mounted.e != Ok)
      modifies this`objects, this`chains, this`next, this`born, this`mounts, this`pins
      ensures Grown(old(born), born)
      ensures Inv() && Agrees(d, objects)
      ensures |old(mounts)| == MOUNTS
      ensures err == if old(mounts)[0].used then EBUSY else if mounted.Missing? then mounted.e else Ok
      ensures err != Ok ==> mounts == old(mounts) && pins == old(pins)
      ensures err == Ok ==> |mounts| == MOUNTS && mounts[0].used && mounts[0].rootIno == mounted.ino
    {
      hide CacheOk, MountsOk, Stacked, BornAs, Grown;
      GrownSelf(born);
      MountsStacked(mounts, objects, pins);
      StackedLength(mounts);
      if mounts[0].used {
        return EBUSY;
      }
      if mounted.Missing? {
        return mounted.e;
      }
      PinRoot(d, 0, 0, 0, mounted.ino);
      err := Ok;
    }

    /** Where a mount would go: the target is opened, looked at and closed. */
    method Target(d: Disk, target: string) returns (err: Err, isDir: bool, mnt: nat, ino: nat)
      requires Inv() && Agrees(d, objects) && Lawful(d)
      modifies this`objects, this`chains, this`next, this`born, this`users
      ensures Grown(old(born), born)
      ensures Inv() && Agrees(d, objects) && users == old(users) && Stacked(mounts)
      ensures match Resolve(d, mounts, target)
        case At(m, n) =>
          && err == Ok && mnt == m && ino == n && isDir == d.isDir(m, n)
          && mnt < MOUNTS && mnt < |mounts| && mounts[mnt].used
        case Fails(e) => err == e
    {
      hide CacheOk, MountsOk, Stacked, Resolve, Agrees, BornAs, Grown;
      isDir, mnt, ino := false, 0, 0;
      Started();
      ResolveLawful(d, mounts, target);
      var tdir;
      err, tdir := Open(d, target);
      if err != Ok {
        return;
      }
      HeldCached(objects, chains, hash, users + pins, tdir);
      ObjectMounted(mounts, objects, pins, tdir);
      StackedLength(mounts);
      CachedDir(d, objects, tdir);
      isDir, mnt, ino := objects[tdir].isDir, objects[tdir].mnt, objects[tdir].ino;
      Iput(tdir);
      assert users == old(users);
    }

    /** `vfs_mount` on a directory: it takes the first free slot, which comes after the slot of the
        directory it covers.  The walk to the target enters whatever is mounted there, so the
        refusal of a second mount on one directory never happens. */
    method MountOn(d: Disk, target: string, mounted: Entry) returns (err: Err)
      requires Inv() && Agrees(d, objects) && Lawful(d) && (mounted.Missing? ==> mounted.e != Ok)
      modifies this`objects, this`chains, this`next, this`born, this`mounts, this`users, this`pins
      ensures Grown(old(born), born)
      ensures Inv() && Agrees(d, objects) && users == old(users)
      ensures Stacked(old(mounts)) && err == MountError(d, old(mounts), target, mounted)
      ensures err != Ok ==> mounts == old(mounts) && pins == old(pins)
      ensures err == Ok ==> mounted.Found? && exists slot, root ::
                AddsMount(old(mounts), mounts, Resolve(d, old(mounts), target), slot, root, mounted.ino) &&
                pins == old(pins) + multiset{root}
    {
      hide CacheOk, MountsOk, Stacked, Resolve, Entered, Agrees, BornAs, Grown;
      GrownSelf(born);
      MountsStacked(mounts, objects, pins);
      StackedLength(mounts);
      if !mounts[0].used {
        return ENOENT;
      }
      var isDir, covered, coveredIno;
      ResolveLawful(d, mounts, target);
      ResolvedUncovered(d, mounts, target);
      err, isDir, covered, coveredIno := Target(d, target);
      if err != Ok {
        return;
      }
      if !isDir {
        return ENOTDIR;
      }
      var busy, slot := FreeSlot(mounts, covered, coveredIno);
      if busy {
        return EBUSY;
      }
      if slot == 0 {
        return ENOSPC;
      }
      if mounted.Missing? {
        return mounted.e;
      }
      FillOrder(mounts, objects, pins, slot, covered);
      ghost var was := born;
      PinRoot(d, slot, covered, coveredIno, mounted.ino);
      GrownTrans(old(born), was, born);
      assert AddsMount(old(mounts), mounts, At(covered, coveredIno), slot, mounts[slot].root, mounted.ino);
      err := Ok;
    }
  }
}
