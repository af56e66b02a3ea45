/** Whole runs of the filesystem layer: opens, parent lookups, closes and mounts in any order, with
    the disk changing between calls (kernel/fs/vfs.c). */
module VfsRuns {
  import opened Base
  import opened Paths
  import opened Vfs

  /** A call, with the disk as it is at that moment.  `mounted` is what the filesystem's own mount
      operation gives. */
  datatype FsOp =
    | OpenOp(d: Disk, path: string)
    | ParentOp(d: Disk, path: string)
    | CloseOp(o: nat)
    | MountRootOp(d: Disk, mounted: Entry)
    | MountOp(d: Disk, path: string, mounted: Entry)

  datatype Out = Opened(o: nat) | OpenedIn(o: nat, name: string) | Finished(err: Err)

  /** What matters of a state. */
  datatype Snap = Snap(objects: Objects, mounts: seq<Mount>, users: multiset<nat>, pins: multiset<nat>,
                       born: seq<(nat, nat)>)

  /** Errors are errors. */
  ghost predicate OpOk(op: FsOp) {
    match op
    case OpenOp(d, _) => Lawful(d)
    case ParentOp(d, _) => Lawful(d)
    case CloseOp(_) => true
    case MountRootOp(d, mounted) => Lawful(d) && (mounted.Missing? ==> mounted.e != Ok)
    case MountOp(d, _, mounted) => Lawful(d) && (mounted.Missing? ==> mounted.e != Ok)
  }

  // ------------------------------------------------------------------------
  // The disk as walks see it
  // ------------------------------------------------------------------------

  predicate Caches(objects: Objects, mnt: nat, ino: nat) {
    exists o :: o in objects && objects[o].mnt == mnt && objects[o].ino == ino
  }

  predicate CachedIsDir(objects: Objects, mnt: nat, ino: nat) {
    exists o :: o in objects && objects[o].mnt == mnt && objects[o].ino == ino && objects[o].isDir
  }

  predicate CachedExec(objects: Objects, mnt: nat, ino: nat) {
    exists o :: o in objects && objects[o].mnt == mnt && objects[o].ino == ino && objects[o].exec
  }

  /** The attributes of an inode in use are those of its object; the disk is asked for the others. */
  function Effective(d: Disk, objects: Objects): Disk {
    Disk(d.lookup,
         (m: nat, n: nat) => if Caches(objects, m, n) then CachedIsDir(objects, m, n) else d.isDir(m, n),
         (m: nat, n: nat) => if Caches(objects, m, n) then CachedExec(objects, m, n) else d.exec(m, n))
  }

  ghost predicate OneEach(objects: Objects) {
    forall o, q :: o in objects && q in objects ==> Canonical(objects, o, q)
  }

  lemma EffectiveAgrees(d: Disk, objects: Objects)
    requires OneEach(objects)
    ensures Agrees(Effective(d, objects), objects)
    ensures Lawful(d) ==> Lawful(Effective(d, objects))
  {
    var e := Effective(d, objects);
    forall o | o in objects
      ensures objects[o].isDir == e.isDir(objects[o].mnt, objects[o].ino)
      ensures objects[o].exec == e.exec(objects[o].mnt, objects[o].ino)
    {
      forall q | q in objects && objects[q].mnt == objects[o].mnt && objects[q].ino == objects[o].ino ensures q == o {
        assert Canonical(objects, o, q);
      }
      assert Caches(objects, objects[o].mnt, objects[o].ino);
      assert CachedIsDir(objects, objects[o].mnt, objects[o].ino) <==> objects[o].isDir;
      assert CachedExec(objects, objects[o].mnt, objects[o].ino) <==> objects[o].exec;
    }
  }

  // ------------------------------------------------------------------------
  // Steps and runs
  // ------------------------------------------------------------------------

  /** One object per inode, each as it was born, with as many references as are held; nothing is
      mounted below itself. */
  ghost predicate Good(x: Snap) {
    && Stacked(x.mounts)
    && OneEach(x.objects)
    && BornAs(x.objects, x.born)
    && (forall o :: o in x.users ==> o in x.objects)
    && (forall o :: o in x.objects ==> x.objects[o].refs == (x.users + x.pins)[o])
  }

  /** One more reference, to the inode at the place. */
  ghost predicate Gives(x: Snap, x': Snap, p: Place, o: nat)
    requires p.At?
  {
    x'.users == x.users + multiset{o} && o in x'.objects && x'.objects[o].mnt == p.mnt && x'.objects[o].ino == p.ino
  }

  ghost predicate SameMounts(x: Snap, x': Snap) {
    x'.mounts == x.mounts && x'.pins == x.pins
  }

  /** What a call does. */
  ghost predicate Stepped(x: Snap, op: FsOp, out: Out, x': Snap)
    requires Good(x)
  {
    match op
    case OpenOp(d, path) =>
      && SameMounts(x, x')
      && var p := Resolve(Effective(d, x.objects), x.mounts, path);
         if p.At? then out.Opened? && Gives(x, x', p, out.o)
         else out == Finished(p.e) && p.e != Ok && x'.users == x.users
    case ParentOp(d, path) =>
      && SameMounts(x, x')
      && var p := ParentOf(Effective(d, x.objects), x.mounts, path);
         if p.At? then
           && out.OpenedIn? && Gives(x, x', p, out.o)
           && Fold([], Components(path)).Some? && out.name == Last(Fold([], Components(path)).value)
         else out == Finished(p.e) && p.e != Ok && x'.users == x.users
    case CloseOp(o) =>
      && SameMounts(x, x')
      && out == Finished(if o in x.users then Ok else EINVAL)
      && x'.users == if o in x.users then x.users - multiset{o} else x.users
    case MountRootOp(_, mounted) =>
      && x'.users == x.users
      && out == Finished(if x.mounts[0].used then EBUSY else if mounted.Missing? then mounted.e else Ok)
      && (out.err != Ok ==> SameMounts(x, x'))
      && (out.err == Ok ==>
          mounted.Found? && Stacked(x'.mounts) && x'.mounts[0].used && x'.mounts[0].rootIno == mounted.ino)
    case MountOp(d, path, mounted) =>
      && x'.users == x.users
      && out == Finished(MountError(Effective(d, x.objects), x.mounts, path, mounted))
      && (out.err != Ok ==> SameMounts(x, x'))
      && (out.err == Ok ==> mounted.Found? && exists slot, root ::
            && AddsMount(x.mounts, x'.mounts, Resolve(Effective(d, x.objects), x.mounts, path), slot, root, mounted.ino)
            && x'.pins == x.pins + multiset{root})
  }

  ghost predicate Runs(trace: seq<Snap>, ops: seq<FsOp>, outs: seq<Out>) {
    && |trace| == |ops| + 1 && |outs| == |ops|
    && (forall i :: 0 <= i < |trace| ==> Good(trace[i]))
    && forall i :: 0 <= i < |ops| ==>
        Stepped(trace[i], ops[i], outs[i], trace[i + 1]) && Grown(trace[i].born, trace[i + 1].born)
  }

  lemma RunsMore(trace: seq<Snap>, ops: seq<FsOp>, outs: seq<Out>, x: Snap, op: FsOp, out: Out)
    requires Runs(trace, ops, outs) && Good(x)
    requires Stepped(trace[|ops|], op, out, x) && Grown(trace[|ops|].born, x.born)
    ensures Runs(trace + [x], ops + [op], outs + [out])
  {
    hide Good, Stepped, Grown;
  }

  lemma {:induction false} GrownAlong(trace: seq<Snap>, ops: seq<FsOp>, outs: seq<Out>, i: nat, j: nat)
    requires Runs(trace, ops, outs) && i <= j < |trace|
    ensures Grown(trace[i].born, trace[j].born)
    decreases j
  {
    hide Good, Stepped, Grown;
    if i == j {
      GrownSelf(trace[i].born);
    } else {
      GrownAlong(trace, ops, outs, i, j - 1);
      GrownTrans(trace[i].born, trace[j - 1].born, trace[j - 1 + 1].born);
    }
  }

  /** An object is the same inode for as long as it is there. */
  lemma SameInode(trace: seq<Snap>, ops: seq<FsOp>, outs: seq<Out>, i: nat, j: nat, o: nat)
    requires Runs(trace, ops, outs) && i <= j < |trace| && o in trace[i].objects && o in trace[j].objects
    ensures trace[j].objects[o].mnt == trace[i].objects[o].mnt && trace[j].objects[o].ino == trace[i].objects[o].ino
  {
    hide Stepped;
    GrownAlong(trace, ops, outs, i, j);
  }

  /** Opening what is open already gives the object that is there. */
  lemma OpenAgain(trace: seq<Snap>, ops: seq<FsOp>, outs: seq<Out>, i: nat, j: nat, o: nat)
    requires Runs(trace, ops, outs) && i <= j < |ops| && ops[j].OpenOp? && outs[j].Opened?
    requires o in trace[i].objects && o in trace[j + 1].objects
    requires Resolve(Effective(ops[j].d, trace[j].objects), trace[j].mounts, ops[j].path) ==
             At(trace[i].objects[o].mnt, trace[i].objects[o].ino)
    ensures outs[j] == Opened(o)
  {
    SameInode(trace, ops, outs, i, j + 1, o);
    var x := trace[j + 1];
    assert Good(x) && Stepped(trace[j], ops[j], outs[j], x);
    assert Canonical(x.objects, o, outs[j].o);
  }

  /** What a call gives and takes. */
  function Change(op: FsOp, out: Out): (multiset<nat>, multiset<nat>) {
    match (op, out)
    case (OpenOp(_, _), Opened(o)) => (multiset{o}, multiset{})
    case (ParentOp(_, _), OpenedIn(o, _)) => (multiset{o}, multiset{})
    case (CloseOp(o), Finished(Ok)) => (multiset{}, multiset{o})
    case _ => (multiset{}, multiset{})
  }

  function Given(ops: seq<FsOp>, outs: seq<Out>): multiset<nat>
    requires |outs| == |ops|
  {
    if ops == [] then multiset{}
    else Given(ops[..|ops| - 1], outs[..|ops| - 1]) + Change(ops[|ops| - 1], outs[|ops| - 1]).0
  }

  function Taken(ops: seq<FsOp>, outs: seq<Out>): multiset<nat>
    requires |outs| == |ops|
  {
    if ops == [] then multiset{}
    else Taken(ops[..|ops| - 1], outs[..|ops| - 1]) + Change(ops[|ops| - 1], outs[|ops| - 1]).1
  }

  /** No reference is lost or invented: those held at the end and those given back are those held
      at the start and those given out. */
  lemma {:induction false} Balanced(trace: seq<Snap>, ops: seq<FsOp>, outs: seq<Out>)
    requires Runs(trace, ops, outs)
    ensures trace[|ops|].users + Taken(ops, outs) == trace[0].users + Given(ops, outs)
    decreases |ops|
  {
    hide Runs, Good, Stepped, Change;
    if ops != [] {
      var n := |ops| - 1;
      PrefixRuns(trace, ops, outs, n);
      Balanced(trace[..n + 1], ops[..n], outs[..n]);
      StepAt(trace, ops, outs, n);
      StepBalanced(trace[n], ops[n], outs[n], trace[n + 1]);
      Sums(trace[0].users, trace[n].users, trace[n + 1].users, Given(ops[..n], outs[..n]), Taken(ops[..n], outs[..n]),
           Change(ops[n], outs[n]).0, Change(ops[n], outs[n]).1);
    }
  }

  lemma Sums(u0: multiset<nat>, u: multiset<nat>, u': multiset<nat>, given: multiset<nat>, taken: multiset<nat>,
             more: multiset<nat>, less: multiset<nat>)
    requires u + taken == u0 + given && u' + less == u + more
    ensures u' + (taken + less) == u0 + (given + more)
  {
    forall o ensures (u' + (taken + less))[o] == (u0 + (given + more))[o] {
      assert (u + taken)[o] == (u0 + given)[o] && (u' + less)[o] == (u + more)[o];
    }
  }

  lemma StepAt(trace: seq<Snap>, ops: seq<FsOp>, outs: seq<Out>, n: nat)
    requires Runs(trace, ops, outs) && n < |ops|
    ensures Good(trace[n]) && Stepped(trace[n], ops[n], outs[n], trace[n + 1])
  {
  }

  lemma PrefixRuns(trace: seq<Snap>, ops: seq<FsOp>, outs: seq<Out>, n: nat)
    requires Runs(trace, ops, outs) && n <= |ops|
    ensures |trace| == |ops| + 1 && |outs| == |ops| && Runs(trace[..n + 1], ops[..n], outs[..n])
  {
    hide Good, Stepped, Grown;
  }

  lemma StepBalanced(x: Snap, op: FsOp, out: Out, x': Snap)
    requires Good(x) && Stepped(x, op, out, x')
    ensures x'.users + Change(op, out).1 == x.users + Change(op, out).0
  {
    hide Good, Resolve, ParentOf, Effective, MountError, Fold, AddsMount;
  }

  // ------------------------------------------------------------------------
  // The code
  // ------------------------------------------------------------------------

  ghost function Now(fs: Fs): Snap
    reads fs
  {
    Snap(fs.objects, fs.mounts, fs.users, fs.pins, fs.born)
  }

  lemma InvGood(fs: Fs)
    requires fs.Inv()
    ensures Good(Now(fs))
  {
    hide Canonical;
  }

  method DoOpen(fs: Fs, op: FsOp) returns (out: Out)
    requires fs.Inv() && OpOk(op) && op.OpenOp?
    modifies fs
    ensures fs.Inv() && old(Good(Now(fs))) && Stepped(old(Now(fs)), op, out, Now(fs)) && Grown(old(fs.born), fs.born)
  {
    hide fs.Inv, Resolve, Effective, Agrees, Lawful, Grown, OneEach, BornAs, Stacked;
    InvGood(fs);
    var d := Effective(op.d, fs.objects);
    EffectiveAgrees(op.d, fs.objects);
    ResolveLawful(d, fs.mounts, op.path);
    var err, o := fs.Open(d, op.path);
    out := if err == Ok then Opened(o) else Finished(err);
  }

  method DoParent(fs: Fs, op: FsOp) returns (out: Out)
    requires fs.Inv() && OpOk(op) && op.ParentOp?
    modifies fs
    ensures fs.Inv() && old(Good(Now(fs))) && Stepped(old(Now(fs)), op, out, Now(fs)) && Grown(old(fs.born), fs.born)
  {
    hide fs.Inv, ParentOf, Effective, Agrees, Lawful, Grown, OneEach, BornAs, Stacked, Fold;
    InvGood(fs);
    var d := Effective(op.d, fs.objects);
    EffectiveAgrees(op.d, fs.objects);
    ParentLawful(d, fs.mounts, op.path);
    var err, o, name := fs.Parent(d, op.path);
    out := if err == Ok then OpenedIn(o, name) else Finished(err);
  }

  lemma ParentLawful(d: Disk, mounts: seq<Mount>, path: string)
    requires Stacked(mounts) && Lawful(d)
    ensures ParentOf(d, mounts, path) != Fails(Ok)
  {
    hide Fold;
    OriginLawful(d, mounts);
    OriginBound(d, mounts);
    if Fold([], Components(path)).Some? {
      FollowedLawful(d, mounts, Origin(d, mounts), Front(Fold([], Components(path)).value), false);
    }
  }

  method DoClose(fs: Fs, op: FsOp) returns (out: Out)
    requires fs.Inv() && OpOk(op) && op.CloseOp?
    modifies fs
    ensures fs.Inv() && old(Good(Now(fs))) && Stepped(old(Now(fs)), op, out, Now(fs)) && Grown(old(fs.born), fs.born)
  {
    hide fs.Inv, Grown, OneEach, BornAs, Stacked;
    InvGood(fs);
    GrownSelf(fs.born);
    if op.o !in fs.users {
      return Finished(EINVAL);
    }
    fs.Iput(op.o);
    out := Finished(Ok);
  }

  method DoMount(fs: Fs, op: FsOp) returns (out: Out)
    requires fs.Inv() && OpOk(op) && (op.MountRootOp? || op.MountOp?)
    modifies fs
    ensures fs.Inv() && old(Good(Now(fs))) && Stepped(old(Now(fs)), op, out, Now(fs)) && Grown(old(fs.born), fs.born)
  {
    hide fs.Inv, Resolve, Effective, Agrees, Lawful, Grown, OneEach, BornAs, Stacked, AddsMount, MountError;
    InvGood(fs);
    var d := Effective(op.d, fs.objects);
    EffectiveAgrees(op.d, fs.objects);
    var err;
    if op.MountRootOp? {
      err := fs.MountRoot(d, op.mounted);
      InvGood(fs);
    } else {
      err := fs.MountOn(d, op.path, op.mounted);
    }
    out := Finished(err);
  }

  method Act(fs: Fs, op: FsOp) returns (out: Out)
    requires fs.Inv() && OpOk(op)
    modifies fs
    ensures fs.Inv() && old(Good(Now(fs))) && Stepped(old(Now(fs)), op, out, Now(fs)) && Grown(old(fs.born), fs.born)
  {
    hide fs.Inv, Good, Stepped, Grown, OpOk;
    match op
    case OpenOp(_, _) => out := DoOpen(fs, op);
    case ParentOp(_, _) => out := DoParent(fs, op);
    case CloseOp(_) => out := DoClose(fs, op);
    case MountRootOp(_, _) => out := DoMount(fs, op);
    case MountOp(_, _, _) => out := DoMount(fs, op);
  }

  /** Every run: each call does what it should, and between calls there is one object per inode in
      use, with as many references as are held. */
  method Run(fs: Fs, ops: seq<FsOp>) returns (outs: seq<Out>, ghost trace: seq<Snap>)
    requires fs.Inv() && forall i :: 0 <= i < |ops| ==> OpOk(ops[i])
    modifies fs
    ensures fs.Inv() && Runs(trace, ops, outs)
    ensures trace[0] == old(Now(fs)) && trace[|ops|] == Now(fs)
  {
    hide fs.Inv, Good, Stepped, Grown, OpOk, Runs;
    outs, trace := [], [Now(fs)];
    InvGood(fs);
    NoRun(Now(fs));
    var i := 0;
    while i < |ops|
      invariant 0 <= i <= |ops| && fs.Inv() && |outs| == i && |trace| == i + 1
      invariant trace[0] == old(Now(fs)) && trace[i] == Now(fs) && Runs(trace, ops[..i], outs)
    {
      var out := Act(fs, ops[i]);
      InvGood(fs);
      RunsMore(trace, ops[..i], outs, Now(fs), ops[i], out);
      assert ops[..i + 1] == ops[..i] + [ops[i]];
      outs, trace := outs + [out], trace + [Now(fs)];
      i := i + 1;
    }
    assert ops[..i] == ops;
  }

  lemma NoRun(x: Snap)
    requires Good(x)
    ensures Runs([x], [], [])
  {
  }
}
