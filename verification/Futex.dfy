/** The futex table (kernel/kernel/futex.c) over every interleaving of its critical sections with
    the scheduler's sleep and wake credits (kernel/kernel/sched.c). */
module Futex {
  import opened Base

  const BUCKETS: nat := 64
  const WAKE_ALL: int := 0x7fff_ffff

  datatype Key = Key(proc: nat, addr: nat)

  /** Where a call of futex_wait stands between two critical sections. */
  datatype Pc =
    | Checking             // about to look at `woken`
    | Resting              // about to call sched_sleep
    | Sleeping             // inside sched_sleep
    | Woke                 // saw `woken`, about to give back a credit
    | Leaving(e: Err)      // left the loop, about to clean up
    | Done(ret: Err)

  /** One call of futex_wait with its waiter node. */
  datatype Wait = Wait(task: nat, key: Key, woken: bool, pc: Pc)
  {
    predicate Active() {
      !pc.Done?
    }
  }

  /** `asleep` holds the sleeping tasks; `total` is the sum of all futex_wake results. */
  datatype State = State(hash: Key -> nat, buckets: map<nat, seq<nat>>, waits: map<nat, Wait>, credits: map<nat, nat>,
                         asleep: set<nat>, total: nat)
  {
    function Bucket(k: Key): nat {
      hash(k) % BUCKETS
    }

    function Credit(t: nat): nat {
      if t in credits then credits[t] else 0
    }

    /** Waiting for a wake that has not come yet. */
    predicate Pending(w: nat) {
      w in waits && !waits[w].woken && waits[w].Active()
    }

    /** The list holds distinct pending waits of the bucket. */
    ghost predicate ListOk(b: nat, l: seq<nat>) {
      && (forall i, j :: 0 <= i < j < |l| ==> l[i] != l[j])
      && (forall i :: 0 <= i < |l| ==> Pending(l[i]) && Bucket(waits[l[i]].key) == b)
    }

    ghost predicate WaitOk(w: nat)
      requires w in waits
    {
      var x := waits[w];
      var b := Bucket(x.key);
      && (Pending(w) ==> b in buckets && w in buckets[b])
      && (x.pc.Woke? ==> x.woken)
      && (x.pc.Leaving? && x.pc.e == Ok ==> x.woken)
      && (x.pc.Done? ==> (x.pc.ret == Ok <==> x.woken))
      && (x.Active() && !x.pc.Sleeping? ==> x.task !in asleep)
      && (x.woken && x.pc.Sleeping? ==> x.task !in asleep)
      && (x.woken && x.pc.Resting? ==> Credit(x.task) > 0)
    }

    /** A task is in one futex_wait at a time. */
    ghost predicate Apart(w: nat, v: nat)
      requires w in waits && v in waits
    {
      waits[w].Active() && waits[v].Active() && waits[w].task == waits[v].task ==> w == v
    }

    ghost function WokenWaits(): set<nat> {
      set w | w in waits && waits[w].woken
    }

    ghost predicate Inv() {
      && (forall b :: 0 <= b < BUCKETS ==> b in buckets)
      && (forall b :: b in buckets ==> ListOk(b, buckets[b]))
      && (forall w :: w in waits ==> WaitOk(w))
      && (forall w, v :: w in waits && v in waits ==> Apart(w, v))
      && total == |WokenWaits()|
    }
  }

  // ------------------------------------------------------------------------
  // The three ways the state changes
  // ------------------------------------------------------------------------

  /** A wait moves on, its task alone changing its credits or sleep. */
  ghost predicate Moves(s: State, s': State, w: nat, pc: Pc)
    requires w in s.waits
  {
    && s'.hash == s.hash && s'.buckets == s.buckets && s'.total == s.total
    && s'.waits == s.waits[w := s.waits[w].(pc := pc)]
    && (forall t :: t != s.waits[w].task ==> s'.Credit(t) == s.Credit(t) && (t in s'.asleep <==> t in s.asleep))
  }

  lemma MovesInv(s: State, s': State, w: nat, pc: Pc)
    requires s.Inv() && w in s.waits && s.waits[w].Active() && !pc.Done? && Moves(s, s', w, pc)
    requires s'.WaitOk(w)
    ensures s'.Inv()
  {
    hide State.WaitOk;
    assert s'.WokenWaits() == s.WokenWaits();
    forall b | b in s'.buckets ensures s'.ListOk(b, s'.buckets[b]) {
      assert s.ListOk(b, s.buckets[b]);
      assert forall v :: s.Pending(v) <==> s'.Pending(v);
    }
    forall v, u | v in s'.waits && u in s'.waits ensures s'.Apart(v, u) {
      assert s.Apart(v, u);
    }
    forall v | v in s'.waits ensures s'.WaitOk(v) {
      if v != w {
        assert s.WaitOk(v) && s.Apart(v, w);
        MovesOther(s, s', w, pc, v);
      }
    }
  }

  lemma MovesOther(s: State, s': State, w: nat, pc: Pc, v: nat)
    requires w in s.waits && v in s.waits && v != w && Moves(s, s', w, pc) && s.waits[w].Active()
    requires s.WaitOk(v) && s.Apart(v, w)
    ensures s'.WaitOk(v)
  {
  }

  /** A new call of futex_wait by a task that is in no other, queued unless it is already over. */
  lemma EnterInv(s: State, s': State, w: nat, x: Wait)
    requires s.Inv() && w !in s.waits && x.task !in s.asleep && !x.woken
    requires forall v :: v in s.waits && s.waits[v].task == x.task ==> !s.waits[v].Active()
    requires x.pc == Checking || (x.pc.Done? && x.pc.ret != Ok)
    requires var b := s.Bucket(x.key);
      s' == s.(waits := s.waits[w := x], buckets := if x.Active() then s.buckets[b := [w] + s.buckets[b]]
          else s.buckets)
    ensures s'.Inv()
  {
    hide State.WaitOk;
    var b := s.Bucket(x.key);
    assert s'.WokenWaits() == s.WokenWaits();
    forall c | c in s'.buckets ensures s'.ListOk(c, s'.buckets[c]) {
      assert s.ListOk(c, s.buckets[c]);
      ListGrow(s, s', w, c, s.buckets[c]);
    }
    forall v, u | v in s'.waits && u in s'.waits ensures s'.Apart(v, u) {
      assert v != w && u != w ==> s.Apart(v, u);
    }
    forall v | v in s'.waits ensures s'.WaitOk(v) {
      EnterWait(s, s', w, x, v);
    }
  }

  lemma ListGrow(s: State, s': State, w: nat, c: nat, l: seq<nat>)
    requires s.ListOk(c, l) && w !in s.waits && w in s'.waits && s'.waits == s.waits[w := s'.waits[w]]
    requires s'.hash == s.hash
    ensures s'.ListOk(c, l)
    ensures s'.Pending(w) && s'.Bucket(s'.waits[w].key) == c ==> s'.ListOk(c, [w] + l)
  {
  }

  lemma EnterWait(s: State, s': State, w: nat, x: Wait, v: nat)
    requires (forall b :: 0 <= b < BUCKETS ==> b in s.buckets) && w !in s.waits && v in s'.waits
    requires x.task !in s.asleep && !x.woken && (x.pc == Checking || (x.pc.Done? && x.pc.ret != Ok))
    requires var b := s.Bucket(x.key);
      s' == s.(waits := s.waits[w := x], buckets := if x.Active() then s.buckets[b := [w] + s.buckets[b]]
          else s.buckets)
    requires v in s.waits ==> s.WaitOk(v)
    ensures s'.WaitOk(v)
  {
  }

  // ------------------------------------------------------------------------
  // Taking a wait off its bucket
  // ------------------------------------------------------------------------

  /** `bucket_remove`: the list without its entry at `i`. */
  function Cut(l: seq<nat>, i: nat): seq<nat>
    requires i < |l|
  {
    l[..i] + l[i + 1..]
  }

  lemma CutElems(l: seq<nat>, i: nat, v: nat)
    requires i < |l| && v != l[i]
    ensures v in Cut(l, i) <==> v in l
  {
    if v in l {
      var j :| 0 <= j < |l| && l[j] == v;
      assert j < i ==> Cut(l, i)[j] == v;
      assert j > i ==> Cut(l, i)[j - 1] == v;
    }
  }

  /** From `s` to `s'` the pending wait at index `i` of its bucket leaves the bucket: woken, or
      over with an error. `x` is its new record. */
  ghost predicate Leaves(s: State, s': State, w: nat, i: nat, x: Wait) {
    && s.Pending(w) && x.task == s.waits[w].task && x.key == s.waits[w].key && (x.woken || !x.Active())
    && s'.hash == s.hash && s'.waits == s.waits[w := x]
    && s.Bucket(x.key) in s.buckets && i < |s.buckets[s.Bucket(x.key)]| && s.buckets[s.Bucket(x.key)][i] == w
    && s'.buckets == s.buckets[s.Bucket(x.key) := Cut(s.buckets[s.Bucket(x.key)], i)]
    && (forall t :: t != x.task ==> s'.Credit(t) == s.Credit(t) && (t in s'.asleep <==> t in s.asleep))
    && s'.total == s.total + if x.woken then 1 else 0
  }

  lemma LeavesInv(s: State, s': State, w: nat, i: nat, x: Wait)
    requires s.Inv() && Leaves(s, s', w, i, x) && s'.WaitOk(w)
    ensures s'.Inv()
  {
    hide State.WaitOk;
    LeavesWoken(s, s', w, i, x);
    forall b | b in s'.buckets ensures s'.ListOk(b, s'.buckets[b]) {
      assert s.ListOk(b, s.buckets[b]);
      LeavesList(s, s', w, i, x, b);
    }
    forall v, u | v in s'.waits && u in s'.waits ensures s'.Apart(v, u) {
      assert s.Apart(v, u);
    }
    forall v | v in s'.waits ensures s'.WaitOk(v) {
      if v != w {
        assert s.WaitOk(v) && s.Apart(v, w);
        LeavesOther(s, s', w, i, x, v);
      }
    }
  }

  lemma LeavesWoken(s: State, s': State, w: nat, i: nat, x: Wait)
    requires Leaves(s, s', w, i, x) && s.total == |s.WokenWaits()|
    ensures s'.total == |s'.WokenWaits()|
  {
    if x.woken {
      assert s'.WokenWaits() == s.WokenWaits() + {w};
    } else {
      assert s'.WokenWaits() == s.WokenWaits();
    }
  }

  lemma LeavesList(s: State, s': State, w: nat, i: nat, x: Wait, b: nat)
    requires Leaves(s, s', w, i, x) && b in s.buckets && s.ListOk(b, s.buckets[b])
    requires s.ListOk(s.Bucket(x.key), s.buckets[s.Bucket(x.key)])
    ensures s'.ListOk(b, s'.buckets[b])
  {
    var l := s'.buckets[b];
    var k := s.buckets[b];
    if b == s.Bucket(x.key) {
      assert forall j :: 0 <= j < |l| ==> l[j] == if j < i then k[j] else k[j + 1];
    }
    forall j | 0 <= j < |l| ensures s'.Pending(l[j]) && s'.Bucket(s'.waits[l[j]].key) == b {
      assert s.Pending(l[j]) && l[j] != w;
    }
  }

  lemma LeavesOther(s: State, s': State, w: nat, i: nat, x: Wait, v: nat)
    requires Leaves(s, s', w, i, x) && v in s.waits && v != w && s.WaitOk(v) && s.Apart(v, w)
    ensures s'.WaitOk(v)
  {
    var b := s.Bucket(x.key);
    CutElems(s.buckets[b], i, v);
    hide Cut;
  }

  // ------------------------------------------------------------------------
  // Wakes from elsewhere
  // ------------------------------------------------------------------------

  /** `sched_wake`: a sleeper runs, anyone else gets a credit. */
  function SchedWoken(s: State, t: nat): State {
    if t in s.asleep then s.(asleep := s.asleep - {t})
    else s.(credits := s.credits[t := s.Credit(t) + 1])
  }

  /** A sleep that ends without a wake: a timer, or a task that was not in futex_wait. */
  lemma RousedInv(s: State, s': State)
    requires s.Inv() && s'.hash == s.hash && s'.buckets == s.buckets && s'.waits == s.waits && s'.total == s.total
    requires forall t :: s'.Credit(t) >= s.Credit(t) && (t in s'.asleep ==> t in s.asleep)
    ensures s'.Inv()
  {
    hide State.WaitOk;
    assert s'.WokenWaits() == s.WokenWaits();
    forall b | b in s'.buckets ensures s'.ListOk(b, s'.buckets[b]) {
      assert s.ListOk(b, s.buckets[b]);
    }
    forall v, u | v in s'.waits && u in s'.waits ensures s'.Apart(v, u) {
      assert s.Apart(v, u);
    }
    forall v | v in s'.waits ensures s'.WaitOk(v) {
      assert s.WaitOk(v);
      RousedWait(s, s', v);
    }
  }

  lemma RousedWait(s: State, s': State, v: nat)
    requires v in s.waits && s.WaitOk(v)
    requires s'.hash == s.hash && s'.buckets == s.buckets && s'.waits == s.waits
    requires forall t :: s'.Credit(t) >= s.Credit(t) && (t in s'.asleep ==> t in s.asleep)
    ensures s'.WaitOk(v)
  {
  }

  /** A task in no futex_wait going to sleep, with or without a credit. */
  lemma NapInv(s: State, s': State, t: nat)
    requires s.Inv() && s'.hash == s.hash && s'.buckets == s.buckets && s'.waits == s.waits && s'.total == s.total
    requires forall w :: w in s.waits && s.waits[w].task == t ==> !s.waits[w].Active()
    requires forall u :: u != t ==> s'.Credit(u) == s.Credit(u) && (u in s'.asleep <==> u in s.asleep)
    ensures s'.Inv()
  {
    hide State.WaitOk;
    assert s'.WokenWaits() == s.WokenWaits();
    forall b | b in s'.buckets ensures s'.ListOk(b, s'.buckets[b]) {
      assert s.ListOk(b, s.buckets[b]);
    }
    forall v, u | v in s'.waits && u in s'.waits ensures s'.Apart(v, u) {
      assert s.Apart(v, u);
    }
    forall v | v in s'.waits ensures s'.WaitOk(v) {
      assert s.WaitOk(v);
      NapWait(s, s', t, v);
    }
  }

  lemma NapWait(s: State, s': State, t: nat, v: nat)
    requires v in s.waits && s.WaitOk(v) && (s.waits[v].task == t ==> !s.waits[v].Active())
    requires s'.hash == s.hash && s'.buckets == s.buckets && s'.waits == s.waits
    requires forall u :: u != t ==> s'.Credit(u) == s.Credit(u) && (u in s'.asleep <==> u in s.asleep)
    ensures s'.WaitOk(v)
  {
  }

  // ------------------------------------------------------------------------
  // What a wake selects
  // ------------------------------------------------------------------------

  /** The waits of a bucket list on the given word, in list order. */
  function Matching(waits: map<nat, Wait>, key: Key, l: seq<nat>): seq<nat> {
    if l == [] then []
    else if l[0] in waits && waits[l[0]].key == key then [l[0]] + Matching(waits, key, l[1..])
    else Matching(waits, key, l[1..])
  }

  lemma {:induction false} MatchingSplit(waits: map<nat, Wait>, key: Key, a: seq<nat>, b: seq<nat>)
    ensures Matching(waits, key, a + b) == Matching(waits, key, a) + Matching(waits, key, b)
  {
    if a == [] {
      assert a + b == b;
    } else {
      assert (a + b)[1..] == a[1..] + b;
      MatchingSplit(waits, key, a[1..], b);
    }
  }

  function Limit(count: int): int {
    if count < 0 then WAKE_ALL else count
  }

  /** The critical sections, one step each. `Poke` and `Other` are the rest of the kernel. */
  datatype Step =
    | Begin(w: nat, t: nat, key: Key, word: Option<nat>, val: nat)
    | LookAt(w: nat)
    | RestAt(w: nat, expired: bool, signal: bool, late: bool)
    | ReturnTo(w: nat, timedOut: bool, signal: bool)
    | ConsumeFor(w: nat)
    | End(w: nat)
    | WakeOn(key: Key, count: int)
    | Poke(t: nat)
    | Other(t: nat, expire: bool)

  /** Calls keep their task and word; a wake is never taken back; a result never changes. */
  ghost predicate Advances(a: map<nat, Wait>, b: map<nat, Wait>) {
    forall w :: w in a ==>
      && w in b && b[w].task == a[w].task && b[w].key == a[w].key && (a[w].woken ==> b[w].woken)
      && (a[w].pc.Done? ==> b[w].pc == a[w].pc)
  }

  lemma AdvancesTrans(a: map<nat, Wait>, b: map<nat, Wait>, c: map<nat, Wait>)
    requires Advances(a, b) && Advances(b, c)
    ensures Advances(a, c)
  {
  }

  /** What the invariant says of finished waits. */
  lemma Charged(s: State)
    requires s.Inv()
    ensures s.total == |s.WokenWaits()|
    ensures forall w :: w in s.waits && s.waits[w].pc.Done? ==> (s.waits[w].pc.ret == Ok <==> s.waits[w].woken)
    ensures forall w, b :: w in s.waits && s.waits[w].pc.Done? && b in s.buckets ==> w !in s.buckets[b]
  {
    forall w | w in s.waits && s.waits[w].pc.Done? ensures s.waits[w].pc.ret == Ok <==> s.waits[w].woken {
      assert s.WaitOk(w);
    }
    forall w, b | w in s.waits && s.waits[w].pc.Done? && b in s.buckets ensures w !in s.buckets[b] {
      assert s.ListOk(b, s.buckets[b]);
    }
  }

  lemma WokenFacts(s: State, w: nat)
    requires s.Inv() && w in s.waits && s.waits[w].woken
    ensures s.waits[w].pc.Sleeping? ==> s.waits[w].task !in s.asleep
    ensures s.waits[w].pc.Resting? ==> s.Credit(s.waits[w].task) > 0
  {
    assert s.WaitOk(w);
  }

  /** The waits of a list on other words. */
  function Unmatched(waits: map<nat, Wait>, key: Key, l: seq<nat>): seq<nat> {
    if l == [] then []
    else if l[0] in waits && waits[l[0]].key == key then Unmatched(waits, key, l[1..])
    else [l[0]] + Unmatched(waits, key, l[1..])
  }

  /** The list without its first `n` waits on the word. */
  function Left(waits: map<nat, Wait>, key: Key, l: seq<nat>, n: int): seq<nat> {
    if l == [] then []
    else if n > 0 && l[0] in waits && waits[l[0]].key == key then Left(waits, key, l[1..], n - 1)
    else [l[0]] + Left(waits, key, l[1..], n)
  }

  ghost function Tasks(waits: map<nat, Wait>, l: seq<nat>): set<nat> {
    set w | w in l && w in waits :: waits[w].task
  }

  lemma {:induction false} UnmatchedOne(waits: map<nat, Wait>, key: Key, l: seq<nat>, w: nat)
    ensures Unmatched(waits, key, l + [w]) ==
            Unmatched(waits, key, l) + if w in waits && waits[w].key == key then [] else [w]
  {
    if l == [] {
      assert l + [w] == [w];
      assert Unmatched(waits, key, [w][1..]) == [];
    } else {
      assert (l + [w])[1..] == l[1..] + [w];
      UnmatchedOne(waits, key, l[1..], w);
    }
  }

  lemma {:induction false} LeftNone(waits: map<nat, Wait>, key: Key, l: seq<nat>)
    ensures Left(waits, key, l, 0) == l
  {
    if l != [] {
      LeftNone(waits, key, l[1..]);
    }
  }

  lemma {:induction false} LeftIs(waits: map<nat, Wait>, key: Key, a: seq<nat>, b: seq<nat>)
    ensures Left(waits, key, a + b, |Matching(waits, key, a)|) == Unmatched(waits, key, a) + b
  {
    if a == [] {
      assert a + b == b;
      LeftNone(waits, key, b);
    } else {
      assert (a + b)[1..] == a[1..] + b;
      LeftIs(waits, key, a[1..], b);
    }
  }

  lemma CutMiddle(a: seq<nat>, b: seq<nat>)
    requires b != []
    ensures Cut(a + b, |a|) == a + b[1..]
  {
  }

  /** A pending wait's task is not the task of another one woken before it. */
  lemma NewTask(s: State, marked: seq<nat>, w: nat)
    requires s.Inv() && s.Pending(w) && w !in marked && forall i :: 0 <= i < |marked| ==> s.Pending(marked[i])
    ensures s.waits[w].task !in Tasks(s.waits, marked)
    ensures Tasks(s.waits, marked + [w]) == Tasks(s.waits, marked) + {s.waits[w].task}
  {
    forall v | v in marked && v in s.waits ensures s.waits[v].task != s.waits[w].task {
      assert s.Apart(v, w);
    }
    var more := marked + [w];
    assert forall v :: v in more <==> v in marked || v == w;
  }

  /** A wake that has looked at the first `p` waits of the bucket and woken `n` of them stands at
      index `i` of what is left. */
  ghost predicate Scanned(s0: State, s: State, key: Key, b: nat, p: nat, n: int, i: int) {
    && b in s0.buckets && p <= |s0.buckets[b]|
    && var seen := s0.buckets[b][..p];
       var marked, kept := Matching(s0.waits, key, seen), Unmatched(s0.waits, key, seen);
       && n == |marked| && i == |kept| && s.total == s0.total + n
       && s.waits == Marked(s0.waits, marked)
       && s.buckets == s0.buckets[b := kept + s0.buckets[b][p..]]
       && s.asleep == s0.asleep - Tasks(s0.waits, marked)
       && forall t :: s.Credit(t) == s0.Credit(t) + if t in Tasks(s0.waits, marked) && t !in s0.asleep then 1 else 0
  }

  lemma ScanStart(s: State, key: Key, b: nat)
    requires b in s.buckets
    ensures Scanned(s, s, key, b, 0, 0, 0)
  {
    MarkedNone(s.waits);
    assert [] + s.buckets[b][0..] == s.buckets[b];
    assert s.buckets[b := s.buckets[b]] == s.buckets;
  }

  lemma ScanSize(s0: State, s: State, key: Key, b: nat, p: nat, n: int, i: int)
    requires Scanned(s0, s, key, b, p, n, i)
    ensures p <= |s0.buckets[b]| && b in s.buckets && 0 <= i <= |s.buckets[b]|
    ensures i < |s.buckets[b]| ==> p < |s0.buckets[b]|
  {
  }

  /** The wait about to be looked at. */
  lemma ScanHere(s0: State, s: State, key: Key, b: nat, p: nat, n: int, i: int)
    requires s0.Inv() && Scanned(s0, s, key, b, p, n, i) && b in s.buckets && 0 <= i < |s.buckets[b]|
    ensures p < |s0.buckets[b]| && s.buckets[b][i] == s0.buckets[b][p]
    ensures s0.buckets[b][p] in s.waits && s0.buckets[b][p] in s0.waits
    ensures s.waits[s0.buckets[b][p]].key == s0.waits[s0.buckets[b][p]].key
  {
    hide Matching, Unmatched, State.WaitOk;
    assert s0.buckets[b][p..][0] == s0.buckets[b][p];
    MatchedPending(s0, b, p, key);
  }

  lemma SeenOne(s: State, key: Key, b: nat, p: nat)
    requires b in s.buckets && p < |s.buckets[b]|
    ensures var l, w := s.buckets[b], s.buckets[b][p];
      var hit := w in s.waits && s.waits[w].key == key;
      && Matching(s.waits, key, l[..p + 1]) == Matching(s.waits, key, l[..p]) + (if hit then [w] else [])
      && Unmatched(s.waits, key, l[..p + 1]) == Unmatched(s.waits, key, l[..p]) + (if hit then [] else [w])
      && l[p..] == [w] + l[p + 1..]
  {
    var l, w := s.buckets[b], s.buckets[b][p];
    assert l[..p + 1] == l[..p] + [w];
    MatchingSplit(s.waits, key, l[..p], [w]);
    MatchingOne(s.waits, key, w);
    UnmatchedOne(s.waits, key, l[..p], w);
  }

  lemma ScanMark(s0: State, s: State, s': State, key: Key, b: nat, p: nat, n: int, i: int)
    requires s0.Inv() && Scanned(s0, s, key, b, p, n, i) && p < |s0.buckets[b]| && s0.buckets[b][p] in s0.waits
    requires s0.waits[s0.buckets[b][p]].key == key && b in s.buckets && 0 <= i < |s.buckets[b]|
    requires s.buckets[b][i] == s0.buckets[b][p]
    requires s'.total == s.total + 1 && s'.buckets == s.buckets[b := Cut(s.buckets[b], i)]
    requires var w := s0.buckets[b][p];
      && w in s.waits && s'.waits == s.waits[w := s.waits[w].(woken := true)]
      && s'.asleep == s.asleep - {s.waits[w].task}
      && forall u :: s'.Credit(u) == s.Credit(u) + if u == s.waits[w].task && u !in s.asleep then 1 else 0
    ensures Scanned(s0, s', key, b, p + 1, n + 1, i)
  {
    hide Matching, Unmatched, Cut, State.Inv, Tasks;
    var w := s0.buckets[b][p];
    var marked, kept := Matching(s0.waits, key, s0.buckets[b][..p]), Unmatched(s0.waits, key, s0.buckets[b][..p]);
    SeenOne(s0, key, b, p);
    MatchedPending(s0, b, p, key);
    NewTask(s0, marked, w);
    MarkedMore(s0.waits, marked, w);
    CutMiddle(kept, s0.buckets[b][p..]);
    assert kept + [] == kept;
    assert s'.asleep == s0.asleep - Tasks(s0.waits, marked + [w]);
    assert s'.buckets[b] == kept + s0.buckets[b][p + 1..];
    assert s'.buckets == s0.buckets[b := s'.buckets[b]];
  }

  lemma ScanSkip(s0: State, s: State, key: Key, b: nat, p: nat, n: int, i: int)
    requires s0.Inv() && Scanned(s0, s, key, b, p, n, i) && p < |s0.buckets[b]|
    requires s0.buckets[b][p] in s0.waits && s0.waits[s0.buckets[b][p]].key != key
    ensures Scanned(s0, s, key, b, p + 1, n, i + 1)
  {
    hide Matching, Unmatched, State.Inv, Tasks;
    var kept := Unmatched(s0.waits, key, s0.buckets[b][..p]);
    SeenOne(s0, key, b, p);
    assert kept + s0.buckets[b][p..] == kept + [s0.buckets[b][p]] + s0.buckets[b][p + 1..];
    var marked := Matching(s0.waits, key, s0.buckets[b][..p]);
    assert marked + [] == marked;
  }

  /** The scan stops when enough are woken or the bucket is done. */
  lemma ScanEnd(s0: State, s: State, key: Key, b: nat, p: nat, n: int, i: int)
    requires Scanned(s0, s, key, b, p, n, i) && b in s.buckets
    ensures var found := Matching(s0.waits, key, s0.buckets[b]);
      && 0 <= n <= |found| && (i >= |s.buckets[b]| ==> n == |found|)
      && s.total == s0.total + n && s.waits == Marked(s0.waits, found[..n])
      && s.buckets == s0.buckets[b := Left(s0.waits, key, s0.buckets[b], n)]
      && s.asleep == s0.asleep - Tasks(s0.waits, found[..n])
      && forall t :: s.Credit(t) == s0.Credit(t) + if t in Tasks(s0.waits, found[..n]) && t !in s0.asleep then 1 else 0
  {
    hide Matching, Unmatched, Left, Marked, Tasks;
    var l := s0.buckets[b];
    assert l[..p] + l[p..] == l;
    MatchingSplit(s0.waits, key, l[..p], l[p..]);
    LeftIs(s0.waits, key, l[..p], l[p..]);
    var found := Matching(s0.waits, key, l);
    assert found[..n] == Matching(s0.waits, key, l[..p]);
    if i >= |s.buckets[b]| {
      NoneMatch(s0.waits, key, l[p..]);
    }
  }

  lemma NoneMatch(waits: map<nat, Wait>, key: Key, l: seq<nat>)
    ensures l == [] ==> Matching(waits, key, l) == []
  {
  }

  function Min(a: int, b: int): int {
    if a < b then a else b
  }

  function Max(a: int, b: int): int {
    if a > b then a else b
  }

  /** The waits with those listed marked woken. */
  ghost function Marked(waits: map<nat, Wait>, l: seq<nat>): map<nat, Wait> {
    map w | w in waits :: if w in l then waits[w].(woken := true) else waits[w]
  }

  lemma MarkedNone(waits: map<nat, Wait>)
    ensures Marked(waits, []) == waits
  {
  }

  lemma MarkedMore(waits: map<nat, Wait>, l: seq<nat>, w: nat)
    requires w in waits
    ensures Marked(waits, l)[w := Marked(waits, l)[w].(woken := true)] == Marked(waits, l + [w])
  {
  }

  lemma MatchingOne(waits: map<nat, Wait>, key: Key, w: nat)
    ensures Matching(waits, key, [w]) == if w in waits && waits[w].key == key then [w] else []
  {
    assert Matching(waits, key, [w][1..]) == [];
  }

  lemma ListedPending(s: State, b: nat, i: nat)
    requires s.Inv() && b in s.buckets && i < |s.buckets[b]|
    ensures s.Pending(s.buckets[b][i]) && s.Bucket(s.waits[s.buckets[b][i]].key) == b
  {
    assert s.ListOk(b, s.buckets[b]);
  }

  lemma CutIs(l: seq<nat>, i: nat)
    requires i < |l|
    ensures l[..i] + l[i + 1..] == Cut(l, i)
  {
  }

  lemma {:induction false} MatchingSub(waits: map<nat, Wait>, key: Key, l: seq<nat>)
    ensures forall w :: w in Matching(waits, key, l) ==> w in l
  {
    if l != [] {
      MatchingSub(waits, key, l[1..]);
    }
  }

  /** Waits matched before index `p` of a bucket are pending and not the one at `p`. */
  lemma MatchedPending(s: State, b: nat, p: nat, key: Key)
    requires s.Inv() && b in s.buckets && p < |s.buckets[b]|
    ensures var m := Matching(s.waits, key, s.buckets[b][..p]);
      s.Pending(s.buckets[b][p]) && s.buckets[b][p] !in m && forall i :: 0 <= i < |m| ==> s.Pending(m[i])
  {
    assert s.ListOk(b, s.buckets[b]);
    var m := Matching(s.waits, key, s.buckets[b][..p]);
    MatchingSub(s.waits, key, s.buckets[b][..p]);
    forall i | 0 <= i < |m| ensures s.Pending(m[i]) {
      assert m[i] in s.buckets[b][..p];
    }
  }

  lemma MarkOk(s: State, s': State, w: nat, b: nat, i: nat)
    requires s.Inv() && s.Pending(w) && s.Bucket(s.waits[w].key) == b && b in s.buckets
    requires i < |s.buckets[b]| && s.buckets[b][i] == w
    requires var x := s.waits[w].(woken := true);
      s' == SchedWoken(s.(waits := s.waits[w := x], buckets := s.buckets[b := Cut(s.buckets[b], i)]),
          x.task).(total := s.total + 1)
    ensures Leaves(s, s', w, i, s'.waits[w]) && s'.WaitOk(w)
  {
    assert s.WaitOk(w);
  }

  /** `sched_consume_wake_pending`: one credit less, if there is one. */
  function Spent(s: State, t: nat): map<nat, nat> {
    if s.Credit(t) > 0 then s.credits[t := s.Credit(t) - 1] else s.credits
  }

  lemma LookOk(s: State, s': State, w: nat)
    requires s.Inv() && w in s.waits && s.waits[w].pc == Checking
    requires s' == s.(waits := s.waits[w := s.waits[w].(pc := if s.waits[w].woken then Woke else Resting)])
    ensures s'.WaitOk(w)
  {
    assert s.WaitOk(w);
  }

  /** What the sleep of the waiting loop does. */
  ghost predicate RestsAs(s: State, w: nat, expired: bool, signal: bool, late: bool, pc: Pc)
    requires w in s.waits
  {
    pc == if expired then Leaving(ETIMEDOUT) else if signal then Leaving(EINTR)
          else if s.Credit(s.waits[w].task) > 0 then (if late then Leaving(EINTR) else Checking) else Sleeping
  }

  lemma RestOk(s: State, s': State, w: nat, expired: bool, signal: bool, late: bool, pc: Pc)
    requires s.Inv() && w in s.waits && s.waits[w].pc == Resting && RestsAs(s, w, expired, signal, late, pc)
    requires s'.waits == s.waits[w := s.waits[w].(pc := pc)] && s'.hash == s.hash && s'.buckets == s.buckets
    requires s'.asleep == if pc == Sleeping then s.asleep + {s.waits[w].task} else s.asleep
    ensures s'.WaitOk(w)
  {
    assert s.WaitOk(w);
  }

  lemma ReturnOk(s: State, s': State, w: nat, pc: Pc)
    requires s.Inv() && w in s.waits && s.waits[w].pc == Sleeping && s.waits[w].task !in s.asleep
    requires pc in {Checking, Leaving(EINTR), Leaving(ETIMEDOUT)}
    requires s' == s.(waits := s.waits[w := s.waits[w].(pc := pc)])
    ensures s'.WaitOk(w)
  {
    assert s.WaitOk(w);
  }

  lemma ConsumeOk(s: State, s': State, w: nat)
    requires s.Inv() && w in s.waits && s.waits[w].pc == Woke && s'.hash == s.hash && s'.buckets == s.buckets
    requires s'.waits == s.waits[w := s.waits[w].(pc := Leaving(Ok))] && s'.asleep == s.asleep
    ensures s'.WaitOk(w)
  {
    assert s.WaitOk(w);
  }

  lemma PendingListed(s: State, w: nat)
    requires s.Inv() && s.Pending(w)
    ensures s.Bucket(s.waits[w].key) in s.buckets && w in s.buckets[s.Bucket(s.waits[w].key)]
  {
    assert s.WaitOk(w);
  }

  lemma LeftOk(s: State, s': State, w: nat, at: nat)
    requires s.Inv() && s.Pending(w) && s.waits[w].pc.Leaving?
    requires var x := s.waits[w].(pc := Done(s.waits[w].pc.e)); var b := s.Bucket(x.key);
      && b in s.buckets && at < |s.buckets[b]| && s.buckets[b][at] == w
      && s' == s.(waits := s.waits[w := x], buckets := s.buckets[b := Cut(s.buckets[b], at)])
    ensures Leaves(s, s', w, at, s'.waits[w]) && s'.WaitOk(w)
  {
    assert s.WaitOk(w);
  }

  /** A woken wait returning 0. */
  lemma DoneInv(s: State, s': State, w: nat)
    requires s.Inv() && w in s.waits && s.waits[w].Active() && s.waits[w].woken
    requires s'.hash == s.hash && s'.buckets == s.buckets && s'.total == s.total && s'.asleep == s.asleep
    requires s'.waits == s.waits[w := s.waits[w].(pc := Done(Ok))]
    requires forall t :: t != s.waits[w].task ==> s'.Credit(t) == s.Credit(t)
    ensures s'.Inv()
  {
    hide State.WaitOk;
    assert s'.WokenWaits() == s.WokenWaits();
    forall b | b in s'.buckets ensures s'.ListOk(b, s'.buckets[b]) {
      assert s.ListOk(b, s.buckets[b]);
      assert forall v :: s.Pending(v) <==> s'.Pending(v);
    }
    forall v, u | v in s'.waits && u in s'.waits ensures s'.Apart(v, u) {
      assert s.Apart(v, u);
    }
    forall v | v in s'.waits ensures s'.WaitOk(v) {
      assert s.WaitOk(v) && s.Apart(v, w);
      DoneWait(s, s', w, v);
    }
  }

  lemma DoneWait(s: State, s': State, w: nat, v: nat)
    requires w in s.waits && v in s.waits && s.waits[w].Active() && s.waits[w].woken && s.WaitOk(v) && s.Apart(v, w)
    requires s'.hash == s.hash && s'.buckets == s.buckets && s'.asleep == s.asleep
    requires s'.waits == s.waits[w := s.waits[w].(pc := Done(Ok))]
    requires forall t :: t != s.waits[w].task ==> s'.Credit(t) == s.Credit(t)
    ensures s'.WaitOk(v)
  {
  }

  lemma BucketsExist(s: State, key: Key)
    requires s.Inv()
    ensures s.Bucket(key) in s.buckets
  {
  }

  lemma FreshHead(s: State, w: nat, b: nat)
    requires s.Inv() && w !in s.waits && b in s.buckets
    ensures w !in s.buckets[b]
  {
    assert s.ListOk(b, s.buckets[b]);
  }

  lemma CutHead(w: nat, l: seq<nat>, at: nat)
    requires w !in l && at < |l| + 1 && ([w] + l)[at] == w
    ensures Cut([w] + l, at) == l
  {
  }

  // ------------------------------------------------------------------------
  // The table
  // ------------------------------------------------------------------------

  class Table {
    const hash: Key -> nat
    var buckets: map<nat, seq<nat>>
    var waits: map<nat, Wait>
    var credits: map<nat, nat>
    var asleep: set<nat>
    ghost var total: nat

    ghost function S(): State
      reads this
    {
      State(hash, buckets, waits, credits, asleep, total)
    }

    constructor (hash: Key -> nat)
      ensures S().Inv() && this.hash == hash && waits == map[] && total == 0
    {
      this.hash := hash;
      buckets := NoLists(BUCKETS);
      waits := map[];
      credits := map[];
      asleep := {};
      total := 0;
      new;
      assert S().WokenWaits() == {};
    }

    /** `bucket_remove`: unlinks the wait if it is on the list. */
    method BucketRemove(b: nat, w: nat) returns (ghost at: nat)
      requires b in buckets
      modifies this`buckets
      ensures w !in old(buckets)[b] ==> buckets == old(buckets)
      ensures w in old(buckets)[b] ==>
        at < |old(buckets)[b]| && old(buckets)[b][at] == w && buckets == old(buckets)[b := Cut(old(buckets)[b], at)]
    {
      var l, i := buckets[b], 0;
      while i < |l|
        invariant 0 <= i <= |l| && buckets == old(buckets)
        invariant w !in l[..i]
      {
        if l[i] == w {
          at := i;
          buckets := buckets[b := l[..i] + l[i + 1..]];
          return;
        }
        i := i + 1;
      }
      at := 0;
    }

    /** The first critical section of futex_wait: queue, compare, and leave again unless the
        word still holds the expected value. `word` is what copy_from_user reads. */
    method Enter(w: nat, task: nat, key: Key, word: Option<nat>, val: nat)
      requires S().Inv() && w !in waits && task !in asleep
      requires forall v :: v in waits && waits[v].task == task ==> !waits[v].Active()
      modifies this`buckets, this`waits
      ensures S().Inv()
      ensures waits == old(waits)[w := Wait(task, key, false,
        if word == None then Done(EFAULT) else if word != Some(val) then Done(EAGAIN) else Checking)]
      ensures hash(key) % BUCKETS in old(buckets)
      ensures buckets == if word != None && word == Some(val)
        then old(buckets)[hash(key) % BUCKETS := [w] + old(buckets)[hash(key) % BUCKETS]] else old(buckets)
    {
      hide State.Inv, Cut;
      ghost var s := S();
      BucketsExist(s, key);
      var b := hash(key) % BUCKETS;
      buckets := buckets[b := [w] + buckets[b]];
      waits := waits[w := Wait(task, key, false, Checking)];
      if word == None || word != Some(val) {
        FreshHead(s, w, b);
        var at := BucketRemove(b, w);
        CutHead(w, s.buckets[b], at);
        assert buckets == s.buckets;
        waits := waits[w := Wait(task, key, false, Done(if word == None then EFAULT else EAGAIN))];
      }
      EnterInv(s, S(), w, waits[w]);
    }

    /** The test of `woken` at the head of the waiting loop. */
    method Look(w: nat)
      requires S().Inv() && w in waits && waits[w].pc == Checking
      modifies this`waits
      ensures S().Inv() && waits == old(waits)[w := old(waits)[w].(pc := if old(waits)[w].woken then Woke else Resting)]
    {
      hide State.Inv, State.WaitOk;
      ghost var s := S();
      var pc := if waits[w].woken then Woke else Resting;
      waits := waits[w := waits[w].(pc := pc)];
      LookOk(s, S(), w);
      MovesInv(s, S(), w, pc);
    }

    /** The sleep of the waiting loop: `expired` is the elapsed-time test, `signal` a pending
        death flag, `late` one that comes up after a credit was consumed instead of sleeping. */
    method Rest(w: nat, expired: bool, signal: bool, late: bool)
      requires S().Inv() && w in waits && waits[w].pc == Resting
      modifies this`waits, this`credits, this`asleep
      ensures S().Inv()
      ensures exists pc :: waits == old(waits)[w := old(waits)[w].(pc := pc)] &&
                RestsAs(old(S()), w, expired, signal, late, pc)
      ensures asleep == old(asleep) + if waits[w].pc.Sleeping? then {waits[w].task} else {}
      ensures credits == if !expired && !signal && old(S()).Credit(waits[w].task) > 0
        then old(credits)[waits[w].task := old(S()).Credit(waits[w].task) - 1] else old(credits)
    {
      hide State.Inv, State.WaitOk;
      ghost var s := S();
      var t := waits[w].task;
      var pc;
      if expired {
        pc := Leaving(ETIMEDOUT);
      } else if signal {
        pc := Leaving(EINTR);
      } else if t in credits && credits[t] > 0 {
        credits := credits[t := credits[t] - 1];
        pc := if late then Leaving(EINTR) else Checking;
      } else {
        asleep := asleep + {t};
        pc := Sleeping;
      }
      waits := waits[w := waits[w].(pc := pc)];
      RestOk(s, S(), w, expired, signal, late, pc);
      MovesInv(s, S(), w, pc);
    }

    /** sched_sleep returning after the task was made runnable. */
    method Return(w: nat, timedOut: bool, signal: bool)
      requires S().Inv() && w in waits && waits[w].pc == Sleeping && waits[w].task !in asleep
      modifies this`waits
      ensures S().Inv()
      ensures waits == old(waits)[w := old(waits)[w].(pc :=
        if signal then Leaving(EINTR) else if timedOut then Leaving(ETIMEDOUT) else Checking)]
    {
      hide State.Inv, State.WaitOk;
      ghost var s := S();
      var pc := if signal then Leaving(EINTR) else if timedOut then Leaving(ETIMEDOUT) else Checking;
      waits := waits[w := waits[w].(pc := pc)];
      ReturnOk(s, S(), w, pc);
      MovesInv(s, S(), w, pc);
    }

    /** `sched_consume_wake_pending` after seeing `woken`. */
    method Consume(w: nat)
      requires S().Inv() && w in waits && waits[w].pc == Woke
      modifies this`waits, this`credits
      ensures S().Inv() && waits == old(waits)[w := old(waits)[w].(pc := Leaving(Ok))]
      ensures credits == Spent(old(S()), old(waits)[w].task)
    {
      hide State.Inv, State.WaitOk;
      ghost var s := S();
      var t := waits[w].task;
      if t in credits && credits[t] > 0 {
        credits := credits[t := credits[t] - 1];
      }
      waits := waits[w := waits[w].(pc := Leaving(Ok))];
      ConsumeOk(s, S(), w);
      MovesInv(s, S(), w, Leaving(Ok));
    }

    /** The cleanup that ends futex_wait: a wake that raced with giving up is honoured. */
    method Cleanup(w: nat)
      requires S().Inv() && w in waits && waits[w].pc.Leaving?
      modifies this`waits, this`credits, this`buckets
      ensures S().Inv()
      ensures waits == old(waits)[w := old(waits)[w].(pc := Done(if old(waits)[w].woken then Ok
                else old(waits)[w].pc.e))]
      ensures old(waits)[w].woken ==> buckets == old(buckets) && credits == Spent(old(S()), old(waits)[w].task)
      ensures !old(waits)[w].woken ==>
        && credits == old(credits) && old(S()).Bucket(old(waits)[w].key) in old(buckets)
        && var b := old(S()).Bucket(old(waits)[w].key);
           exists i :: 0 <= i < |old(buckets)[b]| && old(buckets)[b][i] == w &&
               buckets == old(buckets)[b := Cut(old(buckets)[b], i)]
    {
      hide State.Inv, State.WaitOk, Cut;
      ghost var s := S();
      var x := waits[w];
      if x.woken {
        if x.task in credits && credits[x.task] > 0 {
          credits := credits[x.task := credits[x.task] - 1];
        }
        waits := waits[w := x.(pc := Done(Ok))];
        DoneInv(s, S(), w);
      } else {
        var b := hash(x.key) % BUCKETS;
        PendingListed(s, w);
        var at := BucketRemove(b, w);
        waits := waits[w := x.(pc := Done(x.pc.e))];
        LeftOk(s, S(), w, at);
        LeavesInv(s, S(), w, at, waits[w]);
      }
    }

    /** `sched_wake`, from a futex_wake or from anywhere else. */
    method SchedWake(t: nat)
      modifies this`credits, this`asleep
      ensures S() == SchedWoken(old(S()), t)
      ensures old(S()).Inv() ==> S().Inv()
    {
      hide State.Inv;
      ghost var s := S();
      if t in asleep {
        asleep := asleep - {t};
      } else {
        credits := credits[t := (if t in credits then credits[t] else 0) + 1];
      }
      if s.Inv() {
        RousedInv(s, S());
      }
    }

    /** One wait taken off its bucket, marked woken and its task woken. */
    method MarkWoken(b: nat, i: nat)
      requires S().Inv() && b in buckets && i < |buckets[b]|
      modifies this`buckets, this`waits, this`credits, this`asleep, this`total
      ensures S().Inv() && total == old(total) + 1 && old(buckets)[b][i] in old(waits)
      ensures buckets == old(buckets)[b := Cut(old(buckets)[b], i)]
      ensures var w := old(buckets)[b][i];
        var t := old(waits)[w].task;
        && waits == old(waits)[w := old(waits)[w].(woken := true)]
        && asleep == old(asleep) - {t}
        && forall u :: S().Credit(u) == old(S()).Credit(u) + if u == t && t !in old(asleep) then 1 else 0
    {
      hide State.Inv, State.WaitOk, Cut, Leaves;
      ghost var s := S();
      ListedPending(s, b, i);
      var w := buckets[b][i];
      buckets := buckets[b := buckets[b][..i] + buckets[b][i + 1..]];
      waits := waits[w := waits[w].(woken := true)];
      SchedWake(waits[w].task);
      total := total + 1;
      CutIs(s.buckets[b], i);
      MarkOk(s, S(), w, b, i);
      LeavesInv(s, S(), w, i, waits[w]);
    }

    /** `futex_wake`: takes waits on the word off the bucket, in list order, until `count` are
        woken or none is left; a negative count means all. */
    method Wake(key: Key, count: int) returns (n: int)
      requires S().Inv()
      modifies this`buckets, this`waits, this`credits, this`asleep, this`total
      ensures S().Inv() && total == old(total) + n
      ensures var b := hash(key) % BUCKETS;
        && b in old(buckets)
        && var found := Matching(old(waits), key, old(buckets)[b]);
           && n == (if |found| < Limit(count) then |found| else Limit(count))
           && waits == Marked(old(waits), found[..n])
           && buckets == old(buckets)[b := Left(old(waits), key, old(buckets)[b], n)]
           && asleep == old(asleep) - Tasks(old(waits), found[..n])
           && forall t :: S().Credit(t) ==
                old(S()).Credit(t) + if t in Tasks(old(waits), found[..n]) && t !in old(asleep) then 1 else 0
    {
      hide State.Inv, Scanned, Left, Tasks, Matching, Marked;
      var limit, b, i := Limit(count), hash(key) % BUCKETS, 0;
      ghost var s0, p := S(), 0;
      BucketsExist(s0, key);
      n := 0;
      ScanStart(s0, key, b);
      while i < |buckets[b]| && n < limit
        invariant S().Inv() && b in buckets && 0 <= n <= limit && 0 <= i <= |buckets[b]| && 0 <= p
        invariant Scanned(s0, S(), key, b, p, n, i)
        decreases |s0.buckets[b]| - p
      {
        ghost var s := S();
        ScanHere(s0, s, key, b, p, n, i);
        var w := buckets[b][i];
        if waits[w].key == key {
          MarkWoken(b, i);
          ScanMark(s0, s, S(), key, b, p, n, i);
          n := n + 1;
        } else {
          ScanSkip(s0, s, key, b, p, n, i);
          i := i + 1;
        }
        p := p + 1;
        ScanSize(s0, S(), key, b, p, n, i);
      }
      ScanEnd(s0, S(), key, b, p, n, i);
    }

    /** `futex_requeue`: requeued waits are woken instead. */
    method Requeue(key: Key, wake: int, requeue: int) returns (n: int)
      requires S().Inv()
      modifies this`buckets, this`waits, this`credits, this`asleep, this`total
      ensures S().Inv() && total == old(total) + n
      ensures var b := hash(key) % BUCKETS;
        && b in old(buckets)
        && var found := Matching(old(waits), key, old(buckets)[b]);
           && n == Min(|found|, Min(Max(wake, 0) + Max(requeue, 0), WAKE_ALL))
           && waits == Marked(old(waits), found[..n])
    {
      var first, second := if wake < 0 then 0 else wake, if requeue < 0 then 0 else requeue;
      var sum := first + second;
      if sum > WAKE_ALL {
        sum := WAKE_ALL;
      }
      n := Wake(key, sum);
    }

    /** A sleep of another kind, or the end of a sleep without a wake (the timer). */
    method Elsewhere(t: nat, expire: bool)
      requires S().Inv()
      modifies this`credits, this`asleep
      ensures S().Inv()
    {
      hide State.Inv;
      ghost var s := S();
      if expire {
        asleep := asleep - {t};
        RousedInv(s, S());
      } else if forall w :: w in waits && waits[w].task == t ==> !waits[w].Active() {
        if t in credits && credits[t] > 0 {
          credits := credits[t := credits[t] - 1];
        } else {
          asleep := asleep + {t};
        }
        NapInv(s, S(), t);
      }
    }

    /** One step of any task, if it is at that step. */
    method Do(step: Step) returns (n: int)
      requires S().Inv()
      modifies this
      ensures S().Inv() && total == old(total) + n && Advances(old(waits), waits)
      ensures !step.WakeOn? ==> n == 0
    {
      hide State.Inv;
      n := 0;
      match step {
        case Begin(w, t, key, word, val) =>
          if w !in waits && t !in asleep && forall v :: v in waits && waits[v].task == t ==> !waits[v].Active() {
            Enter(w, t, key, word, val);
          }
        case LookAt(w) =>
          if w in waits && waits[w].pc == Checking {
            Look(w);
          }
        case RestAt(w, expired, signal, late) =>
          if w in waits && waits[w].pc == Resting {
            Rest(w, expired, signal, late);
          }
        case ReturnTo(w, timedOut, signal) =>
          if w in waits && waits[w].pc == Sleeping && waits[w].task !in asleep {
            Return(w, timedOut, signal);
          }
        case ConsumeFor(w) =>
          if w in waits && waits[w].pc == Woke {
            Consume(w);
          }
        case End(w) =>
          if w in waits && waits[w].pc.Leaving? {
            Cleanup(w);
          }
        case WakeOn(key, count) =>
          n := Wake(key, count);
        case Poke(t) =>
          SchedWake(t);
        case Other(t, expire) =>
          Elsewhere(t, expire);
      }
    }

    /** Any interleaving of steps: the results of the wakes add up to the number of waits marked
        woken; a finished wait returned 0 exactly when it was woken, and is in no bucket. */
    method Run(steps: seq<Step>) returns (sum: int)
      requires S().Inv()
      modifies this
      ensures S().Inv() && total == old(total) + sum && Advances(old(waits), waits)
      ensures total == |S().WokenWaits()|
      ensures forall w :: w in waits && waits[w].pc.Done? ==> (waits[w].pc.ret == Ok <==> waits[w].woken)
      ensures forall w, b :: w in waits && waits[w].pc.Done? && b in buckets ==> w !in buckets[b]
    {
      sum := 0;
      var i := 0;
      while i < |steps|
        invariant 0 <= i <= |steps|
        invariant S().Inv() && total == old(total) + sum && Advances(old(waits), waits)
      {
        ghost var before := waits;
        var n := Do(steps[i]);
        AdvancesTrans(old(waits), before, waits);
        sum := sum + n;
        i := i + 1;
      }
      Charged(S());
    }

    /** A woken wait is never stuck: its own steps end it, returning 0. */
    method Finish(w: nat)
      requires S().Inv() && w in waits && waits[w].woken && waits[w].Active()
      modifies this
      ensures S().Inv() && waits == old(waits)[w := old(waits)[w].(pc := Done(Ok))]
    {
      hide State.Inv, State.WaitOk;
      WokenFacts(S(), w);
      if waits[w].pc.Resting? {
        Rest(w, false, false, false);
      } else if waits[w].pc.Sleeping? {
        Return(w, false, false);
      }
      if waits[w].pc.Checking? {
        Look(w);
      }
      if waits[w].pc.Woke? {
        Consume(w);
      }
      Cleanup(w);
    }
  }
}
