/** The hand-off mutex (kernel/lib/mutex.c) over every interleaving of its critical sections with
    the scheduler's sleep and wake credits (kernel/kernel/sched.c). */
module Mutex {
  import opened Base

  type Tid = nat
  type Lock = nat

  /** Where a task stands between two critical sections. */
  datatype Pc =
    | Out                  // outside the mutex code
    | Napping              // asleep for a reason of its own
    | WantSleep(m: Lock)   // queued on m, about to call sched_sleep_current
    | Asleep(m: Lock)      // asleep inside mutex_lock
    | Recheck(m: Lock)     // woken inside mutex_lock, about to look at the owner
    | Waking(next: Tid)    // in mutex_unlock, about to call sched_wake on the new owner
  {
    /** Inside the slow path of mutex_lock on `k`. */
    predicate Waits(k: Lock) {
      (WantSleep? || Asleep? || Recheck?) && m == k
    }
  }

  /** The queue of a lock: without an owner there is none, nobody queues twice, the queued wait and
      do not own the lock, and those ever queued are those granted so far and those queued now. */
  ghost predicate LineOk(owner: Option<Tid>, line: seq<Tid>, pc: imap<Tid, Pc>, m: Lock, enqueued: seq<Tid>,
                         granted: seq<Tid>)
    requires forall t: Tid :: t in pc
  {
    && (owner == None ==> line == [])
    && (forall i, j :: 0 <= i < j < |line| ==> line[i] != line[j])
    && (forall i :: 0 <= i < |line| ==> pc[line[i]].Waits(m) && owner != Some(line[i]))
    && enqueued == granted + line
  }

  /** `enqueued` and `granted` record the order of waiting and of hand-offs; `holds` the tasks
      that returned from mutex_lock or mutex_trylock and have not called mutex_unlock. */
  datatype State = State(
    owner: imap<Lock, Option<Tid>>,
    waiters: imap<Lock, seq<Tid>>,
    pc: imap<Tid, Pc>,
    credits: imap<Tid, nat>,
    enqueued: imap<Lock, seq<Tid>>,
    granted: imap<Lock, seq<Tid>>,
    holds: imap<Lock, set<Tid>>)
  {
    ghost predicate Total() {
      && (forall m: Lock :: m in owner && m in waiters && m in enqueued && m in granted && m in holds)
      && (forall t: Tid :: t in pc && t in credits)
    }

    /** A wake for `t` has been promised by an unlocker and not yet delivered. */
    ghost predicate WakeComing(t: Tid)
      requires Total()
    {
      exists u: Tid :: pc[u] == Waking(t)
    }

    ghost predicate QueueOk(m: Lock)
      requires Total()
    {
      LineOk(owner[m], waiters[m], pc, m, enqueued[m], granted[m])
    }

    /** A waiting task is queued or already the owner; an owner that returned from mutex_lock
        holds the lock, and nobody else does. */
    ghost predicate TaskOk(m: Lock, t: Tid)
      requires Total()
    {
      && (pc[t].Waits(m) ==> t in waiters[m] || owner[m] == Some(t))
      && (t in holds[m] <==> owner[m] == Some(t) && !pc[t].Waits(m))
    }

    /** No lost wake-up: a new owner that sleeps, or goes to sleep without a credit, has a wake
        on its way. */
    ghost predicate WakeOk(m: Lock, t: Tid)
      requires Total()
    {
      && (owner[m] == Some(t) && pc[t] == Asleep(m) ==> WakeComing(t))
      && (owner[m] == Some(t) && pc[t] == WantSleep(m) ==> WakeComing(t) || credits[t] > 0)
    }

    ghost predicate Inv() {
      && Total()
      && (forall m: Lock :: QueueOk(m))
      && (forall m: Lock, t: Tid :: TaskOk(m, t))
      && (forall m: Lock, t: Tid :: WakeOk(m, t))
    }
  }

  /** The critical sections, one step each. `Nap` and `Poke` are the rest of the kernel: a task
      sleeping for other reasons, and a wake from anywhere, stale ones included. */
  datatype Step =
    | Acquire(t: Tid, m: Lock)
    | Sleep(t: Tid)
    | Check(t: Tid)
    | TryAcquire(t: Tid, m: Lock)
    | Release(t: Tid, m: Lock)
    | Deliver(t: Tid)
    | Nap(t: Tid)
    | Poke(t: Tid)

  /** The task is at the step, and the step does not panic. */
  ghost predicate Enabled(s: State, step: Step)
    requires s.Total()
  {
    match step
    case Acquire(t, m) => s.pc[t].Out? && s.owner[m] != Some(t)
    case Sleep(t) => s.pc[t].WantSleep?
    case Check(t) => s.pc[t].Recheck?
    case TryAcquire(t, m) => s.pc[t].Out?
    case Release(t, m) => s.pc[t].Out? && s.owner[m] == Some(t)
    case Deliver(t) => s.pc[t].Waking?
    case Nap(t) => s.pc[t].Out?
    case Poke(_) => true
  }

  /** `sched_sleep_current`: a credit is consumed instead of sleeping. */
  ghost function Slept(s: State, t: Tid, awake: Pc, asleep: Pc): (r: State)
    requires s.Total()
    ensures r.Total()
  {
    if s.credits[t] > 0 then s.(pc := s.pc[t := awake], credits := s.credits[t := s.credits[t] - 1])
    else s.(pc := s.pc[t := asleep])
  }

  /** `sched_wake`: a sleeper runs, anyone else gets a credit. */
  ghost function Woken(s: State, t: Tid): (r: State)
    requires s.Total()
    ensures r.Total()
  {
    var credit := if s.pc[t].Asleep? || s.pc[t].Napping? then 0 else 1;
    s.(pc := s.pc[t := Roused(s.pc[t])], credits := s.credits[t := s.credits[t] + credit])
  }

  function Roused(pc: Pc): Pc {
    match pc
    case Asleep(m) => Recheck(m)
    case Napping => Out
    case _ => pc
  }

  ghost function Taken(s: State, t: Tid, m: Lock): (r: State)
    requires s.Total()
    ensures r.Total()
  {
    s.(owner := s.owner[m := Some(t)], holds := s.holds[m := s.holds[m] + {t}])
  }

  ghost function Queued(s: State, t: Tid, m: Lock): (r: State)
    requires s.Total()
    ensures r.Total()
  {
    s.(pc := s.pc[t := WantSleep(m)], waiters := s.waiters[m := s.waiters[m] + [t]],
       enqueued := s.enqueued[m := s.enqueued[m] + [t]])
  }

  ghost function HandedOff(s: State, t: Tid, m: Lock): (r: State)
    requires s.Total() && s.waiters[m] != []
    ensures r.Total()
  {
    var next := s.waiters[m][0];
    s.(pc := s.pc[t := Waking(next)], owner := s.owner[m := Some(next)], waiters := s.waiters[m := s.waiters[m][1..]],
       granted := s.granted[m := s.granted[m] + [next]], holds := s.holds[m := s.holds[m] - {t}])
  }

  ghost function Checked(s: State, t: Tid): (r: State)
    requires s.Total() && s.pc[t].Recheck?
    ensures r.Total()
  {
    var m := s.pc[t].m;
    if s.owner[m] == Some(t) then s.(pc := s.pc[t := Out], holds := s.holds[m := s.holds[m] + {t}])
    else s.(pc := s.pc[t := WantSleep(m)])
  }

  ghost function Freed(s: State, t: Tid, m: Lock): (r: State)
    requires s.Total()
    ensures r.Total()
  {
    s.(owner := s.owner[m := None], holds := s.holds[m := s.holds[m] - {t}])
  }

  ghost function Delivered(s: State, t: Tid): (r: State)
    requires s.Total() && s.pc[t].Waking?
    ensures r.Total()
  {
    Woken(s.(pc := s.pc[t := Out]), s.pc[t].next)
  }

  /** The effect of an enabled step. */
  ghost function Do(s: State, step: Step): (r: State)
    requires s.Total() && Enabled(s, step)
    ensures r.Total()
  {
    match step
    case Acquire(t, m) => if s.owner[m] == None then Taken(s, t, m) else Queued(s, t, m)
    case Sleep(t) => Slept(s, t, Recheck(s.pc[t].m), Asleep(s.pc[t].m))
    case Check(t) => Checked(s, t)
    case TryAcquire(t, m) => if s.owner[m] == None then Taken(s, t, m) else s
    case Release(t, m) => if s.waiters[m] == [] then Freed(s, t, m) else HandedOff(s, t, m)
    case Deliver(t) => Delivered(s, t)
    case Nap(t) => Slept(s, t, Out, Napping)
    case Poke(t) => Woken(s, t)
  }

  /** A step keeps the invariant at `t` and `m` when it changes nothing they depend on. */
  lemma WakesKept(s: State, s': State)
    requires s.Total() && s'.Total() && forall u: Tid :: s.pc[u].Waking? ==> s'.pc[u] == s.pc[u]
    ensures forall t: Tid :: s.WakeComing(t) ==> s'.WakeComing(t)
  {
    forall t: Tid | s.WakeComing(t) ensures s'.WakeComing(t) {
      var u: Tid :| s.pc[u] == Waking(t);
      assert s'.pc[u] == Waking(t);
    }
  }

  lemma Coming(s: State, u: Tid, t: Tid)
    requires s.Total() && s.pc[u] == Waking(t)
    ensures s.WakeComing(t)
  {
  }

  lemma DeliverWakes(s: State, t: Tid)
    requires s.Total() && s.pc[t].Waking?
    ensures var s' := Delivered(s, t);
      s'.Total() && forall v: Tid :: v != s.pc[t].next && s.WakeComing(v) ==> s'.WakeComing(v)
  {
    var s' := Delivered(s, t);
    forall v: Tid | v != s.pc[t].next && s.WakeComing(v) ensures s'.WakeComing(v) {
      var w: Tid :| s.pc[w] == Waking(v);
      assert s'.pc[w] == Waking(v);
    }
  }

  /** The part of the invariant about one lock and one task. */
  ghost predicate OkAt(s: State, m: Lock, t: Tid)
    requires s.Total()
  {
    s.QueueOk(m) && s.TaskOk(m, t) && s.WakeOk(m, t)
  }

  lemma InvTotal(s: State)
    requires s.Inv()
    ensures s.Total()
  {
  }

  lemma InvAt(s: State)
    requires s.Total()
    ensures s.Inv() <==> forall m: Lock, t: Tid :: OkAt(s, m, t)
  {
    hide State.QueueOk, State.TaskOk, State.WakeOk;
    if forall m: Lock, t: Tid :: OkAt(s, m, t) {
      forall m: Lock ensures s.QueueOk(m) {
        assert OkAt(s, m, 0);
      }
      forall m: Lock, t: Tid ensures s.TaskOk(m, t) && s.WakeOk(m, t) {
        assert OkAt(s, m, t);
      }
    }
  }

  /** Steps that only move tasks between the stages of a wait. */
  lemma SameWaits(s: State, s': State, m: Lock, t: Tid)
    requires s.Total() && s'.Total() && s'.owner == s.owner && s'.waiters == s.waiters && s'.holds == s.holds
    requires s'.enqueued == s.enqueued && s'.granted == s.granted
    requires forall u: Tid :: s'.pc[u].Waits(m) <==> s.pc[u].Waits(m)
    requires s.QueueOk(m) && s.TaskOk(m, t)
    ensures s'.QueueOk(m) && s'.TaskOk(m, t)
  {
  }

  lemma TakenAt(s: State, t: Tid, m: Lock, k: Lock, u: Tid)
    requires s.Total() && s.pc[t].Out? && s.owner[m] == None && OkAt(s, k, u)
    ensures Taken(s, t, m).Total() && OkAt(Taken(s, t, m), k, u)
  {
    WakesKept(s, Taken(s, t, m));
    hide State.WakeComing;
  }

  /** A task outside the slow path moves. */
  lemma LineSame(owner: Option<Tid>, line: seq<Tid>, pc: imap<Tid, Pc>, pc': imap<Tid, Pc>, m: Lock,
                 enqueued: seq<Tid>, granted: seq<Tid>, t: Tid)
    requires (forall u: Tid :: u in pc) && (forall u: Tid :: u in pc') && LineOk(owner, line, pc, m, enqueued, granted)
    requires !pc[t].Waits(m) && pc' == pc[t := pc'[t]]
    ensures LineOk(owner, line, pc', m, enqueued, granted)
  {
  }

  lemma LinePush(owner: Option<Tid>, line: seq<Tid>, pc: imap<Tid, Pc>, pc': imap<Tid, Pc>, m: Lock,
                 enqueued: seq<Tid>, granted: seq<Tid>, t: Tid)
    requires (forall u: Tid :: u in pc) && (forall u: Tid :: u in pc') && LineOk(owner, line, pc, m, enqueued, granted)
    requires !pc[t].Waits(m) && pc' == pc[t := pc'[t]] && pc'[t].Waits(m) && owner != None && owner != Some(t)
    ensures LineOk(owner, line + [t], pc', m, enqueued + [t], granted)
  {
    assert enqueued + [t] == granted + (line + [t]);
  }

  lemma LinePop(owner: Option<Tid>, line: seq<Tid>, pc: imap<Tid, Pc>, pc': imap<Tid, Pc>, m: Lock,
                enqueued: seq<Tid>, granted: seq<Tid>, t: Tid)
    requires (forall u: Tid :: u in pc) && (forall u: Tid :: u in pc') && LineOk(owner, line, pc, m, enqueued, granted)
    requires line != [] && !pc[t].Waits(m) && pc' == pc[t := pc'[t]]
    ensures LineOk(Some(line[0]), line[1..], pc', m, enqueued, granted + [line[0]])
  {
    LineSame(owner, line, pc, pc', m, enqueued, granted, t);
    var rest := line[1..];
    assert granted + line == granted + [line[0]] + rest;
    assert forall i :: 0 <= i < |rest| ==> rest[i] == line[i + 1];
  }

  lemma QueuedQueue(s: State, t: Tid, m: Lock, k: Lock)
    requires s.Total() && s.pc[t].Out? && s.owner[m] != None && s.owner[m] != Some(t) && s.QueueOk(k)
    ensures Queued(s, t, m).QueueOk(k)
  {
    hide State.WakeComing, LineOk;
    var s' := Queued(s, t, m);
    if k == m {
      LinePush(s.owner[k], s.waiters[k], s.pc, s'.pc, k, s.enqueued[k], s.granted[k], t);
    } else {
      LineSame(s.owner[k], s.waiters[k], s.pc, s'.pc, k, s.enqueued[k], s.granted[k], t);
    }
  }

  lemma QueuedAt(s: State, t: Tid, m: Lock, k: Lock, u: Tid)
    requires s.Total() && s.pc[t].Out? && s.owner[m] != None && s.owner[m] != Some(t) && OkAt(s, k, u)
    ensures OkAt(Queued(s, t, m), k, u)
  {
    hide State.WakeComing, State.QueueOk;
    WakesKept(s, Queued(s, t, m));
    QueuedQueue(s, t, m, k);
  }

  /** Going to sleep inside mutex_lock: without a credit, an owner's wake is on the way. */
  lemma SleepAt(s: State, t: Tid, k: Lock, u: Tid)
    requires s.Total() && s.pc[t].WantSleep? && OkAt(s, k, u)
    ensures Slept(s, t, Recheck(s.pc[t].m), Asleep(s.pc[t].m)).Total()
    ensures OkAt(Slept(s, t, Recheck(s.pc[t].m), Asleep(s.pc[t].m)), k, u)
  {
    hide State.WakeComing, State.QueueOk, State.TaskOk;
    var s' := Slept(s, t, Recheck(s.pc[t].m), Asleep(s.pc[t].m));
    WakesKept(s, s');
    SameWaits(s, s', k, u);
  }

  lemma CheckAt(s: State, t: Tid, k: Lock, u: Tid)
    requires s.Total() && s.pc[t].Recheck? && OkAt(s, k, u)
    ensures Checked(s, t).Total() && OkAt(Checked(s, t), k, u)
  {
    WakesKept(s, Checked(s, t));
    hide State.WakeComing;
  }

  lemma FreedAt(s: State, t: Tid, m: Lock, k: Lock, u: Tid)
    requires s.Total() && s.pc[t].Out? && s.owner[m] == Some(t) && s.waiters[m] == [] && OkAt(s, k, u)
    ensures Freed(s, t, m).Total() && OkAt(Freed(s, t, m), k, u)
  {
    WakesKept(s, Freed(s, t, m));
    hide State.WakeComing;
  }

  lemma HeadTail(s: State, m: Lock)
    requires s.Total() && s.QueueOk(m) && s.waiters[m] != []
    ensures var w := s.waiters[m];
      && (forall u :: u in w <==> u == w[0] || u in w[1..])
      && w[0] !in w[1..] && s.pc[w[0]].Waits(m)
  {
  }

  lemma HandedOffQueue(s: State, t: Tid, m: Lock, k: Lock)
    requires s.Total() && s.pc[t].Out? && s.owner[m] == Some(t) && s.waiters[m] != [] && s.QueueOk(k)
    ensures HandedOff(s, t, m).QueueOk(k)
  {
    hide State.WakeComing, LineOk;
    var s' := HandedOff(s, t, m);
    if k == m {
      LinePop(s.owner[k], s.waiters[k], s.pc, s'.pc, k, s.enqueued[k], s.granted[k], t);
    } else {
      LineSame(s.owner[k], s.waiters[k], s.pc, s'.pc, k, s.enqueued[k], s.granted[k], t);
    }
  }

  /** Hand-off: the new owner may sleep, but its wake is now on the way. */
  lemma HandedOffAt(s: State, t: Tid, m: Lock, k: Lock, u: Tid)
    requires s.Total() && s.pc[t].Out? && s.owner[m] == Some(t) && s.waiters[m] != [] && OkAt(s, k, u)
    ensures OkAt(HandedOff(s, t, m), k, u)
  {
    hide State.WakeComing, State.QueueOk;
    var s' := HandedOff(s, t, m);
    HandedOffQueue(s, t, m, k);
    if k == m {
      HeadTail(s, m);
    }
    WakesKept(s, s');
    Coming(s', t, s.waiters[m][0]);
  }

  /** A wake from anywhere never hurts. */
  lemma PokeAt(s: State, v: Tid, k: Lock, u: Tid)
    requires s.Total() && OkAt(s, k, u)
    ensures Woken(s, v).Total() && OkAt(Woken(s, v), k, u)
  {
    hide State.WakeComing, State.QueueOk, State.TaskOk;
    var s' := Woken(s, v);
    WakesKept(s, s');
    SameWaits(s, s', k, u);
  }

  /** The promised wake makes the new owner look again, now or at its next sleep. */
  lemma DeliverAt(s: State, t: Tid, k: Lock, u: Tid)
    requires s.Total() && s.pc[t].Waking? && OkAt(s, k, u)
    ensures Delivered(s, t).Total() && OkAt(Delivered(s, t), k, u)
  {
    hide State.WakeComing, State.QueueOk, State.TaskOk;
    DeliverWakes(s, t);
    SameWaits(s, Delivered(s, t), k, u);
  }

  lemma NapAt(s: State, t: Tid, k: Lock, u: Tid)
    requires s.Total() && s.pc[t].Out? && OkAt(s, k, u)
    ensures Slept(s, t, Out, Napping).Total() && OkAt(Slept(s, t, Out, Napping), k, u)
  {
    hide State.WakeComing, State.QueueOk, State.TaskOk;
    var s' := Slept(s, t, Out, Napping);
    WakesKept(s, s');
    SameWaits(s, s', k, u);
  }

  lemma StepAt(s: State, step: Step, k: Lock, u: Tid)
    requires s.Total() && Enabled(s, step) && OkAt(s, k, u)
    ensures Do(s, step).Total() && OkAt(Do(s, step), k, u)
  {
    hide OkAt;
    match step {
      case Acquire(t, m) =>
        if s.owner[m] == None {
          TakenAt(s, t, m, k, u);
        } else {
          QueuedAt(s, t, m, k, u);
        }
      case Sleep(t) => SleepAt(s, t, k, u);
      case Check(t) => CheckAt(s, t, k, u);
      case TryAcquire(t, m) =>
        if s.owner[m] == None {
          TakenAt(s, t, m, k, u);
        }
      case Release(t, m) =>
        if s.waiters[m] == [] {
          FreedAt(s, t, m, k, u);
        } else {
          HandedOffAt(s, t, m, k, u);
        }
      case Deliver(t) => DeliverAt(s, t, k, u);
      case Nap(t) => NapAt(s, t, k, u);
      case Poke(t) => PokeAt(s, t, k, u);
    }
  }

  /** Every step keeps the invariant. */
  lemma StepInv(s: State, step: Step)
    requires s.Inv() && Enabled(s, step)
    ensures Do(s, step).Inv()
  {
    hide State.Inv, OkAt, Do;
    InvTotal(s);
    InvAt(s);
    StepAt(s, step, 0, 0);
    forall k: Lock, u: Tid ensures OkAt(Do(s, step), k, u) {
      StepAt(s, step, k, u);
    }
    InvAt(Do(s, step));
  }

  // ------------------------------------------------------------------------
  // Runs
  // ------------------------------------------------------------------------

  /** No task in the mutex code, no lock taken, no credits. */
  ghost predicate Fresh(s: State) {
    && s.Total()
    && (forall m: Lock :: s.owner[m] == None && s.holds[m] == {})
    && (forall m: Lock :: s.waiters[m] == [] && s.enqueued[m] == [] && s.granted[m] == [])
    && (forall t: Tid :: s.pc[t] == Out && s.credits[t] == 0)
  }

  /** The steps can be taken one after the other from `s` and lead to `s'`. */
  ghost predicate Runs(s: State, steps: seq<Step>, s': State)
    requires s.Total()
    decreases |steps|
  {
    if steps == [] then s' == s
    else Enabled(s, steps[0]) && Runs(Do(s, steps[0]), steps[1..], s')
  }

  lemma {:induction false} RunInv(s: State, steps: seq<Step>, s': State)
    requires s.Inv() && Runs(s, steps, s')
    ensures s'.Inv()
    decreases |steps|
  {
    hide State.QueueOk, State.TaskOk, State.WakeOk, Do;
    if steps != [] {
      StepInv(s, steps[0]);
      RunInv(Do(s, steps[0]), steps[1..], s');
    }
  }

  /** In every state reachable by any interleaving: at most one task holds a lock; a lock
      without owner has no holder and no waiter; hand-offs follow the order of waiting; and a new
      owner asleep inside mutex_lock has a wake still to be delivered. */
  lemma Safety(s0: State, steps: seq<Step>, s: State, m: Lock)
    requires Fresh(s0) && Runs(s0, steps, s)
    ensures s.Total()
    ensures forall t, u :: t in s.holds[m] && u in s.holds[m] ==> t == u
    ensures forall t :: t in s.holds[m] ==> s.owner[m] == Some(t)
    ensures s.owner[m] == None ==> s.waiters[m] == [] && s.holds[m] == {}
    ensures s.enqueued[m] == s.granted[m] + s.waiters[m]
    ensures forall t :: s.owner[m] == Some(t) && s.pc[t] == Asleep(m) ==> s.WakeComing(t)
  {
    FreshInv(s0);
    RunInv(s0, steps, s);
    hide State.WakeComing;
    assert s.QueueOk(m);
    forall t: Tid ensures t in s.holds[m] ==> s.owner[m] == Some(t) {
      assert s.TaskOk(m, t);
    }
    forall t: Tid | s.owner[m] == Some(t) && s.pc[t] == Asleep(m) ensures s.WakeComing(t) {
      assert s.WakeOk(m, t);
    }
  }

  lemma FreshInv(s: State)
    requires Fresh(s)
    ensures s.Inv()
  {
    hide State.WakeComing;
  }

  lemma Comes(s: State, t: Tid) returns (u: Tid)
    requires s.Total() && s.WakeComing(t)
    ensures s.pc[u] == Waking(t)
  {
    u :| s.pc[u] == Waking(t);
  }

  /** The wake that an unlocker owes is never lost: from every reachable state, steps of the new
      owner and of one unlocker alone make it return from mutex_lock holding the lock. */
  lemma HandOffCompletes(s: State, m: Lock, t: Tid) returns (steps: seq<Step>, s': State)
    requires s.Inv() && s.owner[m] == Some(t) && s.pc[t].Waits(m)
    ensures |steps| <= 3 && Runs(s, steps, s') && s'.Inv() && t in s'.holds[m]
  {
    hide State.QueueOk, State.TaskOk, State.WakeComing;
    steps, s' := [], s;
    assert s.WakeOk(m, t);
    if s.pc[t].Recheck? {
      steps, s' := Then(s, steps, s', Check(t));
    } else if s.pc[t].WantSleep? && s.credits[t] > 0 {
      steps, s' := Then(s, steps, s', Sleep(t));
      steps, s' := Then(s, steps, s', Check(t));
    } else {
      var u := Comes(s, t);
      steps, s' := Then(s, steps, s', Deliver(u));
      if s.pc[t].WantSleep? {
        steps, s' := Then(s, steps, s', Sleep(t));
      }
      steps, s' := Then(s, steps, s', Check(t));
    }
  }

  /** A run followed by one more step. */
  lemma Then(s: State, steps: seq<Step>, s1: State, step: Step) returns (longer: seq<Step>, s': State)
    requires s.Total() && Runs(s, steps, s1) && s1.Inv() && Enabled(s1, step)
    ensures longer == steps + [step] && s' == Do(s1, step) && Runs(s, longer, s') && s'.Inv()
  {
    hide State.QueueOk, State.TaskOk, State.WakeOk, State.WakeComing, Do;
    longer, s' := steps + [step], Do(s1, step);
    StepInv(s1, step);
    RunsThen(s, steps, s1, step);
  }

  lemma {:induction false} RunsThen(s: State, steps: seq<Step>, s1: State, step: Step)
    requires s.Total() && Runs(s, steps, s1) && s1.Total() && Enabled(s1, step)
    ensures Runs(s, steps + [step], Do(s1, step))
    decreases |steps|
  {
    hide Do, Enabled;
    if steps == [] {
      assert Runs(Do(s, step), [], Do(s, step));
    } else {
      assert (steps + [step])[1..] == steps[1..] + [step];
      RunsThen(Do(s, steps[0]), steps[1..], s1, step);
    }
  }
}
