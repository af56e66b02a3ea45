/** The round-robin scheduler (kernel/kernel/sched.c): the intrusive run queue, sleep and wake
    with credits, timed sleeps, preemption, creation and exit. */
module Sched {
  import opened Base

  type Tid = nat

  datatype TaskState = Running | Runnable | Sleeping | Zombie | Dead

  datatype Task = Task(state: TaskState, credits: nat, deadline: nat, timedOut: bool)

  // ------------------------------------------------------------------------
  // The run queue
  // ------------------------------------------------------------------------

  ghost predicate Distinct(q: seq<Tid>) {
    forall i, j :: 0 <= i < j < |q| ==> q[i] != q[j]
  }

  /** `head`, `tail` and the `run_next` fields spell out the queue `q`. */
  ghost predicate Linked(head: Option<Tid>, tail: Option<Tid>, next: map<Tid, Option<Tid>>, q: seq<Tid>) {
    && Distinct(q)
    && head == (if q == [] then None else Some(q[0]))
    && tail == (if q == [] then None else Some(q[|q| - 1]))
    && (forall i :: 0 <= i < |q| ==> LinkAt(next, q, i))
  }

  ghost predicate LinkAt(next: map<Tid, Option<Tid>>, q: seq<Tid>, i: nat)
    requires i < |q|
  {
    q[i] in next && next[q[i]] == if i + 1 < |q| then Some(q[i + 1]) else None
  }

  lemma LinkedDistinct(head: Option<Tid>, tail: Option<Tid>, next: map<Tid, Option<Tid>>, q: seq<Tid>)
    requires Linked(head, tail, next, q)
    ensures Distinct(q)
  {
  }

  lemma PopLinked(head: Option<Tid>, tail: Option<Tid>, next: map<Tid, Option<Tid>>, q: seq<Tid>)
    requires Linked(head, tail, next, q) && q != []
    ensures var t := q[0];
      t in next && Linked(next[t], if next[t] == None then None else tail, next[t := None], q[1..])
  {
    var t, rest := q[0], q[1..];
    assert LinkAt(next, q, 0);
    var next' := next[t := None];
    forall i | 0 <= i < |rest| ensures LinkAt(next', rest, i) {
      assert LinkAt(next, q, i + 1);
    }
  }

  // ------------------------------------------------------------------------
  // Task states
  // ------------------------------------------------------------------------

  /** A task other than the idle one is queued exactly when it is runnable, and runs exactly when
      it is the current one. */
  ghost predicate TaskOk(tasks: map<Tid, Task>, q: seq<Tid>, current: Tid, idle: Tid, t: Tid)
    requires t in tasks
  {
    && tasks[t].state != Dead
    && if t == idle then t !in q && tasks[t].state in {Running, Runnable} &&
        (t == current ==> tasks[t].state == Running)
       else (t in q <==> tasks[t].state == Runnable) && (t == current <==> tasks[t].state == Running)
  }

  ghost predicate TasksOk(tasks: map<Tid, Task>, q: seq<Tid>, current: Tid, idle: Tid) {
    && idle in tasks && current in tasks
    && (forall t :: t in q ==> t in tasks)
    && (forall t :: t in tasks ==> TaskOk(tasks, q, current, idle, t))
  }

  ghost predicate Listed(tasks: map<Tid, Task>, all: seq<Tid>) {
    Distinct(all) && forall t :: t in all <==> t in tasks
  }

  /** As TasksOk, but the current task may just have given up running. */
  ghost predicate Leaving(tasks: map<Tid, Task>, q: seq<Tid>, current: Tid, idle: Tid) {
    && idle in tasks && current in tasks
    && (forall t :: t in q ==> t in tasks)
    && (forall t :: t in tasks && t != current ==> TaskOk(tasks, q, current, idle, t))
    && current !in q && tasks[current].state != Runnable && (current == idle ==> tasks[idle].state == Running)
  }

  /** The queue once the running task has been put at its end. */
  function Line(tasks: map<Tid, Task>, q: seq<Tid>, current: Tid, idle: Tid): seq<Tid>
    requires current in tasks
  {
    if current != idle && tasks[current].state == Running then q + [current] else q
  }

  /** The tasks after a switch, a dead predecessor removed. */
  function Switched(tasks: map<Tid, Task>, prev: Tid, idle: Tid, chosen: Tid): map<Tid, Task>
    requires prev in tasks && chosen in tasks
  {
    var yielded := if prev != idle && tasks[prev].state == Running then tasks[prev := tasks[prev].(state := Runnable)]
        else tasks;
    var running := yielded[chosen := yielded[chosen].(state := Running)];
    if prev != chosen && running[prev].state == Dead then running - {prev} else running
  }

  /** One `schedule_locked`: the front of the line runs, or the idle task when there is none; no
      other task changes. */
  ghost predicate Ran(tasks: map<Tid, Task>, q: seq<Tid>, prev: Tid, idle: Tid, tasks': map<Tid, Task>, q': seq<Tid>,
                      current: Tid) {
    && prev in tasks && current in tasks && tasks' == Switched(tasks, prev, idle, current)
    && var line := Line(tasks, q, prev, idle);
       && current == (if line == [] then idle else line[0])
       && q' == (if line == [] then [] else line[1..])
  }

  /** The front of the line runs, everyone else keeps the right state. */
  lemma SwitchOk(tasks: map<Tid, Task>, q: seq<Tid>, prev: Tid, idle: Tid)
    requires Leaving(tasks, q, prev, idle) && Distinct(q)
    ensures var line := Line(tasks, q, prev, idle);
      && Distinct(line)
      && var chosen := if line == [] then idle else line[0];
         && chosen in tasks
         && TasksOk(Switched(tasks, prev, idle, chosen), if line == [] then [] else line[1..], chosen, idle)
  {
    var line := Line(tasks, q, prev, idle);
    var chosen := if line == [] then idle else line[0];
    var rest := if line == [] then [] else line[1..];
    assert forall t :: t in line <==> t in q || (t == prev && prev != idle && tasks[prev].state == Running);
    assert line != [] ==> forall t :: t in line <==> t == chosen || t in rest;
    var after := Switched(tasks, prev, idle, chosen);
    assert chosen !in rest;
    forall t | t in after ensures TaskOk(after, rest, chosen, idle, t) {
      assert t != prev ==> TaskOk(tasks, q, prev, idle, t);
    }
  }

  lemma CutDistinct(l: seq<Tid>, i: nat)
    requires Distinct(l) && i < |l|
    ensures Distinct(l[..i] + l[i + 1..])
  {
  }

  lemma RunningLeaves(tasks: map<Tid, Task>, q: seq<Tid>, current: Tid, idle: Tid)
    requires TasksOk(tasks, q, current, idle)
    ensures Leaving(tasks, q, current, idle)
  {
    assert TaskOk(tasks, q, current, idle, current);
  }

  /** The current task gives up running. */
  lemma StopsLeaves(tasks: map<Tid, Task>, q: seq<Tid>, current: Tid, idle: Tid, x: Task)
    requires TasksOk(tasks, q, current, idle) && current != idle && x.state in {Sleeping, Zombie, Dead}
    ensures Leaving(tasks[current := x], q, current, idle)
  {
    assert TaskOk(tasks, q, current, idle, current);
    forall t | t in tasks && t != current ensures TaskOk(tasks[current := x], q, current, idle, t) {
      assert TaskOk(tasks, q, current, idle, t);
    }
  }

  lemma SameState(tasks: map<Tid, Task>, q: seq<Tid>, current: Tid, idle: Tid, t: Tid, x: Task)
    requires TasksOk(tasks, q, current, idle) && t in tasks && x.state == tasks[t].state
    ensures TasksOk(tasks[t := x], q, current, idle)
  {
    forall u | u in tasks ensures TaskOk(tasks[t := x], q, current, idle, u) {
      assert TaskOk(tasks, q, current, idle, u);
    }
  }

  lemma WakesUp(tasks: map<Tid, Task>, q: seq<Tid>, current: Tid, idle: Tid, t: Tid, x: Task)
    requires TasksOk(tasks, q, current, idle) && t in tasks && t != idle && tasks[t].state == Sleeping
    requires x.state == Runnable
    ensures t !in q && TasksOk(tasks[t := x], q + [t], current, idle)
  {
    assert TaskOk(tasks, q, current, idle, t);
    forall u | u in tasks ensures TaskOk(tasks[t := x], q + [t], current, idle, u) {
      assert TaskOk(tasks, q, current, idle, u);
    }
  }

  /** With `n` more picks, the tasks queued before are picked in their order, and those not yet
      picked are still at the front. */
  ghost predicate Follows(q: seq<Tid>, picked: seq<Tid>, q': seq<Tid>, picked': seq<Tid>, n: nat) {
    && |picked'| == |picked| + n && picked <= picked'
    && (forall j :: 0 <= j < n && j < |q| ==> picked'[|picked| + j] == q[j])
    && (n <= |q| ==> q[n..] <= q')
  }

  predicate Due(x: Task, now: nat) {
    x.state == Sleeping && x.deadline != 0 && x.deadline <= now
  }

  function Timed(x: Task): Task {
    x.(state := Runnable, timedOut := true, deadline := 0)
  }

  /** The tasks of a list whose deadline has come, in list order. */
  ghost function Expired(tasks: map<Tid, Task>, l: seq<Tid>, now: nat): seq<Tid> {
    if l == [] then []
    else
      var last := l[|l| - 1];
      Expired(tasks, l[..|l| - 1], now) + if last in tasks && Due(tasks[last], now) then [last] else []
  }

  lemma ExpiredSplit(tasks: map<Tid, Task>, l: seq<Tid>, i: nat, now: nat)
    requires i < |l|
    ensures Expired(tasks, l[..i + 1], now) ==
            Expired(tasks, l[..i], now) + if l[i] in tasks && Due(tasks[l[i]], now) then [l[i]] else []
  {
    assert l[..i + 1][..i] == l[..i];
  }

  /** The tasks of `done` whose deadline has come are runnable; all others are as before. */
  ghost predicate Swept(before: map<Tid, Task>, after: map<Tid, Task>, done: seq<Tid>, now: nat) {
    && after.Keys == before.Keys
    && forall t :: t in before ==> after[t] == if t in done && Due(before[t], now) then Timed(before[t]) else before[t]
  }

  lemma SweepStart(tasks: map<Tid, Task>, all: seq<Tid>, now: nat)
    ensures Swept(tasks, tasks, all[..0], now) && Expired(tasks, all[..0], now) == []
  {
  }

  lemma SweepStep(before: map<Tid, Task>, after: map<Tid, Task>, all: seq<Tid>, i: nat, now: nat)
    requires Listed(after, all) && i < |all| && Swept(before, after, all[..i], now)
    ensures all[i] in before && all[i] in after && after[all[i]] == before[all[i]]
    ensures Swept(before, if Due(after[all[i]], now) then after[all[i] := Timed(after[all[i]])]
              else after, all[..i + 1], now)
  {
    assert all[..i + 1] == all[..i] + [all[i]];
    assert all[i] in all && all[i] !in all[..i];
  }

  lemma ListedUpdate(tasks: map<Tid, Task>, all: seq<Tid>, t: Tid, x: Task)
    requires Listed(tasks, all) && t in tasks
    ensures Listed(tasks[t := x], all)
  {
  }

  lemma ListedAll(tasks: map<Tid, Task>, all: seq<Tid>, t: Tid)
    requires Listed(tasks, all) && t in tasks
    ensures Distinct(all) && t in all
  {
  }

  lemma ListedRemoved(tasks: map<Tid, Task>, all: seq<Tid>, all': seq<Tid>, t: Tid)
    requires Listed(tasks, all) && Distinct(all') && forall u :: u in all' <==> u in all && u != t
    ensures Listed(tasks - {t}, all')
  {
  }

  lemma IdleAwake(tasks: map<Tid, Task>, q: seq<Tid>, current: Tid, idle: Tid)
    requires TasksOk(tasks, q, current, idle)
    ensures idle in tasks && tasks[idle].state != Sleeping
  {
    assert TaskOk(tasks, q, current, idle, idle);
  }

  const MAX_TASKS: nat := 512

  lemma CurrentKnown(tasks: map<Tid, Task>, q: seq<Tid>, current: Tid, idle: Tid)
    requires TasksOk(tasks, q, current, idle)
    ensures current in tasks
  {
  }

  lemma LeavingKnown(tasks: map<Tid, Task>, q: seq<Tid>, current: Tid, idle: Tid)
    requires Leaving(tasks, q, current, idle)
    ensures current in tasks && current !in q
  {
  }

  lemma Born(tasks: map<Tid, Task>, q: seq<Tid>, current: Tid, idle: Tid, all: seq<Tid>, t: Tid)
    requires TasksOk(tasks, q, current, idle) && Listed(tasks, all) && t !in tasks
    ensures t !in q && TasksOk(tasks[t := Task(Runnable, 0, 0, false)], q + [t], current, idle)
    ensures Listed(tasks[t := Task(Runnable, 0, 0, false)], [t] + all)
  {
    var after := tasks[t := Task(Runnable, 0, 0, false)];
    forall u | u in after ensures TaskOk(after, q + [t], current, idle, u) {
      assert u != t ==> TaskOk(tasks, q, current, idle, u);
    }
  }

  lemma Buried(tasks: map<Tid, Task>, q: seq<Tid>, current: Tid, idle: Tid, t: Tid)
    requires TasksOk(tasks, q, current, idle) && t in tasks && t != idle && tasks[t].state == Zombie
    ensures t != current && TasksOk(tasks - {t}, q, current, idle)
  {
    assert TaskOk(tasks, q, current, idle, t);
    forall u | u in tasks - {t} ensures TaskOk(tasks - {t}, q, current, idle, u) {
      assert TaskOk(tasks, q, current, idle, u);
    }
  }

  datatype Op =
    | DoYield
    | DoSleep(deadline: nat)
    | DoWake(t: Tid)
    | DoTick(now: nat)
    | DoCreate(t: Tid)
    | DoExit(detached: bool)
    | DoReap(t: Tid)

  /** A task with `k` ahead of it: among the picks it is the (k+1)th and none before, or it has not
      been picked and has as many ahead as picks are missing. */
  ghost predicate InTurn(t: Tid, k: nat, picks: seq<Tid>, q: seq<Tid>) {
    if k < |picks| then picks[k] == t && t !in picks[..k]
    else t !in picks && k - |picks| < |q| && q[k - |picks|] == t
  }

  lemma TurnComes(q: seq<Tid>, p: seq<Tid>, q': seq<Tid>, p': seq<Tid>, n: nat, k: nat)
    requires Distinct(q) && Follows(q, p, q', p', n) && k < |q|
    ensures InTurn(q[k], k, p'[|p|..], q')
  {
    var picks := p'[|p|..];
    assert forall j :: 0 <= j < n ==> picks[j] == p'[|p| + j];
    assert forall j :: 0 <= j < n && j < k ==> picks[j] == q[j];
    if n <= k {
      assert q[n..][k - n] == q[k];
    }
  }

  lemma FollowsTrans(q: seq<Tid>, p: seq<Tid>, q1: seq<Tid>, p1: seq<Tid>, q2: seq<Tid>, p2: seq<Tid>, n: nat, m: nat)
    requires Follows(q, p, q1, p1, n) && Follows(q1, p1, q2, p2, m)
    ensures Follows(q, p, q2, p2, n + m)
  {
    if n <= |q| {
      assert forall j :: 0 <= j < |q| - n ==> q1[j] == q[n..][j];
    }
    forall j | 0 <= j < n + m && j < |q| ensures p2[|p| + j] == q[j] {
      if j >= n {
        assert p2[|p1| + (j - n)] == q1[j - n] == q[n..][j - n];
      }
    }
    if n + m <= |q| {
      assert q[n + m..] == q[n..][m..];
    }
  }

  class Scheduler {
    const idle: Tid
    /** SCHED_QUANTUM_TICKS */
    const slice: nat
    var current: Tid
    var head: Option<Tid>
    var tail: Option<Tid>
    var next: map<Tid, Option<Tid>>
    var tasks: map<Tid, Task>
    var all: seq<Tid>
    var quantum: nat
    ghost var queue: seq<Tid>
    ghost var picked: seq<Tid>

    ghost predicate Inv()
      reads this
    {
      Linked(head, tail, next, queue) && TasksOk(tasks, queue, current, idle) && Listed(tasks, all) &&
          0 < quantum <= slice
    }

    /** `sched_init`: the boot task runs, the idle task waits off the queue. */
    constructor (boot: Tid, idle: Tid, slice: nat)
      requires boot != idle && slice > 0
      ensures Inv() && current == boot && this.idle == idle && queue == [] && picked == []
    {
      this.idle := idle;
      this.slice := slice;
      current := boot;
      head, tail, next := None, None, map[];
      tasks := map[boot := Task(Running, 0, 0, false), idle := Task(Runnable, 0, 0, false)];
      all := [idle, boot];
      quantum := slice;
      queue, picked := [], [];
    }

    /** `runq_push`. */
    method Push(t: Tid)
      requires Linked(head, tail, next, queue) && t !in queue
      modifies this`head, this`tail, this`next, this`queue
      ensures Linked(head, tail, next, queue) && queue == old(queue) + [t]
    {
      next := next[t := None];
      if tail.Some? {
        next := next[tail.value := Some(t)];
      } else {
        head := Some(t);
      }
      tail := Some(t);
      queue := queue + [t];
      forall i | 0 <= i < |queue| ensures LinkAt(next, queue, i) {
        assert i < |old(queue)| ==> LinkAt(old(next), old(queue), i);
      }
    }

    /** `runq_pop`. */
    method Pop() returns (r: Option<Tid>)
      requires Linked(head, tail, next, queue)
      modifies this`head, this`tail, this`next, this`queue
      ensures Linked(head, tail, next, queue)
      ensures old(queue) == [] ==> r == None && queue == []
      ensures old(queue) != [] ==> r == Some(old(queue)[0]) && queue == old(queue)[1..]
    {
      r := head;
      if r == None {
        return;
      }
      assert LinkAt(next, queue, 0);
      head := next[r.value];
      if head == None {
        tail := None;
      }
      next := next[r.value := None];
      PopLinked(old(head), old(tail), old(next), queue);
      queue := queue[1..];
    }

    /** `all_tasks_remove`. */
    method Unlist(t: Tid)
      requires Distinct(all) && t in all
      modifies this`all
      ensures Distinct(all) && forall u :: u in all <==> u in old(all) && u != t
    {
      var i := 0;
      while all[i] != t
        invariant 0 <= i < |all| && all == old(all) && t !in all[..i]
        decreases |all| - i
      {
        assert t in all[i..];
        assert all[i..] == [all[i]] + all[i + 1..];
        i := i + 1;
        assert t in all[i..] && |all[i..]| > 0;
      }
      all := all[..i] + all[i + 1..];
      forall u ensures u in all <==> u in old(all) && u != t {
        CutMember(old(all), i, u);
      }
      CutDistinct(old(all), i);
    }

    /** `schedule_locked` with `switch_to` and the reaping that follows a switch. */
    method Schedule()
      requires Linked(head, tail, next, queue) && Leaving(tasks, queue, current, idle) && Listed(tasks, all)
      requires slice > 0
      modifies this
      ensures Inv() && picked == old(picked) + [current]
      ensures Ran(old(tasks), old(queue), old(current), idle, tasks, queue, current)
    {
      hide TaskOk, Linked, TasksOk, Listed, Leaving;
      LinkedDistinct(head, tail, next, queue);
      LeavingKnown(tasks, queue, current, idle);
      SwitchOk(tasks, queue, current, idle);
      var prev := current;
      if tasks[prev].state == Running && prev != idle {
        ListedUpdate(tasks, all, prev, tasks[prev].(state := Runnable));
        tasks := tasks[prev := tasks[prev].(state := Runnable)];
        Push(prev);
      }
      var popped := Pop();
      var chosen := if popped.Some? then popped.value else idle;
      ListedUpdate(tasks, all, chosen, tasks[chosen].(state := Running));
      current := chosen;
      tasks := tasks[chosen := tasks[chosen].(state := Running)];
      quantum := slice;
      picked := picked + [chosen];
      if prev != chosen && tasks[prev].state == Dead {
        ListedAll(tasks, all, prev);
        ghost var before := all;
        Unlist(prev);
        ListedRemoved(tasks, before, all, prev);
        tasks := tasks - {prev};
      }
    }

    /** `sched_yield`. */
    method Yield()
      requires Inv()
      modifies this
      ensures Inv() && Follows(old(queue), old(picked), queue, picked, 1)
      ensures Ran(old(tasks), old(queue), old(current), idle, tasks, queue, current)
    {
      hide TaskOk, Linked;
      RunningLeaves(tasks, queue, current, idle);
      Schedule();
    }

    /** `sched_sleep_current` and its timed form: a credit is consumed instead of sleeping. */
    method Sleep(deadline: nat)
      requires Inv() && current != idle
      modifies this
      ensures Inv()
      ensures old(tasks)[old(current)].credits > 0 ==>
        && current == old(current) && queue == old(queue) && picked == old(picked)
        && tasks == old(tasks)[current := old(tasks)[current].(credits := old(tasks)[current].credits - 1)]
      ensures old(tasks)[old(current)].credits == 0 ==>
        && Follows(old(queue), old(picked), queue, picked, 1)
        && Ran(old(tasks)[old(current) := Task(Sleeping, 0, deadline, false)], old(queue), old(current), idle, tasks,
            queue, current)
    {
      hide TaskOk, Linked;
      var t := current;
      if tasks[t].credits > 0 {
        SameState(tasks, queue, current, idle, t, tasks[t].(credits := tasks[t].credits - 1));
        tasks := tasks[t := tasks[t].(credits := tasks[t].credits - 1)];
        return;
      }
      StopsLeaves(tasks, queue, current, idle, tasks[t].(timedOut := false, deadline := deadline, state := Sleeping));
      tasks := tasks[t := tasks[t].(timedOut := false, deadline := deadline, state := Sleeping)];
      Schedule();
    }

    /** `sched_wake`: a sleeper is queued, anyone else gets a credit. */
    method Wake(t: Tid)
      requires Inv() && t in tasks && t != idle
      modifies this
      ensures Inv() && current == old(current) && picked == old(picked)
      ensures old(tasks)[t].state == Sleeping ==>
        queue == old(queue) + [t] && tasks ==
            old(tasks)[t := old(tasks)[t].(state := Runnable, timedOut := false, deadline := 0)]
      ensures old(tasks)[t].state != Sleeping ==>
        queue == old(queue) && tasks == old(tasks)[t := old(tasks)[t].(credits := old(tasks)[t].credits + 1)]
    {
      hide TaskOk, Linked;
      var x := tasks[t].(credits := tasks[t].credits + 1);
      if x.state == Sleeping {
        x := x.(credits := x.credits - 1, timedOut := false, deadline := 0, state := Runnable);
        WakesUp(tasks, queue, current, idle, t, x);
        tasks := tasks[t := x];
        Push(t);
      } else {
        SameState(tasks, queue, current, idle, t, x);
        tasks := tasks[t := x];
      }
    }

    /** `sched_expire_timed_sleepers`: sleepers whose deadline has come are queued, in list order. */
    method Expire(now: nat)
      requires Inv()
      modifies this`head, this`tail, this`next, this`tasks, this`queue
      ensures Inv() && queue == old(queue) + Expired(old(tasks), all, now)
      ensures Swept(old(tasks), tasks, all, now)
    {
      hide TaskOk, Linked, Swept, Listed, TasksOk, Expired;
      var i := 0;
      SweepStart(tasks, all, now);
      while i < |all|
        invariant 0 <= i <= |all|
        invariant Inv() && queue == old(queue) + Expired(old(tasks), all[..i], now)
        invariant Swept(old(tasks), tasks, all[..i], now)
      {
        var t := all[i];
        ExpiredSplit(old(tasks), all, i, now);
        SweepStep(old(tasks), tasks, all, i, now);
        if Due(tasks[t], now) {
          IdleAwake(tasks, queue, current, idle);
          WakesUp(tasks, queue, current, idle, t, Timed(tasks[t]));
          ListedUpdate(tasks, all, t, Timed(tasks[t]));
          tasks := tasks[t := Timed(tasks[t])];
          Push(t);
        }
        i := i + 1;
      }
      assert all[..i] == all;
    }

    /** `sched_tick`: timed sleepers expire; when the quantum is used up the next task runs. */
    method Tick(now: nat)
      requires Inv()
      modifies this
      ensures Inv()
      ensures old(quantum) > 1 ==> Follows(old(queue), old(picked), queue, picked, 0)
      ensures old(quantum) == 1 ==> Follows(old(queue), old(picked), queue, picked, 1)
      ensures exists swept ::
        && Swept(old(tasks), swept, old(all), now)
        && var q := old(queue) + Expired(old(tasks), old(all), now);
           if old(quantum) > 1 then tasks == swept && queue == q && current == old(current) &&
               quantum == old(quantum) - 1
           else Ran(swept, q, old(current), idle, tasks, queue, current)
    {
      hide TaskOk, Linked, Swept, Listed, TasksOk, Expired, Leaving, Switched;
      Expire(now);
      ghost var swept := tasks;
      if quantum > 1 {
        quantum := quantum - 1;
        return;
      }
      RunningLeaves(tasks, queue, current, idle);
      CurrentKnown(tasks, queue, current, idle);
      Schedule();
    }

    /** The queueing part of creating a task; false when the task table is full. */
    method Create(t: Tid) returns (ok: bool)
      requires Inv() && t !in tasks
      modifies this
      ensures Inv() && picked == old(picked) && current == old(current)
      ensures ok <==> |old(all)| < MAX_TASKS
      ensures if ok then queue == old(queue) + [t] && tasks == old(tasks)[t := Task(Runnable, 0, 0, false)]
              else queue == old(queue) && tasks == old(tasks)
    {
      hide TaskOk, Linked, Listed, TasksOk;
      if |all| >= MAX_TASKS {
        return false;
      }
      Born(tasks, queue, current, idle, all, t);
      tasks := tasks[t := Task(Runnable, 0, 0, false)];
      all := [t] + all;
      Push(t);
      ok := true;
    }

    /** `sched_exit_current` leaves a zombie, `sched_exit_detached` is reaped by its successor. */
    method Exit(detached: bool)
      requires Inv() && current != idle
      modifies this
      ensures Inv() && Follows(old(queue), old(picked), queue, picked, 1)
      ensures Ran(old(tasks)[old(current) := old(tasks)[old(current)].(state := if detached then Dead else Zombie)],
                  old(queue), old(current), idle, tasks, queue, current)
      ensures old(current) in tasks <==> !detached
    {
      hide TaskOk, Linked, Listed, Leaving;
      var x := tasks[current].(state := if detached then Dead else Zombie);
      StopsLeaves(tasks, queue, current, idle, x);
      ListedUpdate(tasks, all, current, x);
      ghost var t := current;
      tasks := tasks[current := x];
      LeavingKnown(tasks, queue, current, idle);
      Schedule();
    }

    /** `sched_reap_task` of a zombie. */
    method Reap(t: Tid)
      requires Inv() && t in tasks && t != idle && tasks[t].state == Zombie
      modifies this
      ensures Inv() && picked == old(picked) && queue == old(queue) && tasks == old(tasks) - {t}
    {
      hide TaskOk, Linked;
      Buried(tasks, queue, current, idle, t);
      tasks := tasks - {t};
      Unlist(t);
    }

    /** One scheduler operation, if the current state allows it; `n` counts calls of
        schedule_locked. */
    method Do(op: Op) returns (n: nat)
      requires Inv()
      modifies this
      ensures Inv() && Follows(old(queue), old(picked), queue, picked, n)
    {
      hide TaskOk, Linked, Swept, Listed, TasksOk, Expired, Leaving, Switched;
      CurrentKnown(tasks, queue, current, idle);
      n := 0;
      match op {
        case DoYield =>
          Yield();
          n := 1;
        case DoSleep(deadline) =>
          if current != idle {
            n := if tasks[current].credits > 0 then 0 else 1;
            Sleep(deadline);
          }
        case DoWake(t) =>
          if t in tasks && t != idle {
            Wake(t);
          }
        case DoTick(now) =>
          n := if quantum > 1 then 0 else 1;
          Tick(now);
        case DoCreate(t) =>
          if t !in tasks {
            var _ := Create(t);
          }
        case DoExit(detached) =>
          if current != idle {
            Exit(detached);
            n := 1;
          }
        case DoReap(t) =>
          if t in tasks && t != idle && tasks[t].state == Zombie {
            Reap(t);
          }
      }
    }

    /** Every run keeps the invariant and is fair: a task with k tasks ahead of it in the queue is
        the one picked by exactly the (k+1)th call of schedule_locked. */
    method Run(ops: seq<Op>) returns (n: nat)
      requires Inv()
      modifies this
      ensures Inv() && Follows(old(queue), old(picked), queue, picked, n)
      ensures forall k :: 0 <= k < |old(queue)| ==> InTurn(old(queue)[k], k, picked[|old(picked)|..], queue)
    {
      LinkedDistinct(head, tail, next, queue);
      hide Linked, TasksOk, Listed;
      n := 0;
      var i := 0;
      while i < |ops|
        invariant 0 <= i <= |ops|
        invariant Inv() && Follows(old(queue), old(picked), queue, picked, n)
      {
        ghost var q, p := queue, picked;
        var m := Do(ops[i]);
        FollowsTrans(old(queue), old(picked), q, p, queue, picked, n, m);
        n := n + m;
        i := i + 1;
      }
      forall k | 0 <= k < |old(queue)| ensures InTurn(old(queue)[k], k, picked[|old(picked)|..], queue) {
        TurnComes(old(queue), old(picked), queue, picked, n, k);
      }
    }
  }
}
