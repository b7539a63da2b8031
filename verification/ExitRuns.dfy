/** A task that has exited, over the runs of the whole kernel. */
module ExitRuns {
  import opened Basics
  import opened Lists
  import opened Queues
  import opened Messages
  import opened Ipc
  import opened Lifecycle

  /** Whoever is alive in q' was alive in q, with the same pid. */
  ghost predicate Survivors(q: Queues, q': Queues) {
    && q'.nextPid == q.nextPid
    && forall e :: e in q'.tasks && e !in q'.exited ==>
         e in q.tasks && e !in q.exited && q'.tasks[e].pid == q.tasks[e].pid
  }

  lemma SurvivorsDead(q: Queues, q': Queues, pid: int)
    requires Survivors(q, q') && Dead(q, pid)
    ensures Dead(q', pid)
  {}

  lemma SwitchSurvivors(q: Queues, b: Queues, now: nat)
    requires Survivors(q, b)
    ensures Survivors(q, SwitchNext(b, now))
  {}

  /** The caller blocks, after some sleepers were woken. */
  lemma BlockSurvivors(q: Queues, r: Queues, canrecv: int, cansend: int, timeout: nat, now: nat)
    requires r.tasks == q.tasks && r.exited == q.exited && r.nextPid == q.nextPid && r.current in r.tasks
    ensures Survivors(q, SwitchNext(Block(r, canrecv, cansend, timeout, now), now))
  {
    SwitchSurvivors(q, Block(r, canrecv, cansend, timeout, now), now);
  }

  lemma SendSurvivors(k: Kernel, n: int, m: Message, now: nat)
    requires k.q.current in k.q.tasks
    ensures Survivors(k.q, SendLoop(k, n, m, now).q)
  {
    var i := PortGet(k.ports, n);
    if i < |k.ports| { BlockSurvivors(k.q, Wake(k.q, k.ports[i].receiver), NO_PORT, NO_PORT, INFINITE, now); }
    else { BlockSurvivors(k.q, k.q, NO_PORT, n, INFINITE, now); }
  }

  lemma RecvSurvivors(k: Kernel, i: nat, n: int, size: nat, now: nat)
    requires QueuesOk(k.q) && i < |k.ports| && k.q.current in k.q.tasks
    ensures Survivors(k.q, RecvLoop(k, i, n, size, now).q)
  {
    if |k.ports[i].queue| == 0 {
      WakeWaitingKeeps(k.q, n, 0);
      BlockSurvivors(k.q, WakeWaiting(k.q, n, 0), n, NO_PORT, INFINITE, now);
    }
  }

  lemma PollSurvivors(k: Kernel, i: nat, n: int, now: nat)
    requires i < |k.ports| && k.q.current in k.q.tasks
    ensures Survivors(k.q, PollLoop(k, i, n, now).q)
  {
    BlockSurvivors(k.q, k.q, n, NO_PORT, INFINITE, now);
  }

  lemma ContinueSurvivors(k: Kernel, now: nat)
    requires QueuesOk(k.q) && k.q.current in k.q.tasks
    ensures Survivors(k.q, Step(k, Continue, now).q)
  {
    match ContOf(k, k.q.current)
    case SendOpen(n, m) => SendSurvivors(k, n, m, now);
    case RecvWait(i, n, size) => if i < |k.ports| { RecvSurvivors(k, i, n, size, now); }
    case PollWait(i, n) => if i < |k.ports| { PollSurvivors(k, i, n, now); }
    case _ =>
  }

  /** A call that forks nothing brings nobody to life. */
  lemma StepSurvivors(k: Kernel, c: Call, now: nat)
    requires KernelOk(k) && Possible(k, c) && k.q.current in k.q.tasks && !c.DoFork?
    ensures Survivors(k.q, Step(k, c, now).q)
  {
    match c
    case DoSend(n, m) => SendSurvivors(k, n, m, now);
    case DoRecv(n, size) =>
      if PortGet(k.ports, n) < |k.ports| { RecvSurvivors(k, PortGet(k.ports, n), n, size, now); }
    case DoPoll(n) => if PortGet(k.ports, n) < |k.ports| { PollSurvivors(k, PortGet(k.ports, n), n, now); }
    case DoOpen(_) =>
    case DoSleep(millis) => BlockSurvivors(k.q, k.q, NO_PORT, NO_PORT, millis, now);
    case DoYield => SwitchSurvivors(k.q, Yield(k.q), now);
    case DoExit => SwitchSurvivors(k.q, Exit(k.q), now);
    case Timer => SwitchSurvivors(k.q, Tick(k.q), now);
    case Continue => ContinueSurvivors(k, now);
  }

  /** The dead stay dead over a step. */
  lemma DeadStep(k: Kernel, c: Call, now: nat, pid: int)
    requires KernelOk(k) && Possible(k, c) && k.q.current in k.q.tasks && Dead(k.q, pid)
    ensures Dead(Step(k, c, now).q, pid)
  {
    if c.DoFork? {
      forall e | e in Fork(k.q, c.child).tasks && e !in k.q.exited ensures Fork(k.q, c.child).tasks[e].pid != pid {}
    } else {
      StepSurvivors(k, c, now);
      SurvivorsDead(k.q, Step(k, c, now).q, pid);
    }
  }

  /** And over every run: their pid never runs again. */
  lemma {:induction false} DeadRun(k: Kernel, tr: seq<(Call, nat)>, pid: int)
    requires KernelOk(k) && Dead(k.q, pid) && !Run(k, tr).halted
    ensures var q := Run(k, tr).q; Dead(q, pid) && q.current in q.tasks && q.tasks[q.current].pid != pid
    decreases |tr|
  {
    if |tr| == 0 {
      CurrentAlive(k.q);
    } else if Possible(k, tr[0].0) && k.q.current in k.q.tasks {
      var k1 := Step(k, tr[0].0, tr[0].1);
      if k1.halted { HaltedStays(k1, tr[1..]); }
      StepOk(k, tr[0].0, tr[0].1);
      DeadStep(k, tr[0].0, tr[0].1, pid);
      DeadRun(k1, tr[1..], pid);
    } else {
      DeadRun(k, tr[1..], pid);
    }
  }

  /** A call of exit: the caller is last on the exited queue, does not run, and is dead. */
  lemma ExitStep(k: Kernel, now: nat)
    requires KernelOk(k) && Possible(k, Call.DoExit) && k.q.current in k.q.tasks
    ensures var q, e := Step(k, Call.DoExit, now).q, k.q.current;
      && e in k.q.tasks && q.exited == k.q.exited + [e] && q.current != e && PlaceOf(q, e) == Exited
      && Dead(q, k.q.tasks[e].pid)
  {
    ExitKills(k.q, now);
  }

  /** Over every run from boot: once a task has called exit, its pid never runs again. */
  lemma ExitRun(k: Kernel, tr: seq<(Call, nat)>, now: nat, after: seq<(Call, nat)>)
    requires Booted(k) && !Run(k, tr).halted && Possible(Run(k, tr), Call.DoExit)
    requires Run(k, tr).q.current in Run(k, tr).q.tasks
    requires !Run(Step(Run(k, tr), Call.DoExit, now), after).halted
    ensures var k1 := Run(k, tr); var q := Run(Step(k1, Call.DoExit, now), after).q;
      && k1.q.current in k1.q.tasks && Dead(q, k1.q.tasks[k1.q.current].pid)
      && q.current in q.tasks && q.tasks[q.current].pid != k1.q.tasks[k1.q.current].pid
  {
    assert KernelOk(k);
    Ipc.RunOk(k, tr);
    var k1 := Run(k, tr);
    StepOk(k1, Call.DoExit, now);
    ExitStep(k1, now);
    if Step(k1, Call.DoExit, now).halted { HaltedStays(Step(k1, Call.DoExit, now), after); }
    DeadRun(Step(k1, Call.DoExit, now), after, k1.q.tasks[k1.q.current].pid);
  }

  /** The timer interrupt frees the exited tasks and no other, if it does not stop the machine. */
  lemma TimerCollects(k: Kernel, now: nat)
    requires KernelOk(k) && Possible(k, Timer) && k.q.current in k.q.tasks && !Step(k, Timer, now).halted
    ensures var q := Step(k, Timer, now).q; q.exited == [] && q.tasks.Keys == k.q.tasks.Keys - Elems(k.q.exited)
  {
    TickCollects(k.q, now);
  }
}
