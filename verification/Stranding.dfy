/** msgwait wakes nobody: a task that sleeps until a port is open goes on sleeping while the port's owner waits
    there. */
module Stranding {
  import opened Basics
  import opened Bits
  import opened Lists
  import opened Queues
  import opened Messages
  import opened Ipc
  import opened Rendezvous

  /** A task sleeps until it can send to a port, and the owner of that port sleeps in msgwait on it. */
  ghost predicate Stranded(k: Kernel) { exists e, s :: Strands(k, e, s) }

  ghost predicate Strands(k: Kernel, e: Node, s: Node) {
    && e in k.q.sleeping && s in k.q.sleeping && ContOf(k, e).PollWait?
    && s in k.q.tasks && k.q.tasks[s].cansend == ContOf(k, e).n
  }

  /** The step goes to sleep in msgwait. */
  ghost predicate Polls(k: Kernel, c: Call) {
    match c
    case DoPoll(n) => OwnEmpty(k, PortGet(k.ports, n))
    case Continue => var t := ContOf(k, k.q.current); t.PollWait? && t.i < |k.ports| && k.ports[t.i].queue == []
    case _ => false
  }

  ghost function PolledPort(k: Kernel, c: Call): int
    requires Polls(k, c)
  {
    if c.DoPoll? then c.n else ContOf(k, k.q.current).n
  }

  /** A step that strands a sender, told from the state before it: it goes to sleep in msgwait on a port that somebody
      sleeps until it can send to, and whose deadline does not make it run next. */
  ghost predicate StrandsOne(k: Kernel, c: Call, now: nat)
    requires k.q.current in k.q.tasks
  {
    Polls(k, c) && exists s :: Waits(k, s, PolledPort(k, c)) && !Expires(k, c, now, s)
  }

  ghost predicate Waits(k: Kernel, s: Node, n: int) { s in k.q.sleeping && s in k.q.tasks && k.q.tasks[s].cansend == n }

  // ---- one step ------------------------------------------------------------------------------------------

  /** Who sleeps after a step: old sleepers as they were, or the caller in the call it made. */
  ghost predicate Sleeper(k: Kernel, c: Call, k': Kernel, e: Node) {
    if e in k.q.sleeping then
      && e in k.q.tasks && e in k'.q.tasks && k'.q.tasks[e].cansend == k.q.tasks[e].cansend
      && ContOf(k', e) == ContOf(k, e)
    else
      && e == k.q.current && e in k'.q.tasks
      && (ContOf(k', e).PollWait? ==> Polls(k, c) && ContOf(k', e).n == PolledPort(k, c))
      && (k'.q.tasks[e].cansend != NO_PORT ==> PortGet(k.ports, k'.q.tasks[e].cansend) == |k.ports|)
  }

  /** The same, where the caller blocks after some sleepers were woken. */
  lemma SleeperBlock(k: Kernel, c: Call, k1: Kernel, t: Cont, canrecv: int, cansend: int, now: nat, e: Node)
    requires QueuesOk(k.q) && QueuesOk(k1.q) && k.q.current != k.q.idle && k1.conts == k.conts
    requires k1.q.tasks == k.q.tasks && k1.q.current == k.q.current && k1.q.idle == k.q.idle
    requires forall a :: a in k1.q.sleeping ==> a in k.q.sleeping
    requires t.PollWait? ==> Polls(k, c) && t.n == PolledPort(k, c)
    requires cansend != NO_PORT ==> PortGet(k.ports, cansend) == |k.ports|
    requires k1.q.current in k1.q.tasks && e in BlockIn(k1, t, canrecv, cansend, INFINITE, now).q.sleeping
    ensures Sleeper(k, c, BlockIn(k1, t, canrecv, cansend, INFINITE, now), e)
  {
    CurrentNotAsleep(k.q);
    BlockSleepers(k1, t, canrecv, cansend, INFINITE, now);
  }

  lemma SleeperDeliver(k: Kernel, c: Call, i: nat, m: Message, now: nat, e: Node)
    requires QueuesOk(k.q) && k.q.current in k.q.tasks && k.q.current != k.q.idle && i < |k.ports|
    requires e in Deliver(k, i, m, now).q.sleeping && !Deliver(k, i, m, now).halted
    ensures Sleeper(k, c, Deliver(k, i, m, now), e)
  {
    var r := k.ports[i].receiver;
    WakeSleepers(k.q, r);
    SleeperBlock(k, c, k.(ports := Enqueue(k.ports, i, Stamped(k.q, m)), q := Wake(k.q, r)), SendWait, NO_PORT, NO_PORT,
                 now, e);
  }

  lemma SleeperSend(k: Kernel, c: Call, n: int, m: Message, now: nat, e: Node)
    requires QueuesOk(k.q) && k.q.current in k.q.tasks && k.q.current != k.q.idle
    requires e in SendLoop(k, n, m, now).q.sleeping && !SendLoop(k, n, m, now).halted
    ensures Sleeper(k, c, SendLoop(k, n, m, now), e)
  {
    var i := PortGet(k.ports, n);
    if i < |k.ports| { SleeperDeliver(k, c, i, m, now, e); }
    else { SleeperBlock(k, c, k, SendOpen(n, m), NO_PORT, n, now, e); }
  }

  lemma SleeperTake(k: Kernel, c: Call, i: nat, size: nat, e: Node)
    requires QueuesOk(k.q) && i < |k.ports| && |k.ports[i].queue| > 0
    requires var k1 := k.(conts := k.conts[k.q.current := User]); e in Take(k1, i, size).q.sleeping
    ensures Sleeper(k, c, Take(k.(conts := k.conts[k.q.current := User]), i, size), e)
  {
    CurrentNotAsleep(k.q);
    WakeSleepers(k.q, k.ports[i].queue[0].sender);
  }

  lemma SleeperRecv(k: Kernel, c: Call, i: nat, n: int, size: nat, now: nat, e: Node)
    requires QueuesOk(k.q) && k.q.current in k.q.tasks && k.q.current != k.q.idle && i < |k.ports|
    requires e in RecvLoop(k, i, n, size, now).q.sleeping && !RecvLoop(k, i, n, size, now).halted
    ensures Sleeper(k, c, RecvLoop(k, i, n, size, now), e)
  {
    if |k.ports[i].queue| > 0 {
      SleeperTake(k, c, i, size, e);
    } else {
      WakeWaitingKeeps(k.q, n, 0);
      WakeWaitingOnly(k.q, n, 0);
      SleeperBlock(k, c, k.(q := WakeWaiting(k.q, n, 0)), RecvWait(i, n, size), n, NO_PORT, now, e);
    }
  }

  lemma SleeperPoll(k: Kernel, c: Call, i: nat, n: int, now: nat, e: Node)
    requires QueuesOk(k.q) && k.q.current in k.q.tasks && k.q.current != k.q.idle && i < |k.ports|
    requires |k.ports[i].queue| == 0 ==> Polls(k, c) && PolledPort(k, c) == n
    requires e in PollLoop(k, i, n, now).q.sleeping
    ensures Sleeper(k, c, PollLoop(k, i, n, now), e)
  {
    CurrentNotAsleep(k.q);
    if |k.ports[i].queue| == 0 { SleeperBlock(k, c, k, PollWait(i, n), n, NO_PORT, now, e); }
  }

  lemma SleeperStep(k: Kernel, c: Call, now: nat, e: Node)
    requires KernelOk(k) && Possible(k, c) && k.q.current in k.q.tasks && !Step(k, c, now).halted
    requires e in Step(k, c, now).q.sleeping
    ensures Sleeper(k, c, Step(k, c, now), e)
  {
    CurrentNotAsleep(k.q);
    match c
    case DoSend(n, m) => SleeperSend(k, c, n, m, now, e);
    case DoRecv(n, size) =>
      if PortGet(k.ports, n) < |k.ports| && k.ports[PortGet(k.ports, n)].receiver == Pid(k.q, k.q.current) {
        SleeperRecv(k, c, PortGet(k.ports, n), n, size, now, e);
      }
    case DoPoll(n) =>
      if PortGet(k.ports, n) < |k.ports| && k.ports[PortGet(k.ports, n)].receiver == Pid(k.q, k.q.current) {
        SleeperPoll(k, c, PortGet(k.ports, n), n, now, e);
      }
    case DoSleep(millis) => BlockSleepers(k, Asleep, NO_PORT, NO_PORT, millis, now);
    case DoYield => YieldKeeps(k.q); SleeperSwitch(k, c, Yield(k.q), now, e);
    case DoExit => ExitKeeps(k.q); SleeperSwitch(k, c, Exit(k.q), now, e);
    case Timer => TickKeeps(k.q); SleeperSwitch(k, c, Tick(k.q), now, e);
    case Continue => SleeperContinue(k, now, e);
    case _ =>
  }

  lemma SleeperSwitch(k: Kernel, c: Call, q: Queues, now: nat, e: Node)
    requires QueuesOk(k.q) && Parked(q) && q.sleeping == k.q.sleeping && e in Switched(k, q, now).q.sleeping
    requires forall a :: a in q.tasks ==> a in k.q.tasks && q.tasks[a] == k.q.tasks[a]
    ensures Sleeper(k, c, Switched(k, q, now), e)
  {
    SwitchSleepers(q, now);
    CurrentNotAsleep(SwitchNext(q, now));
  }

  lemma SleeperContinue(k: Kernel, now: nat, e: Node)
    requires KernelOk(k) && Possible(k, Continue) && k.q.current in k.q.tasks && !Step(k, Continue, now).halted
    requires e in Step(k, Continue, now).q.sleeping
    ensures Sleeper(k, Continue, Step(k, Continue, now), e)
  {
    CurrentNotAsleep(k.q);
    assert ContOk(k.ports, Pid(k.q, k.q.current), ContOf(k, k.q.current));
    match ContOf(k, k.q.current)
    case SendOpen(n, m) => SleeperSend(k, Continue, n, m, now, e);
    case RecvWait(i, n, size) => SleeperRecv(k, Continue, i, n, size, now, e);
    case PollWait(i, n) => SleeperPoll(k, Continue, i, n, now, e);
    case _ =>
  }

  /** The port that a sleeper in msgwait waits at is open. */
  lemma PolledOpen(k: Kernel, e: Node)
    requires KernelOk(k) && e in k.q.sleeping && ContOf(k, e).PollWait?
    ensures ContOf(k, e).n >= 0 && PortGet(k.ports, ContOf(k, e).n) < |k.ports|
  {
    CurrentNotAsleep(k.q);
    assert ContOk(k.ports, Pid(k.q, e), ContOf(k, e));
  }

  /** Switching takes off exactly the first sleeper that is due. */
  lemma SwitchTakes(q: Queues, now: nat, s: Node)
    requires Parked(q) && s in q.sleeping
    ensures var i := FirstDue(q, now, 0);
      s in SwitchNext(q, now).sleeping <==> !(i < |q.sleeping| && q.sleeping[i] == s)
  {
    var i := FirstDue(q, now, 0);
    if i < |q.sleeping| {
      DropKeeps(q.sleeping, i);
      NoDupDrop(q.ready, q.sleeping, q.exited, i);
      assert forall e :: e in DropAt(q.sleeping, i) ==> e in q.ready + DropAt(q.sleeping, i) + q.exited;
    }
  }

  /** What a step into msgwait does to an old sleeper and to the caller. */
  lemma PollStep(k: Kernel, c: Call, now: nat, s: Node)
    requires KernelOk(k) && Possible(k, c) && k.q.current in k.q.tasks && Polls(k, c) && s in k.q.sleeping
    ensures s in Step(k, c, now).q.sleeping <==> !Expires(k, c, now, s)
    ensures var k' := Step(k, c, now); var e := k.q.current;
      e in k'.q.sleeping && ContOf(k', e).PollWait? && ContOf(k', e).n == PolledPort(k, c)
  {
    CurrentNotAsleep(k.q);
    var n := PolledPort(k, c);
    var i := if c.DoPoll? then PortGet(k.ports, n) else ContOf(k, k.q.current).i;
    assert Step(k, c, now) == BlockIn(k, PollWait(i, n), n, NO_PORT, INFINITE, now);
    BlockSleepers(k, PollWait(i, n), n, NO_PORT, INFINITE, now);
    var q := Block(k.q, n, NO_PORT, INFINITE, now);
    BlockKeeps(k.q, n, NO_PORT, INFINITE, now);
    assert AtSwitch(k, c, now) == q && Rendezvous.Switches(k, c);
    assert s in q.sleeping;
    SwitchTakes(q, now, s);
    SwitchSleepers(q, now);
    assert q.tasks[k.q.current].deadline == now + INFINITE;
  }

  /** A step strands a sender, where none was stranded before, if and only if it is one that does so. */
  lemma StrandingStep(k: Kernel, c: Call, now: nat)
    requires KernelOk(k) && Possible(k, c) && k.q.current in k.q.tasks && !Step(k, c, now).halted && !Stranded(k)
    ensures Stranded(Step(k, c, now)) <==> StrandsOne(k, c, now)
  {
    var k' := Step(k, c, now);
    CurrentNotAsleep(k.q);
    if StrandsOne(k, c, now) {
      var s :| Waits(k, s, PolledPort(k, c)) && !Expires(k, c, now, s);
      PollStep(k, c, now, s);
      SleeperStep(k, c, now, s);
      assert Strands(k', k.q.current, s);
    }
    if Stranded(k') {
      var e, s :| Strands(k', e, s);
      StrandedBy(k, c, now, e, s);
    }
  }

  lemma NotStrands(k: Kernel, e: Node, s: Node)
    requires !Stranded(k)
    ensures !Strands(k, e, s)
  {}

  lemma StrandedBy(k: Kernel, c: Call, now: nat, e: Node, s: Node)
    requires KernelOk(k) && Possible(k, c) && k.q.current in k.q.tasks && !Step(k, c, now).halted && !Stranded(k)
    requires Strands(Step(k, c, now), e, s)
    ensures StrandsOne(k, c, now)
  {
    var k' := Step(k, c, now);
    StepOk(k, c, now);
    SleeperStep(k, c, now, e);
    SleeperStep(k, c, now, s);
    PolledOpen(k', e);
    if e in k.q.sleeping {
      PolledOpen(k, e);
      NotStrands(k, e, s);
    } else {
      CurrentNotAsleep(k'.q);
      if s in k.q.sleeping {
        PollStep(k, c, now, s);
        assert Waits(k, s, PolledPort(k, c));
      } else {
        OpenBefore(k, c, now);
      }
    }
  }

  /** msgwait sleeps only on a port that is open. */
  lemma OpenBefore(k: Kernel, c: Call, now: nat)
    requires KernelOk(k) && Possible(k, c) && k.q.current in k.q.tasks && Polls(k, c)
    ensures PolledPort(k, c) >= 0 && PortGet(k.ports, PolledPort(k, c)) < |k.ports|
  {
    assert ContOk(k.ports, Pid(k.q, k.q.current), ContOf(k, k.q.current));
  }

  // ---- runs --------------------------------------------------------------------------------------------------

  /** No state of the run has a stranded sender. */
  ghost predicate NeverStranded(k: Kernel, tr: seq<(Call, nat)>)
    decreases |tr|
  {
    && !Stranded(k)
    && (|tr| > 0 ==>
        NeverStranded(if Possible(k, tr[0].0) && k.q.current in k.q.tasks then Step(k, tr[0].0, tr[0].1) else k,
          tr[1..]))
  }

  /** No step of the run strands a sender. */
  ghost predicate StrandsNone(k: Kernel, tr: seq<(Call, nat)>)
    decreases |tr|
  {
    |tr| == 0 ||
    (if Possible(k, tr[0].0) && k.q.current in k.q.tasks
     then !StrandsOne(k, tr[0].0, tr[0].1) && StrandsNone(Step(k, tr[0].0, tr[0].1), tr[1..])
     else StrandsNone(k, tr[1..]))
  }

  lemma {:induction false} StrandingFrom(k: Kernel, tr: seq<(Call, nat)>)
    requires KernelOk(k) && !Stranded(k) && !Run(k, tr).halted
    ensures NeverStranded(k, tr) <==> StrandsNone(k, tr)
    decreases |tr|
  {
    if |tr| > 0 {
      var c, now := tr[0].0, tr[0].1;
      if Possible(k, c) && k.q.current in k.q.tasks {
        var k1 := Step(k, c, now);
        if k1.halted { HaltedStays(k1, tr[1..]); }
        StepOk(k, c, now);
        StrandingStep(k, c, now);
        if !Stranded(k1) { StrandingFrom(k1, tr[1..]); }
      } else {
        StrandingFrom(k, tr[1..]);
      }
    }
  }

  /** Over every run from boot: no sender is ever stranded if and only if no task goes to sleep in msgwait on a port
      that somebody sleeps until it can send to. */
  lemma StrandingRun(k: Kernel, tr: seq<(Call, nat)>)
    requires Booted(k) && !Run(k, tr).halted
    ensures NeverStranded(k, tr) <==> StrandsNone(k, tr)
  {
    StrandingFrom(k, tr);
  }

  // ---- a run that strands a sender ---------------------------------------------------------------------------

  /** Task 1 sleeps until port 0 is open; task 2 runs. */
  function SenderSleeps(m: Message): Kernel {
    var k := Boot();
    k.(q := k.q.(tasks := k.q.tasks[1 := Task(0, NO_PORT, 0, INFINITE)], ready := [], sleeping := [1], current := 2),
       conts := map[1 := SendOpen(0, m)])
  }

  /** Task 2 has opened port 0. */
  function PortOpened(m: Message): Kernel {
    SenderSleeps(m).(ports := [Port(0, 1, [], [], [])], reserved := {0})
  }

  /** Task 1 sends to port 0 before it is open; task 2 opens it and waits there for a message. */
  function Early(m: Message): seq<(Call, nat)> { [(DoSend(0, m), 0), (DoOpen(0), 0), (DoPoll(0), 0)] }

  lemma EarlySend(m: Message)
    requires Checksum(m) == m.checksum
    ensures 1 in Boot().q.tasks && Possible(Boot(), DoSend(0, m)) && Step(Boot(), DoSend(0, m), 0) == SenderSleeps(m)
  {
    var k := Boot();
    assert PortGet(k.ports, 0) == 0 == |k.ports|;
    var q := Block(k.q, NO_PORT, 0, INFINITE, 0);
    assert q.sleeping == [1] && q.ready == [2] && q.ready[1..] == [];
    assert !Due(q.tasks[1], 0);
    assert FirstDue(q, 0, 0) == FirstDue(q, 0, 1) == 1;
    assert Step(k, DoSend(0, m), 0) == BlockIn(k, SendOpen(0, m), NO_PORT, 0, INFINITE, 0);
  }

  lemma ThenOpen(m: Message)
    ensures var k := SenderSleeps(m);
      2 in k.q.tasks && Possible(k, DoOpen(0)) && Step(k, DoOpen(0), 0) == PortOpened(m)
  {}

  lemma ThenPoll(m: Message)
    requires KernelOk(PortOpened(m))
    ensures var k := PortOpened(m);
      2 in k.q.tasks && Possible(k, DoPoll(0)) && !Step(k, DoPoll(0), 0).halted && Stranded(Step(k, DoPoll(0), 0))
  {
    var k := PortOpened(m);
    assert PortAt(k.ports, 0, 0) == 0;
    assert Polls(k, DoPoll(0)) && PolledPort(k, DoPoll(0)) == 0;
    assert Waits(k, 1, 0);
    var q := Block(k.q, 0, NO_PORT, INFINITE, 0);
    assert q.sleeping == [1, 2] && !Due(q.tasks[1], 0) && !Due(q.tasks[2], 0);
    assert FirstDue(q, 0, 0) == FirstDue(q, 0, 1) == FirstDue(q, 0, 2) == 2;
    assert Step(k, DoPoll(0), 0) == BlockIn(k, PollWait(0, 0), 0, NO_PORT, INFINITE, 0);
    PollStep(k, DoPoll(0), 0, 1);
    assert Strands(Step(k, DoPoll(0), 0), 2, 1);
  }

  /** This run from boot strands a sender: both tasks sleep, one until it can send to the port, one until the port has a
      message. */
  lemma StrandedRun(m: Message)
    requires Checksum(m) == m.checksum
    ensures Booted(Boot()) && !Run(Boot(), Early(m)).halted && Stranded(Run(Boot(), Early(m)))
  {
    var t3: seq<(Call, nat)> := [(DoPoll(0), 0)] + [];
    var t2 := [(DoOpen(0), 0)] + t3;
    assert Early(m) == [(DoSend(0, m), 0)] + t2;
    BootBooted();
    EarlySend(m);
    ThenOpen(m);
    StepOk(Boot(), DoSend(0, m), 0);
    StepOk(SenderSleeps(m), DoOpen(0), 0);
    ThenPoll(m);
    RunFirst(Boot(), DoSend(0, m), 0, t2);
    RunFirst(SenderSleeps(m), DoOpen(0), 0, t3);
    RunFirst(PortOpened(m), DoPoll(0), 0, []);
  }
}
