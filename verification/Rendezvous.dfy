/** Does a sender wait until its message is received? Exactly as long as nothing else wakes it. */
module Rendezvous {
  import opened Basics
  import opened Bits
  import opened Lists
  import opened Queues
  import opened Messages
  import opened Ipc

  ghost predicate HasQueued(ports: seq<Port>, pid: int) { exists i: nat, j: nat :: Queued(ports, i, j, pid) }

  /** Whoever sleeps in msgsend has a message queued. */
  ghost predicate SendersQueued(k: Kernel) { forall e :: InSend(k, e) ==> HasQueued(k.ports, Pid(k.q, e)) }

  // ---- every step keeps it -----------------------------------------------------------------------------------

  lemma TakeKeeps(k: Kernel, i: nat, size: nat, pid: int)
    requires QueuesOk(k.q) && i < |k.ports| && |k.ports[i].queue| > 0 && HasQueued(k.ports, pid)
    requires !Take(k, i, size).halted
    ensures var k' := Take(k, i, size);
      HasQueued(k'.ports, pid) || forall e :: e in k'.q.sleeping ==> Pid(k'.q, e) != pid
  {
    var a: nat, b: nat :| Queued(k.ports, a, b, pid);
    var k' := Take(k, i, size);
    WakeSleepers(k.q, k.ports[i].queue[0].sender);
    if k'.ports == k.ports || a != i {
      assert Queued(k'.ports, a, b, pid);
    } else if b > 0 {
      assert Queued(k'.ports, a, b - 1, pid);
    }
  }

  /** Does the running task go through the loop of msgrecv, and does that find a message? */
  ghost predicate Takes(k: Kernel, c: Call) {
    match c
    case DoRecv(n, _) =>
      var i := PortGet(k.ports, n);
      i < |k.ports| && k.ports[i].receiver == Pid(k.q, k.q.current) && |k.ports[i].queue| > 0
    case Continue =>
      var t := ContOf(k, k.q.current);
      t.RecvWait? && t.i < |k.ports| && |k.ports[t.i].queue| > 0
    case _ => false
  }

  /** A step that does not receive takes nothing from a queue. */
  lemma QueuesGrow(k: Kernel, c: Call, now: nat, a: nat)
    requires Possible(k, c) && k.q.current in k.q.tasks && !Takes(k, c) && a < |k.ports|
    ensures var k' := Step(k, c, now); a < |k'.ports| && k.ports[a].queue <= k'.ports[a].queue
  {}

  lemma StaysQueued(k: Kernel, c: Call, now: nat, pid: int)
    requires KernelOk(k) && Possible(k, c) && k.q.current in k.q.tasks && !Takes(k, c) && HasQueued(k.ports, pid)
    ensures HasQueued(Step(k, c, now).ports, pid)
  {
    var a: nat, b: nat :| Queued(k.ports, a, b, pid);
    QueuesGrow(k, c, now, a);
    assert Queued(Step(k, c, now).ports, a, b, pid);
  }

  /** A step that receives does not switch, and wakes the sender of what it took. */
  lemma TakingStep(k: Kernel, c: Call, now: nat, pid: int)
    requires KernelOk(k) && Possible(k, c) && k.q.current in k.q.tasks && Takes(k, c) && !Step(k, c, now).halted
    ensures Step(k, c, now).q.current == k.q.current
    ensures forall e :: e in Step(k, c, now).q.sleeping ==> e in k.q.sleeping
    ensures var k' := Step(k, c, now);
      HasQueued(k.ports, pid) ==> HasQueued(k'.ports, pid) || forall e :: e in k'.q.sleeping ==> Pid(k'.q, e) != pid
  {
    var t := ContOf(k, k.q.current);
    var i, size := if c.DoRecv? then PortGet(k.ports, c.n) else t.i, if c.DoRecv? then c.size else t.size;
    var k1 := k.(conts := k.conts[k.q.current := User]);
    assert Step(k, c, now) == Take(k1, i, size);
    WakeSleepers(k.q, k.ports[i].queue[0].sender);
    if HasQueued(k.ports, pid) { TakeKeeps(k1, i, size, pid); }
  }

  /** Does the step deliver a message to an open port? */
  ghost function Target(k: Kernel, c: Call): nat {
    match c
    case DoSend(n, m) => if Checksum(m) == m.checksum then PortGet(k.ports, n) else |k.ports|
    case Continue => (match ContOf(k, k.q.current) case SendOpen(n, _) => PortGet(k.ports, n) case _ => |k.ports|)
    case _ => |k.ports|
  }

  ghost function What(k: Kernel, c: Call): Message {
    match c
    case DoSend(_, m) => m
    case _ => match ContOf(k, k.q.current) case SendOpen(_, m) => m case _ => ZEROED
  }

  /** Delivering puts the caller to sleep in msgsend and wakes the receiver. */
  lemma Delivered(k: Kernel, i: nat, m: Message, now: nat)
    requires KernelOk(k) && k.q.current in k.q.tasks && k.q.current != k.q.idle && i < |k.ports|
    requires !Deliver(k, i, m, now).halted
    ensures var k' := Deliver(k, i, m, now);
      && k'.ports == Enqueue(k.ports, i, Stamped(k.q, m)) && HasQueued(k'.ports, Pid(k.q, k.q.current))
      && (forall e :: e in k'.q.sleeping ==>
            e == k.q.current || (e in k.q.sleeping && Pid(k.q, e) != k.ports[i].receiver))
      && (forall e :: e in k.q.tasks ==> e in k'.q.tasks && Pid(k'.q, e) == Pid(k.q, e))
      && (forall e :: e != k.q.current ==> ContOf(k', e) == ContOf(k, e))
  {
    var k' := Deliver(k, i, m, now);
    WakeSleepers(k.q, k.ports[i].receiver);
    var k1 := k.(ports := Enqueue(k.ports, i, Stamped(k.q, m)), q := Wake(k.q, k.ports[i].receiver));
    BlockSleepers(k1, SendWait, NO_PORT, NO_PORT, INFINITE, now);
    assert Queued(k'.ports, i, |k.ports[i].queue|, Pid(k.q, k.q.current));
  }

  lemma DeliveringStep(k: Kernel, c: Call, now: nat)
    requires KernelOk(k) && Possible(k, c) && k.q.current in k.q.tasks && Target(k, c) < |k.ports|
    requires !Step(k, c, now).halted
    ensures var k' := Step(k, c, now); k.q.current != k.q.idle && k' == Deliver(k, Target(k, c), What(k, c), now)
  {}

  /** Whoever is in msgsend after the step was there before, unless the step delivered its message. */
  lemma InSendFrom(k: Kernel, c: Call, now: nat, e: Node)
    requires KernelOk(k) && Possible(k, c) && k.q.current in k.q.tasks && !Step(k, c, now).halted
    requires InSend(Step(k, c, now), e)
    requires Target(k, c) == |k.ports| || e != k.q.current
    ensures InSend(k, e) && Pid(Step(k, c, now).q, e) == Pid(k.q, e)
  {
    CurrentNotAsleep(k.q);
    if Target(k, c) < |k.ports| {
      DeliveringStep(k, c, now);
      Delivered(k, Target(k, c), What(k, c), now);
    } else if Takes(k, c) {
      TakingStep(k, c, now, 0);
    } else {
      QuietlyFrom(k, c, now, e);
    }
  }

  lemma QuietlyFrom(k: Kernel, c: Call, now: nat, e: Node)
    requires KernelOk(k) && Possible(k, c) && k.q.current in k.q.tasks && !Step(k, c, now).halted
    requires InSend(Step(k, c, now), e)
    requires Target(k, c) == |k.ports| && !Takes(k, c)
    ensures InSend(k, e) && Pid(Step(k, c, now).q, e) == Pid(k.q, e)
  {
    CurrentNotAsleep(k.q);
    match c
    case DoSend(n, m) => BlockSleepers(k, SendOpen(n, m), NO_PORT, n, INFINITE, now);
    case DoRecv(n, size) => if Step(k, c, now) != k { RecvFrom(k, PortGet(k.ports, n), n, size, now, e); }
    case DoPoll(n) =>
      if PortGet(k.ports, n) < |k.ports| {
        BlockSleepers(k, PollWait(PortGet(k.ports, n), n), n, NO_PORT, INFINITE, now);
      }
    case DoSleep(millis) => BlockSleepers(k, Asleep, NO_PORT, NO_PORT, millis, now);
    case Continue => ContinueFrom(k, now, e);
    case _ => if c.DoYield? || c.DoExit? || c.Timer? { SwitchFrom(k, c, now, e); }
  }

  lemma SwitchFrom(k: Kernel, c: Call, now: nat, e: Node)
    requires KernelOk(k) && Possible(k, c) && k.q.current in k.q.tasks && !Step(k, c, now).halted
    requires InSend(Step(k, c, now), e) && (c.DoYield? || c.DoExit? || c.Timer?)
    ensures InSend(k, e) && Pid(Step(k, c, now).q, e) == Pid(k.q, e)
  {
    CurrentNotAsleep(k.q);
    if c.DoYield? {
      YieldKeeps(k.q);
      SwitchSleepers(Yield(k.q), now);
    } else if c.DoExit? {
      ExitKeeps(k.q);
      SwitchSleepers(Exit(k.q), now);
    } else {
      TickKeeps(k.q);
      SwitchSleepers(Tick(k.q), now);
    }
  }

  lemma ContinueFrom(k: Kernel, now: nat, e: Node)
    requires KernelOk(k) && Possible(k, Continue) && k.q.current in k.q.tasks && !Step(k, Continue, now).halted
    requires InSend(Step(k, Continue, now), e)
    requires Target(k, Continue) == |k.ports| && !Takes(k, Continue)
    ensures InSend(k, e) && Pid(Step(k, Continue, now).q, e) == Pid(k.q, e)
  {
    CurrentNotAsleep(k.q);
    match ContOf(k, k.q.current) {
      case SendOpen(n, m) => BlockSleepers(k, SendOpen(n, m), NO_PORT, n, INFINITE, now);
      case RecvWait(i, n, size) => if i < |k.ports| { RecvFrom(k, i, n, size, now, e); }
      case PollWait(i, n) => if i < |k.ports| { BlockSleepers(k, PollWait(i, n), n, NO_PORT, INFINITE, now); }
      case _ =>
    }
  }

  lemma RecvFrom(k: Kernel, i: nat, n: int, size: nat, now: nat, e: Node)
    requires KernelOk(k) && k.q.current in k.q.tasks && k.q.current != k.q.idle && i < |k.ports|
    requires |k.ports[i].queue| == 0
    requires InSend(RecvLoop(k, i, n, size, now), e)
    ensures InSend(k, e) && Pid(RecvLoop(k, i, n, size, now).q, e) == Pid(k.q, e)
  {
    CurrentNotAsleep(k.q);
    WakeWaitingKeeps(k.q, n, 0);
    WakeWaitingOnly(k.q, n, 0);
    BlockSleepers(k.(q := WakeWaiting(k.q, n, 0)), RecvWait(i, n, size), n, NO_PORT, INFINITE, now);
  }

  lemma QueuedStep(k: Kernel, c: Call, now: nat)
    requires KernelOk(k) && Possible(k, c) && k.q.current in k.q.tasks && SendersQueued(k) && !Step(k, c, now).halted
    ensures SendersQueued(Step(k, c, now))
  {
    var k' := Step(k, c, now);
    forall e | InSend(k', e) ensures HasQueued(k'.ports, Pid(k'.q, e)) {
      if Target(k, c) < |k.ports| && e == k.q.current {
        DeliveringStep(k, c, now);
        Delivered(k, Target(k, c), What(k, c), now);
      } else {
        InSendFrom(k, c, now, e);
        if Takes(k, c) { TakingStep(k, c, now, Pid(k.q, e)); } else { StaysQueued(k, c, now, Pid(k.q, e)); }
      }
    }
  }

  // ---- when the rendezvous holds ---------------------------------------------------------------------------------

  /** A message sent to a port of e, or e's deadline, wakes it out of msgsend; its message stays queued. */
  lemma Disturbed(k: Kernel, c: Call, now: nat, e: Node)
    requires KernelOk(k) && Possible(k, c) && k.q.current in k.q.tasks && SendersQueued(k) && !Step(k, c, now).halted
    requires var k' := Step(k, c, now); InSend(k, e) && (SentTo(k, k', Pid(k.q, e)) || TimedOut(k, k', e, now))
    ensures !SendersWait(Step(k, c, now))
  {
    var k' := Step(k, c, now);
    CurrentNotAsleep(k.q);
    StepOk(k, c, now);
    SendKept(k, c, now, e);
    assert !Takes(k, c) by {
      if Takes(k, c) { TakingStep(k, c, now, 0); NothingSent(k, c, now); }
    }
    StaysQueued(k, c, now, Pid(k.q, e));
    assert e !in k'.q.sleeping by {
      if SentTo(k, k', Pid(k.q, e)) {
        Addressee(k, c, now, Pid(k.q, e));
        DeliveringStep(k, c, now);
        Delivered(k, Target(k, c), What(k, c), now);
      } else {
        CurrentNotAsleep(k'.q);
      }
    }
    var a: nat, b: nat :| Queued(k'.ports, a, b, Pid(k.q, e));
    assert forall x :: InSend(k', x) ==> Pid(k'.q, x) != Pid(k.q, e);
  }

  lemma NothingSent(k: Kernel, c: Call, now: nat)
    requires KernelOk(k) && Possible(k, c) && k.q.current in k.q.tasks && Takes(k, c) && !Step(k, c, now).halted
    ensures forall pid :: !SentTo(k, Step(k, c, now), pid)
  {}

  lemma Addressee(k: Kernel, c: Call, now: nat, pid: int)
    requires KernelOk(k) && Possible(k, c) && k.q.current in k.q.tasks && !Step(k, c, now).halted
    requires SentTo(k, Step(k, c, now), pid)
    ensures Target(k, c) < |k.ports| && k.ports[Target(k, c)].receiver == pid
  {}

  // ---- the same, before the step --------------------------------------------------------------------------------

  /** Does the call end in a switch to another task? */
  ghost predicate Switches(k: Kernel, c: Call) {
    match c
    case DoSend(_, m) => Checksum(m) == m.checksum
    case DoRecv(n, _) => OwnEmpty(k, PortGet(k.ports, n))
    case DoPoll(n) => OwnEmpty(k, PortGet(k.ports, n))
    case DoOpen(_) => false
    case DoFork(_) => false
    case Continue =>
      (match ContOf(k, k.q.current)
       case SendOpen(_, _) => true
       case RecvWait(i, _, _) => i < |k.ports| && k.ports[i].queue == []
       case PollWait(i, _) => i < |k.ports| && k.ports[i].queue == []
       case _ => false)
    case _ => true
  }

  /** The running task owns port i, and its queue is empty. */
  ghost predicate OwnEmpty(k: Kernel, i: nat) {
    i < |k.ports| && k.ports[i].receiver == Pid(k.q, k.q.current) && k.ports[i].queue == []
  }

  ghost function SendAt(k: Kernel, n: int, now: nat): Queues
    requires k.q.current in k.q.tasks
  {
    var i := PortGet(k.ports, n);
    if i < |k.ports| then Block(Wake(k.q, k.ports[i].receiver), NO_PORT, NO_PORT, INFINITE, now)
    else Block(k.q, NO_PORT, n, INFINITE, now)
  }

  ghost function RecvAt(k: Kernel, n: int, now: nat): Queues
    requires k.q.current in k.q.tasks
  {
    WakeWaitingTasks(k.q, n, 0);
    Block(WakeWaiting(k.q, n, 0), n, NO_PORT, INFINITE, now)
  }

  /** The queues when the call has done all but switch. */
  ghost function AtSwitch(k: Kernel, c: Call, now: nat): Queues
    requires k.q.current in k.q.tasks
  {
    match c
    case DoSend(n, _) => SendAt(k, n, now)
    case DoRecv(n, _) => RecvAt(k, n, now)
    case DoPoll(n) => Block(k.q, n, NO_PORT, INFINITE, now)
    case DoSleep(millis) => Block(k.q, NO_PORT, NO_PORT, millis, now)
    case DoYield => Yield(k.q)
    case DoExit => Exit(k.q)
    case Timer => Tick(k.q)
    case Continue =>
      (match ContOf(k, k.q.current)
       case SendOpen(n, _) => SendAt(k, n, now)
       case RecvWait(_, n, _) => RecvAt(k, n, now)
       case PollWait(_, n) => Block(k.q, n, NO_PORT, INFINITE, now)
       case _ => k.q)
    case _ => k.q
  }

  lemma StepQueue(k: Kernel, c: Call, now: nat)
    requires Possible(k, c) && k.q.current in k.q.tasks && !Step(k, c, now).halted
    ensures Switches(k, c) ==> Step(k, c, now).q == SwitchNext(AtSwitch(k, c, now), now)
    ensures !Switches(k, c) ==> Step(k, c, now).q.current == k.q.current
  {}

  /** The call sends to a port of e. */
  ghost predicate Addresses(k: Kernel, c: Call, e: Node) {
    Target(k, c) < |k.ports| && k.ports[Target(k, c)].receiver == Pid(k.q, e)
  }

  /** The call ends in a switch, and e is the first sleeper whose deadline has passed. */
  ghost predicate Expires(k: Kernel, c: Call, now: nat, e: Node)
    requires k.q.current in k.q.tasks
  {
    Switches(k, c) && var q := AtSwitch(k, c, now); var i := FirstDue(q, now, 0); i < |q.sleeping| && q.sleeping[i] == e
  }

  /** The call sends to no port of a task that sleeps in msgsend, and none of these is due to run by its deadline. */
  ghost predicate Quiet(k: Kernel, c: Call, now: nat)
    requires k.q.current in k.q.tasks
  {
    forall e :: InSend(k, e) ==> !Addresses(k, c, e) && !Expires(k, c, now, e)
  }

  /** What can be told before the step is what happens in it. */
  lemma QuietIs(k: Kernel, c: Call, now: nat)
    requires KernelOk(k) && Possible(k, c) && k.q.current in k.q.tasks && !Step(k, c, now).halted
    ensures Quiet(k, c, now) <==> Undisturbed(k, Step(k, c, now), now)
  {
    var k' := Step(k, c, now);
    StepQueue(k, c, now);
    forall e | InSend(k, e)
      ensures Addresses(k, c, e) <==> SentTo(k, k', Pid(k.q, e))
      ensures !Addresses(k, c, e) ==> (Expires(k, c, now, e) <==> TimedOut(k, k', e, now))
    {
      if SentTo(k, k', Pid(k.q, e)) { Addressee(k, c, now, Pid(k.q, e)); }
      if Addresses(k, c, e) { Sent(k, c, now); } else { Expiry(k, c, now, e); }
    }
  }

  /** After a step, every queued message has its sender waiting for it if and only if the call was quiet. */
  lemma RendezvousStep(k: Kernel, c: Call, now: nat)
    requires KernelOk(k) && Possible(k, c) && k.q.current in k.q.tasks && SendersWait(k) && SendersQueued(k)
    requires !Step(k, c, now).halted
    ensures SendersWait(Step(k, c, now)) <==> Quiet(k, c, now)
  {
    var k' := Step(k, c, now);
    QuietIs(k, c, now);
    if Undisturbed(k, k', now) {
      QuietStep(k, c, now);
    } else {
      var e :| InSend(k, e) && (SentTo(k, k', Pid(k.q, e)) || TimedOut(k, k', e, now));
      Disturbed(k, c, now, e);
    }
  }

  /** At the switch, a sleeping sender that is not sent to is still asleep, with its deadline. */
  lemma StillAsleep(k: Kernel, c: Call, now: nat, e: Node)
    requires KernelOk(k) && Possible(k, c) && k.q.current in k.q.tasks && !Step(k, c, now).halted
    requires Switches(k, c) && InSend(k, e) && !Addresses(k, c, e)
    ensures var q := AtSwitch(k, c, now);
      Parked(q) && e in q.sleeping && e in q.tasks && q.tasks[e] == k.q.tasks[e] && e !in q.ready
  {
    CurrentNotAsleep(k.q);
    assert SleepOk(k.ports, k.q.tasks[e], SendWait);
    match c
    case DoSend(n, m) => AsleepAtSend(k, n, now, e);
    case DoRecv(n, size) => AsleepAtRecv(k, n, now, e);
    case DoPoll(n) => BlockedAsleep(k.q, n, NO_PORT, INFINITE, now, e);
    case DoSleep(millis) => BlockedAsleep(k.q, NO_PORT, NO_PORT, millis, now, e);
    case DoYield => YieldKeeps(k.q); AsleepOnly(Yield(k.q), e);
    case DoExit => ExitKeeps(k.q); AsleepOnly(Exit(k.q), e);
    case Timer => TickKeeps(k.q); SleeperNotExited(k.q, e); AsleepOnly(Tick(k.q), e);
    case Continue =>
      match ContOf(k, k.q.current) {
        case SendOpen(n, m) => AsleepAtSend(k, n, now, e);
        case RecvWait(i, n, size) => AsleepAtRecv(k, n, now, e);
        case PollWait(i, n) => BlockedAsleep(k.q, n, NO_PORT, INFINITE, now, e);
        case _ =>
      }
    case _ =>
  }

  lemma AsleepOnly(q: Queues, e: Node)
    requires Parked(q) && e in q.sleeping
    ensures e !in q.ready
  {
    var i :| 0 <= i < |q.sleeping| && q.sleeping[i] == e;
    assert All(q)[|q.ready| + i] == e;
    forall j | 0 <= j < |q.ready| ensures q.ready[j] != e { assert All(q)[j] == q.ready[j]; }
  }

  lemma BlockedAsleep(q: Queues, canrecv: int, cansend: int, timeout: nat, now: nat, e: Node)
    requires QueuesOk(q) && q.current != q.idle && q.current in q.tasks && e in q.sleeping && e in q.tasks
    ensures var q1 := Block(q, canrecv, cansend, timeout, now);
      Parked(q1) && e in q1.sleeping && e in q1.tasks && q1.tasks[e] == q.tasks[e] && e !in q1.ready
  {
    CurrentNotAsleep(q);
    BlockKeeps(q, canrecv, cansend, timeout, now);
    AsleepOnly(Block(q, canrecv, cansend, timeout, now), e);
  }

  lemma AsleepAtSend(k: Kernel, n: int, now: nat, e: Node)
    requires KernelOk(k) && k.q.current in k.q.tasks && k.q.current != k.q.idle && InSend(k, e)
    requires var i := PortGet(k.ports, n); i < |k.ports| ==> k.ports[i].receiver != Pid(k.q, e)
    ensures var q := SendAt(k, n, now);
      Parked(q) && e in q.sleeping && e in q.tasks && q.tasks[e] == k.q.tasks[e] && e !in q.ready
  {
    var i := PortGet(k.ports, n);
    if i < |k.ports| {
      WakeSleepers(k.q, k.ports[i].receiver);
      BlockedAsleep(Wake(k.q, k.ports[i].receiver), NO_PORT, NO_PORT, INFINITE, now, e);
    } else {
      BlockedAsleep(k.q, NO_PORT, n, INFINITE, now, e);
    }
  }

  lemma AsleepAtRecv(k: Kernel, n: int, now: nat, e: Node)
    requires KernelOk(k) && k.q.current in k.q.tasks && k.q.current != k.q.idle && InSend(k, e) && n >= 0
    ensures var q := RecvAt(k, n, now);
      Parked(q) && e in q.sleeping && e in q.tasks && q.tasks[e] == k.q.tasks[e] && e !in q.ready
  {
    assert SleepOk(k.ports, k.q.tasks[e], SendWait);
    WakeWaitingKeeps(k.q, n, 0);
    WakeWaitingOnly(k.q, n, 0);
    BlockedAsleep(WakeWaiting(k.q, n, 0), n, NO_PORT, INFINITE, now, e);
  }

  lemma Sent(k: Kernel, c: Call, now: nat)
    requires KernelOk(k) && Possible(k, c) && k.q.current in k.q.tasks && !Step(k, c, now).halted
    requires Target(k, c) < |k.ports|
    ensures SentTo(k, Step(k, c, now), k.ports[Target(k, c)].receiver)
  {
    DeliveringStep(k, c, now);
    Delivered(k, Target(k, c), What(k, c), now);
    var k', i := Step(k, c, now), Target(k, c);
    assert |k'.ports[i].sent| == |k.ports[i].sent| + 1;
  }

  /** A sleeping sender that is not sent to runs next exactly if it is the first one due. */
  lemma Expiry(k: Kernel, c: Call, now: nat, e: Node)
    requires KernelOk(k) && Possible(k, c) && k.q.current in k.q.tasks && !Step(k, c, now).halted && InSend(k, e)
    requires !Addresses(k, c, e)
    ensures Expires(k, c, now, e) <==> TimedOut(k, Step(k, c, now), e, now)
  {
    CurrentNotAsleep(k.q);
    StepQueue(k, c, now);
    if Switches(k, c) {
      var q := AtSwitch(k, c, now);
      StillAsleep(k, c, now, e);
      DueKept(q, now, 0);
      SwitchKeeps(q, now);
    }
  }

  /** In every state of the run, every queued message has its sender waiting for it. */
  ghost predicate AlwaysWait(k: Kernel, tr: seq<(Call, nat)>)
    decreases |tr|
  {
    && SendersWait(k)
    && (|tr| > 0 ==>
        AlwaysWait(if Possible(k, tr[0].0) && k.q.current in k.q.tasks then Step(k, tr[0].0, tr[0].1) else k, tr[1..]))
  }

  /** Every call of the run is quiet. */
  ghost predicate QuietRun(k: Kernel, tr: seq<(Call, nat)>)
    decreases |tr|
  {
    |tr| == 0 ||
    (if Possible(k, tr[0].0) && k.q.current in k.q.tasks
     then Quiet(k, tr[0].0, tr[0].1) && QuietRun(Step(k, tr[0].0, tr[0].1), tr[1..])
     else QuietRun(k, tr[1..]))
  }

  lemma {:induction false} RendezvousFrom(k: Kernel, tr: seq<(Call, nat)>)
    requires KernelOk(k) && SendersWait(k) && SendersQueued(k) && !Run(k, tr).halted
    ensures AlwaysWait(k, tr) <==> QuietRun(k, tr)
    decreases |tr|
  {
    if |tr| > 0 {
      var c, now := tr[0].0, tr[0].1;
      if Possible(k, c) && k.q.current in k.q.tasks {
        var k1 := Step(k, c, now);
        if k1.halted { HaltedStays(k1, tr[1..]); }
        StepOk(k, c, now);
        QueuedStep(k, c, now);
        RendezvousStep(k, c, now);
        if SendersWait(k1) { RendezvousFrom(k1, tr[1..]); }
      } else {
        RendezvousFrom(k, tr[1..]);
      }
    }
  }

  /** Over every run from boot: each sender waits for its message to be received, and so has at most one queued, if
      and only if no step wakes a sender by a message to one of its own ports or by its deadline. */
  lemma RendezvousRun(k: Kernel, tr: seq<(Call, nat)>)
    requires Booted(k) && !Run(k, tr).halted
    ensures AlwaysWait(k, tr) <==> QuietRun(k, tr)
  {
    RendezvousFrom(k, tr);
  }

  // ---- a run that breaks it ----------------------------------------------------------------------------------------

  /** Three tasks at boot: 1 runs, 2 is ready, 3 is the idle task. */
  function Boot(): Kernel {
    var tasks: map<Node, Task> := map[1 := Task(0, 0, 0, 0), 2 := Task(1, 0, 0, 0), 3 := Task(2, 0, 0, 0)];
    Kernel(Queues(tasks, [2], [], [], 1, 3, 3), map[], [], {}, 32, false)
  }

  /** Task 1 has opened port 0, and task 2, now running, port 1. */
  function BothOpen(): Kernel {
    var k := Boot();
    k.(q := k.q.(ready := [1], current := 2), ports := [Port(0, 0, [], [], []), Port(1, 1, [], [], [])],
       reserved := {0, 1})
  }

  /** Task 2 has sent m to port 0 and waits; task 1 runs. */
  function OneWaits(m: Message): Kernel {
    var k, s := BothOpen(), Seal(m.(sender := 1));
    k.(q := k.q.(tasks := k.q.tasks[2 := Task(1, NO_PORT, NO_PORT, INFINITE)], ready := [], sleeping := [2],
                 current := 1),
       conts := map[2 := SendWait], ports := [Port(0, 0, [s], [s], []), Port(1, 1, [], [], [])])
  }

  /** Two tasks open a port each, one sends to the other, and that one sends back instead of receiving. */
  function Exchange(m: Message): seq<(Call, nat)> {
    [(DoOpen(0), 0), (Call.DoYield, 0), (DoOpen(1), 0), (DoSend(0, m), 0), (DoSend(1, m), 0)]
  }

  lemma BootBooted()
    ensures Booted(Boot())
  {
    var q := Boot().q;
    assert All(q) == [2] && Elems(All(q)) == {2} && q.tasks.Keys == {1, 2, 3};
  }

  /** The first call of a run. */
  lemma RunFirst(k: Kernel, c: Call, now: nat, rest: seq<(Call, nat)>)
    requires Possible(k, c) && k.q.current in k.q.tasks
    ensures Run(k, [(c, now)] + rest) == Run(Step(k, c, now), rest)
    ensures QuietRun(k, [(c, now)] + rest) <==> Quiet(k, c, now) && QuietRun(Step(k, c, now), rest)
  {
    assert ([(c, now)] + rest)[1..] == rest;
  }

  function OneOpen(): Kernel { Boot().(ports := [Port(0, 0, [], [], [])], reserved := {0}) }

  lemma BootSteps()
    ensures 1 in Boot().q.tasks && Possible(Boot(), DoOpen(0)) && Step(Boot(), DoOpen(0), 0) == OneOpen()
    ensures Possible(OneOpen(), Call.DoYield)
    ensures Step(OneOpen(), Call.DoYield, 0) == OneOpen().(q := OneOpen().q.(ready := [1], current := 2))
  {
    assert Yield(OneOpen().q).ready == [2, 1] && [2, 1][1..] == [1];
  }

  lemma SecondOpens()
    ensures var k := OneOpen().(q := OneOpen().q.(ready := [1], current := 2));
      2 in k.q.tasks && Possible(k, DoOpen(1)) && Step(k, DoOpen(1), 0) == BothOpen()
  {}

  lemma FirstSend(m: Message)
    requires Checksum(m) == m.checksum
    ensures 2 in BothOpen().q.tasks && Possible(BothOpen(), DoSend(0, m))
    ensures Step(BothOpen(), DoSend(0, m), 0) == OneWaits(m)
  {
    var k := BothOpen();
    assert k.q.tasks[1].pid == 0 && Alive(k.q, 0);
    assert Wake(k.q, 0) == k.q;
    var q := Block(k.q, NO_PORT, NO_PORT, INFINITE, 0);
    assert q.sleeping == [2] && q.ready == [1] && q.ready[1..] == [];
    assert !Due(q.tasks[2], 0);
    assert FirstDue(q, 0, 0) == FirstDue(q, 0, 1) == 1;
    assert Step(k, DoSend(0, m), 0) == Deliver(k, 0, m, 0);
    var s := Stamped(k.q, m);
    assert k.ports[0].queue + [s] == [s] && k.ports[0].sent + [s] == [s];
    assert Enqueue(k.ports, 0, s) == [Port(0, 0, [s], [s], []), Port(1, 1, [], [], [])];
  }

  lemma SecondSend(m: Message)
    requires Checksum(m) == m.checksum
    ensures var k, c := OneWaits(m), DoSend(1, m);
      k.q.current in k.q.tasks && Possible(k, c) && !Step(k, c, 0).halted && !Quiet(k, c, 0)
  {
    var k, c := OneWaits(m), DoSend(1, m);
    assert PortAt(k.ports, 1, 0) == PortAt(k.ports, 1, 1) == 1;
    assert k.q.tasks[2].pid == 1 && Alive(k.q, 1);
    assert InSend(k, 2) && Addresses(k, c, 2);
    assert Step(k, c, 0) == Deliver(k, 1, m, 0);
  }

  /** This run from boot breaks the rendezvous: a sender wakes with its message still queued. */
  lemma BrokenRendezvous(m: Message)
    requires Checksum(m) == m.checksum
    ensures Booted(Boot()) && !Run(Boot(), Exchange(m)).halted && !AlwaysWait(Boot(), Exchange(m))
  {
    var t5: seq<(Call, nat)> := [(DoSend(1, m), 0)] + [];
    var t4, k2 := [(DoSend(0, m), 0)] + t5, OneOpen().(q := OneOpen().q.(ready := [1], current := 2));
    var t3 := [(DoOpen(1), 0)] + t4;
    var t2 := [(Call.DoYield, 0)] + t3;
    assert Exchange(m) == [(DoOpen(0), 0)] + t2;
    BootBooted();
    BootSteps();
    SecondOpens();
    FirstSend(m);
    SecondSend(m);
    RunFirst(Boot(), DoOpen(0), 0, t2);
    RunFirst(OneOpen(), Call.DoYield, 0, t3);
    RunFirst(k2, DoOpen(1), 0, t4);
    RunFirst(BothOpen(), DoSend(0, m), 0, t5);
    RunFirst(OneWaits(m), DoSend(1, m), 0, []);
    RendezvousRun(Boot(), Exchange(m));
  }

  // ---- sleep ---------------------------------------------------------------------------------------------------

  lemma BlockedFor(k: Kernel, millis: nat, now: nat)
    requires QueuesOk(k.q) && k.q.current in k.q.tasks && k.q.current != k.q.idle
    ensures var k' := BlockIn(k, Asleep, NO_PORT, NO_PORT, millis, now); var e := k.q.current;
      && e in k'.q.tasks && (k'.q.tasks[e].deadline != 0 <==> millis == INFINITE)
      && (millis != INFINITE ==> e in k'.q.sleeping && ContOf(k', e) == Asleep)
  {
    var q1 := Block(k.q, NO_PORT, NO_PORT, millis, now);
    BlockKeeps(k.q, NO_PORT, NO_PORT, millis, now);
    SwitchSleepers(q1, now);
    assert k.q.current in q1.sleeping;
  }

  /** sleep sets a deadline if and only if it is asked to sleep forever: the test in task_block is the wrong way
      round. */
  lemma SleepDeadline(k: Kernel, millis: nat, now: nat)
    requires KernelOk(k) && k.q.current in k.q.tasks && k.q.current != k.q.idle
    ensures var k' := Step(k, DoSleep(millis), now); var e := k.q.current;
      && e in k'.q.tasks && (k'.q.tasks[e].deadline != 0 <==> millis == INFINITE)
      && (millis != INFINITE ==> e in k'.q.sleeping && ContOf(k', e) == Asleep)
  {
    BlockedFor(k, millis, now);
  }

  /** So no passing of time wakes a task that asked to sleep for a while. */
  lemma SleepsOn(k: Kernel, c: Call, now: nat, e: Node)
    requires KernelOk(k) && Possible(k, c) && k.q.current in k.q.tasks
    requires e in k.q.sleeping && e in k.q.tasks && ContOf(k, e) == Asleep && k.q.tasks[e].deadline == 0
    ensures var k' := Step(k, c, now);
      k'.halted || e in k'.q.sleeping || Received(k, k', Pid(k.q, e)) || SentTo(k, k', Pid(k.q, e))
  {
    SenderWakes(k, c, now, e);
  }
}
