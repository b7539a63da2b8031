/** Message passing as a transition system: system calls run without interruption up to the point where they block,
    and a task that blocked in one continues it when it runs again. */
module Ipc {
  import opened Basics
  import opened Bits
  import opened Lists
  import opened Queues
  import opened Messages

  /** A port; sent and got record what was ever queued and what was ever delivered. */
  datatype Port = Port(number: int, receiver: int, queue: seq<Message>, sent: seq<Message>, got: seq<Message>)

  /** Where a task is: in user code, or blocked inside a system call. The port of a receiver is an index of the list. */
  datatype Cont =
    | User | SendOpen(n: int, m: Message) | SendWait
    | RecvWait(i: nat, n: int, size: nat) | PollWait(i: nat, n: int) | Asleep

  datatype Kernel = Kernel(q: Queues, conts: map<Node, Cont>, ports: seq<Port>, reserved: set<int>, nextPort: int,
                           halted: bool)

  function Pid(q: Queues, e: Node): int { if e in q.tasks then q.tasks[e].pid else -1 }

  function ContOf(k: Kernel, e: Node): Cont { if e in k.conts then k.conts[e] else User }

  /** port_get: the first port with this number, from index i on; the length if there is none. */
  function PortAt(ports: seq<Port>, n: int, i: nat): (r: nat)
    requires i <= |ports|
    ensures i <= r <= |ports| && (r < |ports| ==> ports[r].number == n)
    decreases |ports| - i
  {
    if i == |ports| || ports[i].number == n then i else PortAt(ports, n, i + 1)
  }

  function PortGet(ports: seq<Port>, n: int): (r: nat)
    ensures r <= |ports| && (r < |ports| ==> ports[r].number == n && n >= 0)
  {
    if n < 0 then |ports| else PortAt(ports, n, 0)
  }

  /** From the queues q the next task runs, unless the scheduler's check of the queues stops the machine. */
  ghost function Switched(k: Kernel, q: Queues, now: nat): Kernel {
    k.(q := SwitchNext(q, now), halted := k.halted || Clash(SwitchNext(q, now)))
  }

  /** The running task blocks with continuation c, and another task runs. */
  ghost function BlockIn(k: Kernel, c: Cont, canrecv: int, cansend: int, timeout: nat, now: nat): Kernel
    requires k.q.current in k.q.tasks
  {
    Switched(k.(conts := k.conts[k.q.current := c]), Block(k.q, canrecv, cansend, timeout, now), now)
  }

  // ---- msgsend -------------------------------------------------------------------------------------------

  /** The kernel's copy of a message carries the true sender and a checksum to match. */
  function Stamped(q: Queues, m: Message): Message { Seal(m.(sender := Pid(q, q.current))) }

  function Enqueue(ports: seq<Port>, i: nat, m: Message): seq<Port>
    requires i < |ports|
  {
    ports[i := ports[i].(queue := ports[i].queue + [m], sent := ports[i].sent + [m])]
  }

  /** The port is open: queue the message, wake the receiver, wait to be woken. */
  ghost function Deliver(k: Kernel, i: nat, m: Message, now: nat): Kernel
    requires i < |k.ports| && k.q.current in k.q.tasks
  {
    var r := k.ports[i].receiver;
    if !Alive(k.q, r) then k.(halted := true)
    else
      var k1 := k.(ports := Enqueue(k.ports, i, Stamped(k.q, m)), q := Wake(k.q, r));
      BlockIn(k1, SendWait, NO_PORT, NO_PORT, INFINITE, now)
  }

  /** The loop that waits for the port to be open. */
  ghost function SendLoop(k: Kernel, n: int, m: Message, now: nat): Kernel
    requires k.q.current in k.q.tasks
  {
    var i := PortGet(k.ports, n);
    if i < |k.ports| then Deliver(k, i, m, now)
    else BlockIn(k, SendOpen(n, m), NO_PORT, n, INFINITE, now)
  }

  /** The checksum of the caller's message is asserted first. */
  ghost function Send(k: Kernel, n: int, m: Message, now: nat): Kernel
    requires k.q.current in k.q.tasks
  {
    if Checksum(m) != m.checksum then k.(halted := true) else SendLoop(k, n, m, now)
  }

  // ---- msgrecv -------------------------------------------------------------------------------------------

  /** A queued message is handed over when the buffer is large enough, and its sender is woken. */
  ghost function Take(k: Kernel, i: nat, size: nat): Kernel
    requires i < |k.ports| && |k.ports[i].queue| > 0
  {
    var p := k.ports[i];
    var m := p.queue[0];
    if Checksum(m) != m.checksum then k.(halted := true)
    else if size < HEADER_SIZE + |m.data| then k
    else if !Alive(k.q, m.sender) then k.(halted := true)
    else k.(ports := k.ports[i := p.(queue := p.queue[1..], got := p.got + [m])], q := Wake(k.q, m.sender))
  }

  /** The loop of msgrecv: with an empty queue, wake those waiting to send here and block. */
  ghost function RecvLoop(k: Kernel, i: nat, n: int, size: nat, now: nat): Kernel
    requires i < |k.ports| && k.q.current in k.q.tasks
  {
    if |k.ports[i].queue| > 0 then Take(k.(conts := k.conts[k.q.current := User]), i, size)
    else
      WakeWaitingTasks(k.q, n, 0);
      BlockIn(k.(q := WakeWaiting(k.q, n, 0)), RecvWait(i, n, size), n, NO_PORT, INFINITE, now)
  }

  ghost function Recv(k: Kernel, n: int, size: nat, now: nat): Kernel
    requires k.q.current in k.q.tasks
  {
    var i := PortGet(k.ports, n);
    if i == |k.ports| || k.ports[i].receiver != Pid(k.q, k.q.current) then k else RecvLoop(k, i, n, size, now)
  }

  /** The loop of msgwait. */
  ghost function PollLoop(k: Kernel, i: nat, n: int, now: nat): Kernel
    requires i < |k.ports| && k.q.current in k.q.tasks
  {
    if |k.ports[i].queue| > 0 then k.(conts := k.conts[k.q.current := User])
    else BlockIn(k, PollWait(i, n), n, NO_PORT, INFINITE, now)
  }

  ghost function Poll(k: Kernel, n: int, now: nat): Kernel
    requires k.q.current in k.q.tasks
  {
    var i := PortGet(k.ports, n);
    if i == |k.ports| || k.ports[i].receiver != Pid(k.q, k.q.current) then k else PollLoop(k, i, n, now)
  }

  // ---- the other calls -------------------------------------------------------------------------------------

  /** portopen: -1 asks for a fresh number, others are refused when their bit of the mask is set (shifts wrap at 32). */
  function Open(k: Kernel, n: int): Kernel {
    if n == NO_PORT then
      k.(nextPort := k.nextPort + 1, ports := k.ports + [Port(k.nextPort, Pid(k.q, k.q.current), [], [], [])])
    else if n % 32 in k.reserved then k
    else k.(reserved := k.reserved + {n % 32}, ports := k.ports + [Port(n, Pid(k.q, k.q.current), [], [], [])])
  }

  datatype Call =
    | DoSend(n: int, m: Message) | DoRecv(n: int, size: nat) | DoPoll(n: int) | DoOpen(n: int)
    | DoSleep(millis: nat) | DoYield | DoExit | DoFork(child: Node)
    | Timer | Continue

  /** Calls come from a running user task; the timer interrupts user code; a blocked call continues when its task
      runs. */
  ghost predicate Possible(k: Kernel, c: Call) {
    && !k.halted
    && (match c
        case Continue => ContOf(k, k.q.current) != User
        case Timer => ContOf(k, k.q.current) == User
        case DoFork(n) => ContOf(k, k.q.current) == User && k.q.current != k.q.idle && n != 0 && n !in k.q.tasks
        case _ => ContOf(k, k.q.current) == User && k.q.current != k.q.idle)
  }

  ghost function Step(k: Kernel, c: Call, now: nat): Kernel
    requires k.q.current in k.q.tasks
  {
    match c
    case DoSend(n, m) => Send(k, n, m, now)
    case DoRecv(n, size) => Recv(k, n, size, now)
    case DoPoll(n) => Poll(k, n, now)
    case DoOpen(n) => Open(k, n)
    case DoSleep(millis) => BlockIn(k, Asleep, NO_PORT, NO_PORT, millis, now)
    case DoYield => Switched(k, Yield(k.q), now)
    case DoExit => Switched(k, Exit(k.q), now)
    case DoFork(n) =>
      if k.q.nextPid >= PID_LIMIT then k.(halted := true)
      else k.(q := Fork(k.q, n), conts := k.conts[n := User])
    case Timer =>
      if Clash(k.q) || Tick(k.q).ready == [] then k.(halted := true) else Switched(k, Tick(k.q), now)
    case Continue =>
      match ContOf(k, k.q.current)
      case User => k
      case SendOpen(n, m) => SendLoop(k, n, m, now)
      case SendWait => k.(conts := k.conts[k.q.current := User])
      case RecvWait(i, n, size) => if i < |k.ports| then RecvLoop(k, i, n, size, now) else k
      case PollWait(i, n) => if i < |k.ports| then PollLoop(k, i, n, now) else k
      case Asleep => k.(conts := k.conts[k.q.current := User])
  }

  // ---- what every reachable state satisfies ----------------------------------------------------------------

  /** A blocked receiver owns the port it waits for, and port_get leads to that port. */
  ghost predicate OwnsPort(ports: seq<Port>, i: nat, n: int, pid: int) {
    i < |ports| && PortGet(ports, n) == i && ports[i].receiver == pid
  }

  ghost predicate ContOk(ports: seq<Port>, pid: int, c: Cont) {
    match c
    case RecvWait(i, n, _) => OwnsPort(ports, i, n, pid)
    case PollWait(i, n) => OwnsPort(ports, i, n, pid)
    case SendOpen(_, m) => Checksum(m) == m.checksum
    case _ => true
  }

  /** How a sleeper's wait fields follow from the call it is in. A task that waits for a message has none to receive. */
  ghost predicate SleepOk(ports: seq<Port>, t: Task, c: Cont) {
    match c
    case User => false
    case SendOpen(n, _) => t.canrecv == NO_PORT && t.cansend == n
    case SendWait => t.canrecv == NO_PORT && t.cansend == NO_PORT
    case RecvWait(i, n, _) => t.canrecv == n && t.cansend == NO_PORT && i < |ports| && ports[i].queue == []
    case PollWait(i, n) => t.canrecv == n && t.cansend == NO_PORT && i < |ports| && ports[i].queue == []
    case Asleep => t.canrecv == NO_PORT && t.cansend == NO_PORT
  }

  /** While a receiver sleeps in msgrecv on a port, nobody sleeps waiting to send to it. */
  ghost predicate NoLostSenders(k: Kernel) {
    forall e, s :: e in k.q.sleeping && s in k.q.sleeping && ContOf(k, e).RecvWait? && s in k.q.tasks ==>
      k.q.tasks[s].cansend != ContOf(k, e).n
  }

  /** Nothing sent is lost, reordered or doubled, and every queued message has its checksum. */
  ghost predicate PortOk(p: Port) {
    p.sent == p.got + p.queue && forall m :: m in p.queue ==> Checksum(m) == m.checksum
  }

  ghost predicate KernelOk(k: Kernel) {
    && QueuesOk(k.q) && k.q.nextPid >= 0 && ContOf(k, k.q.idle) == User
    && (forall e :: e in k.q.tasks ==> ContOk(k.ports, Pid(k.q, e), ContOf(k, e)))
    && (forall e :: e in k.q.sleeping && e in k.q.tasks ==> SleepOk(k.ports, k.q.tasks[e], ContOf(k, e)))
    && NoLostSenders(k)
    && (forall i :: 0 <= i < |k.ports| ==> PortOk(k.ports[i]))
  }

  // ---- moves of the queues -----------------------------------------------------------------------------------

  lemma CurrentNotAsleep(q: Queues)
    requires QueuesOk(q)
    ensures q.current in q.tasks && q.current !in q.sleeping && q.idle !in q.sleeping
    ensures forall e :: e in q.sleeping ==> e in q.tasks
  {
    forall e | e in q.sleeping ensures e in Elems(All(q)) {}
    assert q.current in {q.current, q.idle} && q.idle in {q.current, q.idle};
  }

  /** Switching may take one sleeper off the queue, and puts none on it. */
  lemma SwitchSleepers(q: Queues, now: nat)
    requires Parked(q)
    ensures var q' := SwitchNext(q, now);
      && QueuesOk(q') && q'.tasks == q.tasks && q'.idle == q.idle && q'.nextPid == q.nextPid
      && (forall e :: e in q'.sleeping ==> e in q.sleeping)
      && (forall e :: e in q.sleeping && e !in q'.sleeping ==> e == q'.current && e in q.tasks && Due(q.tasks[e], now))
  {
    SwitchKeeps(q, now);
    var i := FirstDue(q, now, 0);
    DueKept(q, now, 0);
    if i < |q.sleeping| { DropKeeps(q.sleeping, i); }
  }

  lemma WakeSleepers(q: Queues, pid: int)
    requires QueuesOk(q)
    ensures var q' := Wake(q, pid);
      && QueuesOk(q') && q'.tasks == q.tasks && q'.current == q.current && q'.idle == q.idle && q'.nextPid == q.nextPid
      && (forall e :: e in q'.sleeping ==> e in q.sleeping && Pid(q, e) != pid)
      && (forall e :: e in q.sleeping && Pid(q, e) != pid ==> e in q'.sleeping)
  {
    WakePidKeeps(q, pid);
    SleeperFound(q, pid, 0);
    CurrentNotAsleep(q);
    var i := SleeperWith(q, pid, 0);
    if i < |q.sleeping| {
      DropKeeps(q.sleeping, i);
      SleepersUnique(q, i);
      forall e | e in DropAt(q.sleeping, i) ensures Pid(q, e) != pid {
        if Pid(q, e) == pid { SamePid(q, e, q.sleeping[i]); }
      }
    } else {
      forall e | e in q.sleeping ensures Pid(q, e) != pid {
        var j :| 0 <= j < |q.sleeping| && q.sleeping[j] == e;
      }
    }
  }

  lemma SamePid(q: Queues, a: Node, b: Node)
    requires QueuesOk(q) && a in q.tasks && b in q.tasks && q.tasks[a].pid == q.tasks[b].pid
    ensures a == b
  {}

  lemma SleepersUnique(q: Queues, i: nat)
    requires QueuesOk(q) && i < |q.sleeping|
    ensures q.sleeping[i] !in DropAt(q.sleeping, i)
  {
    NoDupDrop(q.ready, q.sleeping, q.exited, i);
    assert forall e :: e in DropAt(q.sleeping, i) ==> e in q.ready + DropAt(q.sleeping, i) + q.exited;
  }

  /** Blocking: the running task joins the sleepers, one due sleeper may leave them. */
  lemma BlockSleepers(k: Kernel, c: Cont, canrecv: int, cansend: int, timeout: nat, now: nat)
    requires QueuesOk(k.q) && k.q.current != k.q.idle
    ensures k.q.current in k.q.tasks
    ensures var k' := BlockIn(k, c, canrecv, cansend, timeout, now); var cur := k.q.current;
      && QueuesOk(k'.q) && k'.q.idle == k.q.idle && k'.q.nextPid == k.q.nextPid
      && k'.q.tasks.Keys == k.q.tasks.Keys && (forall e :: e in k.q.tasks && e != cur ==> k'.q.tasks[e] == k.q.tasks[e])
      && k'.q.tasks[cur].pid == k.q.tasks[cur].pid && k'.q.tasks[cur].canrecv == canrecv
      && k'.q.tasks[cur].cansend == cansend
      && (forall e :: e in k'.q.sleeping ==> e in k.q.sleeping || e == cur)
      && (forall e :: (e in k.q.sleeping || e == cur) && e !in k'.q.sleeping ==>
            e == k'.q.current && e in k'.q.tasks && Due(k'.q.tasks[e], now))
  {
    CurrentNotAsleep(k.q);
    var q1 := Block(k.q, canrecv, cansend, timeout, now);
    BlockKeeps(k.q, canrecv, cansend, timeout, now);
    SwitchSleepers(q1, now);
    assert k.q.current in q1.sleeping;
    assert forall e :: e in k.q.sleeping ==> e in q1.sleeping;
  }

  /** Blocking keeps the invariant when the new sleeper fits in. */
  lemma BlockInOk(k: Kernel, c: Cont, canrecv: int, cansend: int, timeout: nat, now: nat)
    requires KernelOk(k) && k.q.current != k.q.idle && k.q.current in k.q.tasks
    requires ContOk(k.ports, Pid(k.q, k.q.current), c) && SleepOk(k.ports, Task(0, canrecv, cansend, 0), c)
    requires c.RecvWait? ==> cansend != c.n
    requires c.RecvWait? ==> forall s :: s in k.q.sleeping && s in k.q.tasks ==> k.q.tasks[s].cansend != c.n
    requires forall e :: e in k.q.sleeping && ContOf(k, e).RecvWait? ==> cansend != ContOf(k, e).n
    ensures KernelOk(BlockIn(k, c, canrecv, cansend, timeout, now))
  {
    BlockSleepers(k, c, canrecv, cansend, timeout, now);
    CurrentNotAsleep(k.q);
    var k' := BlockIn(k, c, canrecv, cansend, timeout, now);
    var cur := k.q.current;
    forall e | e in k'.q.tasks ensures ContOk(k'.ports, Pid(k'.q, e), ContOf(k', e)) {}
    forall e | e in k'.q.sleeping && e in k'.q.tasks ensures SleepOk(k'.ports, k'.q.tasks[e], ContOf(k', e)) {
      if e == cur { SleepFields(k.ports, Task(0, canrecv, cansend, 0), k'.q.tasks[e], c); }
    }
    BlockNoLost(k, c, canrecv, cansend, timeout, now);
  }

  lemma BlockNoLost(k: Kernel, c: Cont, canrecv: int, cansend: int, timeout: nat, now: nat)
    requires QueuesOk(k.q) && NoLostSenders(k) && k.q.current != k.q.idle && k.q.current in k.q.tasks
    requires c.RecvWait? ==> cansend != c.n
    requires c.RecvWait? ==> forall s :: s in k.q.sleeping && s in k.q.tasks ==> k.q.tasks[s].cansend != c.n
    requires forall e :: e in k.q.sleeping && ContOf(k, e).RecvWait? ==> cansend != ContOf(k, e).n
    ensures NoLostSenders(BlockIn(k, c, canrecv, cansend, timeout, now))
  {
    BlockSleepers(k, c, canrecv, cansend, timeout, now);
    CurrentNotAsleep(k.q);
  }

  lemma SleepFields(ports: seq<Port>, t: Task, t': Task, c: Cont)
    requires SleepOk(ports, t, c) && t'.canrecv == t.canrecv && t'.cansend == t.cansend
    ensures SleepOk(ports, t', c)
  {}

  /** Fewer sleepers and tasks, same ports: the invariant is kept. */
  lemma FewerSleepers(k: Kernel, q': Queues)
    requires KernelOk(k) && QueuesOk(q') && q'.idle == k.q.idle && q'.nextPid == k.q.nextPid
    requires forall e :: e in q'.tasks ==> e in k.q.tasks && q'.tasks[e] == k.q.tasks[e]
    requires forall e :: e in q'.sleeping ==> e in k.q.sleeping
    ensures KernelOk(k.(q := q'))
  {
    var k' := k.(q := q');
    forall e | e in k'.q.tasks ensures ContOk(k'.ports, Pid(k'.q, e), ContOf(k', e)) {
      assert ContOf(k', e) == ContOf(k, e);
    }
  }

  /** The running task's call is over. */
  lemma ReturnOk(k: Kernel)
    requires KernelOk(k)
    ensures KernelOk(k.(conts := k.conts[k.q.current := User]))
  {
    CurrentNotAsleep(k.q);
    var k' := k.(conts := k.conts[k.q.current := User]);
    forall e | e in k'.q.tasks ensures ContOk(k'.ports, Pid(k'.q, e), ContOf(k', e)) {
      assert e != k.q.current ==> ContOf(k', e) == ContOf(k, e);
    }
    forall e | e in k'.q.sleeping ensures ContOf(k', e) == ContOf(k, e) {}
  }

  // ---- changes of the ports ------------------------------------------------------------------------------------

  lemma {:induction false} SameNumbers(ports: seq<Port>, ports': seq<Port>, n: int, i: nat)
    requires |ports'| == |ports| && i <= |ports| && forall j :: 0 <= j < |ports| ==> ports'[j].number == ports[j].number
    ensures PortAt(ports', n, i) == PortAt(ports, n, i)
    decreases |ports| - i
  {
    if i < |ports| && ports[i].number != n { SameNumbers(ports, ports', n, i + 1); }
  }

  lemma {:induction false} MorePorts(ports: seq<Port>, p: Port, n: int, i: nat)
    requires i <= |ports|
    ensures PortAt(ports, n, i) < |ports| ==> PortAt(ports + [p], n, i) == PortAt(ports, n, i)
    decreases |ports| - i
  {
    if i < |ports| {
      assert (ports + [p])[i] == ports[i];
      if ports[i].number != n { MorePorts(ports, p, n, i + 1); }
    }
  }

  /** One port's queue changes: fine when no sleeper waits for a message there. */
  lemma PortChanged(k: Kernel, i: nat, p: Port)
    requires KernelOk(k) && i < |k.ports| && p.number == k.ports[i].number && p.receiver == k.ports[i].receiver
    requires PortOk(p)
    requires forall e :: e in k.q.sleeping && e in k.q.tasks ==> Pid(k.q, e) != p.receiver || k.ports[i].queue != []
    ensures KernelOk(k.(ports := k.ports[i := p]))
  {
    var k' := k.(ports := k.ports[i := p]);
    forall n: int ensures PortGet(k'.ports, n) == PortGet(k.ports, n) {
      if n >= 0 { SameNumbers(k.ports, k'.ports, n, 0); }
    }
    forall e | e in k'.q.tasks ensures ContOk(k'.ports, Pid(k'.q, e), ContOf(k', e)) {
      assert ContOk(k.ports, Pid(k.q, e), ContOf(k, e));
    }
    forall e | e in k'.q.sleeping && e in k'.q.tasks ensures SleepOk(k'.ports, k'.q.tasks[e], ContOf(k', e)) {
      assert SleepOk(k.ports, k.q.tasks[e], ContOf(k, e)) && ContOk(k.ports, Pid(k.q, e), ContOf(k, e));
    }
  }

  lemma DeliverOk(k: Kernel, i: nat, m: Message, now: nat)
    requires KernelOk(k) && k.q.current in k.q.tasks && k.q.current != k.q.idle && i < |k.ports|
    requires Alive(k.q, k.ports[i].receiver)
    ensures KernelOk(Deliver(k, i, m, now))
  {
    var r := k.ports[i].receiver;
    var m' := Stamped(k.q, m);
    WakeSleepers(k.q, r);
    var k0 := k.(q := Wake(k.q, r));
    FewerSleepers(k, Wake(k.q, r));
    var p := k.ports[i].(queue := k.ports[i].queue + [m'], sent := k.ports[i].sent + [m']);
    PortChanged(k0, i, p);
    var k1 := k0.(ports := k.ports[i := p]);
    assert k1 == k.(ports := Enqueue(k.ports, i, m'), q := Wake(k.q, r));
    ReceiversPositive(k1);
    BlockInOk(k1, SendWait, NO_PORT, NO_PORT, INFINITE, now);
  }

  lemma ReceiversPositive(k: Kernel)
    requires KernelOk(k)
    ensures forall e :: e in k.q.sleeping && ContOf(k, e).RecvWait? ==>
      ContOf(k, e).n >= 0 && PortGet(k.ports, ContOf(k, e).n) < |k.ports|
  {
    CurrentNotAsleep(k.q);
    forall e | e in k.q.sleeping && ContOf(k, e).RecvWait?
      ensures ContOf(k, e).n >= 0 && PortGet(k.ports, ContOf(k, e).n) < |k.ports|
    {
      assert ContOk(k.ports, Pid(k.q, e), ContOf(k, e));
    }
  }

  lemma SendLoopOk(k: Kernel, n: int, m: Message, now: nat)
    requires KernelOk(k) && k.q.current in k.q.tasks && k.q.current != k.q.idle && Checksum(m) == m.checksum
    ensures var k' := SendLoop(k, n, m, now); k'.halted || KernelOk(k')
  {
    var i := PortGet(k.ports, n);
    if i < |k.ports| {
      if Alive(k.q, k.ports[i].receiver) { DeliverOk(k, i, m, now); }
    } else {
      ReceiversPositive(k);
      BlockInOk(k, SendOpen(n, m), NO_PORT, n, INFINITE, now);
    }
  }

  lemma TakeOk(k: Kernel, i: nat, size: nat)
    requires KernelOk(k) && i < |k.ports| && |k.ports[i].queue| > 0
    ensures var k' := Take(k, i, size); k'.halted || KernelOk(k')
  {
    var p := k.ports[i];
    var m := p.queue[0];
    if Checksum(m) == m.checksum && size >= HEADER_SIZE + |m.data| && Alive(k.q, m.sender) {
      var p' := p.(queue := p.queue[1..], got := p.got + [m]);
      assert p.queue == [m] + p.queue[1..];
      assert p'.sent == p'.got + p'.queue;
      PortChanged(k, i, p');
      WakeSleepers(k.q, m.sender);
      FewerSleepers(k.(ports := k.ports[i := p']), Wake(k.q, m.sender));
    }
  }

  lemma RecvLoopOk(k: Kernel, i: nat, n: int, size: nat, now: nat)
    requires KernelOk(k) && k.q.current in k.q.tasks && k.q.current != k.q.idle
    requires OwnsPort(k.ports, i, n, Pid(k.q, k.q.current))
    ensures var k' := RecvLoop(k, i, n, size, now); k'.halted || KernelOk(k')
  {
    if |k.ports[i].queue| > 0 {
      ReturnOk(k);
      TakeOk(k.(conts := k.conts[k.q.current := User]), i, size);
    } else {
      WakeWaitingKeeps(k.q, n, 0);
      WakeWaitingOnly(k.q, n, 0);
      WakeWaitingAll(k.q, n, 0);
      var q1 := WakeWaiting(k.q, n, 0);
      FewerSleepers(k, q1);
      ReceiversPositive(k.(q := q1));
      BlockInOk(k.(q := q1), RecvWait(i, n, size), n, NO_PORT, INFINITE, now);
    }
  }

  lemma PollLoopOk(k: Kernel, i: nat, n: int, now: nat)
    requires KernelOk(k) && k.q.current in k.q.tasks && k.q.current != k.q.idle
    requires OwnsPort(k.ports, i, n, Pid(k.q, k.q.current))
    ensures KernelOk(PollLoop(k, i, n, now))
  {
    if |k.ports[i].queue| > 0 {
      ReturnOk(k);
    } else {
      ReceiversPositive(k);
      BlockInOk(k, PollWait(i, n), n, NO_PORT, INFINITE, now);
    }
  }

  lemma OpenOk(k: Kernel, p: Port)
    requires KernelOk(k) && PortOk(p)
    ensures KernelOk(k.(ports := k.ports + [p]))
  {
    var k' := k.(ports := k.ports + [p]);
    forall n: int ensures PortGet(k.ports, n) < |k.ports| ==> PortGet(k'.ports, n) == PortGet(k.ports, n) {
      if n >= 0 { MorePorts(k.ports, p, n, 0); }
    }
    forall e | e in k'.q.tasks ensures ContOk(k'.ports, Pid(k'.q, e), ContOf(k', e)) {
      assert ContOk(k.ports, Pid(k.q, e), ContOf(k, e));
    }
    forall e | e in k'.q.sleeping && e in k'.q.tasks ensures SleepOk(k'.ports, k'.q.tasks[e], ContOf(k', e)) {
      assert SleepOk(k.ports, k.q.tasks[e], ContOf(k, e));
    }
  }

  lemma ForkOk(k: Kernel, n: Node)
    requires KernelOk(k) && n != 0 && n !in k.q.tasks
    ensures KernelOk(k.(q := Fork(k.q, n), conts := k.conts[n := User]))
  {
    ForkKeeps(k.q, n);
    CurrentNotAsleep(k.q);
    var k' := k.(q := Fork(k.q, n), conts := k.conts[n := User]);
    forall e | e in k'.q.tasks ensures ContOk(k'.ports, Pid(k'.q, e), ContOf(k', e)) {
      if e != n { assert ContOk(k.ports, Pid(k.q, e), ContOf(k, e)); }
    }
  }

  /** Every call, every continuation and every timer tick keeps the invariant, unless it stops the machine. */
  lemma StepOk(k: Kernel, c: Call, now: nat)
    requires KernelOk(k) && Possible(k, c)
    ensures k.q.current in k.q.tasks
    ensures var k' := Step(k, c, now); k'.halted || KernelOk(k')
  {
    CurrentNotAsleep(k.q);
    match c
    case DoSend(n, m) => if Checksum(m) == m.checksum { SendLoopOk(k, n, m, now); }
    case DoRecv(n, size) =>
      var i := PortGet(k.ports, n);
      if i < |k.ports| && k.ports[i].receiver == Pid(k.q, k.q.current) { RecvLoopOk(k, i, n, size, now); }
    case DoPoll(n) =>
      var i := PortGet(k.ports, n);
      if i < |k.ports| && k.ports[i].receiver == Pid(k.q, k.q.current) { PollLoopOk(k, i, n, now); }
    case DoOpen(n) => OpenOk(k, Port(if n == NO_PORT then k.nextPort else n, Pid(k.q, k.q.current), [], [], []));
    case DoSleep(millis) => ReceiversPositive(k); BlockInOk(k, Asleep, NO_PORT, NO_PORT, millis, now);
    case DoYield => YieldKeeps(k.q); SwitchSleepers(Yield(k.q), now); FewerSleepers(k, SwitchNext(Yield(k.q), now));
    case DoExit => ExitKeeps(k.q); SwitchSleepers(Exit(k.q), now); FewerSleepers(k, SwitchNext(Exit(k.q), now));
    case DoFork(n) => ForkOk(k, n);
    case Timer => TickKeeps(k.q); SwitchSleepers(Tick(k.q), now); FewerSleepers(k, SwitchNext(Tick(k.q), now));
    case Continue =>
      assert ContOk(k.ports, Pid(k.q, k.q.current), ContOf(k, k.q.current));
      match ContOf(k, k.q.current)
      case User =>
      case SendOpen(n, m) => SendLoopOk(k, n, m, now);
      case RecvWait(i, n, size) => RecvLoopOk(k, i, n, size, now);
      case PollWait(i, n) => PollLoopOk(k, i, n, now);
      case _ => ReturnOk(k);
  }

  // ---- runs ------------------------------------------------------------------------------------------------------

  /** A run: calls at their times, one after the other; what is not possible where it stands does not happen. */
  ghost function Run(k: Kernel, tr: seq<(Call, nat)>): Kernel
    decreases |tr|
  {
    if |tr| == 0 then k
    else if Possible(k, tr[0].0) && k.q.current in k.q.tasks then Run(Step(k, tr[0].0, tr[0].1), tr[1..])
    else Run(k, tr[1..])
  }

  lemma {:induction false} RunOk(k: Kernel, tr: seq<(Call, nat)>)
    requires k.halted || KernelOk(k)
    ensures Run(k, tr).halted || KernelOk(Run(k, tr))
    decreases |tr|
  {
    if |tr| > 0 {
      if Possible(k, tr[0].0) && k.q.current in k.q.tasks {
        StepOk(k, tr[0].0, tr[0].1);
        RunOk(Step(k, tr[0].0, tr[0].1), tr[1..]);
      } else {
        RunOk(k, tr[1..]);
      }
    }
  }

  /** Start-up: tasks, none of them asleep or inside a call, and no ports. */
  ghost predicate Booted(k: Kernel) {
    && QueuesOk(k.q) && k.q.nextPid >= 0 && k.q.sleeping == [] && k.ports == [] && !k.halted
    && forall e :: e in k.q.tasks ==> ContOf(k, e) == User
  }

  /** With fewer than 32 pids given out, switching stops nothing. */
  lemma SwitchesOn(k: Kernel, q: Queues, now: nat)
    requires Parked(q) && q.nextPid <= 32
    ensures Switched(k, q, now).halted == k.halted
  {
    SwitchKeeps(q, now);
    var q' := SwitchNext(q, now);
    FewPids(q', {q'.current, q'.idle});
  }

  /** The scheduler's check stops no run in which fewer than 32 pids have been given out. */
  lemma FewPidsRun(k: Kernel, tr: seq<(Call, nat)>)
    requires Booted(k) && !Run(k, tr).halted && Run(k, tr).q.nextPid <= 32
    ensures !Clash(Run(k, tr).q)
  {
    assert KernelOk(k);
    RunOk(k, tr);
    FewPids(Run(k, tr).q, {Run(k, tr).q.current, Run(k, tr).q.idle});
  }

  /** No lost wakeups, in every state of every run: a task that sleeps until port p has a message owns p, and p's queue
      is empty; and while p's receiver sleeps in msgrecv, nobody sleeps waiting to send to p. */
  lemma NoLostWakeups(k: Kernel, tr: seq<(Call, nat)>, e: Node)
    requires Booted(k) && !Run(k, tr).halted && e in Run(k, tr).q.sleeping
    ensures var k' := Run(k, tr); e in k'.q.tasks
    ensures var k' := Run(k, tr); var p := k'.q.tasks[e].canrecv;
      p != NO_PORT ==> var i := PortGet(k'.ports, p);
        i < |k'.ports| && k'.ports[i].queue == [] && k'.ports[i].receiver == k'.q.tasks[e].pid
    ensures var k' := Run(k, tr);
      ContOf(k', e).RecvWait? ==>
        && k'.q.tasks[e].canrecv == ContOf(k', e).n
        && forall s :: s in k'.q.sleeping && s in k'.q.tasks ==> k'.q.tasks[s].cansend != ContOf(k', e).n
  {
    assert KernelOk(k);
    RunOk(k, tr);
    var k' := Run(k, tr);
    CurrentNotAsleep(k'.q);
    assert SleepOk(k'.ports, k'.q.tasks[e], ContOf(k', e)) && ContOk(k'.ports, Pid(k'.q, e), ContOf(k', e));
  }

  /** On every port of every run, what was received is a prefix of what was sent, in order, and the queue is the
      rest. */
  lemma InOrderOnce(k: Kernel, tr: seq<(Call, nat)>, i: nat)
    requires Booted(k) && !Run(k, tr).halted && i < |Run(k, tr).ports|
    ensures var p := Run(k, tr).ports[i];
      p.sent == p.got + p.queue && forall m :: m in p.queue ==> Checksum(m) == m.checksum
  {
    assert KernelOk(k);
    RunOk(k, tr);
  }

  // ---- who sends and who receives ----------------------------------------------------------------------------------

  /** What one step may do to a port: nothing; queue one message of the running task, under its own pid; or hand the
      first message to the running task, which owns the port. */
  ghost predicate PortStep(p: Port, p': Port, pid: int) {
    && p'.number == p.number && p'.receiver == p.receiver
    && (|| p' == p
        || (&& |p'.sent| == |p.sent| + 1 && Last(p').sender == pid
            && p' == Port(p.number, p.receiver, p.queue + [Last(p')], p.sent + [Last(p')], p.got))
        || (&& |p.queue| > 0 && p.receiver == pid
            && p' == Port(p.number, p.receiver, p.queue[1..], p.sent, p.got + [p.queue[0]])))
  }

  ghost function Last(p: Port): Message
    requires |p.sent| > 0
  {
    p.sent[|p.sent| - 1]
  }

  ghost predicate PortsStep(k: Kernel, k': Kernel) {
    && |k.ports| <= |k'.ports|
    && forall i :: 0 <= i < |k.ports| ==> PortStep(k.ports[i], k'.ports[i], Pid(k.q, k.q.current))
  }

  lemma DeliverPorts(k: Kernel, i: nat, m: Message, now: nat)
    requires i < |k.ports| && k.q.current in k.q.tasks
    ensures PortsStep(k, Deliver(k, i, m, now))
  {
    if Alive(k.q, k.ports[i].receiver) {
      var m' := Stamped(k.q, m);
      var p' := Enqueue(k.ports, i, m')[i];
      assert Last(p') == m' && m'.sender == Pid(k.q, k.q.current);
    }
  }

  lemma RecvPorts(k: Kernel, i: nat, n: int, size: nat, now: nat)
    requires i < |k.ports| && k.q.current in k.q.tasks && k.ports[i].receiver == Pid(k.q, k.q.current)
    ensures PortsStep(k, RecvLoop(k, i, n, size, now))
  {}

  lemma StepPorts(k: Kernel, c: Call, now: nat)
    requires KernelOk(k) && Possible(k, c) && k.q.current in k.q.tasks
    ensures PortsStep(k, Step(k, c, now))
  {
    match c
    case DoSend(n, m) =>
      if Checksum(m) == m.checksum && PortGet(k.ports, n) < |k.ports| { DeliverPorts(k, PortGet(k.ports, n), m, now); }
    case DoRecv(n, size) =>
      var i := PortGet(k.ports, n);
      if i < |k.ports| && k.ports[i].receiver == Pid(k.q, k.q.current) { RecvPorts(k, i, n, size, now); }
    case Continue =>
      var t := ContOf(k, k.q.current);
      assert ContOk(k.ports, Pid(k.q, k.q.current), t);
      match t {
        case SendOpen(n, m) => if PortGet(k.ports, n) < |k.ports| { DeliverPorts(k, PortGet(k.ports, n), m, now); }
        case RecvWait(i, n, size) => RecvPorts(k, i, n, size, now);
        case _ =>
      }
    case _ =>
  }

  /** The receive that the call makes of the running task: the index of its port and the size of its buffer. */
  ghost predicate Receives(k: Kernel, c: Call, i: nat, size: nat) {
    && i < |k.ports| && k.ports[i].receiver == Pid(k.q, k.q.current)
    && (|| (c.DoRecv? && i == PortGet(k.ports, c.n) && size == c.size)
        || (&& c.Continue? && ContOf(k, k.q.current).RecvWait?
            && i == ContOf(k, k.q.current).i && size == ContOf(k, k.q.current).size))
  }

  /** A receive takes the message at the head exactly if the buffer has room for it; otherwise the step changes no
      port and wakes nobody. */
  lemma SmallBuffer(k: Kernel, c: Call, now: nat, i: nat, size: nat)
    requires KernelOk(k) && Possible(k, c) && k.q.current in k.q.tasks && Receives(k, c, i, size)
    requires |k.ports[i].queue| > 0
    ensures var k', m := Step(k, c, now), k.ports[i].queue[0];
      if size < HEADER_SIZE + |m.data| then !k'.halted && k'.ports == k.ports && k'.q == k.q
      else k'.halted || k'.ports == k.ports[i := k.ports[i].(queue := k.ports[i].queue[1..],
                                                                 got := k.ports[i].got + [m])]
  {
    assert k.ports[i].queue[0] in k.ports[i].queue;
  }

  // ---- when a blocked sender wakes --------------------------------------------------------------

  /** A message from pid was received in this step. */
  ghost predicate Received(k: Kernel, k': Kernel, pid: int) {
    exists i :: 0 <= i < |k.ports| && i < |k'.ports| && |k.ports[i].queue| > 0 &&
      k'.ports[i].got == k.ports[i].got + [k.ports[i].queue[0]]
      && k.ports[i].queue[0].sender == pid
  }

  /** A message was sent to a port of pid in this step. */
  ghost predicate SentTo(k: Kernel, k': Kernel, pid: int) {
    exists i :: 0 <= i < |k.ports| && i < |k'.ports| && |k'.ports[i].sent| == |k.ports[i].sent| + 1 &&
      k.ports[i].receiver == pid
  }

  /** A task runs because its deadline has passed. */
  ghost predicate TimedOut(k: Kernel, k': Kernel, e: Node, now: nat) {
    k'.q.current == e && e in k.q.tasks && Due(k.q.tasks[e], now)
  }

  ghost predicate WokenBy(k: Kernel, k': Kernel, e: Node, now: nat) {
    e in k'.q.sleeping || Received(k, k', Pid(k.q, e)) || SentTo(k, k', Pid(k.q, e)) || TimedOut(k, k', e, now)
  }

  lemma DeliverWakes(k: Kernel, i: nat, m: Message, now: nat, e: Node)
    requires KernelOk(k) && i < |k.ports| && k.q.current in k.q.tasks && k.q.current != k.q.idle && e in k.q.sleeping
    ensures var k' := Deliver(k, i, m, now); k'.halted || WokenBy(k, k', e, now)
  {
    var r := k.ports[i].receiver;
    CurrentNotAsleep(k.q);
    if Alive(k.q, r) {
      WakeSleepers(k.q, r);
      var k1 := k.(ports := Enqueue(k.ports, i, Stamped(k.q, m)), q := Wake(k.q, r));
      BlockSleepers(k1, SendWait, NO_PORT, NO_PORT, INFINITE, now);
      var k' := Deliver(k, i, m, now);
      assert |k'.ports[i].sent| == |k.ports[i].sent| + 1;
    }
  }

  lemma SendWakes(k: Kernel, n: int, m: Message, now: nat, e: Node)
    requires KernelOk(k) && k.q.current in k.q.tasks && k.q.current != k.q.idle && e in k.q.sleeping
    ensures var k' := SendLoop(k, n, m, now); k'.halted || WokenBy(k, k', e, now)
  {
    CurrentNotAsleep(k.q);
    var i := PortGet(k.ports, n);
    if i < |k.ports| {
      DeliverWakes(k, i, m, now, e);
    } else {
      BlockSleepers(k, SendOpen(n, m), NO_PORT, n, INFINITE, now);
    }
  }

  lemma RecvWakes(k: Kernel, i: nat, n: int, size: nat, now: nat, e: Node)
    requires KernelOk(k) && i < |k.ports| && k.q.current in k.q.tasks && k.q.current != k.q.idle && e in k.q.sleeping
    requires n >= 0
    requires ContOf(k, e) == SendWait || ContOf(k, e) == Asleep
    ensures var k' := RecvLoop(k, i, n, size, now); k'.halted || WokenBy(k, k', e, now)
  {
    CurrentNotAsleep(k.q);
    var k' := RecvLoop(k, i, n, size, now);
    if |k.ports[i].queue| > 0 {
      var m := k.ports[i].queue[0];
      WakeSleepers(k.q, m.sender);
      if !k'.halted && e !in k'.q.sleeping { assert k'.ports[i].got == k.ports[i].got + [m]; }
    } else {
      assert SleepOk(k.ports, k.q.tasks[e], ContOf(k, e));
      WakeWaitingKeeps(k.q, n, 0);
      WakeWaitingOnly(k.q, n, 0);
      BlockSleepers(k.(q := WakeWaiting(k.q, n, 0)), RecvWait(i, n, size), n, NO_PORT, INFINITE, now);
    }
  }

  /** A task blocked in msgsend or asleep stops sleeping only because a message of its own was received, because
      somebody sent to a port it owns, or because its deadline passed. */
  lemma SenderWakes(k: Kernel, c: Call, now: nat, e: Node)
    requires KernelOk(k) && Possible(k, c) && k.q.current in k.q.tasks && e in k.q.sleeping
    requires ContOf(k, e) == SendWait || ContOf(k, e) == Asleep
    ensures var k' := Step(k, c, now); k'.halted || WokenBy(k, k', e, now)
  {
    CurrentNotAsleep(k.q);
    match c
    case DoSend(n, m) => SendWakes(k, n, m, now, e);
    case DoRecv(n, size) =>
      if PortGet(k.ports, n) < |k.ports| { RecvWakes(k, PortGet(k.ports, n), n, size, now, e); }
    case DoPoll(n) =>
      if PortGet(k.ports, n) < |k.ports| {
        BlockSleepers(k, PollWait(PortGet(k.ports, n), n), n, NO_PORT, INFINITE, now);
      }
    case DoSleep(millis) => BlockSleepers(k, Asleep, NO_PORT, NO_PORT, millis, now);
    case DoYield => YieldKeeps(k.q); SwitchSleepers(Yield(k.q), now);
    case DoExit => ExitKeeps(k.q); SwitchSleepers(Exit(k.q), now);
    case Timer => TickKeeps(k.q); SwitchSleepers(Tick(k.q), now);
    case Continue =>
      var t := ContOf(k, k.q.current);
      assert ContOk(k.ports, Pid(k.q, k.q.current), t);
      match t {
        case SendOpen(n, m) => SendWakes(k, n, m, now, e);
        case RecvWait(i, n, size) => RecvWakes(k, i, n, size, now, e);
        case PollWait(i, n) => BlockSleepers(k, PollWait(i, n), n, NO_PORT, INFINITE, now);
        case _ =>
      }
    case _ =>
  }

  // ---- one message per sender -------------------------------------------------------------------

  /** Message j of port i's queue is from pid. */
  ghost predicate Queued(ports: seq<Port>, i: nat, j: nat, pid: int) {
    i < |ports| && j < |ports[i].queue| && ports[i].queue[j].sender == pid
  }

  /** e sleeps in msgsend until its message is received. */
  ghost predicate InSend(k: Kernel, e: Node) { e in k.q.sleeping && e in k.q.tasks && ContOf(k, e) == SendWait }

  /** Every queued message has its sender asleep in msgsend, and no two are from the same sender. */
  ghost predicate SendersWait(k: Kernel) {
    && (forall i, j, pid :: Queued(k.ports, i, j, pid) ==> exists e :: InSend(k, e) && Pid(k.q, e) == pid)
    && (forall i, j, i', j', pid :: Queued(k.ports, i, j, pid) && Queued(k.ports, i', j', pid) ==> i == i' && j == j')
  }

  /** Senders in k, other than perhaps the one with this pid, are still in their call in k'. */
  ghost predicate StillInSend(k: Kernel, k': Kernel, but: int) {
    forall e :: InSend(k, e) && Pid(k.q, e) != but ==> InSend(k', e) && Pid(k'.q, e) == Pid(k.q, e)
  }

  lemma SamePorts(k: Kernel, k': Kernel)
    requires SendersWait(k) && StillInSend(k, k', -1) && QueuesOk(k.q)
    requires forall i, j, pid :: Queued(k'.ports, i, j, pid) ==> Queued(k.ports, i, j, pid)
    ensures SendersWait(k')
  {
    forall i, j, pid | Queued(k'.ports, i, j, pid) ensures exists e :: InSend(k', e) && Pid(k'.q, e) == pid {
      var e :| InSend(k, e) && Pid(k.q, e) == pid;
      assert InSend(k', e);
    }
  }

  /** The running task has no message queued: it is not asleep. */
  lemma RunningHasNone(k: Kernel, i: nat, j: nat)
    requires SendersWait(k) && QueuesOk(k.q)
    ensures !Queued(k.ports, i, j, Pid(k.q, k.q.current))
  {
    CurrentNotAsleep(k.q);
    assert forall e :: InSend(k, e) ==> Pid(k.q, e) != Pid(k.q, k.q.current);
  }

  lemma QuietDeliver(k: Kernel, i: nat, m: Message, k': Kernel)
    requires SendersWait(k) && QueuesOk(k.q) && i < |k.ports| && StillInSend(k, k', -1)
    requires k'.ports == Enqueue(k.ports, i, Stamped(k.q, m)) && InSend(k', k.q.current)
    requires Pid(k'.q, k.q.current) == Pid(k.q, k.q.current)
    ensures SendersWait(k')
  {
    var me := Pid(k.q, k.q.current);
    var new_ := |k.ports[i].queue|;
    forall a, b, pid | Queued(k'.ports, a, b, pid)
      ensures Queued(k.ports, a, b, pid) || (a == i && b == new_ && pid == me)
    {}
    forall a, b, pid | Queued(k'.ports, a, b, pid) ensures exists e :: InSend(k', e) && Pid(k'.q, e) == pid {
      if Queued(k.ports, a, b, pid) {
        var e :| InSend(k, e) && Pid(k.q, e) == pid;
        assert InSend(k', e);
      } else {
        assert InSend(k', k.q.current);
      }
    }
    forall a, b ensures !Queued(k.ports, a, b, me) { RunningHasNone(k, a, b); }
  }

  lemma QuietTake(k: Kernel, i: nat, k': Kernel)
    requires SendersWait(k) && i < |k.ports| && |k.ports[i].queue| > 0 && StillInSend(k, k', k.ports[i].queue[0].sender)
    requires |k'.ports| == |k.ports| && k'.ports[i].queue == k.ports[i].queue[1..]
    requires forall a :: 0 <= a < |k.ports| && a != i ==> k'.ports[a] == k.ports[a]
    ensures SendersWait(k')
  {
    var s := k.ports[i].queue[0].sender;
    assert Queued(k.ports, i, 0, s);
    forall a: nat, b: nat, pid | Queued(k'.ports, a, b, pid)
      ensures Queued(k.ports, a, if a == i then b + 1 else b, pid) && pid != s
    {
      assert Queued(k.ports, a, if a == i then b + 1 else b, pid);
    }
    forall a, b, pid | Queued(k'.ports, a, b, pid) ensures exists e :: InSend(k', e) && Pid(k'.q, e) == pid {
      var e :| InSend(k, e) && Pid(k.q, e) == pid;
      assert InSend(k', e);
    }
    forall a: nat, b: nat, a': nat, b': nat, pid | Queued(k'.ports, a, b, pid) && Queued(k'.ports, a', b', pid)
      ensures a == a' && b == b'
    {
      assert Queued(k.ports, a, if a == i then b + 1 else b, pid) &&
        Queued(k.ports, a', if a' == i then b' + 1 else b', pid);
    }
  }

  /** The step wakes no blocked sender by a message to its own port or by its deadline. */
  ghost predicate Undisturbed(k: Kernel, k': Kernel, now: nat) {
    forall e :: InSend(k, e) ==> !SentTo(k, k', Pid(k.q, e)) && !TimedOut(k, k', e, now)
  }

  /** Blocking leaves the calls of other tasks alone. */
  lemma BlockConts(k: Kernel, c: Cont, canrecv: int, cansend: int, timeout: nat, now: nat, e: Node)
    requires QueuesOk(k.q) && k.q.current != k.q.idle && k.q.current in k.q.tasks && InSend(k, e)
    ensures var k' := BlockIn(k, c, canrecv, cansend, timeout, now);
      ContOf(k', e) == SendWait && e in k'.q.tasks && Pid(k'.q, e) == Pid(k.q, e)
  {
    CurrentNotAsleep(k.q);
    BlockSleepers(k, c, canrecv, cansend, timeout, now);
  }

  /** A blocked sender's call is not touched by what others do. */
  lemma SendKept(k: Kernel, c: Call, now: nat, e: Node)
    requires KernelOk(k) && Possible(k, c) && k.q.current in k.q.tasks && InSend(k, e)
    ensures var k' := Step(k, c, now);
      k'.halted || (ContOf(k', e) == SendWait && e in k'.q.tasks && Pid(k'.q, e) == Pid(k.q, e))
  {
    CurrentNotAsleep(k.q);
    SleeperNotExited(k.q, e);
    match c
    case DoSend(n, m) => SendLoopKept(k, n, m, now, e);
    case DoRecv(n, size) =>
      if PortGet(k.ports, n) < |k.ports| { RecvLoopKept(k, PortGet(k.ports, n), n, size, now, e); }
    case DoPoll(n) =>
      if PortGet(k.ports, n) < |k.ports| {
        BlockConts(k, PollWait(PortGet(k.ports, n), n), n, NO_PORT, INFINITE, now, e);
      }
    case DoSleep(millis) => BlockConts(k, Asleep, NO_PORT, NO_PORT, millis, now, e);
    case Continue =>
      var t := ContOf(k, k.q.current);
      match t {
        case SendOpen(n, m) => SendLoopKept(k, n, m, now, e);
        case RecvWait(i, n, size) => if i < |k.ports| { RecvLoopKept(k, i, n, size, now, e); }
        case PollWait(i, n) => if i < |k.ports| { BlockConts(k, PollWait(i, n), n, NO_PORT, INFINITE, now, e); }
        case _ =>
      }
    case _ =>
  }

  lemma SleeperNotExited(q: Queues, e: Node)
    requires QueuesOk(q) && e in q.sleeping
    ensures e !in q.exited
  {
    NoDupFront(q.ready + q.sleeping, q.exited);
    assert All(q) == (q.ready + q.sleeping) + q.exited && e in Elems(q.ready + q.sleeping);
  }

  lemma SendLoopKept(k: Kernel, n: int, m: Message, now: nat, e: Node)
    requires KernelOk(k) && k.q.current in k.q.tasks && k.q.current != k.q.idle && InSend(k, e)
    ensures var k' := SendLoop(k, n, m, now);
      k'.halted || (ContOf(k', e) == SendWait && e in k'.q.tasks && Pid(k'.q, e) == Pid(k.q, e))
  {
    var i := PortGet(k.ports, n);
    if i < |k.ports| {
      DeliverKept(k, i, m, now, e);
    } else {
      BlockConts(k, SendOpen(n, m), NO_PORT, n, INFINITE, now, e);
    }
  }

  lemma DeliverKept(k: Kernel, i: nat, m: Message, now: nat, e: Node)
    requires QueuesOk(k.q) && i < |k.ports| && k.q.current in k.q.tasks && k.q.current != k.q.idle && InSend(k, e)
    ensures var k' := Deliver(k, i, m, now);
      k'.halted || (ContOf(k', e) == SendWait && e in k'.q.tasks && Pid(k'.q, e) == Pid(k.q, e))
  {
    CurrentNotAsleep(k.q);
    var r := k.ports[i].receiver;
    WakeSleepers(k.q, r);
    BlockSleepers(k.(ports := Enqueue(k.ports, i, Stamped(k.q, m)), q := Wake(k.q, r)), SendWait, NO_PORT, NO_PORT,
      INFINITE, now);
  }

  lemma RecvLoopKept(k: Kernel, i: nat, n: int, size: nat, now: nat, e: Node)
    requires KernelOk(k) && i < |k.ports| && k.q.current in k.q.tasks && k.q.current != k.q.idle && InSend(k, e)
    ensures var k' := RecvLoop(k, i, n, size, now);
      k'.halted || (ContOf(k', e) == SendWait && e in k'.q.tasks && Pid(k'.q, e) == Pid(k.q, e))
  {
    CurrentNotAsleep(k.q);
    if |k.ports[i].queue| > 0 {
      WakeSleepers(k.q, k.ports[i].queue[0].sender);
    } else {
      WakeWaitingKeeps(k.q, n, 0);
      BlockSleepers(k.(q := WakeWaiting(k.q, n, 0)), RecvWait(i, n, size), n, NO_PORT, INFINITE, now);
    }
  }

  /** In a quiet step a blocked sender goes on waiting unless its message is received. */
  lemma QuietSenders(k: Kernel, c: Call, now: nat, but: int)
    requires KernelOk(k) && Possible(k, c) && k.q.current in k.q.tasks
    requires var k' := Step(k, c, now);
      !k'.halted && Undisturbed(k, k', now) && forall e :: InSend(k, e) && Received(k, k', Pid(k.q, e)) ==>
        Pid(k.q, e) == but
    ensures StillInSend(k, Step(k, c, now), but)
  {
    var k' := Step(k, c, now);
    forall e | InSend(k, e) && Pid(k.q, e) != but ensures InSend(k', e) && Pid(k'.q, e) == Pid(k.q, e) {
      SenderWakes(k, c, now, e);
      SendKept(k, c, now, e);
    }
  }

  /** After delivering, the sender sleeps in msgsend: its deadline lies ahead. */
  lemma DeliverSleeps(k: Kernel, i: nat, m: Message, now: nat)
    requires KernelOk(k) && i < |k.ports| && k.q.current in k.q.tasks && k.q.current != k.q.idle
    requires Alive(k.q, k.ports[i].receiver)
    ensures var k' := Deliver(k, i, m, now);
      k'.ports == Enqueue(k.ports, i, Stamped(k.q, m)) && InSend(k', k.q.current) &&
        Pid(k'.q, k.q.current) == Pid(k.q, k.q.current)
  {
    var r := k.ports[i].receiver;
    WakeSleepers(k.q, r);
    var k1 := k.(ports := Enqueue(k.ports, i, Stamped(k.q, m)), q := Wake(k.q, r));
    BlockSleepers(k1, SendWait, NO_PORT, NO_PORT, INFINITE, now);
    assert Block(k1.q, NO_PORT, NO_PORT, INFINITE, now).tasks[k.q.current].deadline == now + INFINITE;
    SwitchKeeps(Block(k1.q, NO_PORT, NO_PORT, INFINITE, now), now) by {
      BlockKeeps(k1.q, NO_PORT, NO_PORT, INFINITE, now);
    }
  }

  lemma NothingReceived(k: Kernel, k': Kernel)
    requires forall i :: 0 <= i < |k.ports| && i < |k'.ports| ==> k'.ports[i].got == k.ports[i].got
    ensures forall pid :: !Received(k, k', pid)
  {
    forall i | 0 <= i < |k.ports| && i < |k'.ports| && |k.ports[i].queue| > 0
      ensures k'.ports[i].got != k.ports[i].got + [k.ports[i].queue[0]]
    {
      assert |k'.ports[i].got| == |k.ports[i].got|;
    }
  }

  lemma QuietSend(k: Kernel, c: Call, now: nat, n: int, m: Message)
    requires KernelOk(k) && Possible(k, c) && k.q.current in k.q.tasks && k.q.current != k.q.idle && SendersWait(k)
    requires Step(k, c, now) == SendLoop(k, n, m, now) && !Step(k, c, now).halted
    requires Undisturbed(k, Step(k, c, now), now)
    ensures SendersWait(Step(k, c, now))
  {
    var k' := Step(k, c, now);
    var i := PortGet(k.ports, n);
    if i < |k.ports| { DeliverSleeps(k, i, m, now); }
    NothingReceived(k, k');
    QuietSenders(k, c, now, -1);
    if i < |k.ports| { QuietDeliver(k, i, m, k'); } else { SamePorts(k, k'); }
  }

  lemma QuietRecv(k: Kernel, c: Call, now: nat, i: nat, n: int, size: nat)
    requires KernelOk(k) && Possible(k, c) && k.q.current in k.q.tasks && SendersWait(k) && i < |k.ports|
    requires Step(k, c, now) == RecvLoop(k, i, n, size, now) && !Step(k, c, now).halted
    requires Undisturbed(k, Step(k, c, now), now)
    ensures SendersWait(Step(k, c, now))
  {
    var k' := Step(k, c, now);
    if k'.ports == k.ports {
      NothingReceived(k, k');
      QuietSenders(k, c, now, -1);
      SamePorts(k, k');
    } else {
      var s := k.ports[i].queue[0].sender;
      forall pid | Received(k, k', pid) ensures pid == s {
        var a :| 0 <= a < |k.ports| && a < |k'.ports| && |k.ports[a].queue| > 0 &&
          k'.ports[a].got == k.ports[a].got + [k.ports[a].queue[0]] && k.ports[a].queue[0].sender == pid;
        assert a == i;
      }
      QuietSenders(k, c, now, s);
      QuietTake(k, i, k');
    }
  }

  /** In a run without such wakeups, each sender has at most one message undelivered, and sleeps until it is
      received. */
  lemma QuietStep(k: Kernel, c: Call, now: nat)
    requires KernelOk(k) && Possible(k, c) && k.q.current in k.q.tasks && SendersWait(k)
    requires !Step(k, c, now).halted && Undisturbed(k, Step(k, c, now), now)
    ensures SendersWait(Step(k, c, now))
  {
    var k' := Step(k, c, now);
    var t := ContOf(k, k.q.current);
    assert ContOk(k.ports, Pid(k.q, k.q.current), t);
    if c.DoSend? {
      QuietSend(k, c, now, c.n, c.m);
    } else if c.Continue? && t.SendOpen? {
      QuietSend(k, c, now, t.n, t.m);
    } else if c.DoRecv? && k' != k {
      QuietRecv(k, c, now, PortGet(k.ports, c.n), c.n, c.size);
    } else if c.Continue? && t.RecvWait? {
      QuietRecv(k, c, now, t.i, t.n, t.size);
    } else {
      assert |k'.ports| >= |k.ports| && forall i :: 0 <= i < |k.ports| ==> k'.ports[i] == k.ports[i];
      assert forall i :: |k.ports| <= i < |k'.ports| ==> k'.ports[i].queue == [];
      NothingReceived(k, k');
      QuietSenders(k, c, now, -1);
      SamePorts(k, k');
    }
  }

  lemma {:induction false} HaltedStays(k: Kernel, tr: seq<(Call, nat)>)
    requires k.halted
    ensures Run(k, tr) == k
    decreases |tr|
  {
    if |tr| > 0 { HaltedStays(k, tr[1..]); }
  }
}
