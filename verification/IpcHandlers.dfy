/** The system-call handlers of ipc.c on the kernel's fields: each does what the transition system says. */
module IpcHandlers {
  import opened Bits
  import opened Lists
  import opened Queues
  import opened Scheduler
  import opened Messages
  import opened Ipc
  import opened PortNumbers

  /** No return code yet: the call has blocked. */
  const BLOCKED := -2

  /** The size written through outsize, 0 when nothing is written: that of the message at the head. */
  function SizeOut(queue: seq<Message>): nat { if |queue| == 0 then 0 else HEADER_SIZE + |queue[0].data| }

  /** What msgrecv returns on its own port. */
  function RecvCode(queue: seq<Message>, size: nat): (code: int)
    ensures code == 0 ==> |queue| > 0
  {
    if |queue| == 0 then BLOCKED else if size >= HEADER_SIZE + |queue[0].data| then 0 else 3
  }

  class Handlers {
    const sched: Sched
    var conts: map<Node, Cont>
    var ports: seq<Port>
    var reserved: set<int>
    var nextPort: int

    ghost function State(): Kernel
      reads this, sched
    {
      Kernel(sched.q, conts, ports, reserved, nextPort, false)
    }

    ghost predicate Valid()
      reads this, sched
    {
      sched.Valid()
    }

    constructor (s: Sched)
      requires s.Valid()
      ensures sched == s && Valid() && State() == Kernel(s.q, map[], [], {}, 32, false)
    {
      sched, conts, ports, reserved, nextPort := s, map[], [], {}, 32;
    }

    /** port_get */
    method FindPort(n: int) returns (i: nat)
      ensures i == PortGet(ports, n)
    {
      if n < 0 { return |ports|; }
      i := 0;
      while i < |ports| && ports[i].number != n
        invariant i <= |ports| && PortAt(ports, n, 0) == PortAt(ports, n, i)
      {
        i := i + 1;
      }
    }

    method BlockCurrent(c: Cont, canrecv: int, cansend: int, timeout: nat, now: nat) returns (halted: bool)
      requires Valid() && sched.current != sched.idle && sched.current in sched.tasks
      modifies this`conts, sched
      ensures halted <==> BlockIn(old(State()), c, canrecv, cansend, timeout, now).halted
      ensures Valid() && (!halted ==> State() == BlockIn(old(State()), c, canrecv, cansend, timeout, now))
    {
      conts := conts[sched.current := c];
      halted := sched.TaskBlock(canrecv, cansend, timeout, now);
    }

    /** syscall_msgsend_handler from its loop on. */
    method SendFrom(n: int, m: Message, now: nat) returns (halted: bool)
      requires Valid() && sched.current != sched.idle && sched.current in sched.tasks
      modifies this, sched
      ensures halted == SendLoop(old(State()), n, m, now).halted
      ensures !halted ==> Valid() && State() == SendLoop(old(State()), n, m, now)
    {
      var i := FindPort(n);
      if i == |ports| {
        halted := BlockCurrent(SendOpen(n, m), NO_PORT, n, INFINITE, now);
        return;
      }
      var copy := m.(sender := sched.tasks[sched.current].pid);
      var sum := MessageChecksum(copy);
      copy := copy.(checksum := sum);
      var p := ports[i];
      halted := sched.TaskWake(p.receiver);
      if halted { return; }
      ports := ports[i := p.(queue := p.queue + [copy], sent := p.sent + [copy])];
      WakeFields(old(sched.q), p.receiver);
      halted := BlockCurrent(SendWait, NO_PORT, NO_PORT, INFINITE, now);
    }

    method MsgSend(n: int, m: Message, now: nat) returns (halted: bool)
      requires Valid() && sched.current != sched.idle && sched.current in sched.tasks
      modifies this, sched
      ensures halted == Send(old(State()), n, m, now).halted
      ensures !halted ==> Valid() && State() == Send(old(State()), n, m, now)
    {
      var sum := MessageChecksum(m);
      if sum != m.checksum { return true; }
      halted := SendFrom(n, m, now);
    }

    /** syscall_msgrecv_handler from its loop on: 0 with the message handed over, 3 for a buffer too small, or the
        call has blocked and does not return yet. */
    method RecvFrom(i: nat, n: int, size: nat, now: nat)
      returns (halted: bool, code: int, buffer: Message, outsize: nat)
      requires Valid() && sched.current != sched.idle && sched.current in sched.tasks && i < |ports|
      modifies this, sched
      ensures halted == RecvLoop(old(State()), i, n, size, now).halted
      ensures !halted ==> Valid() && State() == RecvLoop(old(State()), i, n, size, now)
      ensures !halted ==> code == RecvCode(old(ports)[i].queue, size)
      ensures !halted && code == 0 ==> buffer == old(ports)[i].queue[0] && ports[i].queue == old(ports)[i].queue[1..]
      ensures !halted && code == 0 ==> Checksum(buffer) == buffer.checksum
      ensures !halted && code != 0 ==> buffer == ZEROED
      ensures !halted ==> outsize == SizeOut(old(ports)[i].queue)
    {
      halted, code, buffer, outsize := false, BLOCKED, ZEROED, 0;
      if |ports[i].queue| == 0 {
        sched.WakeTasksWaitingForPort(n);
        WakeWaitingTasks(old(sched.q), n, 0);
        halted := BlockCurrent(RecvWait(i, n, size), n, NO_PORT, INFINITE, now);
        return;
      }
      conts := conts[sched.current := User];
      var m := ports[i].queue[0];
      var sum := MessageChecksum(m);
      if sum != m.checksum { return true, 0, ZEROED, 0; }
      outsize := HEADER_SIZE + |m.data|;
      if size < HEADER_SIZE + |m.data| { return false, 3, ZEROED, outsize; }
      halted := sched.TaskWake(m.sender);
      if halted { return; }
      ports := ports[i := ports[i].(queue := ports[i].queue[1..], got := ports[i].got + [m])];
      code, buffer := 0, m;
    }

    /** syscall_msgrecv_handler with user-side msgrecv around it. The caller's buffer was cleared as far as it goes:
        a call that fails leaves a header of zeros, or stale, with what lies behind a buffer smaller than a header.
        failed stands for the assertion on the checksum when the call returns. */
    method MsgRecv(n: int, size: nat, now: nat, stale: Message)
      returns (halted: bool, code: int, buffer: Message, outsize: nat, failed: bool)
      requires Valid() && sched.current != sched.idle && sched.current in sched.tasks
      modifies this, sched
      ensures halted == Recv(old(State()), n, size, now).halted
      ensures !halted ==> Valid() && State() == Recv(old(State()), n, size, now)
      ensures var i := PortGet(old(ports), n);
        !halted ==> code == if i == |old(ports)| then 1
                            else if old(ports)[i].receiver != Pid(old(sched.q), old(sched.current)) then 2
                            else RecvCode(old(ports)[i].queue, size)
      ensures !halted ==> buffer == if code == 0 then old(ports)[PortGet(old(ports), n)].queue[0]
                                    else if size >= HEADER_SIZE then ZEROED else stale
      ensures !halted ==>
        (failed <==> code > 0 && size < HEADER_SIZE && Checksum(stale) != stale.checksum)
      ensures !halted ==>
        outsize == if code == 1 || code == 2 then 0 else SizeOut(old(ports)[PortGet(old(ports), n)].queue)
    {
      ZeroedChecksum();
      var i := FindPort(n);
      halted, code, buffer, outsize, failed := false, 1, ZEROED, 0, false;
      if i < |ports| {
        if ports[i].receiver != sched.tasks[sched.current].pid {
          code := 2;
        } else {
          halted, code, buffer, outsize := RecvFrom(i, n, size, now);
          if halted { return; }
        }
      }
      if code != 0 && size < HEADER_SIZE { buffer := stale; }
      if code != BLOCKED {
        var sum := MessageChecksum(buffer);
        failed := sum != buffer.checksum;
      }
    }

    /** syscall_msgwait_handler from its loop on. */
    method WaitFrom(i: nat, n: int, now: nat) returns (halted: bool)
      requires Valid() && sched.current != sched.idle && sched.current in sched.tasks && i < |ports|
      modifies this, sched
      ensures halted == PollLoop(old(State()), i, n, now).halted
      ensures !halted ==> Valid() && State() == PollLoop(old(State()), i, n, now)
    {
      halted := false;
      if |ports[i].queue| > 0 {
        conts := conts[sched.current := User];
      } else {
        halted := BlockCurrent(PollWait(i, n), n, NO_PORT, INFINITE, now);
      }
    }

    /** syscall_msgwait_handler: -1 for no such port or a port of another task. */
    method MsgWait(n: int, now: nat) returns (halted: bool, code: int)
      requires Valid() && sched.current != sched.idle && sched.current in sched.tasks
      modifies this, sched
      ensures halted == Poll(old(State()), n, now).halted
      ensures !halted ==> Valid() && State() == Poll(old(State()), n, now)
      ensures var i := PortGet(old(ports), n);
        code == if i == |old(ports)| || old(ports)[i].receiver != Pid(old(sched.q), old(sched.current)) then -1
                else if old(ports)[i].queue == [] then BLOCKED else 0
    {
      var i := FindPort(n);
      if i == |ports| || ports[i].receiver != sched.tasks[sched.current].pid { return false, -1; }
      code := if |ports[i].queue| == 0 then BLOCKED else 0;
      halted := WaitFrom(i, n, now);
    }

    /** syscall_portopen_handler */
    method PortOpen(n: int) returns (number: int)
      requires Valid() && sched.current in sched.tasks
      modifies this
      ensures Valid() && State() == Open(old(State()), n)
      ensures number == if n == NO_PORT then old(nextPort) else if n % 32 in old(reserved) then NO_PORT else n
      ensures nextPort == if n == NO_PORT then old(nextPort) + 1 else old(nextPort)
      ensures reserved == if n == NO_PORT || number == NO_PORT then old(reserved) else old(reserved) + {n % 32}
      ensures n == NO_PORT || number != NO_PORT ==>
        ports == old(ports) + [Port(number, Pid(sched.q, sched.current), [], [], [])]
      ensures n != NO_PORT && number == NO_PORT ==> ports == old(ports)
      ensures n == NO_PORT || number != NO_PORT ==>
        (PortGet(ports, number) == |old(ports)| <==>
         number >= 0 && forall i :: 0 <= i < |old(ports)| ==> old(ports)[i].number != number)
    {
      number := n;
      if n == NO_PORT {
        number := nextPort;
        nextPort := nextPort + 1;
      } else if n % 32 in reserved {
        number := NO_PORT;
      } else {
        reserved := reserved + {n % 32};
      }
      if n == NO_PORT || number != NO_PORT {
        OpenFinds(old(State()), n, 0);
        ports := ports + [Port(number, sched.tasks[sched.current].pid, [], [], [])];
      }
    }
  }

  lemma WakeFields(q: Queues, pid: int)
    ensures Wake(q, pid).tasks == q.tasks && Wake(q, pid).current == q.current && Wake(q, pid).idle == q.idle
  {}
}
