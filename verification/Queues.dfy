/** The scheduler's queues as sequences: what each scheduler operation does, and what every one of them keeps. */
module Queues {
  import opened Basics
  import opened Lists

  const INFINITE := 0xFFFF_FFFF
  const NO_PORT := -1

  /** task_create asserts that the new pid is below this. */
  const PID_LIMIT := 64

  /** pid, the ports whose events a task waits for, and its deadline (0 for none). */
  datatype Task = Task(pid: int, canrecv: int, cansend: int, deadline: nat)

  datatype Queues = Queues(tasks: map<Node, Task>, ready: seq<Node>, sleeping: seq<Node>, exited: seq<Node>,
                           current: Node, idle: Node, nextPid: int)

  function All(q: Queues): seq<Node> { q.ready + q.sleeping + q.exited }

  ghost predicate PidsOk(q: Queues) {
    && (forall a :: a in q.tasks ==> 0 <= q.tasks[a].pid < q.nextPid)
    && (forall a, b :: a in q.tasks && b in q.tasks && q.tasks[a].pid == q.tasks[b].pid ==> a == b)
  }

  /** Every task but those of out is on exactly one queue, once; the tasks of out are on none. */
  ghost predicate Placed(q: Queues, out: set<Node>) {
    && NoDup(All(q)) && q.tasks.Keys == Elems(All(q)) + out && out !! Elems(All(q))
    && PidsOk(q) && 0 !in q.tasks && q.idle in q.tasks
  }

  /** Between operations: the current task and the idle task are on no queue, every other task is on one. */
  ghost predicate QueuesOk(q: Queues) { Placed(q, {q.current, q.idle}) }

  /** While switching: the idle task is on no queue, every other task is on one. */
  ghost predicate Parked(q: Queues) { Placed(q, {q.idle}) }

  // ---- operations --------------------------------------------------------------------------------------

  predicate Due(t: Task, now: nat) { t.deadline != 0 && now >= t.deadline }

  /** The first sleeper whose deadline has passed, from index i on; the length if there is none. */
  function FirstDue(q: Queues, now: nat, i: nat): (r: nat)
    requires i <= |q.sleeping|
    ensures i <= r <= |q.sleeping|
    decreases |q.sleeping| - i
  {
    if i == |q.sleeping| || (q.sleeping[i] in q.tasks && Due(q.tasks[q.sleeping[i]], now)) then i
    else FirstDue(q, now, i + 1)
  }

  /** task_switch_next: a due sleeper, else the head of the ready queue, else the idle task. */
  function SwitchNext(q: Queues, now: nat): Queues {
    var i := FirstDue(q, now, 0);
    if i < |q.sleeping| then q.(current := q.sleeping[i], sleeping := DropAt(q.sleeping, i))
    else if |q.ready| > 0 then q.(current := q.ready[0], ready := q.ready[1..])
    else q.(current := q.idle)
  }

  /** Was the switch served from the ready queue? */
  predicate FromReady(q: Queues, now: nat) { FirstDue(q, now, 0) == |q.sleeping| && |q.ready| > 0 }

  function Yield(q: Queues): Queues { q.(ready := q.ready + [q.current]) }

  function Exit(q: Queues): Queues { q.(exited := q.exited + [q.current]) }

  /** task_block up to the switch: finite timeouts get deadline 0. */
  function Block(q: Queues, canrecv: int, cansend: int, timeout: nat, now: nat): Queues
    requires q.current in q.tasks
  {
    var t := q.tasks[q.current];
    var d := if timeout != INFINITE then 0 else now + timeout;
    q.(tasks := q.tasks[q.current := Task(t.pid, canrecv, cansend, d)], sleeping := q.sleeping + [q.current])
  }

  function Fork(q: Queues, n: Node): Queues {
    q.(tasks := q.tasks[n := Task(q.nextPid, 0, 0, 0)], ready := q.ready + [n], nextPid := q.nextPid + 1)
  }

  /** The timer up to the switch: the current task goes to the ready queue, exited tasks are collected. */
  function Tick(q: Queues): Queues {
    q.(ready := if q.current != q.idle then q.ready + [q.current] else q.ready,
       tasks := q.tasks - (set e | e in q.exited), exited := [])
  }

  /** Move the sleeper at index i to the end of the ready queue. */
  function WakeAt(q: Queues, i: nat): Queues
    requires i < |q.sleeping|
  {
    q.(sleeping := DropAt(q.sleeping, i), ready := q.ready + [q.sleeping[i]])
  }

  /** The index of the sleeper with this pid, from i on; the length if there is none. */
  function SleeperWith(q: Queues, pid: int, i: nat): (r: nat)
    requires i <= |q.sleeping|
    ensures i <= r <= |q.sleeping|
    decreases |q.sleeping| - i
  {
    if i == |q.sleeping| || (q.sleeping[i] in q.tasks && q.tasks[q.sleeping[i]].pid == pid) then i
    else SleeperWith(q, pid, i + 1)
  }

  /** task_wake: a sleeper with this pid becomes ready; a task that is not asleep stays where it is. */
  function Wake(q: Queues, pid: int): Queues {
    var i := SleeperWith(q, pid, 0);
    if i < |q.sleeping| then WakeAt(q, i) else q
  }

  /** A task with this pid that has not exited. */
  ghost predicate Alive(q: Queues, pid: int) {
    exists e :: e in q.tasks && e !in q.exited && q.tasks[e].pid == pid
  }

  /** Is task e waiting to send to port p? */
  predicate WaitsToSend(q: Queues, e: Node, p: int) { e in q.tasks && q.tasks[e].cansend == p }

  /** wake_tasks_waiting_for_port, from index i on. */
  function WakeWaiting(q: Queues, p: int, i: nat): Queues
    requires i <= |q.sleeping|
    decreases |q.sleeping| - i
  {
    if i == |q.sleeping| then q
    else if WaitsToSend(q, q.sleeping[i], p) then WakeWaiting(WakeAt(q, i), p, i)
    else WakeWaiting(q, p, i + 1)
  }

  // ---- the scheduler's own check -------------------------------------------------------------------------

  /** The bits of a 64-bit word from b on. */
  function BitsFrom(b: int): (r: set<int>)
    ensures forall x :: x in r ==> b <= x
    ensures b < 64 ==> b in r
    decreases 64 - b
  {
    if b >= 64 then {} else {b} + BitsFrom(b + 1)
  }

  /** The bits of 1 << pid among the 64 of encountered_pids: the shift wraps at 32, and bit 31 is the sign, which is
      extended. */
  function ShiftBits(pid: int): set<int> { if pid % 32 == 31 then BitsFrom(31) else {pid % 32} }

  lemma BitsMeet(a: int, b: int)
    ensures ShiftBits(a) !! ShiftBits(b) <==> a % 32 != b % 32
  {
    assert a % 32 in ShiftBits(a) && b % 32 in ShiftBits(b);
  }

  /** Two queued tasks have pids that are equal modulo 32. */
  ghost predicate Clash(q: Queues) {
    exists i, j :: 0 <= i < j < |All(q)| && PidBits(q.tasks, All(q)[i]) == PidBits(q.tasks, All(q)[j])
  }

  function PidBits(tasks: map<Node, Task>, e: Node): int { if e in tasks then tasks[e].pid % 32 else -1 }

  /** Pids below 32 are told apart. */
  lemma FewPids(q: Queues, out: set<Node>)
    requires Placed(q, out) && q.nextPid <= 32
    ensures !Clash(q)
  {
    forall i, j | 0 <= i < j < |All(q)| ensures PidBits(q.tasks, All(q)[i]) != PidBits(q.tasks, All(q)[j]) {
      assert All(q)[i] in Elems(All(q)) && All(q)[j] in Elems(All(q));
    }
  }

  /** Why the timer interrupt stops the machine: a failed check on entry, nothing to run, or a failed check when
      switching. */
  ghost predicate TickStops(q: Queues, now: nat) {
    Clash(q) || Tick(q).ready == [] || Clash(SwitchNext(Tick(q), now))
  }

  // ---- what they keep ----------------------------------------------------------------------------------

  lemma {:induction false} DueKept(q: Queues, now: nat, i: nat)
    requires i <= |q.sleeping|
    ensures var r := FirstDue(q, now, i);
      && (forall j :: i <= j < r ==> !(q.sleeping[j] in q.tasks && Due(q.tasks[q.sleeping[j]], now)))
      && (r < |q.sleeping| ==> q.sleeping[r] in q.tasks && Due(q.tasks[q.sleeping[r]], now))
    decreases |q.sleeping| - i
  {
    if i < |q.sleeping| && !(q.sleeping[i] in q.tasks && Due(q.tasks[q.sleeping[i]], now)) { DueKept(q, now, i + 1); }
  }

  lemma {:induction false} SleeperFound(q: Queues, pid: int, i: nat)
    requires i <= |q.sleeping|
    ensures var r := SleeperWith(q, pid, i);
      && (forall j :: i <= j < r ==> !(q.sleeping[j] in q.tasks && q.tasks[q.sleeping[j]].pid == pid))
      && (r < |q.sleeping| ==> q.sleeping[r] in q.tasks && q.tasks[q.sleeping[r]].pid == pid)
    decreases |q.sleeping| - i
  {
    if i < |q.sleeping| && !(q.sleeping[i] in q.tasks && q.tasks[q.sleeping[i]].pid == pid) {
      SleeperFound(q, pid, i + 1);
    }
  }

  lemma WakePidKeeps(q: Queues, pid: int)
    requires QueuesOk(q)
    ensures QueuesOk(Wake(q, pid))
  {
    if SleeperWith(q, pid, 0) < |q.sleeping| { WakeKeeps(q, SleeperWith(q, pid, 0)); }
  }

  /** Moving elements around keeps them unique: three sequences joined, one element taken out. */
  lemma NoDupDrop(a: seq<Node>, b: seq<Node>, c: seq<Node>, j: nat)
    requires NoDup(a + b + c) && j < |b|
    ensures NoDup(a + DropAt(b, j) + c) && b[j] !in a + DropAt(b, j) + c
    ensures Elems(a + DropAt(b, j) + c) == Elems(a + b + c) - {b[j]}
  {
    var s, t := a + b + c, a + DropAt(b, j) + c;
    var m := |a| + j;
    assert s[m] == b[j];
    assert t == DropAt(s, m);
    DropElems(s, m);
  }

  lemma DropElems(s: seq<Node>, m: nat)
    requires NoDup(s) && m < |s|
    ensures NoDup(DropAt(s, m)) && s[m] !in DropAt(s, m) && Elems(DropAt(s, m)) == Elems(s) - {s[m]}
  {
    var t := DropAt(s, m);
    forall e | e in Elems(s) - {s[m]} ensures e in t {
      var i :| 0 <= i < |s| && s[i] == e;
      assert t[if i < m then i else i - 1] == e;
    }
    forall e | e in t ensures e in s && e != s[m] {
      var i :| 0 <= i < |t| && t[i] == e;
      assert e == s[if i < m then i else i + 1];
    }
  }

  lemma NoDupAdd(a: seq<Node>, b: seq<Node>, e: Node)
    requires NoDup(a + b) && e !in a + b
    ensures NoDup(a + [e] + b) && Elems(a + [e] + b) == Elems(a + b) + {e}
  {
    var s, t := a + b, a + [e] + b;
    assert t[|a|] == e;
    forall i | 0 <= i < |s| ensures s[i] == t[if i < |a| then i else i + 1] {}
    forall i | 0 <= i < |t| && i != |a|
      ensures t[i] == s[if i < |a| then i else i - 1] && t[i] != e
    {
      assert s[if i < |a| then i else i - 1] in s;
    }
    forall x | x in Elems(s) ensures x in t {
      var i :| 0 <= i < |s| && s[i] == x;
      assert t[if i < |a| then i else i + 1] == x;
    }
  }

  lemma SwitchToSleeper(q: Queues, i: nat)
    requires Parked(q) && i < |q.sleeping|
    ensures QueuesOk(q.(current := q.sleeping[i], sleeping := DropAt(q.sleeping, i)))
  {
    NoDupDrop(q.ready, q.sleeping, q.exited, i);
    assert All(q)[|q.ready| + i] == q.sleeping[i];
    assert {q.sleeping[i], q.idle} == {q.sleeping[i]} + {q.idle};
  }

  lemma SwitchToReady(q: Queues)
    requires Parked(q) && |q.ready| > 0
    ensures QueuesOk(q.(current := q.ready[0], ready := q.ready[1..]))
  {
    var rest := q.sleeping + q.exited;
    assert [] + q.ready + rest == All(q);
    NoDupDrop([], q.ready, rest, 0);
    assert DropAt(q.ready, 0) == q.ready[1..];
    assert [] + DropAt(q.ready, 0) + rest == q.ready[1..] + q.sleeping + q.exited;
    assert All(q)[0] == q.ready[0];
    assert {q.ready[0], q.idle} == {q.ready[0]} + {q.idle};
  }

  lemma SwitchKeeps(q: Queues, now: nat)
    requires Parked(q)
    ensures QueuesOk(SwitchNext(q, now)) && SwitchNext(q, now).tasks == q.tasks
  {
    var i := FirstDue(q, now, 0);
    if i < |q.sleeping| {
      SwitchToSleeper(q, i);
    } else if |q.ready| > 0 {
      SwitchToReady(q);
    } else {
      assert {q.idle, q.idle} == {q.idle};
    }
  }

  lemma YieldKeeps(q: Queues)
    requires QueuesOk(q) && q.current != q.idle
    ensures Parked(Yield(q))
  {
    assert All(q) == q.ready + (q.sleeping + q.exited);
    NoDupAdd(q.ready, q.sleeping + q.exited, q.current);
    assert All(Yield(q)) == q.ready + [q.current] + (q.sleeping + q.exited);
    assert {q.current, q.idle} == {q.current} + {q.idle};
  }

  lemma ExitKeeps(q: Queues)
    requires QueuesOk(q) && q.current != q.idle
    ensures Parked(Exit(q))
  {
    NoDupAdd(All(q), [], q.current);
    assert All(q) + [] == All(q) && All(Exit(q)) == All(q) + [q.current] + [];
    assert {q.current, q.idle} == {q.current} + {q.idle};
  }

  lemma BlockKeeps(q: Queues, canrecv: int, cansend: int, timeout: nat, now: nat)
    requires QueuesOk(q) && q.current != q.idle
    ensures Parked(Block(q, canrecv, cansend, timeout, now))
  {
    var q' := Block(q, canrecv, cansend, timeout, now);
    assert All(q) == (q.ready + q.sleeping) + q.exited;
    NoDupAdd(q.ready + q.sleeping, q.exited, q.current);
    assert All(q') == (q.ready + q.sleeping) + [q.current] + q.exited;
    assert {q.current, q.idle} == {q.current} + {q.idle};
    assert q'.tasks.Keys == q.tasks.Keys;
    forall a | a in q'.tasks ensures q'.tasks[a].pid == q.tasks[a].pid {}
  }

  lemma ForkKeeps(q: Queues, n: Node)
    requires QueuesOk(q) && n != 0 && n !in q.tasks && q.nextPid >= 0
    ensures QueuesOk(Fork(q, n))
  {
    var q' := Fork(q, n);
    assert All(q) == q.ready + (q.sleeping + q.exited);
    NoDupAdd(q.ready, q.sleeping + q.exited, n);
    assert All(q') == q.ready + [n] + (q.sleeping + q.exited);
    assert q'.tasks.Keys == q.tasks.Keys + {n};
    forall a, b | a in q'.tasks && b in q'.tasks && q'.tasks[a].pid == q'.tasks[b].pid ensures a == b {
      assert a != n ==> q'.tasks[a] == q.tasks[a];
      assert b != n ==> q'.tasks[b] == q.tasks[b];
    }
  }

  lemma NoDupFront(a: seq<Node>, b: seq<Node>)
    requires NoDup(a + b)
    ensures NoDup(a) && Elems(a) == Elems(a + b) - Elems(b)
  {
    var s := a + b;
    forall i | 0 <= i < |a| ensures s[i] == a[i] {}
    forall i | 0 <= i < |b| ensures s[|a| + i] == b[i] {}
  }

  /** Collecting exited tasks removes exactly them, and never the current task. */
  lemma TickKeeps(q: Queues)
    requires QueuesOk(q)
    ensures Parked(Tick(q)) && q.current in Tick(q).tasks
  {
    var q0 := if q.current != q.idle then Yield(q) else q;
    if q.current != q.idle { YieldKeeps(q); }
    assert Parked(q0);
    var q' := Tick(q);
    assert All(q0) == (q0.ready + q0.sleeping) + q0.exited;
    NoDupFront(q0.ready + q0.sleeping, q0.exited);
    assert All(q') == q0.ready + q0.sleeping;
    assert forall e :: e in q0.exited ==> e in Elems(All(q0));
    assert q'.tasks.Keys == q.tasks.Keys - Elems(q.exited);
  }

  lemma WakeKeeps(q: Queues, i: nat)
    requires QueuesOk(q) && i < |q.sleeping|
    ensures QueuesOk(WakeAt(q, i))
  {
    var q' := WakeAt(q, i);
    var e := q.sleeping[i];
    NoDupDrop(q.ready, q.sleeping, q.exited, i);
    var rest := DropAt(q.sleeping, i) + q.exited;
    assert q.ready + DropAt(q.sleeping, i) + q.exited == q.ready + rest;
    NoDupAdd(q.ready, rest, e);
    assert All(q') == q.ready + [e] + rest;
    assert All(q)[|q.ready| + i] == e;
  }

  lemma WakeWaitingStep(q: Queues, p: int, i: nat)
    requires i < |q.sleeping|
    ensures WakeWaiting(q, p, i) ==
      if WaitsToSend(q, q.sleeping[i], p) then WakeWaiting(WakeAt(q, i), p, i) else WakeWaiting(q, p, i + 1)
  {}

  lemma {:induction false} WakeWaitingKeeps(q: Queues, p: int, i: nat)
    requires QueuesOk(q) && i <= |q.sleeping|
    ensures var q' := WakeWaiting(q, p, i);
      && QueuesOk(q') && q'.tasks == q.tasks && q'.current == q.current && q'.idle == q.idle && q'.exited == q.exited
      && q'.nextPid == q.nextPid
    decreases |q.sleeping| - i
  {
    if i < |q.sleeping| {
      if WaitsToSend(q, q.sleeping[i], p) {
        WakeKeeps(q, i);
        WakeWaitingKeeps(WakeAt(q, i), p, i);
      } else {
        WakeWaitingKeeps(q, p, i + 1);
      }
    }
  }

  lemma {:induction false} WakeWaitingTasks(q: Queues, p: int, i: nat)
    requires i <= |q.sleeping|
    ensures var q' := WakeWaiting(q, p, i); q'.tasks == q.tasks && q'.current == q.current && q'.idle == q.idle
    decreases |q.sleeping| - i
  {
    if i < |q.sleeping| {
      if WaitsToSend(q, q.sleeping[i], p) {
        WakeWaitingTasks(WakeAt(q, i), p, i);
      } else {
        WakeWaitingTasks(q, p, i + 1);
      }
    }
  }

  /** Afterwards nobody from index i on waits to send to p. */
  lemma {:induction false} WakeWaitingAll(q: Queues, p: int, i: nat)
    requires i <= |q.sleeping|
    ensures var q' := WakeWaiting(q, p, i);
      && i <= |q'.sleeping| && (forall j :: 0 <= j < i ==> q'.sleeping[j] == q.sleeping[j])
      && (forall j :: i <= j < |q'.sleeping| ==> !WaitsToSend(q, q'.sleeping[j], p))
    decreases |q.sleeping| - i
  {
    if i < |q.sleeping| {
      if WaitsToSend(q, q.sleeping[i], p) {
        WakeWaitingAll(WakeAt(q, i), p, i);
      } else {
        WakeWaitingAll(q, p, i + 1);
      }
    }
  }

  /** Only they leave the sleeping queue. */
  lemma {:induction false} WakeWaitingOnly(q: Queues, p: int, i: nat)
    requires i <= |q.sleeping|
    ensures var q' := WakeWaiting(q, p, i);
      && (forall e :: e in q'.sleeping ==> e in q.sleeping)
      && (forall e :: e in q.sleeping && !WaitsToSend(q, e, p) ==> e in q'.sleeping)
    decreases |q.sleeping| - i
  {
    if i < |q.sleeping| {
      if WaitsToSend(q, q.sleeping[i], p) {
        DropKeeps(q.sleeping, i);
        WakeWaitingOnly(WakeAt(q, i), p, i);
      } else {
        WakeWaitingOnly(q, p, i + 1);
      }
    }
  }

  /** They go to the end of the ready queue. */
  lemma {:induction false} WakeWaitingReady(q: Queues, p: int, i: nat)
    requires i <= |q.sleeping|
    ensures q.ready <= WakeWaiting(q, p, i).ready
    decreases |q.sleeping| - i
  {
    if i < |q.sleeping| {
      if WaitsToSend(q, q.sleeping[i], p) {
        WakeWaitingReady(WakeAt(q, i), p, i);
        assert q.ready <= WakeAt(q, i).ready;
      } else {
        WakeWaitingReady(q, p, i + 1);
      }
    }
  }

  lemma DropKeeps(s: seq<Node>, i: nat)
    requires i < |s|
    ensures forall e :: e in DropAt(s, i) ==> e in s
    ensures forall e :: e in s && e != s[i] ==> e in DropAt(s, i)
  {
    var t := DropAt(s, i);
    forall e | e in s && e != s[i] ensures e in t {
      var j :| 0 <= j < |s| && s[j] == e;
      assert t[if j < i then j else j - 1] == e;
    }
  }

  // ---- bounded waiting -----------------------------------------------------------------------------------

  /** What can happen to the queues: each operation that switches does so at its end. Runs of these events include
      those that a clash of pids, or an empty ready queue at the timer, would stop. */
  datatype Event =
    | DoTick | DoYield | DoExit | DoBlock(canrecv: int, cansend: int, timeout: nat)
    | DoFork(n: Node) | DoWake(i: nat) | DoWakeWaiting(p: int)

  ghost predicate Enabled(q: Queues, ev: Event) {
    match ev
    case DoTick => true
    case DoYield => q.current != q.idle
    case DoExit => q.current != q.idle
    case DoBlock(_, _, _) => q.current != q.idle
    case DoFork(n) => n != 0 && n !in q.tasks && 0 <= q.nextPid < PID_LIMIT
    case DoWake(i) => i < |q.sleeping|
    case DoWakeWaiting(_) => true
  }

  /** The queues when a switching operation is about to switch. */
  ghost function Before(q: Queues, ev: Event, now: nat): Queues
    requires QueuesOk(q) && Enabled(q, ev)
  {
    match ev
    case DoTick => Tick(q)
    case DoYield => Yield(q)
    case DoExit => Exit(q)
    case DoBlock(r, s, t) => Block(q, r, s, t, now)
    case DoFork(n) => Fork(q, n)
    case DoWake(i) => WakeAt(q, i)
    case DoWakeWaiting(p) => WakeWaiting(q, p, 0)
  }

  predicate Switches(ev: Event) { ev.DoTick? || ev.DoYield? || ev.DoExit? || ev.DoBlock? }

  ghost function Apply(q: Queues, ev: Event, now: nat): Queues
    requires QueuesOk(q) && Enabled(q, ev)
  {
    if Switches(ev) then SwitchNext(Before(q, ev, now), now) else Before(q, ev, now)
  }

  /** Every operation keeps every task in its one place. */
  lemma ApplyKeeps(q: Queues, ev: Event, now: nat)
    requires QueuesOk(q) && Enabled(q, ev)
    ensures QueuesOk(Apply(q, ev, now))
  {
    match ev
    case DoTick => TickKeeps(q); SwitchKeeps(Tick(q), now);
    case DoYield => YieldKeeps(q); SwitchKeeps(Yield(q), now);
    case DoExit => ExitKeeps(q); SwitchKeeps(Exit(q), now);
    case DoBlock(r, s, t) => BlockKeeps(q, r, s, t, now); SwitchKeeps(Block(q, r, s, t, now), now);
    case DoFork(n) => ForkKeeps(q, n);
    case DoWake(i) => WakeKeeps(q, i);
    case DoWakeWaiting(p) => WakeWaitingKeeps(q, p, 0);
  }

  /** Does the operation switch, and is the switch served from the ready queue? */
  ghost predicate Serves(q: Queues, ev: Event, now: nat)
    requires QueuesOk(q) && Enabled(q, ev)
  {
    Switches(ev) && FromReady(Before(q, ev, now), now)
  }

  /** The ready queue is first come, first served: a switch from it takes its head, any other operation leaves its front
      alone, and a switch that does not take from it goes to a sleeper whose deadline has passed. */
  lemma ReadyAdvances(q: Queues, ev: Event, now: nat, k: nat)
    requires QueuesOk(q) && Enabled(q, ev) && k < |q.ready|
    ensures var q' := Apply(q, ev, now);
      if !Serves(q, ev, now) then k < |q'.ready| && q'.ready[k] == q.ready[k]
      else if k > 0 then k - 1 < |q'.ready| && q'.ready[k - 1] == q.ready[k]
      else q'.current == q.ready[0]
    ensures var q' := Apply(q, ev, now); var b := Before(q, ev, now);
      Switches(ev) && !Serves(q, ev, now) ==>
        q'.current in b.sleeping && q'.current in b.tasks && Due(b.tasks[q'.current], now)
  {
    var b := Before(q, ev, now);
    if ev.DoWakeWaiting? { WakeWaitingReady(q, ev.p, 0); }
    assert q.ready <= b.ready;
    DueKept(b, now, 0);
  }

  /** A run: operations at their times. */
  ghost predicate RunOk(q: Queues, evs: seq<(Event, nat)>)
    decreases |evs|
  {
    |evs| == 0 || (QueuesOk(q) && Enabled(q, evs[0].0) && RunOk(Apply(q, evs[0].0, evs[0].1), evs[1..]))
  }

  ghost function After(q: Queues, evs: seq<(Event, nat)>): Queues
    requires RunOk(q, evs)
    decreases |evs|
  {
    if |evs| == 0 then q else After(Apply(q, evs[0].0, evs[0].1), evs[1..])
  }

  /** How many switches of the run were served from the ready queue. */
  ghost function ServedIn(q: Queues, evs: seq<(Event, nat)>): nat
    requires RunOk(q, evs)
    decreases |evs|
  {
    if |evs| == 0 then 0
    else (if Serves(q, evs[0].0, evs[0].1) then 1 else 0) + ServedIn(Apply(q, evs[0].0, evs[0].1), evs[1..])
  }

  /** Over every run: after j switches from the ready queue whichever task was at index k >= j is at index k - j. */
  lemma {:induction false} StillWaiting(q: Queues, evs: seq<(Event, nat)>, k: nat)
    requires RunOk(q, evs) && QueuesOk(q) && k < |q.ready| && ServedIn(q, evs) <= k
    ensures var i := k - ServedIn(q, evs); i < |After(q, evs).ready| && After(q, evs).ready[i] == q.ready[k]
    decreases |evs|
  {
    if |evs| > 0 {
      var (ev, now) := evs[0];
      ApplyKeeps(q, ev, now);
      ReadyAdvances(q, ev, now, k);
      StillWaiting(Apply(q, ev, now), evs[1..], if Serves(q, ev, now) then k - 1 else k);
    }
  }

  lemma RunFront(q: Queues, evs: seq<(Event, nat)>, n: nat)
    requires |evs| > 0 && n < |evs| && QueuesOk(q) && Enabled(q, evs[0].0)
    requires RunOk(Apply(q, evs[0].0, evs[0].1), evs[1..][..n])
    ensures RunOk(q, evs[..n + 1])
    ensures After(q, evs[..n + 1]) == After(Apply(q, evs[0].0, evs[0].1), evs[1..][..n])
    ensures ServedIn(q, evs[..n + 1]) == (if Serves(q, evs[0].0, evs[0].1) then 1 else 0) +
      ServedIn(Apply(q, evs[0].0, evs[0].1), evs[1..][..n])
  {
    var p := evs[..n + 1];
    assert p[1..] == evs[1..][..n] && p[0] == evs[0];
  }

  /** Bounded waiting: the run's (k + 1)-th switch from the ready queue makes whichever task was at index k current. */
  lemma {:induction false} BoundedWaiting(q: Queues, evs: seq<(Event, nat)>, k: nat) returns (n: nat)
    requires RunOk(q, evs) && QueuesOk(q) && k < |q.ready| && ServedIn(q, evs) > k
    ensures n <= |evs| && RunOk(q, evs[..n]) && ServedIn(q, evs[..n]) == k + 1
    ensures After(q, evs[..n]).current == q.ready[k]
    decreases |evs|
  {
    var (ev, now) := evs[0];
    var q1 := Apply(q, ev, now);
    ApplyKeeps(q, ev, now);
    ReadyAdvances(q, ev, now, k);
    if Serves(q, ev, now) && k == 0 {
      n := 1;
      assert evs[1..][..0] == [];
      RunFront(q, evs, 0);
    } else {
      var m := BoundedWaiting(q1, evs[1..], if Serves(q, ev, now) then k - 1 else k);
      RunFront(q, evs, m);
      n := m + 1;
    }
  }
}
