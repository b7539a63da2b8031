/** Where each event of the scheduler leaves every task, and what becomes of a task that has exited. */
module Lifecycle {
  import opened Basics
  import opened Lists
  import opened Queues

  // ---- one event -------------------------------------------------------------------------------------------

  /** i is the place of the first sleeper whose deadline is now or has passed, or their number. */
  ghost predicate FirstDueAt(q: Queues, now: nat, i: nat) {
    && i <= |q.sleeping|
    && (forall j :: 0 <= j < i ==>
         q.sleeping[j] in q.tasks && var d := q.tasks[q.sleeping[j]].deadline; d == 0 || now < d)
    && (i < |q.sleeping| ==> q.sleeping[i] in q.tasks && 0 < q.tasks[q.sleeping[i]].deadline <= now)
  }

  lemma DueExists(q: Queues, now: nat)
    requires QueuesOk(q)
    ensures FirstDueAt(q, now, FirstDue(q, now, 0))
  {
    DueKept(q, now, 0);
    forall e | e in q.sleeping ensures e in q.tasks { assert e in Elems(All(q)); }
  }

  /** Who waits to run when a switching event switches: the caller of yield, and the task that the timer interrupts,
      come last. */
  ghost function Line(q: Queues, ev: Event): seq<Node> {
    q.ready + if (ev.DoYield? || ev.DoTick?) && q.current != q.idle then [q.current] else []
  }

  /** Who runs next: the first sleeper whose deadline has passed, else the first in line, else the idle task. */
  ghost function RunsNext(q: Queues, ev: Event, i: nat): Node
    requires i <= |q.sleeping|
  {
    if i < |q.sleeping| then q.sleeping[i] else if |Line(q, ev)| > 0 then Line(q, ev)[0] else q.idle
  }

  /** The sleepers afterwards. */
  ghost function Sleepers(q: Queues, ev: Event, i: nat): seq<Node>
    requires i <= |q.sleeping|
  {
    (if i < |q.sleeping| then DropAt(q.sleeping, i) else q.sleeping) + if ev.DoBlock? then [q.current] else []
  }

  /** A task that blocks now is not due now. */
  lemma {:induction false} BlockedNotDue(q: Queues, ev: Event, now: nat, i: nat)
    requires QueuesOk(q) && ev.DoBlock? && Enabled(q, ev) && i <= |q.sleeping|
    requires forall e :: e in q.sleeping ==> e in q.tasks && e != q.current
    ensures var b := Before(q, ev, now);
      FirstDue(b, now, i) == if FirstDue(q, now, i) < |q.sleeping| then FirstDue(q, now, i) else |b.sleeping|
    decreases |q.sleeping| - i
  {
    var b := Before(q, ev, now);
    if i < |q.sleeping| {
      assert b.sleeping[i] == q.sleeping[i];
      BlockedNotDue(q, ev, now, i + 1);
    } else {
      assert b.sleeping[i] == q.current && !Due(b.tasks[q.current], now);
      assert FirstDue(b, now, i + 1) == i + 1;
    }
  }

  lemma SleepersApart(q: Queues)
    requires QueuesOk(q)
    ensures forall e :: e in q.sleeping ==> e in q.tasks && e != q.current && e != q.idle
    ensures forall e :: e in q.ready ==> e in q.tasks && e != q.current && e != q.idle
    ensures forall e :: e in q.exited ==> e in q.tasks && e != q.current && e != q.idle
    ensures q.current in q.tasks
  {
    forall e | e in q.sleeping || e in q.ready || e in q.exited ensures e in Elems(All(q)) {
      assert e in q.ready + q.sleeping + q.exited;
    }
    assert q.current in {q.current, q.idle};
  }

  lemma {:induction false} SameDue(q: Queues, r: Queues, now: nat, i: nat)
    requires r.sleeping == q.sleeping && i <= |q.sleeping|
    requires forall e :: e in q.sleeping ==> e in q.tasks && e in r.tasks && r.tasks[e] == q.tasks[e]
    ensures FirstDue(r, now, i) == FirstDue(q, now, i)
    decreases |q.sleeping| - i
  {
    if i < |q.sleeping| { SameDue(q, r, now, i + 1); }
  }

  lemma PartsApart(a: seq<Node>, b: seq<Node>, e: Node)
    requires NoDup(a + b) && e in a
    ensures e !in b
  {
    var i :| 0 <= i < |a| && a[i] == e;
    forall j | 0 <= j < |b| ensures b[j] != e { assert (a + b)[i] == e && (a + b)[|a| + j] == b[j]; }
  }

  lemma TickSleepers(q: Queues)
    requires QueuesOk(q)
    ensures forall e :: e in q.sleeping ==> e in q.tasks && e !in q.exited
  {
    SleepersApart(q);
    forall e | e in q.sleeping ensures e !in q.exited { OneQueue(q, e); }
  }

  /** What becomes of the tasks themselves: exited ones are collected by the timer, others keep their fields, except one
      that blocks. */
  ghost predicate TasksAfter(q: Queues, ev: Event, q': Queues) {
    && q'.tasks.Keys == q.tasks.Keys - (if ev.DoTick? then Elems(q.exited) else {})
    && forall e :: e in q'.tasks ==>
         q'.tasks[e].pid == q.tasks[e].pid && (!(ev.DoBlock? && e == q.current) ==> q'.tasks[e] == q.tasks[e])
  }

  /** The queues after a switching event, from those before it alone: i is the place of the first sleeper that is due.
      */
  ghost predicate QueuesAfter(q: Queues, ev: Event, i: nat, q': Queues)
    requires i <= |q.sleeping|
  {
    && q'.current == RunsNext(q, ev, i) && q'.idle == q.idle && q'.nextPid == q.nextPid
    && q'.ready == (if i < |q.sleeping| || |Line(q, ev)| == 0 then Line(q, ev) else Line(q, ev)[1..])
    && q'.sleeping == Sleepers(q, ev, i)
    && q'.exited == (if ev.DoTick? then [] else if ev.DoExit? then q.exited + [q.current] else q.exited)
  }

  ghost predicate SwitchedTo(q: Queues, ev: Event, i: nat, q': Queues)
    requires i <= |q.sleeping|
  {
    QueuesAfter(q, ev, i, q') && TasksAfter(q, ev, q')
  }

  /** The queues when the event is about to switch. */
  lemma AboutToSwitch(q: Queues, ev: Event, now: nat, i: nat)
    requires QueuesOk(q) && Enabled(q, ev) && Switches(ev) && FirstDueAt(q, now, i)
    ensures var b := Before(q, ev, now);
      && b.ready == Line(q, ev) && b.sleeping == q.sleeping + (if ev.DoBlock? then [q.current] else [])
      && FirstDue(b, now, 0) == (if i < |q.sleeping| then i else |b.sleeping|)
  {
    SleepersApart(q);
    TickSleepers(q);
    DueExists(q, now);
    assert FirstDue(q, now, 0) == i;
    if ev.DoBlock? { BlockedNotDue(q, ev, now, 0); } else { SameDue(q, Before(q, ev, now), now, 0); }
  }

  /** What a task waits for that has blocked: a finite timeout gives it no deadline. */
  ghost predicate Awaits(t: Task, ev: Event, now: nat) {
    ev.DoBlock? ==>
      && t.canrecv == ev.canrecv && t.cansend == ev.cansend
      && (ev.timeout == INFINITE ==> t.deadline == now + INFINITE) && (ev.timeout != INFINITE ==> t.deadline == 0)
  }

  /** What every switching event does to the queues. */
  lemma Switching(q: Queues, ev: Event, now: nat, i: nat)
    requires QueuesOk(q) && Enabled(q, ev) && Switches(ev) && FirstDueAt(q, now, i)
    ensures SwitchedTo(q, ev, i, Apply(q, ev, now))
    ensures var q' := Apply(q, ev, now); q.current in q'.tasks && Awaits(q'.tasks[q.current], ev, now)
  {
    SwitchingQueues(q, ev, now, i);
    SwitchingTasks(q, ev, now);
  }

  lemma SwitchingQueues(q: Queues, ev: Event, now: nat, i: nat)
    requires QueuesOk(q) && Enabled(q, ev) && Switches(ev) && FirstDueAt(q, now, i)
    ensures QueuesAfter(q, ev, i, Apply(q, ev, now))
  {
    AboutToSwitch(q, ev, now, i);
    OtherFields(q, ev, now);
    NextOf(q, ev, now, i, Before(q, ev, now));
  }

  lemma NextOf(q: Queues, ev: Event, now: nat, i: nat, b: Queues)
    requires i <= |q.sleeping| && b.ready == Line(q, ev) && b.idle == q.idle && b.nextPid == q.nextPid
    requires b.sleeping == q.sleeping + (if ev.DoBlock? then [q.current] else [])
    requires FirstDue(b, now, 0) == if i < |q.sleeping| then i else |b.sleeping|
    requires b.exited == if ev.DoTick? then [] else if ev.DoExit? then q.exited + [q.current] else q.exited
    ensures QueuesAfter(q, ev, i, SwitchNext(b, now))
  {
    if i < |q.sleeping| && ev.DoBlock? { assert DropAt(b.sleeping, i) == DropAt(q.sleeping, i) + [q.current]; }
  }

  lemma OtherFields(q: Queues, ev: Event, now: nat)
    requires QueuesOk(q) && Enabled(q, ev) && Switches(ev)
    ensures var b := Before(q, ev, now);
      && b.idle == q.idle && b.nextPid == q.nextPid
      && b.exited == (if ev.DoTick? then [] else if ev.DoExit? then q.exited + [q.current] else q.exited)
  {}

  lemma SwitchingTasks(q: Queues, ev: Event, now: nat)
    requires QueuesOk(q) && Enabled(q, ev) && Switches(ev)
    ensures var q' := Apply(q, ev, now);
      TasksAfter(q, ev, q') && q.current in q'.tasks && Awaits(q'.tasks[q.current], ev, now)
  {
    SleepersApart(q);
  }

  /** Of the sleepers s, in their order, those that wait to send to p, or those that do not. */
  ghost function Chosen(tasks: map<Node, Task>, s: seq<Node>, p: int, waits: bool): seq<Node> {
    if |s| == 0 then []
    else
      (if (s[0] in tasks && tasks[s[0]].cansend == p) == waits then [s[0]] else []) + Chosen(tasks, s[1..], p, waits)
  }

  lemma {:induction false} ChosenAre(tasks: map<Node, Task>, s: seq<Node>, p: int, waits: bool, e: Node)
    ensures e in Chosen(tasks, s, p, waits) <==> e in s && (e in tasks && tasks[e].cansend == p) == waits
  {
    if |s| > 0 {
      ChosenAre(tasks, s[1..], p, waits, e);
      assert s == [s[0]] + s[1..];
    }
  }

  /** wake_tasks_waiting_for_port moves exactly those that wait to send there, in their order, behind those that were
      ready; the others stay asleep in theirs. */
  lemma {:induction false} WakeWaitingIs(q: Queues, p: int, i: nat)
    requires i <= |q.sleeping|
    ensures WakeWaiting(q, p, i) ==
      q.(ready := q.ready + Chosen(q.tasks, q.sleeping[i..], p, true),
         sleeping := q.sleeping[..i] + Chosen(q.tasks, q.sleeping[i..], p, false))
    decreases |q.sleeping| - i
  {
    if i < |q.sleeping| {
      WakeWaitingStep(q, p, i);
      assert q.sleeping[i..][1..] == q.sleeping[i + 1..];
      if WaitsToSend(q, q.sleeping[i], p) {
        var w := WakeAt(q, i);
        WakeWaitingIs(w, p, i);
        assert w.sleeping[i..] == q.sleeping[i + 1..] && w.sleeping[..i] == q.sleeping[..i];
      } else {
        WakeWaitingIs(q, p, i + 1);
        assert q.sleeping[..i + 1] == q.sleeping[..i] + [q.sleeping[i]];
      }
    } else {
      assert q.sleeping[..i] == q.sleeping;
    }
  }

  /** Who becomes ready by an event that does not switch, and who is asleep after it. */
  ghost function Joins(q: Queues, ev: Event): seq<Node>
    requires Enabled(q, ev) && !Switches(ev)
  {
    match ev
    case DoFork(n) => [n]
    case DoWake(i) => [q.sleeping[i]]
    case DoWakeWaiting(p) => Chosen(q.tasks, q.sleeping, p, true)
  }

  ghost function StaysAsleep(q: Queues, ev: Event): seq<Node>
    requires Enabled(q, ev) && !Switches(ev)
  {
    match ev
    case DoFork(_) => q.sleeping
    case DoWake(i) => q.sleeping[..i] + q.sleeping[i + 1..]
    case DoWakeWaiting(p) => Chosen(q.tasks, q.sleeping, p, false)
  }

  /** What every other event does to the queues: who becomes ready joins the line at its end. A child has the next pid
      and waits for nothing. */
  lemma Joining(q: Queues, ev: Event, now: nat)
    requires QueuesOk(q) && Enabled(q, ev) && !Switches(ev)
    ensures var q' := Apply(q, ev, now);
      && q'.current == q.current && q'.idle == q.idle && q'.exited == q.exited
      && q'.ready == q.ready + Joins(q, ev) && q'.sleeping == StaysAsleep(q, ev)
      && (!ev.DoFork? ==> q'.tasks == q.tasks && q'.nextPid == q.nextPid)
      && (ev.DoFork? ==>
            && ev.n in q'.tasks && q'.tasks[ev.n].pid == q.nextPid && q'.tasks[ev.n].deadline == 0
            && q'.nextPid == q.nextPid + 1 && q'.tasks - {ev.n} == q.tasks)
  {
    if ev.DoWakeWaiting? {
      WakeWaitingIs(q, ev.p, 0);
      assert q.sleeping[0..] == q.sleeping;
    }
  }

  // ---- the places of a task ------------------------------------------------------------------------------------

  datatype Place = Running | Idling | Ready | Sleeping | Exited | Gone

  ghost function PlaceOf(q: Queues, e: Node): Place {
    if e !in q.tasks then Gone
    else if e == q.current then Running
    else if e == q.idle then Idling
    else if e in q.ready then Ready
    else if e in q.sleeping then Sleeping
    else Exited
  }

  /** The ways of a task other than the one that runs. */
  ghost predicate MayGo(ev: Event, e: Node, a: Place, b: Place) {
    match a
    case Running => b == a
    case Idling => b == a || (b == Running && Switches(ev))
    case Ready => b == a || (b == Running && Switches(ev))
    case Sleeping => b == a || (b == Running && Switches(ev)) || (b == Ready && (ev.DoWake? || ev.DoWakeWaiting?))
    case Exited => b == if ev.DoTick? then Gone else Exited
    case Gone => b == if ev == Event.DoFork(e) then Ready else Gone
  }

  /** The ways of the task that runs. */
  ghost predicate CallerGoes(ev: Event, idle: bool, b: Place) {
    match ev
    case DoExit => b == Exited
    case DoBlock(_, _, _) => b == Sleeping
    case DoYield => b == Ready || b == Running
    case DoTick => if idle then b == Idling || b == Running else b == Ready || b == Running
    case _ => b == Running
  }

  lemma PlaceIs(q: Queues, e: Node)
    requires QueuesOk(q)
    ensures PlaceOf(q, e) == Ready <==> e in q.ready
    ensures PlaceOf(q, e) == Sleeping <==> e in q.sleeping
    ensures PlaceOf(q, e) == Exited <==> e in q.exited
    ensures PlaceOf(q, e) == Running <==> e == q.current
  {
    SleepersApart(q);
    OneQueue(q, e);
    if e in q.tasks && e != q.current && e != q.idle {
      assert e in Elems(All(q));
      assert e in q.ready || e in q.sleeping || e in q.exited;
    }
  }

  /** A task is on one queue only. */
  lemma OneQueue(q: Queues, e: Node)
    requires QueuesOk(q)
    ensures !(e in q.ready && e in q.sleeping) && !(e in q.ready && e in q.exited)
    ensures !(e in q.sleeping && e in q.exited)
  {
    assert All(q) == q.ready + (q.sleeping + q.exited) == (q.ready + q.sleeping) + q.exited;
    if e in q.ready { PartsApart(q.ready, q.sleeping + q.exited, e); }
    if e in q.sleeping { PartsApart(q.ready + q.sleeping, q.exited, e); }
  }

  /** Every event moves every task along its ways, and no other. */
  lemma Goes(q: Queues, ev: Event, now: nat, e: Node)
    requires QueuesOk(q) && Enabled(q, ev)
    ensures var a, b := PlaceOf(q, e), PlaceOf(Apply(q, ev, now), e);
      if e == q.current then CallerGoes(ev, e == q.idle, b) else MayGo(ev, e, a, b)
  {
    ApplyKeeps(q, ev, now);
    SleepersApart(q);
    PlaceIs(q, e);
    PlaceIs(Apply(q, ev, now), e);
    if Switches(ev) {
      DueExists(q, now);
      Switching(q, ev, now, FirstDue(q, now, 0));
      GoesSwitching(q, ev, e, FirstDue(q, now, 0), Apply(q, ev, now));
    } else {
      GoesOther(q, ev, now, e);
    }
  }

  lemma GoesSwitching(q: Queues, ev: Event, e: Node, i: nat, q': Queues)
    requires QueuesOk(q) && QueuesOk(q') && Enabled(q, ev) && Switches(ev)
    requires i <= |q.sleeping| && SwitchedTo(q, ev, i, q')
    ensures var a, b := PlaceOf(q, e), PlaceOf(q', e);
      if e == q.current then CallerGoes(ev, e == q.idle, b) else MayGo(ev, e, a, b)
  {
    PlaceIs(q, e);
    PlaceIs(q', e);
    OneQueue(q, e);
    SleepersApart(q);
    StillSleeping(q, ev, i, e);
    StillReady(q, ev, i, e);
  }

  lemma StillSleeping(q: Queues, ev: Event, i: nat, e: Node)
    requires i <= |q.sleeping|
    ensures e in Sleepers(q, ev, i) ==> e in q.sleeping || (ev.DoBlock? && e == q.current)
    ensures e in q.sleeping && e !in Sleepers(q, ev, i) ==> e == RunsNext(q, ev, i)
    ensures ev.DoBlock? ==> q.current in Sleepers(q, ev, i)
  {
    if i < |q.sleeping| { DropKeeps(q.sleeping, i); }
  }

  lemma StillReady(q: Queues, ev: Event, i: nat, e: Node)
    requires i <= |q.sleeping|
    ensures var l := Line(q, ev); var r := if i < |q.sleeping| || |l| == 0 then l else l[1..];
      && (e in r ==> e in q.ready || (e == q.current && (ev.DoYield? || ev.DoTick?)))
      && (e in l ==> e in r || e == RunsNext(q, ev, i))
      && (e in q.ready ==> e in l) && ((ev.DoYield? || ev.DoTick?) && q.current != q.idle ==> q.current in l)
  {
    var l := Line(q, ev);
    if |l| > 0 { assert l == [l[0]] + l[1..]; }
  }

  lemma GoesOther(q: Queues, ev: Event, now: nat, e: Node)
    requires QueuesOk(q) && Enabled(q, ev) && !Switches(ev)
    ensures var a, b := PlaceOf(q, e), PlaceOf(Apply(q, ev, now), e);
      if e == q.current then b == Running else MayGo(ev, e, a, b)
  {
    ApplyKeeps(q, ev, now);
    SleepersApart(q);
    PlaceIs(q, e);
    PlaceIs(Apply(q, ev, now), e);
    match ev
    case DoFork(n) =>
    case DoWake(i) => DropKeeps(q.sleeping, i);
    case DoWakeWaiting(p) =>
      WakeWaitingKeeps(q, p, 0);
      WakeWaitingMoves(q, p, e);
  }

  /** Who is ready and who sleeps after the waiting have been woken. */
  lemma WakeWaitingMoves(q: Queues, p: int, e: Node)
    ensures var q' := WakeWaiting(q, p, 0);
      && (e in q'.ready <==> e in q.ready || (e in q.sleeping && WaitsToSend(q, e, p)))
      && (e in q'.sleeping <==> e in q.sleeping && !WaitsToSend(q, e, p))
  {
    WakeWaitingIs(q, p, 0);
    assert q.sleeping[0..] == q.sleeping;
    ChosenAre(q.tasks, q.sleeping, p, true, e);
    ChosenAre(q.tasks, q.sleeping, p, false, e);
  }

  // ---- pids -----------------------------------------------------------------------------------------------------

  ghost function Forks(evs: seq<(Event, nat)>): nat {
    if |evs| == 0 then 0 else (if evs[0].0.DoFork? then 1 else 0) + Forks(evs[1..])
  }

  /** Over every run the pids are given out in order, one to each child: how many children there were can be read off
      the next pid. */
  lemma {:induction false} PidsInOrder(q: Queues, evs: seq<(Event, nat)>)
    requires RunOk(q, evs) && QueuesOk(q)
    ensures After(q, evs).nextPid == q.nextPid + Forks(evs)
    decreases |evs|
  {
    if |evs| > 0 {
      var ev, now := evs[0].0, evs[0].1;
      ApplyKeeps(q, ev, now);
      DueExists(q, now);
      if Switches(ev) { Switching(q, ev, now, FirstDue(q, now, 0)); } else { Joining(q, ev, now); }
      PidsInOrder(Apply(q, ev, now), evs[1..]);
    }
  }

  // ---- after the exit ---------------------------------------------------------------------------------------------

  /** pid has been given out, and no task that has not exited has it. */
  ghost predicate Dead(q: Queues, pid: int) { pid < q.nextPid && !Alive(q, pid) }

  lemma CurrentAlive(q: Queues)
    requires QueuesOk(q)
    ensures q.current in q.tasks && Alive(q, q.tasks[q.current].pid)
  {
    SleepersApart(q);
    assert q.current !in q.exited;
  }

  /** One that is alive after an event was so before it, or is the child of a fork. */
  lemma AliveBefore(q: Queues, ev: Event, now: nat, pid: int)
    requires QueuesOk(q) && Enabled(q, ev) && Alive(Apply(q, ev, now), pid)
    ensures Alive(q, pid) || (ev.DoFork? && pid == q.nextPid)
    ensures q.nextPid <= Apply(q, ev, now).nextPid
  {
    var q' := Apply(q, ev, now);
    var e :| e in q'.tasks && e !in q'.exited && q'.tasks[e].pid == pid;
    ApplyKeeps(q, ev, now);
    Goes(q, ev, now, e);
    PlaceIs(q, e);
    PlaceIs(q', e);
    SleepersApart(q);
    DueExists(q, now);
    if Switches(ev) { Switching(q, ev, now, FirstDue(q, now, 0)); }
    if ev.DoWakeWaiting? { WakeWaitingKeeps(q, ev.p, 0); }
    if e in q.tasks { assert e !in q.exited; }
  }

  /** The dead stay dead over every run: their pid never runs again. */
  lemma {:induction false} DeadForever(q: Queues, evs: seq<(Event, nat)>, pid: int)
    requires RunOk(q, evs) && QueuesOk(q) && Dead(q, pid)
    ensures QueuesOk(After(q, evs)) && Dead(After(q, evs), pid)
    ensures var q' := After(q, evs); q'.current in q'.tasks && q'.tasks[q'.current].pid != pid
    decreases |evs|
  {
    if |evs| > 0 {
      var ev, now := evs[0].0, evs[0].1;
      ApplyKeeps(q, ev, now);
      NextPidGrows(q, ev, now);
      if Alive(Apply(q, ev, now), pid) { AliveBefore(q, ev, now, pid); }
      DeadForever(Apply(q, ev, now), evs[1..], pid);
    } else {
      CurrentAlive(q);
    }
  }

  lemma NextPidGrows(q: Queues, ev: Event, now: nat)
    requires QueuesOk(q) && Enabled(q, ev)
    ensures q.nextPid <= Apply(q, ev, now).nextPid
  {
    if ev.DoWakeWaiting? { WakeWaitingKeeps(q, ev.p, 0); }
  }

  /** A task that exits is on the exited queue, last, and dead. */
  lemma ExitKills(q: Queues, now: nat)
    requires QueuesOk(q) && q.current != q.idle
    ensures var q', e := Apply(q, Event.DoExit, now), q.current;
      && e in q.tasks && PlaceOf(q', e) == Exited && q'.exited == q.exited + [e] && q'.current != e
      && Dead(q', q.tasks[e].pid)
  {
    var q', e := Apply(q, Event.DoExit, now), q.current;
    ApplyKeeps(q, Event.DoExit, now);
    Goes(q, Event.DoExit, now, e);
    PlaceIs(q', e);
    SleepersApart(q);
    DueExists(q, now);
    Switching(q, Event.DoExit, now, FirstDue(q, now, 0));
    forall a | a in q'.tasks && a !in q'.exited ensures q'.tasks[a].pid != q.tasks[e].pid { assert a != e; }
  }

  /** So over every run that starts with an exit, whatever follows, the pid of the caller never runs again. */
  lemma ExitIsFinal(q: Queues, now: nat, evs: seq<(Event, nat)>)
    requires QueuesOk(q) && q.current != q.idle && RunOk(q, [(Event.DoExit, now)] + evs)
    ensures q.current in q.tasks
    ensures var q' := After(q, [(Event.DoExit, now)] + evs);
      Dead(q', q.tasks[q.current].pid) && q'.current in q'.tasks && q'.tasks[q'.current].pid != q.tasks[q.current].pid
  {
    var all := [(Event.DoExit, now)] + evs;
    assert all[0] == (Event.DoExit, now) && all[1..] == evs;
    ApplyKeeps(q, Event.DoExit, now);
    ExitKills(q, now);
    DeadForever(Apply(q, Event.DoExit, now), evs, q.tasks[q.current].pid);
  }

  /** The run has no timer interrupt. */
  ghost predicate NoTick(evs: seq<(Event, nat)>) { forall i :: 0 <= i < |evs| ==> !evs[i].0.DoTick? }

  /** Until the next timer interrupt an exited task stays on its queue. */
  lemma {:induction false} StaysExited(q: Queues, evs: seq<(Event, nat)>, e: Node)
    requires RunOk(q, evs) && QueuesOk(q) && e in q.exited && NoTick(evs)
    ensures QueuesOk(After(q, evs)) && e in After(q, evs).exited
    decreases |evs|
  {
    if |evs| > 0 {
      var ev, now := evs[0].0, evs[0].1;
      ApplyKeeps(q, ev, now);
      PlaceIs(q, e);
      SleepersApart(q);
      Goes(q, ev, now, e);
      PlaceIs(Apply(q, ev, now), e);
      StaysExited(Apply(q, ev, now), evs[1..], e);
    }
  }

  /** The timer interrupt frees the exited tasks, and no other. */
  lemma TickCollects(q: Queues, now: nat)
    requires QueuesOk(q)
    ensures var q' := Apply(q, DoTick, now); q'.exited == [] && q'.tasks.Keys == q.tasks.Keys - Elems(q.exited)
  {
    DueExists(q, now);
    Switching(q, DoTick, now, FirstDue(q, now, 0));
  }
}
