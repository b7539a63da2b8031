/** The numbers that portopen gives out: when they are all different, and a port is found by its number. */
module PortNumbers {
  import opened Basics
  import opened Lists
  import opened Queues
  import opened Messages
  import opened Ipc
  import opened Rendezvous

  const FIRST_NUMBER := 32

  ghost predicate AllDifferent(ports: seq<Port>) {
    forall i, j :: 0 <= i < j < |ports| ==> ports[i].number != ports[j].number
  }

  /** How many ports have the number x. */
  ghost function Count(ports: seq<Port>, x: int): nat {
    if |ports| == 0 then 0
    else Count(ports[..|ports| - 1], x) + if ports[|ports| - 1].number == x then 1 else 0
  }

  lemma {:induction false} CountIs(ports: seq<Port>, x: int)
    ensures Count(ports, x) > 0 <==> exists i :: 0 <= i < |ports| && ports[i].number == x
  {
    if |ports| > 0 {
      var p := ports[..|ports| - 1];
      CountIs(p, x);
      if i :| 0 <= i < |ports| && ports[i].number == x { assert i < |p| ==> p[i] == ports[i]; }
      if i :| 0 <= i < |p| && p[i].number == x { assert ports[i] == p[i]; }
    }
  }

  ghost predicate CountedOnce(ports: seq<Port>) { forall x :: Count(ports, x) <= 1 }

  /** All numbers are different exactly if none is counted twice. */
  lemma {:induction false} DifferentCounts(ports: seq<Port>)
    ensures AllDifferent(ports) <==> CountedOnce(ports)
  {
    if |ports| > 0 {
      var p, n := ports[..|ports| - 1], ports[|ports| - 1].number;
      DifferentCounts(p);
      CountIs(p, n);
      assert forall i :: 0 <= i < |p| ==> p[i] == ports[i];
      if AllDifferent(ports) {
        forall x ensures Count(ports, x) <= 1 { assert Count(p, x) <= 1; }
      }
      if CountedOnce(ports) {
        forall x ensures Count(p, x) <= 1 { assert Count(ports, x) <= 1; }
        assert Count(ports, n) <= 1;
        forall i, j | 0 <= i < j < |ports| ensures ports[i].number != ports[j].number {
          assert p[i] == ports[i];
        }
      }
    }
  }

  lemma {:induction false} SameCounts(ports: seq<Port>, ports': seq<Port>, x: int)
    requires |ports'| == |ports| && forall i :: 0 <= i < |ports| ==> ports'[i].number == ports[i].number
    ensures Count(ports', x) == Count(ports, x)
  {
    if |ports| > 0 { SameCounts(ports[..|ports| - 1], ports'[..|ports| - 1], x); }
  }

  // ---- one step ---------------------------------------------------------------------------------------------

  /** The ports are those that were asked for by a number in asked, and one for each number given out from 32 on. */
  ghost predicate Numbered(k: Kernel, asked: set<int>) {
    && k.nextPort >= FIRST_NUMBER && (forall n :: n in asked ==> n != NO_PORT && n % 32 in k.reserved)
    && forall x ::
         Count(k.ports, x) == (if x in asked then 1 else 0) + (if FIRST_NUMBER <= x < k.nextPort then 1 else 0)
  }

  /** Opens a port under the number that it asks for. */
  ghost predicate Grants(k: Kernel, c: Call) { c.DoOpen? && c.n != NO_PORT && c.n % 32 !in k.reserved }

  ghost predicate SameNumbering(k: Kernel, k': Kernel) {
    && k'.nextPort == k.nextPort && k'.reserved == k.reserved && |k'.ports| == |k.ports|
    && forall i :: 0 <= i < |k.ports| ==> k'.ports[i].number == k.ports[i].number
  }

  lemma LoopNumbering(k: Kernel, i: nat, n: int, size: nat, now: nat)
    requires i < |k.ports| && k.q.current in k.q.tasks
    ensures SameNumbering(k, RecvLoop(k, i, n, size, now)) && SameNumbering(k, PollLoop(k, i, n, now))
  {}

  lemma SendNumbering(k: Kernel, n: int, m: Message, now: nat)
    requires k.q.current in k.q.tasks
    ensures SameNumbering(k, SendLoop(k, n, m, now))
  {}

  /** Only portopen changes the numbers. */
  lemma StepNumbering(k: Kernel, c: Call, now: nat)
    requires k.q.current in k.q.tasks && !c.DoOpen?
    ensures SameNumbering(k, Step(k, c, now))
  {
    match c {
      case DoSend(n, m) => SendNumbering(k, n, m, now);
      case DoRecv(n, size) =>
        if PortGet(k.ports, n) < |k.ports| { LoopNumbering(k, PortGet(k.ports, n), n, size, now); }
      case DoPoll(n) =>
        if PortGet(k.ports, n) < |k.ports| { LoopNumbering(k, PortGet(k.ports, n), n, 0, now); }
      case Continue => ContinueNumbering(k, now);
      case _ =>
    }
  }

  lemma ContinueNumbering(k: Kernel, now: nat)
    requires k.q.current in k.q.tasks
    ensures SameNumbering(k, Step(k, Continue, now))
  {
    match ContOf(k, k.q.current) {
      case SendOpen(n, m) => SendNumbering(k, n, m, now);
      case RecvWait(i, n, size) => if i < |k.ports| { LoopNumbering(k, i, n, size, now); }
      case PollWait(i, n) => if i < |k.ports| { LoopNumbering(k, i, n, 0, now); }
      case _ =>
    }
  }

  lemma OpenNumbered(k: Kernel, n: int, asked: set<int>)
    requires Numbered(k, asked)
    ensures Numbered(Open(k, n), asked + if Grants(k, DoOpen(n)) then {n} else {})
  {
    var k' := Open(k, n);
    if |k'.ports| > |k.ports| {
      assert k'.ports[..|k'.ports| - 1] == k.ports;
      forall x ensures Count(k'.ports, x) == Count(k.ports, x) + if k'.ports[|k.ports|].number == x then 1 else 0 {}
    }
  }

  lemma StepNumbered(k: Kernel, c: Call, now: nat, asked: set<int>)
    requires k.q.current in k.q.tasks && Numbered(k, asked)
    ensures Numbered(Step(k, c, now), asked + if Grants(k, c) then {c.n} else {})
  {
    if c.DoOpen? {
      OpenNumbered(k, c.n, asked);
    } else {
      StepNumbering(k, c, now);
      var k' := Step(k, c, now);
      forall x ensures Count(k'.ports, x) == Count(k.ports, x) { SameCounts(k.ports, k'.ports, x); }
    }
  }

  /** A new port is last in the list, and port_get leads to it exactly if its number is not negative and no port had
      it. */
  lemma OpenFinds(k: Kernel, n: int, now: nat)
    requires k.q.current in k.q.tasks && (n == NO_PORT || n % 32 !in k.reserved)
    ensures var ports, m := Step(k, DoOpen(n), now).ports, if n == NO_PORT then k.nextPort else n;
      && ports == k.ports + [Port(m, Pid(k.q, k.q.current), [], [], [])]
      && (PortGet(ports, m) == |k.ports| <==> m >= 0 && forall i :: 0 <= i < |k.ports| ==> k.ports[i].number != m)
  {
    var ports, m := Step(k, DoOpen(n), now).ports, if n == NO_PORT then k.nextPort else n;
    if m >= 0 { FoundLast(k.ports, ports[|k.ports|], 0); }
  }

  lemma {:induction false} FoundLast(ports: seq<Port>, p: Port, i: nat)
    requires i <= |ports|
    ensures PortAt(ports + [p], p.number, i) == |ports| <==>
      forall j :: i <= j < |ports| ==> ports[j].number != p.number
    decreases |ports| - i
  {
    if i < |ports| {
      assert (ports + [p])[i] == ports[i];
      if ports[i].number != p.number { FoundLast(ports, p, i + 1); }
    } else {
      assert (ports + [p])[i] == p;
    }
  }

  // ---- runs ---------------------------------------------------------------------------------------------------

  /** The numbers that were asked for and granted over a run. */
  ghost function Asked(k: Kernel, tr: seq<(Call, nat)>): set<int>
    decreases |tr|
  {
    if |tr| == 0 then {}
    else if Possible(k, tr[0].0) && k.q.current in k.q.tasks then
      (if Grants(k, tr[0].0) then {tr[0].0.n} else {}) + Asked(Step(k, tr[0].0, tr[0].1), tr[1..])
    else Asked(k, tr[1..])
  }

  lemma {:induction false} RunNumbered(k: Kernel, tr: seq<(Call, nat)>, asked: set<int>)
    requires Numbered(k, asked)
    ensures Numbered(Run(k, tr), asked + Asked(k, tr))
    decreases |tr|
  {
    if |tr| == 0 {
      assert asked + {} == asked;
    } else if Possible(k, tr[0].0) && k.q.current in k.q.tasks {
      var more := if Grants(k, tr[0].0) then {tr[0].0.n} else {};
      var k1 := Step(k, tr[0].0, tr[0].1);
      StepNumbered(k, tr[0].0, tr[0].1, asked);
      RunNumbered(k1, tr[1..], asked + more);
      assert asked + more + Asked(k1, tr[1..]) == asked + (more + Asked(k1, tr[1..]));
    } else {
      RunNumbered(k, tr[1..], asked);
    }
  }

  /** The ports at boot. */
  ghost predicate NoPorts(k: Kernel) { k.ports == [] && k.reserved == {} && k.nextPort == FIRST_NUMBER }

  /** None of the numbers is one of those given out so far. */
  ghost predicate Apart(asked: set<int>, next: int) { forall n :: n in asked ==> !(FIRST_NUMBER <= n < next) }

  /** Over every run from boot: all ports have different numbers if and only if no number that was asked for and
      granted is one of those given out from 32 on. Asking for a number twice never makes a difference. */
  lemma NumbersDiffer(k: Kernel, tr: seq<(Call, nat)>)
    requires NoPorts(k)
    ensures AllDifferent(Run(k, tr).ports) <==> Apart(Asked(k, tr), Run(k, tr).nextPort)
  {
    assert Numbered(k, {});
    RunNumbered(k, tr, {});
    var k', asked := Run(k, tr), Asked(k, tr);
    assert {} + asked == asked;
    DifferentCounts(k'.ports);
    if AllDifferent(k'.ports) {
      forall n | n in asked ensures !(FIRST_NUMBER <= n < k'.nextPort) { assert Count(k'.ports, n) <= 1; }
    } else {
      assert !CountedOnce(k'.ports);
      var x :| Count(k'.ports, x) > 1;
      assert x in asked && FIRST_NUMBER <= x < k'.nextPort;
    }
  }

  /** No call asks for a number from 32 on. */
  ghost predicate AsksLow(tr: seq<(Call, nat)>) {
    forall i :: 0 <= i < |tr| && tr[i].0.DoOpen? ==> tr[i].0.n < FIRST_NUMBER
  }

  lemma {:induction false} AskedLow(k: Kernel, tr: seq<(Call, nat)>)
    requires AsksLow(tr)
    ensures forall n :: n in Asked(k, tr) ==> n < FIRST_NUMBER
    decreases |tr|
  {
    if |tr| > 0 {
      if Possible(k, tr[0].0) && k.q.current in k.q.tasks { AskedLow(Step(k, tr[0].0, tr[0].1), tr[1..]); }
      else { AskedLow(k, tr[1..]); }
    }
  }

  /** As the call demands, requests are below 32 or leave the number open: then all numbers differ, the next number
      given out is one that no port has, and port_get leads to each port by its number. */
  lemma LowNumbers(k: Kernel, tr: seq<(Call, nat)>)
    requires NoPorts(k) && AsksLow(tr)
    ensures var k' := Run(k, tr);
      && AllDifferent(k'.ports) && (forall i :: 0 <= i < |k'.ports| ==> k'.ports[i].number != k'.nextPort)
      && forall i :: 0 <= i < |k'.ports| && k'.ports[i].number >= 0 ==> PortGet(k'.ports, k'.ports[i].number) == i
  {
    var k' := Run(k, tr);
    AskedLow(k, tr);
    NumbersDiffer(k, tr);
    assert Numbered(k, {});
    RunNumbered(k, tr, {});
    assert {} + Asked(k, tr) == Asked(k, tr);
    assert Count(k'.ports, k'.nextPort) == 0;
    CountIs(k'.ports, k'.nextPort);
    forall i | 0 <= i < |k'.ports| && k'.ports[i].number >= 0 ensures PortGet(k'.ports, k'.ports[i].number) == i {
      FoundAt(k'.ports, i, 0);
    }
  }

  lemma {:induction false} FoundAt(ports: seq<Port>, i: nat, j: nat)
    requires AllDifferent(ports) && j <= i < |ports|
    ensures PortAt(ports, ports[i].number, j) == i
    decreases i - j
  {
    if j < i { FoundAt(ports, i, j + 1); }
  }

  /** A request for 33 is granted; the second number given out after it is 33 again. */
  lemma SameNumberTwice()
    ensures var k := Run(Boot(), [(DoOpen(33), 0), (DoOpen(NO_PORT), 0), (DoOpen(NO_PORT), 0)]);
      !k.halted && |k.ports| == 3 && k.ports[0].number == 33 && k.ports[1].number == 32 && k.ports[2].number == 33
  {
    var t3: seq<(Call, nat)> := [(DoOpen(NO_PORT), 0)] + [];
    var t2 := [(DoOpen(NO_PORT), 0)] + t3;
    var k1 := Step(Boot(), DoOpen(33), 0);
    var k2 := Step(k1, DoOpen(NO_PORT), 0);
    assert [(DoOpen(33), 0), (DoOpen(NO_PORT), 0), (DoOpen(NO_PORT), 0)] == [(DoOpen(33), 0)] + t2;
    RunFirst(Boot(), DoOpen(33), 0, t2);
    RunFirst(k1, DoOpen(NO_PORT), 0, t3);
    RunFirst(k2, DoOpen(NO_PORT), 0, []);
  }
}
