/** The scheduler's queues as the linked lists they are: every operation on the pointers does what Queues says. */
module Scheduler {
  import opened Basics
  import opened Lists
  import opened Queues

  ghost predicate OnNone(qs: seq<seq<Node>>, e: Node) {
    forall i :: 0 <= i < |qs| ==> e !in qs[i]
  }

  /** The lists ls run through the sequences qs, which share no element; nodes on no list have null links. */
  ghost predicate Rep(k: Links, ls: seq<List>, qs: seq<seq<Node>>, nodes: set<Node>) {
    && |ls| == 3 && |qs| == 3
    && (forall i :: 0 <= i < 3 ==> ListOk(ls[i], k, qs[i]))
    && (forall i, j :: 0 <= i < j < 3 ==> Elems(qs[i]) !! Elems(qs[j]))
    && (forall e :: e in nodes && OnNone(qs, e) ==> Detached(k, e))
  }

  lemma RepAppend(k: Links, ls: seq<List>, qs: seq<seq<Node>>, nodes: set<Node>, i: nat, e: Node)
    requires Rep(k, ls, qs, nodes) && i < 3 && e != 0 && e in nodes && OnNone(qs, e)
    ensures var (l', k') := Append(ls[i], k, e); Rep(k', ls[i := l'], qs[i := qs[i] + [e]], nodes)
  {
    var (l', k') := Append(ls[i], k, e);
    AppendOk(ls[i], k, qs[i], e);
    var qs' := qs[i := qs[i] + [e]];
    assert Elems(qs[i] + [e]) == Elems(qs[i]) + {e};
    forall j | 0 <= j < 3 ensures ListOk(ls[i := l'][j], k', qs'[j]) {
      if j != i { ListFrame(ls[j], k, k', qs[j], Elems(qs[i]) + {e}); }
    }
    forall a | a in nodes && OnNone(qs', a) ensures Detached(k', a) {
      assert a !in qs'[i];
      forall j | 0 <= j < 3 ensures a !in qs[j] { assert qs[j] <= qs'[j]; }
    }
  }

  lemma RepRemove(k: Links, ls: seq<List>, qs: seq<seq<Node>>, nodes: set<Node>, i: nat, j: nat)
    requires Rep(k, ls, qs, nodes) && i < 3 && j < |qs[i]|
    ensures var (l', k') := Remove(ls[i], k, qs[i][j]); Rep(k', ls[i := l'], qs[i := DropAt(qs[i], j)], nodes)
    ensures OnNone(qs[i := DropAt(qs[i], j)], qs[i][j])
  {
    var e := qs[i][j];
    var (l', k') := Remove(ls[i], k, e);
    RemoveOk(ls[i], k, qs[i], j);
    DropElems(qs[i], j);
    var qs' := qs[i := DropAt(qs[i], j)];
    forall m | 0 <= m < 3 ensures ListOk(ls[i := l'][m], k', qs'[m]) {
      if m != i { ListFrame(ls[m], k, k', qs[m], Elems(qs[i])); }
    }
    forall m | 0 <= m < 3 ensures e !in qs'[m] {
      assert e in Elems(qs[i]);
      if m != i { assert e !in Elems(qs[m]); }
    }
    forall a | a in nodes && a != e && OnNone(qs', a) ensures Detached(k', a) {
      assert a !in qs'[i] && a !in Elems(qs[i]);
      forall m | 0 <= m < 3 ensures a !in qs[m] { if m != i { assert a !in qs'[m]; } }
    }
  }

  function Qs(q: Queues): seq<seq<Node>> { [q.ready, q.sleeping, q.exited] }

  // ---- the three queues by name ------------------------------------------------------------------------

  /** Mentioning Peek(0) opens the definition that is guarded by it. */
  ghost predicate Peek(n: nat) { n >= 0 }

  /** The three lists are those of q. The guard keeps the links out of proofs that do not follow them. */
  ghost predicate Tied(k: Links, r: List, s: List, x: List, q: Queues, nodes: set<Node>) {
    forall n: nat {:trigger Peek(n)} :: Peek(n) ==> Rep(k, [r, s, x], Qs(q), nodes)
  }

  lemma Untie(k: Links, r: List, s: List, x: List, q: Queues, nodes: set<Node>)
    requires Tied(k, r, s, x, q, nodes)
    ensures Rep(k, [r, s, x], Qs(q), nodes)
  {
    assert Peek(0);
  }

  lemma QueueLists(k: Links, r: List, s: List, x: List, q: Queues, nodes: set<Node>)
    requires Tied(k, r, s, x, q, nodes)
    ensures ListOk(r, k, q.ready) && ListOk(s, k, q.sleeping) && ListOk(x, k, q.exited)
  {
    Untie(k, r, s, x, q, nodes);
    assert ListOk([r, s, x][0], k, Qs(q)[0]) && ListOk([r, s, x][1], k, Qs(q)[1]);
    assert ListOk([r, s, x][2], k, Qs(q)[2]);
  }

  /** Only queue heads and their successors matter to a walk. */
  lemma ExitedLinks(k: Links, r: List, s: List, x: List, q: Queues, nodes: set<Node>)
    requires Tied(k, r, s, x, q, nodes)
    ensures x.head == if |q.exited| == 0 then 0 else q.exited[0]
    ensures |q.exited| > 0 ==>
      q.exited[0] != 0 && Next(k, q.exited[0]) == if |q.exited| == 1 then 0 else q.exited[1]
  {
    QueueLists(k, r, s, x, q, nodes);
    if |q.exited| > 0 { RemoveLinks(x, k, q.exited, 0); }
  }

  lemma ReadyHead(k: Links, r: List, s: List, x: List, q: Queues, nodes: set<Node>)
    requires Tied(k, r, s, x, q, nodes)
    ensures r.head == (if |q.ready| == 0 then 0 else q.ready[0]) && (|q.ready| > 0 ==> q.ready[0] != 0)
  {
    QueueLists(k, r, s, x, q, nodes);
  }

  lemma DropFirst(s: seq<Node>)
    requires |s| > 0
    ensures DropAt(s, 0) == s[1..]
  {}

  lemma ReadyQueue(q: Queues, s: seq<Node>)
    ensures Qs(q)[0 := s] == Qs(q.(ready := s))
  {}

  lemma ReadyHeadGone(k: Links, r: List, s: List, x: List, q: Queues, nodes: set<Node>)
    requires Tied(k, r, s, x, q, nodes) && |q.ready| > 0
    ensures var (l, k') := Remove(r, k, q.ready[0]); Tied(k', l, s, x, q.(ready := q.ready[1..]), nodes)
  {
    DropFirst(q.ready);
    ReadyQueue(q, q.ready[1..]);
    var (l, k') := Remove(r, k, q.ready[0]);
    assert [r, s, x][0 := l] == [l, s, x];
    Untie(k, r, s, x, q, nodes);
    RepRemove(k, [r, s, x], Qs(q), nodes, 0, 0);
  }

  lemma SleeperGone(k: Links, r: List, s: List, x: List, q: Queues, nodes: set<Node>, i: nat)
    requires Tied(k, r, s, x, q, nodes) && i < |q.sleeping|
    ensures var (l, k') := Remove(s, k, q.sleeping[i]); var q' := q.(sleeping := DropAt(q.sleeping, i));
      Tied(k', r, l, x, q', nodes) && OnNone(Qs(q'), q.sleeping[i])
  {
    Untie(k, r, s, x, q, nodes);
    RepRemove(k, [r, s, x], Qs(q), nodes, 1, i);
    var (l, k') := Remove(s, k, q.sleeping[i]);
    assert [r, s, x][1 := l] == [r, l, x];
    assert Qs(q)[1 := DropAt(q.sleeping, i)] == Qs(q.(sleeping := DropAt(q.sleeping, i)));
  }

  lemma ReadyAdded(k: Links, r: List, s: List, x: List, q: Queues, nodes: set<Node>, e: Node)
    requires Tied(k, r, s, x, q, nodes) && e != 0 && e in nodes && OnNone(Qs(q), e)
    ensures var (l, k') := Append(r, k, e); Tied(k', l, s, x, q.(ready := q.ready + [e]), nodes)
  {
    Untie(k, r, s, x, q, nodes);
    RepAppend(k, [r, s, x], Qs(q), nodes, 0, e);
    var (l, k') := Append(r, k, e);
    assert [r, s, x][0 := l] == [l, s, x] && Qs(q)[0 := q.ready + [e]] == Qs(q.(ready := q.ready + [e]));
  }

  lemma SleeperAdded(k: Links, r: List, s: List, x: List, q: Queues, nodes: set<Node>, e: Node)
    requires Tied(k, r, s, x, q, nodes) && e != 0 && e in nodes && OnNone(Qs(q), e)
    ensures var (l, k') := Append(s, k, e); Tied(k', r, l, x, q.(sleeping := q.sleeping + [e]), nodes)
  {
    Untie(k, r, s, x, q, nodes);
    RepAppend(k, [r, s, x], Qs(q), nodes, 1, e);
    var (l, k') := Append(s, k, e);
    assert [r, s, x][1 := l] == [r, l, x] && Qs(q)[1 := q.sleeping + [e]] == Qs(q.(sleeping := q.sleeping + [e]));
  }

  lemma ExitedAdded(k: Links, r: List, s: List, x: List, q: Queues, nodes: set<Node>, e: Node)
    requires Tied(k, r, s, x, q, nodes) && e != 0 && e in nodes && OnNone(Qs(q), e)
    ensures var (l, k') := Append(x, k, e); Tied(k', r, s, l, q.(exited := q.exited + [e]), nodes)
  {
    Untie(k, r, s, x, q, nodes);
    RepAppend(k, [r, s, x], Qs(q), nodes, 2, e);
    var (l, k') := Append(x, k, e);
    assert [r, s, x][2 := l] == [r, s, l] && Qs(q)[2 := q.exited + [e]] == Qs(q.(exited := q.exited + [e]));
  }

  /** The i-th element, or null behind the last. */
  ghost function At(s: seq<Node>, i: nat): Node { if i < |s| then s[i] else 0 }

  /** The sleeping queue's pointers: its head, and what follows its i-th element. */
  lemma SleepingLinks(k: Links, r: List, s: List, x: List, q: Queues, nodes: set<Node>, i: nat)
    requires Tied(k, r, s, x, q, nodes)
    ensures s.head == At(q.sleeping, 0)
    ensures i < |q.sleeping| ==> q.sleeping[i] != 0 && Next(k, q.sleeping[i]) == At(q.sleeping, i + 1)
  {
    QueueLists(k, r, s, x, q, nodes);
    if i < |q.sleeping| { RemoveLinks(s, k, q.sleeping, i); }
  }

  /** The first exited task leaves its queue and the set of nodes. */
  lemma ExitedHeadGone(k: Links, r: List, s: List, x: List, q: Queues, nodes: set<Node>, tasks: map<Node, Task>)
    requires Tied(k, r, s, x, q, nodes) && |q.exited| > 0
    ensures var e := q.exited[0]; var (l, k') := Remove(x, k, e);
      Tied(k', r, s, l, q.(exited := q.exited[1..], tasks := tasks), nodes - {e})
  {
    DropFirst(q.exited);
    var (l, k') := Remove(x, k, q.exited[0]);
    assert [r, s, x][2 := l] == [r, s, l];
    assert Qs(q)[2 := q.exited[1..]] == Qs(q.(exited := q.exited[1..], tasks := tasks));
    Untie(k, r, s, x, q, nodes);
    RepRemove(k, [r, s, x], Qs(q), nodes, 2, 0);
  }

  // ---- scheduler_perform_checks --------------------------------------------------------------------------

  /** The bits that a walk over s sets. */
  ghost function BitsOf(tasks: map<Node, Task>, s: seq<Node>): set<int> {
    if |s| == 0 then {} else BitsOf(tasks, s[..|s| - 1]) + ShiftBits(Bit(tasks, s[|s| - 1]))
  }

  function Bit(tasks: map<Node, Task>, e: Node): int { if e in tasks then tasks[e].pid else 0 }

  /** A walk over s that starts with the bits seen meets none of them twice. */
  ghost predicate Apart(tasks: map<Node, Task>, s: seq<Node>, seen: set<int>) {
    |s| == 0 || (&& Apart(tasks, s[..|s| - 1], seen)
                 && ShiftBits(Bit(tasks, s[|s| - 1])) !! seen + BitsOf(tasks, s[..|s| - 1]))
  }

  lemma WalkOn(tasks: map<Node, Task>, s: seq<Node>, seen: set<int>, i: nat)
    requires i < |s|
    ensures BitsOf(tasks, s[..i + 1]) == BitsOf(tasks, s[..i]) + ShiftBits(Bit(tasks, s[i]))
    ensures Apart(tasks, s[..i + 1], seen) <==>
      Apart(tasks, s[..i], seen) && ShiftBits(Bit(tasks, s[i])) !! seen + BitsOf(tasks, s[..i])
  {
    assert s[..i + 1][..i] == s[..i];
  }

  lemma {:induction false} ApartPrefix(tasks: map<Node, Task>, s: seq<Node>, seen: set<int>, i: nat)
    requires i <= |s| && Apart(tasks, s, seen)
    ensures Apart(tasks, s[..i], seen)
  {
    if i < |s| {
      assert s[..|s| - 1][..i] == s[..i];
      ApartPrefix(tasks, s[..|s| - 1], seen, i);
    } else {
      assert s[..i] == s;
    }
  }

  lemma {:induction false} ApartJoin(tasks: map<Node, Task>, s: seq<Node>, t: seq<Node>, seen: set<int>)
    ensures BitsOf(tasks, s + t) == BitsOf(tasks, s) + BitsOf(tasks, t)
    ensures Apart(tasks, s + t, seen) <==> Apart(tasks, s, seen) && Apart(tasks, t, seen + BitsOf(tasks, s))
    decreases |t|
  {
    if |t| == 0 {
      assert s + t == s;
    } else {
      var u := t[..|t| - 1];
      assert (s + t)[..|s + t| - 1] == s + u;
      ApartJoin(tasks, s, u, seen);
    }
  }

  lemma {:induction false} BitIn(tasks: map<Node, Task>, s: seq<Node>, b: int)
    ensures b in BitsOf(tasks, s) <==> exists i :: 0 <= i < |s| && b in ShiftBits(Bit(tasks, s[i]))
  {
    if |s| > 0 {
      var p := s[..|s| - 1];
      BitIn(tasks, p, b);
      if b in BitsOf(tasks, p) {
        var i :| 0 <= i < |p| && b in ShiftBits(Bit(tasks, p[i]));
        assert b in ShiftBits(Bit(tasks, s[i]));
      }
      if i :| 0 <= i < |s| - 1 && b in ShiftBits(Bit(tasks, s[i])) { assert p[i] == s[i]; }
    }
  }

  /** The last bit of a walk is new exactly if no pid before is equal to it modulo 32. */
  lemma NewBit(tasks: map<Node, Task>, s: seq<Node>, e: Node)
    ensures ShiftBits(Bit(tasks, e)) !! BitsOf(tasks, s) <==>
      forall i :: 0 <= i < |s| ==> Bit(tasks, s[i]) % 32 != Bit(tasks, e) % 32
  {
    forall i | 0 <= i < |s| ensures ShiftBits(Bit(tasks, s[i])) !! ShiftBits(Bit(tasks, e)) <==>
      Bit(tasks, s[i]) % 32 != Bit(tasks, e) % 32
    {
      BitsMeet(Bit(tasks, s[i]), Bit(tasks, e));
    }
    forall b ensures b in BitsOf(tasks, s) <==> exists i :: 0 <= i < |s| && b in ShiftBits(Bit(tasks, s[i])) {
      BitIn(tasks, s, b);
    }
    if i :| 0 <= i < |s| && Bit(tasks, s[i]) % 32 == Bit(tasks, e) % 32 {
      var b :| b in ShiftBits(Bit(tasks, s[i])) && b in ShiftBits(Bit(tasks, e));
      assert b in BitsOf(tasks, s);
    }
  }

  /** A walk with clear bits meets none twice exactly if no two pids are equal modulo 32. */
  lemma {:induction false} ApartIs(tasks: map<Node, Task>, s: seq<Node>)
    ensures Apart(tasks, s, {}) <==> forall i, j :: 0 <= i < j < |s| ==> Bit(tasks, s[i]) % 32 != Bit(tasks, s[j]) % 32
  {
    if |s| > 0 {
      var p, e := s[..|s| - 1], s[|s| - 1];
      ApartIs(tasks, p);
      NewBit(tasks, p, e);
      assert forall i :: 0 <= i < |p| ==> p[i] == s[i];
      assert {} + BitsOf(tasks, p) == BitsOf(tasks, p);
    }
  }

  /** The check passes exactly if no two queued pids are equal modulo 32. */
  lemma ChecksPass(q: Queues, out: set<Node>)
    requires Placed(q, out)
    ensures Apart(q.tasks, All(q), {}) <==> !Clash(q)
  {
    ApartIs(q.tasks, All(q));
    forall i | 0 <= i < |All(q)|
      ensures All(q)[i] in q.tasks && PidBits(q.tasks, All(q)[i]) == Bit(q.tasks, All(q)[i]) % 32
    {
      assert All(q)[i] in Elems(All(q));
    }
  }

  /** The three walks, each starting with the bits of those before, meet none twice exactly if no two pids clash. */
  lemma WalksPass(q: Queues, out: set<Node>)
    requires Placed(q, out)
    ensures !Clash(q) <==>
      && Apart(q.tasks, q.ready, {}) && Apart(q.tasks, q.sleeping, {} + BitsOf(q.tasks, q.ready))
      && Apart(q.tasks, q.exited, {} + BitsOf(q.tasks, q.ready) + BitsOf(q.tasks, q.sleeping))
  {
    ChecksPass(q, out);
    ApartJoin(q.tasks, q.ready + q.sleeping, q.exited, {});
    ApartJoin(q.tasks, q.ready, q.sleeping, {});
    assert {} + (BitsOf(q.tasks, q.ready) + BitsOf(q.tasks, q.sleeping))
        == {} + BitsOf(q.tasks, q.ready) + BitsOf(q.tasks, q.sleeping);
  }

  /** A walk over queue i meets tasks that are not out. */
  lemma WalkReady(q: Queues, out: set<Node>, i: nat)
    requires Placed(q, out) && i < 3
    ensures forall e :: e in Qs(q)[i] ==> e in q.tasks && e !in out
  {
    forall e | e in Qs(q)[i] ensures e in q.tasks && e !in out {
      assert e in All(q);
      assert e in Elems(All(q));
    }
  }

  lemma OutOnNone(q: Queues, out: set<Node>, e: Node)
    requires Placed(q, out) && e in out
    ensures OnNone(Qs(q), e)
  {
    forall i | 0 <= i < 3 ensures e !in Qs(q)[i] {
      assert e !in Elems(All(q));
    }
  }

  class Sched {
    var links: Links
    var ready: List
    var sleeping: List
    var exited: List
    var tasks: map<Node, Task>
    var current: Node
    var idle: Node
    var nextPid: int
    ghost var q: Queues

    /** The lists are those of q. */
    ghost predicate Linked()
      reads this
    {
      Tied(links, ready, sleeping, exited, q, tasks.Keys)
    }

    /** The pointers represent q, in which the tasks of out are on no queue. */
    ghost predicate Shows(out: set<Node>)
      reads this
    {
      && q.tasks == tasks && q.current == current && q.idle == idle && q.nextPid == nextPid
      && Linked() && Placed(q, out)
    }

    ghost predicate Valid()
      reads this
    {
      Shows({current, idle})
    }

    /** The system after start-up: one running task and the idle task. */
    constructor (first: Node, idleNode: Node)
      requires first != 0 && idleNode != 0 && first != idleNode
      ensures Valid() && q.ready == [] && q.sleeping == [] && q.exited == [] && current == first && idle == idleNode
      ensures nextPid == 2 && tasks.Keys == {first, idleNode}
    {
      links := Links(map[], map[]);
      ready, sleeping, exited := List(0, 0), List(0, 0), List(0, 0);
      tasks := map[first := Task(0, 0, 0, 0), idleNode := Task(1, 0, 0, 0)];
      current, idle, nextPid := first, idleNode, 2;
      q := Queues(map[first := Task(0, 0, 0, 0), idleNode := Task(1, 0, 0, 0)], [], [], [], first, idleNode, 2);
    }

    /** The walk of task_switch_next over the sleeping queue. */
    method FindDue(now: nat) returns (it: Node)
      requires Shows({idle})
      ensures var i := FirstDue(q, now, 0); it == if i < |q.sleeping| then q.sleeping[i] else 0
    {
      it := sleeping.head;
      var next := if it != 0 then Next(links, it) else 0;
      ghost var i := 0;
      QueueLists(links, ready, sleeping, exited, q, tasks.Keys);
      while it != 0
        invariant i <= |q.sleeping| && it == (if i < |q.sleeping| then q.sleeping[i] else 0)
        invariant i < |q.sleeping| ==> next == if i + 1 < |q.sleeping| then q.sleeping[i + 1] else 0
        invariant FirstDue(q, now, 0) == FirstDue(q, now, i)
        decreases |q.sleeping| - i
      {
        assert All(q)[|q.ready| + i] == it && it in Elems(All(q));
        if Due(tasks[it], now) { return; }
        it := next;
        next := if next != 0 then Next(links, next) else 0;
        i := i + 1;
      }
    }

    // ---- list operations on the queues ------------------------------------------------------------------

    method RemoveSleeping(e: Node, ghost i: nat)
      requires Linked() && i < |q.sleeping| && e == q.sleeping[i]
      modifies this`links, this`sleeping, this`q
      ensures Linked() && q == old(q).(sleeping := DropAt(old(q).sleeping, i)) && OnNone(Qs(q), e)
    {
      SleeperGone(links, ready, sleeping, exited, q, tasks.Keys, i);
      var (l, k) := Remove(sleeping, links, e);
      sleeping, links := l, k;
      q := q.(sleeping := DropAt(q.sleeping, i));
    }

    method RemoveReadyHead(e: Node)
      requires Linked() && |q.ready| > 0 && e == q.ready[0]
      modifies this`links, this`ready, this`q
      ensures Linked() && q == old(q).(ready := old(q).ready[1..])
    {
      ReadyHeadGone(links, ready, sleeping, exited, q, tasks.Keys);
      var (l, k) := Remove(ready, links, e);
      ready, links := l, k;
      q := q.(ready := q.ready[1..]);
    }

    method AppendReady(e: Node)
      requires Linked() && e != 0 && e in tasks && OnNone(Qs(q), e)
      modifies this`links, this`ready, this`q
      ensures Linked() && q == old(q).(ready := old(q).ready + [e])
    {
      ReadyAdded(links, ready, sleeping, exited, q, tasks.Keys, e);
      var (l, k) := Append(ready, links, e);
      ready, links := l, k;
      q := q.(ready := q.ready + [e]);
    }

    method AppendSleeping(e: Node)
      requires Linked() && e != 0 && e in tasks && OnNone(Qs(q), e)
      modifies this`links, this`sleeping, this`q
      ensures Linked() && q == old(q).(sleeping := old(q).sleeping + [e])
    {
      SleeperAdded(links, ready, sleeping, exited, q, tasks.Keys, e);
      var (l, k) := Append(sleeping, links, e);
      sleeping, links := l, k;
      q := q.(sleeping := q.sleeping + [e]);
    }

    method AppendExited(e: Node)
      requires Linked() && e != 0 && e in tasks && OnNone(Qs(q), e)
      modifies this`links, this`exited, this`q
      ensures Linked() && q == old(q).(exited := old(q).exited + [e])
    {
      ExitedAdded(links, ready, sleeping, exited, q, tasks.Keys, e);
      var (l, k) := Append(exited, links, e);
      exited, links := l, k;
      q := q.(exited := q.exited + [e]);
    }

    // ---- scheduler.c -----------------------------------------------------------------------------------

    /** One of the three walks of scheduler_perform_checks. */
    method CheckQueue(l: List, seen: set<int>, ghost s: seq<Node>) returns (seen': set<int>, halted: bool)
      requires ListOk(l, links, s) && forall e :: e in s ==> e in tasks
      ensures halted <==> !Apart(tasks, s, seen) || current in s || idle in s
      ensures !halted ==> seen' == seen + BitsOf(tasks, s)
    {
      var it := l.head;
      ghost var i := 0;
      seen', halted := seen, false;
      while it != 0
        invariant i <= |s| && it == (if i < |s| then s[i] else 0)
        invariant seen' == seen + BitsOf(tasks, s[..i]) && Apart(tasks, s[..i], seen)
        invariant forall j :: 0 <= j < i ==> s[j] != current && s[j] != idle
        decreases |s| - i
      {
        WalkOn(tasks, s, seen, i);
        if it == current || it == idle || !(ShiftBits(tasks[it].pid) !! seen') {
          if Apart(tasks, s, seen) { ApartPrefix(tasks, s, seen, i + 1); }
          return seen', true;
        }
        seen' := seen' + ShiftBits(tasks[it].pid);
        RemoveLinks(l, links, s, i);
        it := Next(links, it);
        i := i + 1;
      }
      assert s[..i] == s;
    }

    /** scheduler_perform_checks: it stops exactly if two queued pids are equal modulo 32. */
    method PerformChecks() returns (halted: bool)
      requires Valid()
      ensures halted <==> Clash(q)
    {
      WalksPass(q, {current, idle});
      QueueLists(links, ready, sleeping, exited, q, tasks.Keys);
      WalkReady(q, {current, idle}, 0);
      var seen;
      seen, halted := CheckQueue(ready, {}, q.ready);
      if halted { return; }
      WalkReady(q, {current, idle}, 1);
      seen, halted := CheckQueue(sleeping, seen, q.sleeping);
      if halted { return; }
      WalkReady(q, {current, idle}, 2);
      seen, halted := CheckQueue(exited, seen, q.exited);
    }

    /** task_switch_next with task_switch, which checks the queues when the next task is current. */
    method TaskSwitchNext(now: nat) returns (halted: bool)
      requires Shows({idle})
      modifies this
      ensures Valid() && q == SwitchNext(old(q), now) && (halted <==> Clash(q))
    {
      var next := FindDue(now);
      ghost var i, q0 := FirstDue(q, now, 0), q;
      SwitchKeeps(q, now);
      if next != 0 {
        RemoveSleeping(next, i);
      } else {
        next := ready.head;
        ReadyHead(links, ready, sleeping, exited, q, tasks.Keys);
        if next != 0 { RemoveReadyHead(next); }
      }
      if next == 0 { next := idle; }
      current := next;
      q := q.(current := next);
      assert q == SwitchNext(q0, now);
      halted := PerformChecks();
    }

    method YieldHandler(now: nat) returns (halted: bool)
      requires Valid() && current != idle
      modifies this
      ensures Valid() && q == SwitchNext(Yield(old(q)), now) && (halted <==> Clash(q))
    {
      YieldKeeps(q);
      OutOnNone(q, {current, idle}, current);
      AppendReady(current);
      halted := TaskSwitchNext(now);
    }

    method ExitHandler(now: nat) returns (halted: bool)
      requires Valid() && current != idle
      modifies this
      ensures Valid() && q == SwitchNext(Exit(old(q)), now) && (halted <==> Clash(q))
      ensures q.exited == old(q).exited + [old(current)] && current != old(current)
    {
      ExitKeeps(q);
      OutOnNone(q, {current, idle}, current);
      AppendExited(current);
      halted := TaskSwitchNext(now);
    }

    /** task_block with the switch that its system call ends in. */
    method TaskBlock(canrecv: int, cansend: int, timeout: nat, now: nat) returns (halted: bool)
      requires Valid() && current != idle
      modifies this
      ensures Valid() && q == SwitchNext(Block(old(q), canrecv, cansend, timeout, now), now) && (halted <==> Clash(q))
    {
      BlockKeeps(q, canrecv, cansend, timeout, now);
      OutOnNone(q, {current, idle}, current);
      var d := if timeout != INFINITE then 0 else now + timeout;
      ghost var keys := tasks.Keys;
      tasks := tasks[current := Task(tasks[current].pid, canrecv, cansend, d)];
      assert tasks.Keys == keys;
      q := q.(tasks := tasks);
      AppendSleeping(current);
      halted := TaskSwitchNext(now);
    }

    /** The child's record, in memory that was cleared. */
    method NewTask(n: Node)
      requires Linked() && Placed(q, {current, idle}) && q.tasks == tasks && n !in tasks && q.nextPid == nextPid
      modifies this`links, this`tasks, this`nextPid, this`q
      ensures Linked() && OnNone(Qs(q), n) && tasks == old(tasks)[n := Task(old(nextPid), 0, 0, 0)]
      ensures nextPid == old(nextPid) + 1 && q == old(q).(tasks := tasks, nextPid := nextPid)
    {
      var more := tasks[n := Task(nextPid, 0, 0, 0)];
      FreshNode(links, ready, sleeping, exited, q, {current, idle}, n, q.(tasks := more, nextPid := nextPid + 1));
      links := Links(links.next[n := 0], links.prev[n := 0]);
      tasks := more;
      assert tasks.Keys == old(tasks).Keys + {n};
      nextPid := nextPid + 1;
      q := q.(tasks := tasks, nextPid := nextPid);
    }

    /** fork: the child starts on the ready queue. */
    method ForkHandler(n: Node) returns (pid: int, halted: bool)
      requires Valid() && n != 0 && n !in tasks && nextPid >= 0
      modifies this
      ensures halted <==> old(nextPid) >= PID_LIMIT
      ensures !halted ==> Valid() && q == Fork(old(q), n) && pid == old(nextPid)
    {
      ForkKeeps(q, n);
      pid, halted := nextPid, nextPid >= PID_LIMIT;
      if halted { return; }
      NewTask(n);
      AppendReady(n);
    }

    /** Walk a list for a task with this pid. */
    method FindPid(l: List, pid: int, ghost s: seq<Node>) returns (it: Node)
      requires ListOk(l, links, s) && forall e :: e in s ==> e in tasks
      ensures it == 0 ==> forall e :: e in s ==> tasks[e].pid != pid
      ensures it != 0 ==> it in s && tasks[it].pid == pid
    {
      it := l.head;
      ghost var i := 0;
      while it != 0
        invariant i <= |s| && it == (if i < |s| then s[i] else 0)
        invariant forall j :: 0 <= j < i ==> tasks[s[j]].pid != pid
        decreases |s| - i
      {
        if tasks[it].pid == pid { return; }
        RemoveLinks(l, links, s, i);
        it := Next(links, it);
        i := i + 1;
      }
    }

    /** task_get: exited tasks are not found. */
    method TaskGet(pid: int) returns (t: Node)
      requires Valid()
      ensures t == 0 <==> !Alive(q, pid)
      ensures t != 0 ==> t in tasks && t !in q.exited && tasks[t].pid == pid
    {
      QueueTasks(q, {current, idle});
      if pid == tasks[idle].pid { return idle; }
      if pid == tasks[current].pid { return current; }
      QueueLists(links, ready, sleeping, exited, q, tasks.Keys);
      t := FindPid(ready, pid, q.ready);
      if t == 0 {
        t := FindPid(sleeping, pid, q.sleeping);
      }
    }

    /** Walk the sleeping queue for a task. */
    method FindSleeper(t: Node) returns (found: bool)
      requires Valid()
      ensures found <==> t in q.sleeping
    {
      var it := sleeping.head;
      ghost var i := 0;
      QueueLists(links, ready, sleeping, exited, q, tasks.Keys);
      while it != 0
        invariant i <= |q.sleeping| && it == (if i < |q.sleeping| then q.sleeping[i] else 0)
        invariant forall j :: 0 <= j < i ==> q.sleeping[j] != t
        decreases |q.sleeping| - i
      {
        if it == t { return true; }
        RemoveLinks(sleeping, links, q.sleeping, i);
        it := Next(links, it);
        i := i + 1;
      }
      found := false;
    }

    /** The i-th sleeper becomes ready. */
    method MoveToReady(t: Node, ghost i: nat)
      requires Valid() && i < |q.sleeping| && t == q.sleeping[i] && t in tasks
      modifies this
      ensures Valid() && q == WakeAt(old(q), i)
    {
      WakeKeeps(q, i);
      RemoveSleeping(t, i);
      AppendReady(t);
    }

    /** task_wake; halted stands for its failed assertion. */
    method TaskWake(pid: int) returns (halted: bool)
      requires Valid()
      modifies this
      ensures halted <==> !Alive(old(q), pid)
      ensures !halted ==> Valid() && q == Wake(old(q), pid)
    {
      var t := TaskGet(pid);
      if t == 0 { return true; }
      halted := false;
      var asleep := FindSleeper(t);
      SleeperIs(q, pid, t);
      if asleep { MoveToReady(t, SleeperWith(q, pid, 0)); }
    }

    /** One step of the walk: the i-th sleeper is woken if it waits to send to p. */
    method WakeIfWaiting(it: Node, p: int, ghost i: nat) returns (woken: bool)
      requires Valid() && i < |q.sleeping| && it == q.sleeping[i]
      modifies this
      ensures Valid() && (woken <==> WaitsToSend(old(q), it, p)) && q == if woken then WakeAt(old(q), i) else old(q)
      ensures At(q.sleeping, if woken then i else i + 1) == At(old(q).sleeping, i + 1)
    {
      QueueTasks(q, {current, idle});
      assert it in q.sleeping;
      woken := tasks[it].cansend == p;
      if woken {
        SleeperIs(q, tasks[it].pid, it);
        UniqueIndex(q, SleeperWith(q, tasks[it].pid, 0), i);
        var halted := TaskWake(tasks[it].pid);
      }
    }

    /** wake_tasks_waiting_for_port: the walk fetches the next element before waking the current one, so it visits every
        sleeper once although waking takes it off the list. */
    method WakeTasksWaitingForPort(p: int)
      requires Valid()
      modifies this
      ensures Valid() && q == WakeWaiting(old(q), p, 0)
    {
      var it := sleeping.head;
      var next := if it != 0 then Next(links, it) else 0;
      ghost var i := 0;
      SleepingLinks(links, ready, sleeping, exited, q, tasks.Keys, 0);
      while it != 0
        invariant Valid() && i <= |q.sleeping|
        invariant it == At(q.sleeping, i) && next == At(q.sleeping, i + 1)
        invariant WakeWaiting(old(q), p, 0) == WakeWaiting(q, p, i)
        decreases |q.sleeping| - i
      {
        WakeWaitingStep(q, p, i);
        var woken := WakeIfWaiting(it, p, i);
        if !woken { i := i + 1; }
        it := next;
        SleepingLinks(links, ready, sleeping, exited, q, tasks.Keys, i);
        next := if next != 0 then Next(links, next) else 0;
      }
    }

    /** One exited task is collected: taken off its queue and freed. */
    method Collect(e: Node)
      requires Linked() && |q.exited| > 0 && e == q.exited[0] && q.tasks == tasks
      modifies this`links, this`exited, this`tasks, this`q
      ensures Linked() && q == old(q).(exited := old(q).exited[1..], tasks := old(q).tasks - {e}) && q.tasks == tasks
    {
      ExitedHeadGone(links, ready, sleeping, exited, q, tasks.Keys, tasks - {e});
      var (l, k) := Remove(exited, links, e);
      exited, links := l, k;
      assert (tasks - {e}).Keys == tasks.Keys - {e};
      tasks := tasks - {e};
      q := q.(exited := q.exited[1..], tasks := tasks);
    }

    /** The walk of scheduler_timer over the exited queue, which empties it. */
    method CollectAll()
      requires Linked() && q.tasks == tasks
      modifies this`links, this`exited, this`tasks, this`q
      ensures Linked() && q == old(q).(exited := [], tasks := old(q).tasks - Elems(old(q).exited)) && q.tasks == tasks
    {
      ExitedLinks(links, ready, sleeping, exited, q, tasks.Keys);
      var it := exited.head;
      var next := if it != 0 then Next(links, it) else 0;
      ghost var done: set<Node> := {};
      while it != 0
        invariant Linked() && q.tasks == tasks && q == old(q).(exited := q.exited, tasks := old(q).tasks - done)
        invariant it == (if |q.exited| > 0 then q.exited[0] else 0)
        invariant next == (if |q.exited| > 1 then q.exited[1] else 0)
        invariant done + Elems(q.exited) == Elems(old(q).exited)
        decreases |q.exited|
      {
        assert q.exited == [it] + q.exited[1..];
        assert Elems(q.exited) == {it} + Elems(q.exited[1..]);
        Collect(it);
        done := done + {it};
        ExitedLinks(links, ready, sleeping, exited, q, tasks.Keys);
        it := next;
        next := if next != 0 then Next(links, next) else 0;
      }
      ExitedLinks(links, ready, sleeping, exited, q, tasks.Keys);
      assert q.exited == [] && Elems(q.exited) == {};
    }

    /** The timer's work on the queues: the current task becomes ready, exited tasks are collected. */
    method Requeue()
      requires Valid()
      modifies this
      ensures Shows({idle}) && q == Tick(old(q))
    {
      TickKeeps(q);
      if current != idle {
        OutOnNone(q, {current, idle}, current);
        AppendReady(current);
      }
      CollectAll();
      assert q == Tick(old(q));
    }

    /** scheduler_timer. The machine reboots when the ready queue is empty: may_wakeup is never set. The queues are
        checked on entry and when switching. */
    method Timer(now: nat) returns (halted: bool)
      requires Valid()
      modifies this
      ensures halted <==> TickStops(old(q), now)
      ensures !halted ==> Valid() && q == SwitchNext(Tick(old(q)), now)
    {
      halted := PerformChecks();
      if halted { return; }
      Requeue();
      ReadyHead(links, ready, sleeping, exited, q, tasks.Keys);
      var moretasks := true;
      if ready.head == 0 && sleeping.head == 0 {
        moretasks := false;
      } else if ready.head == 0 {
        var mayWakeup := false;
        if !mayWakeup { moretasks := false; }
      }
      if !moretasks { return true; }
      halted := TaskSwitchNext(now);
    }
  }

  lemma UniqueIndex(q: Queues, i: nat, j: nat)
    requires QueuesOk(q) && i < |q.sleeping| && j < |q.sleeping| && q.sleeping[i] == q.sleeping[j]
    ensures i == j
  {
    assert All(q)[|q.ready| + i] == q.sleeping[i] && All(q)[|q.ready| + j] == q.sleeping[j];
  }

  lemma QueueTasks(q: Queues, out: set<Node>)
    requires Placed(q, out)
    ensures forall e :: e in q.ready || e in q.sleeping || e in q.exited ==> e in q.tasks && e !in out
    ensures forall e :: e in q.tasks && e !in out ==> e in q.ready || e in q.sleeping || e in q.exited
    ensures forall e :: e in q.ready || e in q.sleeping ==> e !in q.exited
  {
    forall e | e in q.ready || e in q.sleeping || e in q.exited ensures e in Elems(All(q)) {}
    NoDupFront(q.ready + q.sleeping, q.exited);
    assert All(q) == (q.ready + q.sleeping) + q.exited;
    forall e | e in q.ready || e in q.sleeping ensures e in Elems(q.ready + q.sleeping) {}
  }

  lemma OnePid(q: Queues, a: Node, b: Node)
    requires QueuesOk(q) && a in q.tasks && b in q.tasks && q.tasks[a].pid == q.tasks[b].pid
    ensures a == b
  {}

  /** The sleeper with t's pid is t. */
  lemma SleeperIs(q: Queues, pid: int, t: Node)
    requires QueuesOk(q) && t in q.tasks && q.tasks[t].pid == pid
    ensures var i := SleeperWith(q, pid, 0);
      (t in q.sleeping <==> i < |q.sleeping|) && (i < |q.sleeping| ==> q.sleeping[i] == t)
  {
    SleeperFound(q, pid, 0);
    var i := SleeperWith(q, pid, 0);
    if t in q.sleeping {
      var j :| 0 <= j < |q.sleeping| && q.sleeping[j] == t;
      assert !(j < i);
    }
    if i < |q.sleeping| { OnePid(q, q.sleeping[i], t); }
  }

  /** Clearing the links of a node on no list changes no list. */
  lemma FreshNode(k: Links, r: List, s: List, x: List, q: Queues, out: set<Node>, n: Node, q': Queues)
    requires Tied(k, r, s, x, q, q.tasks.Keys) && Placed(q, out) && n !in q.tasks && Qs(q') == Qs(q)
    ensures OnNone(Qs(q), n) && Tied(Links(k.next[n := 0], k.prev[n := 0]), r, s, x, q', q.tasks.Keys + {n})
  {
    Untie(k, r, s, x, q, q.tasks.Keys);
    var ls := [r, s, x];
    forall i | 0 <= i < 3 ensures n !in Qs(q)[i] { assert n !in Elems(All(q)); }
    var k' := Links(k.next[n := 0], k.prev[n := 0]);
    forall i | 0 <= i < 3 ensures ListOk(ls[i], k', Qs(q)[i]) { ListFrame(ls[i], k, k', Qs(q)[i], {n}); }
  }

  lemma NoneDue(q: Queues, now: nat, e: Node)
    requires q.sleeping == [e] && e in q.tasks && q.tasks[e].deadline > now
    ensures FirstDue(q, now, 0) == 1
  {
    assert FirstDue(q, now, 1) == 1;
  }

  lemma SleepsAlone(q: Queues, now: nat, later: nat)
    requires q.ready == [] && q.sleeping == [] && q.current in q.tasks && q.current != q.idle
    ensures var q' := SwitchNext(Block(q, NO_PORT, NO_PORT, INFINITE, now), now);
      && q.current in q'.tasks && q'.tasks[q.current].deadline > now && TickStops(q', later)
  {
    var b := Block(q, NO_PORT, NO_PORT, INFINITE, now);
    assert b.sleeping == [q.current] && b.tasks[q.current].deadline == now + INFINITE;
    NoneDue(b, now, q.current);
    assert SwitchNext(b, now) == b.(current := b.idle);
    assert Tick(b.(current := b.idle)).ready == [];
  }

  /** The only task sleeps, to be woken at its deadline; the next timer interrupt reboots. */
  method SleeperReboots(now: nat, later: nat) returns (deadline: nat, halted: bool)
    ensures deadline > now && halted
  {
    var s := new Sched(1, 2);
    SleepsAlone(s.q, now, later);
    halted := s.TaskBlock(NO_PORT, NO_PORT, INFINITE, now);
    FewPids(s.q, {s.current, s.idle});
    assert !halted;
    deadline := s.tasks[1].deadline;
    halted := s.Timer(later);
  }

  /** While fewer than 32 pids are in use, the timer interrupt stops only for lack of a ready task. */
  lemma FewTasksTick(q: Queues, now: nat)
    requires QueuesOk(q) && q.nextPid <= 32
    ensures TickStops(q, now) <==> Tick(q).ready == []
  {
    FewPids(q, {q.current, q.idle});
    TickKeeps(q);
    SwitchKeeps(Tick(q), now);
    var q' := SwitchNext(Tick(q), now);
    FewPids(q', {q'.current, q'.idle});
  }

  /** The children that one task has forked: nodes from 3 on with pids from 2 on, all ready. */
  ghost predicate Forked(q: Queues, n: nat) {
    && q.current == 1 && q.idle == 2 && q.nextPid == n + 2 && |q.ready| == n
    && (forall i :: 0 <= i < n ==> q.ready[i] == i + 3)
    && (forall e :: 3 <= e < n + 3 ==> e in q.tasks && q.tasks[e].pid == e - 1)
    && (forall e :: e in q.tasks ==> 1 <= e < n + 3)
  }

  lemma ForkedOne(q: Queues, n: nat)
    requires Forked(q, n)
    ensures Forked(Fork(q, n + 3), n + 1)
  {
    var q' := Fork(q, n + 3);
    forall i | 0 <= i < n + 1 ensures q'.ready[i] == i + 3 {
      if i < n { assert q.ready[i] == i + 3; }
    }
  }

  /** One task forks 33 children, whose pids 2 to 34 are legal; the next timer interrupt stops the machine, although
      tasks are ready and all pids are different. */
  method ForksStop(now: nat) returns (pid: int, halted: bool)
    ensures pid == 34 < PID_LIMIT && halted
  {
    var s := new Sched(1, 2);
    pid, halted := 1, false;
    for n := 0 to 33
      invariant s.Valid() && Forked(s.q, n) && pid == n + 1 && fresh(s)
    {
      assert n + 3 !in s.tasks;
      ForkedOne(s.q, n);
      pid, halted := s.ForkHandler(n + 3);
    }
    assert All(s.q)[0] == 3 && All(s.q)[32] == 35;
    assert PidBits(s.q.tasks, 3) == PidBits(s.q.tasks, 35);
    halted := s.Timer(now);
  }
}
