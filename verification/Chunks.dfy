/** The chunk memory of the userland allocator: header words and link fields, by address. */
module Chunks {
  import opened Basics

  /** 0 is the null pointer, positive addresses are chunks, negative ones are bin headers in malloc_state. */
  type Addr = int

  /** The head word: the chunk size and its two in-use bits. */
  datatype Head = Head(size: nat, cinuse: bool, pinuse: bool)

  /** The fd and bk fields of a free chunk. */
  datatype RLink = RLink(fd: Addr, bk: Addr)

  /** What a tree chunk's parent field points to: nothing, a treebin slot, or another chunk. */
  datatype Parent = NoParent | Bin(i: nat) | Chunk(a: Addr)

  /** The child, parent and index fields of a large free chunk. */
  datatype TLink = TLink(left: Addr, right: Addr, parent: Parent, index: nat)

  type Heads = map<Addr, Head>
  type RLinks = map<Addr, RLink>
  type TLinks = map<Addr, TLink>

  /** chunksize(p) */
  function Sz(h: Heads, a: Addr): nat { if a in h then h[a].size else 0 }

  /** c is a circular doubly linked list through fd and bk. */
  ghost predicate Ring(rl: RLinks, c: seq<Addr>) {
    && |c| > 0 && NoDup(c)
    && (forall a :: a in c ==> a in rl)
    && (forall i, j :: 0 <= i < |c| && 0 <= j < |c| && j == i + 1 ==> rl[c[i]].fd == c[j] && rl[c[j]].bk == c[i])
    && rl[c[|c| - 1]].fd == c[0]
    && rl[c[0]].bk == c[|c| - 1]
  }

  /** x is put between a and a's successor. */
  function RingAttach(rl: RLinks, a: Addr, x: Addr): (r: RLinks)
    requires a in rl && rl[a].fd in rl
  {
    var f := rl[a].fd;
    var rl1 := rl[a := rl[a].(fd := x)];
    var rl2 := rl1[f := rl1[f].(bk := x)];
    rl2[x := RLink(f, a)]
  }

  /** x's neighbours are joined; x itself keeps its stale fields. */
  function RingDetach(rl: RLinks, x: Addr): (r: RLinks)
    requires x in rl && rl[x].fd in rl && rl[x].bk in rl
  {
    var f, b := rl[x].fd, rl[x].bk;
    var rl1 := rl[f := rl[f].(bk := b)];
    rl1[b := rl1[b].(fd := f)]
  }

  lemma RingFrame(rl: RLinks, rl': RLinks, c: seq<Addr>)
    requires Ring(rl, c)
    requires forall a :: a in c ==> a in rl' && rl'[a] == rl[a]
    ensures Ring(rl', c)
  {}

  lemma RingInsert(rl: RLinks, c: seq<Addr>, x: Addr)
    requires Ring(rl, c) && x !in c
    ensures rl[c[0]].fd in c
    ensures Ring(RingAttach(rl, c[0], x), [c[0], x] + c[1..])
    ensures Elems([c[0], x] + c[1..]) == Elems(c) + {x}
  {
    assert rl[c[0]].fd == (if |c| == 1 then c[0] else c[1]);
    var d := [c[0], x] + c[1..];
    assert forall i :: 1 < i < |d| ==> d[i] == c[i - 1];
    assert NoDup(d);
  }

  lemma RingNeighbours(rl: RLinks, c: seq<Addr>, x: Addr)
    requires Ring(rl, c) && x in c
    ensures rl[x].fd in c && rl[x].bk in c
  {
    var j :| 0 <= j < |c| && c[j] == x;
    assert rl[x].fd == (if j == |c| - 1 then c[0] else c[j + 1]);
    assert rl[x].bk == (if j == 0 then c[|c| - 1] else c[j - 1]);
  }

  /** What is left of a ring when its head leaves: the head's predecessor takes its place. */
  function DropHead(c: seq<Addr>): seq<Addr>
    requires |c| > 1
  {
    [c[|c| - 1]] + c[1..|c| - 1]
  }

  lemma RingRemoveHead(rl: RLinks, c: seq<Addr>)
    requires Ring(rl, c) && |c| > 1
    ensures rl[c[0]].fd in c && rl[c[0]].bk == c[|c| - 1]
    ensures Ring(RingDetach(rl, c[0]), DropHead(c))
  {
    RingNeighbours(rl, c, c[0]);
    var d := DropHead(c);
    assert forall i :: 0 < i < |d| ==> d[i] == c[i];
    assert NoDup(d);
    var r := RingDetach(rl, c[0]);
    assert forall a :: a in d ==> a in c && a in r;
    assert r[c[1]].bk == c[|c| - 1] && r[c[|c| - 1]].fd == c[1];
    assert forall a :: a in rl && a != c[1] ==> r[a].bk == rl[a].bk;
    assert forall a :: a in rl && a != c[|c| - 1] ==> r[a].fd == rl[a].fd;
  }

  lemma DropHeadElems(c: seq<Addr>)
    requires |c| > 1 && NoDup(c)
    ensures Elems(DropHead(c)) == Elems(c) - {c[0]}
  {
    var d := DropHead(c);
    assert forall i :: 0 < i < |d| ==> d[i] == c[i];
    forall a | a in Elems(c) - {c[0]}
      ensures a in d
    {
      var j := IndexOf(c, a);
      assert d[if j == |c| - 1 then 0 else j] == a;
    }
  }

  lemma DropAtFacts(c: seq<Addr>, j: nat)
    requires j < |c| && NoDup(c)
    ensures NoDup(DropAt(c, j)) && Elems(DropAt(c, j)) == Elems(c) - {c[j]}
  {
    var d := DropAt(c, j);
    assert forall i :: 0 <= i < |d| ==> d[i] == c[if i < j then i else i + 1];
    forall a | a in Elems(c) - {c[j]}
      ensures a in d
    {
      var i := IndexOf(c, a);
      assert d[if i < j then i else i - 1] == a;
    }
  }

  lemma RingRemoveInner(rl: RLinks, c: seq<Addr>, j: nat)
    requires Ring(rl, c) && 0 < j < |c|
    ensures c[j] in rl && rl[c[j]].fd in c && rl[c[j]].bk in c
    ensures Ring(RingDetach(rl, c[j]), DropAt(c, j))
  {
    assert c[j] in c;
    RingNeighbours(rl, c, c[j]);
    DropAtFacts(c, j);
    var d := DropAt(c, j);
    assert forall i :: 0 <= i < |d| ==> d[i] == c[if i < j then i else i + 1];
    var r := RingDetach(rl, c[j]);
    var f := if j == |c| - 1 then c[0] else c[j + 1];
    assert r[f].bk == c[j - 1] && r[c[j - 1]].fd == f;
    assert forall a :: a in rl && a != f ==> r[a].bk == rl[a].bk;
    assert forall a :: a in rl && a != c[j - 1] ==> r[a].fd == rl[a].fd;
    forall i, k | 0 <= i < |d| && 0 <= k < |d| && k == i + 1 ensures r[d[i]].fd == d[k] && r[d[k]].bk == d[i] {
      if k == j {
        assert d[i] == c[j - 1] && d[k] == c[j + 1];
      } else {
        var a, b := if i < j then i else i + 1, if k < j then k else k + 1;
        assert d[i] == c[a] && d[k] == c[b] && b == a + 1;
      }
    }
    RingEnds(rl, c, j, f, d, r);
  }

  /** The two links that close the ring again. */
  lemma RingEnds(rl: RLinks, c: seq<Addr>, j: nat, f: Addr, d: seq<Addr>, r: RLinks)
    requires Ring(rl, c) && 0 < j < |c| && f == (if j == |c| - 1 then c[0] else c[j + 1])
    requires d == DropAt(c, j) && (forall a :: a in rl ==> a in r) && r[f].bk == c[j - 1] && r[c[j - 1]].fd == f
    requires forall a :: a in rl && a != f ==> r[a].bk == rl[a].bk
    requires forall a :: a in rl && a != c[j - 1] ==> r[a].fd == rl[a].fd
    ensures r[d[|d| - 1]].fd == d[0] && r[d[0]].bk == d[|d| - 1]
  {
    assert d[0] == c[0] && d[|d| - 1] == c[if j == |c| - 1 then j - 1 else |c| - 1];
  }

  /** A ring member is alone exactly when it is its own predecessor. */
  lemma RingAlone(rl: RLinks, c: seq<Addr>, x: Addr)
    requires Ring(rl, c) && x in c
    ensures rl[x].bk == x <==> |c| == 1
  {
    var j :| 0 <= j < |c| && c[j] == x;
    assert rl[x].bk == (if j == 0 then c[|c| - 1] else c[j - 1]);
  }

  /** In a ring of three or more, a member's two neighbours differ. */
  lemma RingNeighboursDiffer(rl: RLinks, c: seq<Addr>, x: Addr)
    requires Ring(rl, c) && x in c && |c| >= 2
    ensures rl[x].fd == rl[x].bk <==> |c| == 2
  {
    var j :| 0 <= j < |c| && c[j] == x;
    assert rl[x].fd == (if j == |c| - 1 then c[0] else c[j + 1]);
    assert rl[x].bk == (if j == 0 then c[|c| - 1] else c[j - 1]);
  }

  lemma IndexOf(c: seq<Addr>, x: Addr) returns (j: nat)
    requires x in c
    ensures j < |c| && c[j] == x
  {
    j :| 0 <= j < |c| && c[j] == x;
  }
}
