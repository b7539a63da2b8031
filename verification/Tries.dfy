/** The bitwise tries of large free chunks: abstract tries, their pointer form, and insertion. */
module Tries {
  import opened Basics
  import opened Bits
  import opened Chunks

  /** A tree node with its chain of same-sized chunks; only chain[0] is linked into the tree. */
  datatype Trie = Empty | Node(chain: seq<Addr>, left: Trie, right: Trie)

  function Nodes(t: Trie): set<Addr> {
    match t
    case Empty => {}
    case Node(c, l, r) => Elems(c) + Nodes(l) + Nodes(r)
  }

  /** The chunks that are tree nodes, first in their chain. */
  function Tops(t: Trie): set<Addr> {
    match t
    case Empty => {}
    case Node(c, l, r) => (if |c| > 0 then {c[0]} else {}) + Tops(l) + Tops(r)
  }

  function Root(t: Trie): Addr { if t.Node? && |t.chain| > 0 then t.chain[0] else 0 }

  /** Every chunk occurs once. */
  ghost predicate Distinct(t: Trie) {
    match t
    case Empty => true
    case Node(c, l, r) =>
      && |c| > 0
      && Elems(c) !! Nodes(l) && Elems(c) !! Nodes(r) && Nodes(l) !! Nodes(r)
      && Distinct(l) && Distinct(r)
  }

  /** The trie rule: a subtree covers sizes [lo, lo + 2^k), and its children the two halves. */
  ghost predicate Ranged(t: Trie, h: Heads, lo: nat, k: nat)
    decreases t
  {
    match t
    case Empty => true
    case Node(c, l, r) =>
      && |c| > 0
      && lo <= Sz(h, c[0]) < lo + Pow2(k)
      && (forall a :: a in c ==> Sz(h, a) == Sz(h, c[0]))
      && (k == 0 ==> l.Empty? && r.Empty?)
      && (k > 0 ==> Ranged(l, h, lo, k - 1) && Ranged(r, h, lo + Pow2(k - 1), k - 1))
  }

  /** The sizes in a trie. */
  ghost function Sizes(t: Trie, h: Heads): set<nat> {
    match t
    case Empty => {}
    case Node(c, l, r) => (if |c| > 0 then {Sz(h, c[0])} else {}) + Sizes(l, h) + Sizes(r, h)
  }

  /** Each size has one tree node. */
  ghost predicate Unique(t: Trie, h: Heads) {
    match t
    case Empty => true
    case Node(c, l, r) =>
      && |c| > 0
      && Sz(h, c[0]) !in Sizes(l, h) && Sz(h, c[0]) !in Sizes(r, h) && Sizes(l, h) !! Sizes(r, h)
      && Unique(l, h) && Unique(r, h)
  }

  /** The child and parent pointers at address a, below parent p in bin i, form the tree of t. */
  ghost predicate Linked(t: Trie, tl: TLinks, a: Addr, p: Parent, i: nat) {
    match t
    case Empty => a == 0
    case Node(c, l, r) =>
      && |c| > 0 && a == c[0] && a > 0 && a in tl
      && tl[a].parent == p && tl[a].index == i
      && Linked(l, tl, tl[a].left, Chunk(a), i)
      && Linked(r, tl, tl[a].right, Chunk(a), i)
  }

  /** The fd and bk pointers close every chain of t into a ring. */
  ghost predicate Rings(t: Trie, rl: RLinks) {
    match t
    case Empty => true
    case Node(c, l, r) => Ring(rl, c) && Rings(l, rl) && Rings(r, rl)
  }

  /** Chain members that are not tree nodes have no tree links. */
  ghost predicate Followers(t: Trie, tl: TLinks, i: nat) {
    forall a :: a in Nodes(t) && a !in Tops(t) ==> a > 0 && a in tl && tl[a] == TLink(0, 0, NoParent, i)
  }

  lemma {:induction false} TopsAreNodes(t: Trie)
    ensures Tops(t) <= Nodes(t)
    ensures Root(t) != 0 ==> Root(t) in Tops(t)
  {
    if t.Node? {
      TopsAreNodes(t.left);
      TopsAreNodes(t.right);
    }
  }

  lemma {:induction false} InRange(t: Trie, h: Heads, lo: nat, k: nat, a: Addr)
    requires Ranged(t, h, lo, k) && a in Nodes(t)
    ensures lo <= Sz(h, a) < lo + Pow2(k)
    decreases t
  {
    match t
    case Node(c, l, r) =>
      if l.Node? && a in Nodes(l) {
        InRange(l, h, lo, k - 1, a);
        return;
      }
      if r.Node? && a in Nodes(r) {
        InRange(r, h, lo + Pow2(k - 1), k - 1, a);
        return;
      }
      assert a in c;
  }

  lemma {:induction false} SizesInRange(t: Trie, h: Heads, lo: nat, k: nat)
    requires Ranged(t, h, lo, k)
    ensures forall s :: s in Sizes(t, h) ==> lo <= s < lo + Pow2(k)
    decreases t
  {
    if t.Node? && k > 0 {
      SizesInRange(t.left, h, lo, k - 1);
      SizesInRange(t.right, h, lo + Pow2(k - 1), k - 1);
    }
  }

  lemma {:induction false} RangedFrame(t: Trie, h: Heads, h': Heads, lo: nat, k: nat)
    requires Ranged(t, h, lo, k)
    requires forall a :: a in Nodes(t) ==> Sz(h', a) == Sz(h, a)
    ensures Ranged(t, h', lo, k)
    decreases t
  {
    if t.Node? && k > 0 {
      RangedFrame(t.left, h, h', lo, k - 1);
      RangedFrame(t.right, h, h', lo + Pow2(k - 1), k - 1);
    }
  }

  lemma {:induction false} UniqueFrame(t: Trie, h: Heads, h': Heads)
    requires Unique(t, h)
    requires forall a :: a in Nodes(t) ==> Sz(h', a) == Sz(h, a)
    ensures Unique(t, h') && Sizes(t, h') == Sizes(t, h)
  {
    if t.Node? {
      UniqueFrame(t.left, h, h');
      UniqueFrame(t.right, h, h');
      assert t.chain[0] in Nodes(t);
    }
  }

  lemma {:induction false} LinkedTops(t: Trie, tl: TLinks, a: Addr, p: Parent, i: nat)
    requires Linked(t, tl, a, p, i)
    ensures forall b :: b in Tops(t) ==> b in tl && b > 0 && tl[b].index == i
    ensures a == Root(t)
  {
    if t.Node? {
      LinkedTops(t.left, tl, tl[a].left, Chunk(a), i);
      LinkedTops(t.right, tl, tl[a].right, Chunk(a), i);
    }
  }

  lemma {:induction false} LinkedFrame(t: Trie, tl: TLinks, tl': TLinks, a: Addr, p: Parent, i: nat)
    requires Linked(t, tl, a, p, i)
    requires forall b :: b in Tops(t) ==> b in tl && b in tl' && tl'[b] == tl[b]
    ensures Linked(t, tl', a, p, i)
  {
    if t.Node? {
      LinkedFrame(t.left, tl, tl', tl[a].left, Chunk(a), i);
      LinkedFrame(t.right, tl, tl', tl[a].right, Chunk(a), i);
    }
  }

  lemma {:induction false} RingsFrame(t: Trie, rl: RLinks, rl': RLinks)
    requires Rings(t, rl)
    requires forall b :: b in Nodes(t) ==> b in rl && b in rl' && rl'[b] == rl[b]
    ensures Rings(t, rl')
  {
    if t.Node? {
      RingFrame(rl, rl', t.chain);
      RingsFrame(t.left, rl, rl');
      RingsFrame(t.right, rl, rl');
    }
  }

  /** fd and bk of a trie's chunks stay inside the trie. */
  lemma {:induction false} RingsClosed(t: Trie, rl: RLinks, b: Addr)
    requires Rings(t, rl) && b in Nodes(t)
    ensures b in rl && rl[b].fd in Nodes(t) && rl[b].bk in Nodes(t)
  {
    if b in t.chain {
      RingNeighbours(rl, t.chain, b);
    } else if b in Nodes(t.left) {
      RingsClosed(t.left, rl, b);
    } else {
      RingsClosed(t.right, rl, b);
    }
  }

  lemma {:induction false} RingsMembers(t: Trie, rl: RLinks)
    requires Rings(t, rl)
    ensures forall b :: b in Nodes(t) ==> b in rl
  {
    forall b | b in Nodes(t) ensures b in rl { RingsClosed(t, rl, b); }
  }

  // ---- insertion -----------------------------------------------------------------

  /** Where the descent of insert_large_chunk ends: at a node of the same size, or at an empty child slot. */
  datatype Slot = Same(a: Addr) | Child(a: Addr, right: bool)

  /** The way down to a slot. */
  datatype Path = Here | NewLeft | NewRight | GoLeft(down: Path) | GoRight(down: Path)

  /** The path leads to a node of t, to an empty slot if a new leaf is to go there. */
  ghost predicate PathOk(t: Trie, p: Path)
  {
    && t.Node? && |t.chain| > 0
    && match p
       case Here => true
       case NewLeft => t.left.Empty?
       case NewRight => t.right.Empty?
       case GoLeft(q) => PathOk(t.left, q)
       case GoRight(q) => PathOk(t.right, q)
  }

  ghost function SlotAt(t: Trie, p: Path): (q: Slot)
    requires PathOk(t, p)
    ensures q.a in Tops(t)
  {
    match p
    case Here => Same(t.chain[0])
    case NewLeft => Child(t.chain[0], false)
    case NewRight => Child(t.chain[0], true)
    case GoLeft(q) => SlotAt(t.left, q)
    case GoRight(q) => SlotAt(t.right, q)
  }

  /** t with chunk x hung at the end of path p. */
  ghost function InsertAt(t: Trie, p: Path, x: Addr): (t': Trie)
    requires PathOk(t, p)
    ensures t'.Node?
  {
    match p
    case Here => Node([t.chain[0], x] + t.chain[1..], t.left, t.right)
    case NewLeft => Node(t.chain, Node([x], Empty, Empty), t.right)
    case NewRight => Node(t.chain, t.left, Node([x], Empty, Empty))
    case GoLeft(q) => Node(t.chain, InsertAt(t.left, q, x), t.right)
    case GoRight(q) => Node(t.chain, t.left, InsertAt(t.right, q, x))
  }

  lemma {:induction false} InsertNodes(t: Trie, p: Path, x: Addr)
    requires PathOk(t, p) && Distinct(t) && x !in Nodes(t)
    ensures Nodes(InsertAt(t, p, x)) == Nodes(t) + {x}
    ensures Distinct(InsertAt(t, p, x))
  {
    match p
    case Here => assert Elems([t.chain[0], x] + t.chain[1..]) == Elems(t.chain) + {x};
    case NewLeft =>
    case NewRight =>
    case GoLeft(q) => InsertNodes(t.left, q, x);
    case GoRight(q) => InsertNodes(t.right, q, x);
  }

  lemma {:induction false} InsertTops(t: Trie, p: Path, x: Addr)
    requires PathOk(t, p)
    ensures Tops(InsertAt(t, p, x)) == Tops(t) + (if SlotAt(t, p).Same? then {} else {x})
  {
    match p
    case Here =>
    case NewLeft =>
    case NewRight =>
    case GoLeft(q) => InsertTops(t.left, q, x);
    case GoRight(q) => InsertTops(t.right, q, x);
  }

  /** The tree fields written at the end of insert_large_chunk. */
  function AttachT(tl: TLinks, q: Slot, x: Addr, i: nat): (r: TLinks)
    requires q.a in tl
  {
    match q
    case Same(a) => tl[x := TLink(0, 0, NoParent, i)]
    case Child(a, right) =>
      tl[a := if right then tl[a].(right := x) else tl[a].(left := x)][x := TLink(0, 0, Chunk(a), i)]
  }

  /** The ring fields written at the end of insert_large_chunk. */
  function AttachR(rl: RLinks, q: Slot, x: Addr): (r: RLinks)
    requires q.a in rl && rl[q.a].fd in rl
  {
    match q
    case Same(a) => RingAttach(rl, a, x)
    case Child(_, _) => rl[x := RLink(x, x)]
  }

  /** Those writes build the tree of InsertAt(t, p, x). */
  lemma {:induction false} InsertLinked(t: Trie, tl: TLinks, a: Addr, up: Parent, i: nat, x: Addr, p: Path)
    requires PathOk(t, p) && Distinct(t) && Linked(t, tl, a, up, i) && x !in Nodes(t) && x > 0
    ensures SlotAt(t, p).a in tl
    ensures Linked(InsertAt(t, p, x), AttachT(tl, SlotAt(t, p), x, i), a, up, i)
  {
    LinkedTops(t, tl, a, up, i);
    TopsAreNodes(t.left);
    TopsAreNodes(t.right);
    var tl' := AttachT(tl, SlotAt(t, p), x, i);
    if !p.GoLeft? { LinkedFrame(t.left, tl, tl', tl[a].left, Chunk(a), i); }
    if !p.GoRight? { LinkedFrame(t.right, tl, tl', tl[a].right, Chunk(a), i); }
    if p.GoLeft? { InsertLinked(t.left, tl, tl[a].left, Chunk(a), i, x, p.down); }
    if p.GoRight? { InsertLinked(t.right, tl, tl[a].right, Chunk(a), i, x, p.down); }
  }

  /** ... and its rings. */
  lemma {:induction false} InsertRings(t: Trie, rl: RLinks, x: Addr, p: Path)
    requires PathOk(t, p) && Distinct(t) && Rings(t, rl) && x !in Nodes(t)
    ensures var q := SlotAt(t, p);
      q.a in rl && rl[q.a].fd in rl && rl[q.a].fd in Nodes(t) && Rings(InsertAt(t, p, x), AttachR(rl, q, x))
  {
    SlotRing(t, rl, p);
    var rl' := AttachR(rl, SlotAt(t, p), x);
    match p
    case Here => RingsHere(t, rl, x);
    case NewLeft => RingsBeside(t, rl, rl', Empty);
    case NewRight => RingsBeside(t, rl, rl', Empty);
    case GoLeft(d) =>
      InsertRings(t.left, rl, x, d);
      InsertOutside(t.left, rl, x, d);
      RingsBeside(t, rl, rl', t.left);
    case GoRight(d) =>
      InsertRings(t.right, rl, x, d);
      InsertOutside(t.right, rl, x, d);
      RingsBeside(t, rl, rl', t.right);
  }

  lemma InsertOutside(t: Trie, rl: RLinks, x: Addr, p: Path)
    requires PathOk(t, p) && Rings(t, rl)
    ensures var a := SlotAt(t, p).a; a in rl && rl[a].fd in rl
    ensures var rl' := AttachR(rl, SlotAt(t, p), x);
      forall b :: b in rl && b !in Nodes(t) && b != x ==> b in rl' && rl'[b] == rl[b]
  {
    SlotRing(t, rl, p);
  }

  lemma SlotRing(t: Trie, rl: RLinks, p: Path)
    requires PathOk(t, p) && Rings(t, rl)
    ensures var a := SlotAt(t, p).a; a in Nodes(t) && a in rl && rl[a].fd in Nodes(t) && rl[a].fd in rl
    ensures forall b :: b in Nodes(t) ==> b in rl
  {
    TopsAreNodes(t);
    RingsMembers(t, rl);
    RingsClosed(t, rl, SlotAt(t, p).a);
  }

  lemma RingsHere(t: Trie, rl: RLinks, x: Addr)
    requires t.Node? && Distinct(t) && Rings(t, rl) && x !in Nodes(t)
    ensures rl[t.chain[0]].fd in rl
    ensures Rings(Node([t.chain[0], x] + t.chain[1..], t.left, t.right), RingAttach(rl, t.chain[0], x))
  {
    RingsMembers(t, rl);
    RingInsert(rl, t.chain, x);
    RingsFrame(t.left, rl, RingAttach(rl, t.chain[0], x));
    RingsFrame(t.right, rl, RingAttach(rl, t.chain[0], x));
  }

  /** Ring writes inside one child leave the node's chain and its other child alone. */
  lemma RingsBeside(t: Trie, rl: RLinks, rl': RLinks, inside: Trie)
    requires t.Node? && Distinct(t) && Rings(t, rl) && inside in {Empty, t.left, t.right}
    requires forall b :: b in Nodes(t) && b !in Nodes(inside) ==> b in rl && b in rl' && rl'[b] == rl[b]
    ensures Ring(rl', t.chain)
    ensures inside != t.left ==> Rings(t.left, rl')
    ensures inside != t.right ==> Rings(t.right, rl')
  {
    RingFrame(rl, rl', t.chain);
    if inside != t.left { RingsFrame(t.left, rl, rl'); }
    if inside != t.right { RingsFrame(t.right, rl, rl'); }
  }

  lemma InsertFollowers(t: Trie, tl: TLinks, i: nat, x: Addr, p: Path)
    requires PathOk(t, p) && Distinct(t) && x !in Nodes(t) && x > 0
    requires Followers(t, tl, i) && SlotAt(t, p).a in tl
    ensures Followers(InsertAt(t, p, x), AttachT(tl, SlotAt(t, p), x, i), i)
  {
    InsertNodes(t, p, x);
    InsertTops(t, p, x);
  }

  /** The bits of size s lead along path p: left below the middle of the range, right from the middle on. */
  ghost predicate Leads(t: Trie, h: Heads, s: nat, lo: nat, k: nat, p: Path)
    decreases p
  {
    && t.Node? && |t.chain| > 0
    && (p.Here? <==> Sz(h, t.chain[0]) == s)
    && (!p.Here? ==> k > 0 && (p.NewLeft? || p.GoLeft? <==> s < lo + Pow2(k - 1)))
    && match p
       case Here => true
       case NewLeft => t.left.Empty?
       case NewRight => t.right.Empty?
       case GoLeft(q) => Leads(t.left, h, s, lo, k - 1, q)
       case GoRight(q) => Leads(t.right, h, s, lo + Pow2(k - 1), k - 1, q)
  }

  /** Hanging x where its size leads keeps the trie rule. */
  lemma {:induction false} InsertRanged(t: Trie, h: Heads, x: Addr, lo: nat, k: nat, p: Path)
    requires Ranged(t, h, lo, k) && lo <= Sz(h, x) < lo + Pow2(k) && Leads(t, h, Sz(h, x), lo, k, p) && PathOk(t, p)
    ensures Ranged(InsertAt(t, p, x), h, lo, k)
    decreases p
  {
    match p
    case Here =>
    case NewLeft =>
    case NewRight =>
    case GoLeft(q) => InsertRanged(t.left, h, x, lo, k - 1, q);
    case GoRight(q) => InsertRanged(t.right, h, x, lo + Pow2(k - 1), k - 1, q);
  }

  lemma NotRight(t: Trie, h: Heads, s: nat, lo: nat, k: nat)
    requires t.Node? && Ranged(t, h, lo, k) && k > 0 && s < lo + Pow2(k - 1)
    ensures s !in Sizes(t.right, h)
  {
    SizesInRange(t.right, h, lo + Pow2(k - 1), k - 1);
  }

  lemma NotLeft(t: Trie, h: Heads, s: nat, lo: nat, k: nat)
    requires t.Node? && Ranged(t, h, lo, k) && k > 0 && lo + Pow2(k - 1) <= s
    ensures s !in Sizes(t.left, h)
  {
    SizesInRange(t.left, h, lo, k - 1);
  }

  lemma {:induction false} InsertUnique(t: Trie, h: Heads, x: Addr, lo: nat, k: nat, p: Path)
    requires Unique(t, h) && Ranged(t, h, lo, k) && Leads(t, h, Sz(h, x), lo, k, p) && PathOk(t, p)
    ensures Unique(InsertAt(t, p, x), h)
    ensures Sizes(InsertAt(t, p, x), h) == Sizes(t, h) + {Sz(h, x)}
    decreases p
  {
    match p
    case Here =>
    case NewLeft => NotRight(t, h, Sz(h, x), lo, k);
    case NewRight => NotLeft(t, h, Sz(h, x), lo, k);
    case GoLeft(q) =>
      NotRight(t, h, Sz(h, x), lo, k);
      InsertUnique(t.left, h, x, lo, k - 1, q);
    case GoRight(q) =>
      NotLeft(t, h, Sz(h, x), lo, k);
      InsertUnique(t.right, h, x, lo + Pow2(k - 1), k - 1, q);
  }
}
