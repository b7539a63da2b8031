/** tmalloc_large's search: the best fitting large chunk, by bit tests and wrapping subtraction. */
module TreeSearch {
  import opened Bits
  import opened BinIndex
  import opened Chunks
  import opened Tries
  import opened TrieRemoval
  import opened TreeBins

  /** All 32 tree bins: each holds its trie, and its map bit is set exactly when it is not empty. */
  ghost predicate ForestOk(f: seq<Trie>, h: Heads, tl: TLinks, rl: RLinks, roots: seq<Addr>, treemap: nat)
  {
    && |f| == NTREEBINS && |roots| == NTREEBINS && treemap < WORD
    && (forall i :: 0 <= i < NTREEBINS ==> BinOk(f[i], h, tl, rl, roots[i], i))
    && (forall i :: 0 <= i < NTREEBINS ==> (TestBit(treemap, i) <==> f[i].Node?))
    && (forall a :: a in ForestNodes(f) ==> Sz(h, a) < WORD)
  }

  ghost function ForestNodes(f: seq<Trie>): set<Addr> {
    set i, a | 0 <= i < |f| && a in Nodes(f[i]) :: a
  }

  /** v is a smallest chunk of at least nb bytes among the chunks of s. */
  ghost predicate IsBestFit(h: Heads, s: set<Addr>, nb: nat, v: Addr) {
    v in s && Sz(h, v) >= nb && forall a :: a in s && Sz(h, a) >= nb ==> Sz(h, v) <= Sz(h, a)
  }

  /** What the search has found so far: v fits by rsize, or nothing fits yet. */
  ghost predicate Found(h: Heads, s: set<Addr>, nb: nat, v: Addr, rsize: nat) {
    if v == 0 then rsize == WORD - nb else v in s && Sz(h, v) >= nb && rsize == Sz(h, v) - nb
  }

  /** No chunk of u can beat v except one still in t, or one above all of t. */
  ghost predicate Covers(h: Heads, u: set<Addr>, nb: nat, v: Addr, t: Trie) {
    forall a :: a in u && Sz(h, a) >= nb ==>
      || (v != 0 && Sz(h, v) <= Sz(h, a))
      || a in Nodes(t)
      || (t.Node? && forall b :: b in Nodes(t) ==> nb <= Sz(h, b) < Sz(h, a))
  }

  // ---- arithmetic of one probe ----------------------------------------------------------

  /** chunksize(t) - nb, wrapped, is below the bound exactly for a chunk that fits and fits better. */
  lemma WrappedProbe(s: nat, nb: nat, rsize: nat)
    requires s < WORD && 0 < nb < WORD && rsize <= WORD - nb
    ensures (s - nb) % WORD < rsize <==> s >= nb && s - nb < rsize
    ensures s >= nb ==> (s - nb) % WORD == s - nb
  {
    if s < nb { ModUnique(s - nb, WORD, -1, s - nb + WORD); }
  }

  /** n << j, unbounded. */
  function Shl(n: nat, j: nat): nat { if j == 0 then n else 2 * Shl(n, j - 1) }

  lemma {:induction false} ShlIsMul(n: nat, j: nat)
    ensures Shl(n, j) == n * Pow2(j)
  {
    if j > 0 {
      ShlIsMul(n, j - 1);
      MulTwo(n, Pow2(j - 1));
    }
  }

  /** One step of sizebits: its top bit tells the half of the range, and shifting moves into that half. */
  lemma ProbeBit(nb: nat, lo: nat, k: nat, bits: nat)
    requires 0 < k <= 32 && lo <= nb < lo + Pow2(k) && bits == Shl(nb - lo, 32 - k)
    ensures bits < WORD
    ensures bits / 0x8000_0000 == if nb < lo + Pow2(k - 1) then 0 else 1
    ensures (2 * bits) % WORD == Shl(nb - (if nb < lo + Pow2(k - 1) then lo else lo + Pow2(k - 1)), 33 - k)
  {
    Complement(k);
    ShlIsMul(nb - lo, 32 - k);
    HalfProbe(nb - lo, Pow2(k - 1), Pow2(32 - k), bits);
    ShlIsMul(nb - (if nb < lo + Pow2(k - 1) then lo else lo + Pow2(k - 1)), 33 - k);
  }

  lemma Complement(k: nat)
    requires 0 < k <= 32
    ensures Pow2(k) * Pow2(32 - k) == WORD && Pow2(k - 1) * Pow2(32 - k) == 0x8000_0000
  {
    Pow2Add(k, 32 - k);
    Pow2Add(k - 1, 32 - k);
    Pow2Small();
  }

  lemma HalfProbe(r: nat, m: nat, p: nat, bits: nat)
    requires 0 < p && r < 2 * m && m * p == 0x8000_0000 && bits == r * p
    ensures bits < WORD
    ensures bits / 0x8000_0000 == if r < m then 0 else 1
    ensures (2 * bits) % WORD == (if r < m then r else r - m) * (2 * p)
  {
    MulTwo(r, p);
    if r < m {
      MulLess(r, m, p);
    } else {
      MulLess(r - m, m, p);
      MulSplit(r, m, p);
      MulTwo(r - m, p);
      ModUnique(2 * bits, WORD, 1, (r - m) * (2 * p));
    }
  }

  lemma MulTwo(a: nat, p: nat)
    ensures a * (2 * p) == 2 * (a * p)
  {}

  lemma MulSplit(a: nat, b: nat, p: nat)
    requires b <= a
    ensures a * p == b * p + (a - b) * p
  {}

  lemma MulLess(a: nat, b: nat, p: nat)
    requires a < b && p > 0
    ensures a * p < b * p
  {}

  lemma MulAssoc(a: nat, b: nat, c: nat)
    ensures (a * b) * c == a * (b * c)
  {}

  /** nb << leftshift_for_tree_index(idx), at the root of the bin. */
  lemma FirstBits(nb: nat, i: nat)
    requires i < NTREEBINS && InBin(nb, i) && nb < WORD
    ensures RangeLo(i) <= nb && Shl(nb, LeftShift(i)) % WORD == Shl(nb - RangeLo(i), 32 - RangeBits(i))
  {
    var q := BinRange(i, nb);
    Complement(RangeBits(i));
    ShlIsMul(nb, LeftShift(i));
    ShlIsMul(nb - RangeLo(i), LeftShift(i));
    ShiftIn(nb, RangeLo(i), q, Pow2(RangeBits(i)), Pow2(LeftShift(i)));
  }

  lemma ShiftIn(nb: nat, lo: nat, q: nat, m: nat, p: nat)
    requires lo == q * m && lo <= nb < lo + m && m * p == WORD && p > 0
    ensures (nb * p) % WORD == (nb - lo) * p
  {
    MulAssoc(q, m, p);
    MulSplit(nb, lo, p);
    MulLess(nb - lo, m, p);
    ModUnique(nb * p, WORD, q, (nb - lo) * p);
  }

  // ---- the two descents --------------------------------------------------------------------

  /** v' is at least as good as v, and as good as the probed chunk c if that one fits. */
  ghost predicate Probed(h: Heads, nb: nat, v: Addr, c: Addr, v': Addr) {
    && (v != 0 ==> v' != 0 && Sz(h, v') <= Sz(h, v))
    && (Sz(h, c) >= nb ==> v' != 0 && Sz(h, v') <= Sz(h, c))
  }

  /** leftmost_child */
  function Leftmost(t: Trie): Trie
    requires t.Node?
  {
    if t.left.Node? then t.left else t.right
  }

  lemma HalvesOrdered(t: Trie, h: Heads, lo: nat, k: nat, a: Addr, b: Addr)
    requires t.Node? && Ranged(t, h, lo, k) && a in Nodes(t.left) && b in Nodes(t.right)
    ensures Sz(h, a) < lo + Pow2(k - 1) <= Sz(h, b)
  {
    InRange(t.left, h, lo, k - 1, a);
    InRange(t.right, h, lo + Pow2(k - 1), k - 1, b);
  }

  /** Following leftmost children loses nothing that could still be best. */
  lemma LeftmostCovers(h: Heads, u: set<Addr>, nb: nat, v: Addr, t: Trie, lo: nat, k: nat, v': Addr)
    requires t.Node? && Ranged(t, h, lo, k) && Covers(h, u, nb, v, t) && Probed(h, nb, v, t.chain[0], v')
    requires (v' != 0 && Sz(h, v') <= nb) || forall b :: b in Nodes(t) ==> nb <= Sz(h, b)
    ensures Covers(h, u, nb, v', Leftmost(t))
  {
    var n := Leftmost(t);
    assert t.chain[0] in Nodes(t);
    forall a | a in u && Sz(h, a) >= nb && !(v' != 0 && Sz(h, v') <= Sz(h, a)) && a !in Nodes(n)
      ensures n.Node? && forall b :: b in Nodes(n) ==> nb <= Sz(h, b) < Sz(h, a)
    {
      if a in Nodes(t) {
        assert a in Nodes(t.right) && n == t.left;
        forall b | b in Nodes(n) ensures nb <= Sz(h, b) < Sz(h, a) { HalvesOrdered(t, h, lo, k, b, a); }
      }
    }
  }

  /** As Covers, with the deepest untaken right subtree r, whose sizes end below top, held in reserve. */
  ghost predicate CoversTwo(h: Heads, u: set<Addr>, nb: nat, v: Addr, t: Trie, r: Trie, top: nat) {
    forall a :: a in u && Sz(h, a) >= nb ==>
      (v != 0 && Sz(h, v) <= Sz(h, a)) || a in Nodes(t) || a in Nodes(r) || (r.Node? && Sz(h, a) >= top)
  }

  lemma StepLeft(h: Heads, u: set<Addr>, nb: nat, v: Addr, t: Trie, lo: nat, k: nat, r: Trie, rlo: nat, rk: nat,
                 v': Addr)
    requires t.Node? && Ranged(t, h, lo, k) && 0 < k && Probed(h, nb, v, t.chain[0], v')
    requires CoversTwo(h, u, nb, v, t, r, rlo + Pow2(rk))
    requires r.Node? ==> Ranged(r, h, rlo, rk) && lo + Pow2(k) <= rlo
    ensures t.right.Empty? ==> CoversTwo(h, u, nb, v', t.left, r, rlo + Pow2(rk))
    ensures t.right.Node? ==> CoversTwo(h, u, nb, v', t.left, t.right, lo + Pow2(k - 1) + Pow2(k - 1))
  {
    if t.right.Node? {
      forall a | a in Nodes(r) ensures Sz(h, a) >= lo + Pow2(k) { InRange(r, h, rlo, rk, a); }
    }
  }

  lemma StepRight(h: Heads, u: set<Addr>, nb: nat, v: Addr, t: Trie, lo: nat, k: nat, r: Trie, top: nat, v': Addr)
    requires t.Node? && Ranged(t, h, lo, k) && 0 < k && lo + Pow2(k - 1) <= nb && Probed(h, nb, v, t.chain[0], v')
    requires CoversTwo(h, u, nb, v, t, r, top)
    ensures CoversTwo(h, u, nb, v', t.right, r, top)
  {
    forall a | a in Nodes(t.left) ensures Sz(h, a) < nb { InRange(t.left, h, lo, k - 1, a); }
  }

  /** Falling back on the reserve. */
  lemma TakeReserve(h: Heads, u: set<Addr>, nb: nat, v: Addr, r: Trie, rlo: nat, rk: nat)
    requires CoversTwo(h, u, nb, v, Empty, r, rlo + Pow2(rk)) && (r.Node? ==> Ranged(r, h, rlo, rk) && nb <= rlo)
    ensures Covers(h, u, nb, v, r)
    ensures forall b :: b in Nodes(r) ==> nb <= Sz(h, b)
  {
    forall b | b in Nodes(r) ensures nb <= Sz(h, b) < rlo + Pow2(rk) { InRange(r, h, rlo, rk, b); }
  }

  /** A subtree in hand: where it hangs and the sizes it covers. */
  datatype Cursor = Cursor(t: Trie, p: Parent, lo: nat, k: nat)

  /** Address a holds the subtree c of bin i, whose chunks are among u. */
  ghost predicate Holds(h: Heads, tl: TLinks, u: set<Addr>, i: nat, a: Addr, c: Cursor) {
    Linked(c.t, tl, a, c.p, i) && Nodes(c.t) <= u && (c.t.Node? ==> Ranged(c.t, h, c.lo, c.k))
  }

  /** The state of the descent: nb is in the range of the current subtree, and the reserve lies above it. */
  ghost predicate Descending(h: Heads, tl: TLinks, u: set<Addr>, nb: nat, i: nat, v: Addr, t: Addr, c: Cursor,
                             rst: Addr, r: Cursor) {
    && c.t.Node? && Holds(h, tl, u, i, t, c)
    && c.lo <= nb < c.lo + Pow2(c.k)
    && Holds(h, tl, u, i, rst, r) && (r.t.Node? ==> c.lo + Pow2(c.k) <= r.lo)
    && CoversTwo(h, u, nb, v, c.t, r.t, r.lo + Pow2(r.k))
  }

  /** One level down, to the half that holds nb; an untaken right half becomes the reserve. */
  ghost function Down(c: Cursor, r: Cursor, right: bool): (Cursor, Cursor)
    requires c.t.Node? && |c.t.chain| > 0 && c.k > 0
  {
    var up := Chunk(c.t.chain[0]);
    if right then (Cursor(c.t.right, up, c.lo + Pow2(c.k - 1), c.k - 1), r)
    else (Cursor(c.t.left, up, c.lo, c.k - 1),
          if c.t.right.Node? then Cursor(c.t.right, up, c.lo + Pow2(c.k - 1), c.k - 1) else r)
  }

  /** The descent may stop at t, with everything that could still be best below it. */
  ghost predicate Settled(h: Heads, tl: TLinks, u: set<Addr>, nb: nat, i: nat, v: Addr, t: Addr, c: Cursor) {
    && Holds(h, tl, u, i, t, c) && Covers(h, u, nb, v, c.t)
    && ((v != 0 && Sz(h, v) <= nb) || forall b :: b in Nodes(c.t) ==> nb <= Sz(h, b))
  }

  lemma DownRight(h: Heads, tl: TLinks, u: set<Addr>, nb: nat, i: nat, v: Addr, t: Addr, c: Cursor, rst: Addr,
                  r: Cursor, v': Addr)
    requires Descending(h, tl, u, nb, i, v, t, c, rst, r) && Probed(h, nb, v, t, v')
    requires c.k > 0 && c.lo + Pow2(c.k - 1) <= nb
    ensures t in tl
    ensures tl[t].right != 0 ==> Descending(h, tl, u, nb, i, v', tl[t].right, Down(c, r, true).0, rst, r)
    ensures tl[t].right == 0 ==> Settled(h, tl, u, nb, i, v', rst, r)
  {
    var n := c.t;
    RootAddr(n.right, tl, tl[t].right, Chunk(t), i);
    StepRight(h, u, nb, v, n, c.lo, c.k, r.t, r.lo + Pow2(r.k), v');
    if n.right.Empty? { TakeReserve(h, u, nb, v', r.t, r.lo, r.k); }
  }

  lemma DownLeft(h: Heads, tl: TLinks, u: set<Addr>, nb: nat, i: nat, v: Addr, t: Addr, c: Cursor, rst: Addr, r: Cursor,
                 v': Addr)
    requires Descending(h, tl, u, nb, i, v, t, c, rst, r) && Probed(h, nb, v, t, v')
    requires c.k > 0 && nb < c.lo + Pow2(c.k - 1)
    ensures t in tl && (tl[t].right == 0 || tl[t].left != tl[t].right)
    ensures var (c', r') := Down(c, r, false); var rst' := if tl[t].right != 0 then tl[t].right else rst;
      && (tl[t].left != 0 ==> Descending(h, tl, u, nb, i, v', tl[t].left, c', rst', r'))
      && (tl[t].left == 0 ==> Settled(h, tl, u, nb, i, v', rst', r'))
  {
    RootAddr(c.t.right, tl, tl[t].right, Chunk(t), i);
    if c.t.right.Node? {
      if c.t.left.Node? { DownOpen(h, tl, u, nb, i, v, t, c, rst, r, v'); }
      else { DownTurn(h, tl, u, nb, i, v, t, c, rst, r, v'); }
      RootsDiffer(c.t, h, tl, t, c.p, i, c.lo, c.k);
    } else { DownPlain(h, tl, u, nb, i, v, t, c, rst, r, v'); }
  }

  lemma RootAddr(t: Trie, tl: TLinks, a: Addr, p: Parent, i: nat)
    requires Linked(t, tl, a, p, i)
    ensures a == Root(t) && (a != 0 <==> t.Node?)
  {}

  /** Going left with nothing on the right: the old reserve stays. */
  lemma DownPlain(h: Heads, tl: TLinks, u: set<Addr>, nb: nat, i: nat, v: Addr, t: Addr, c: Cursor, rst: Addr,
                  r: Cursor, v': Addr)
    requires Descending(h, tl, u, nb, i, v, t, c, rst, r) && Probed(h, nb, v, t, v')
    requires c.k > 0 && nb < c.lo + Pow2(c.k - 1) && c.t.right.Empty?
    ensures t in tl
    ensures tl[t].left != 0 ==> Descending(h, tl, u, nb, i, v', tl[t].left, Down(c, r, false).0, rst, r)
    ensures tl[t].left == 0 ==> Settled(h, tl, u, nb, i, v', rst, r)
  {
    RootAddr(c.t.left, tl, tl[t].left, Chunk(t), i);
    StepLeft(h, u, nb, v, c.t, c.lo, c.k, r.t, r.lo, r.k, v');
    if c.t.left.Empty? { TakeReserve(h, u, nb, v', r.t, r.lo, r.k); }
  }

  /** Going left past a right subtree: it becomes the reserve. */
  lemma DownOpen(h: Heads, tl: TLinks, u: set<Addr>, nb: nat, i: nat, v: Addr, t: Addr, c: Cursor, rst: Addr, r: Cursor,
                 v': Addr)
    requires Descending(h, tl, u, nb, i, v, t, c, rst, r) && Probed(h, nb, v, t, v')
    requires c.k > 0 && nb < c.lo + Pow2(c.k - 1) && c.t.right.Node? && c.t.left.Node?
    ensures t in tl && tl[t].right != 0 && tl[t].left != 0
    ensures var c', r' := Cursor(c.t.left, Chunk(t), c.lo, c.k - 1),
      Cursor(c.t.right, Chunk(t), c.lo + Pow2(c.k - 1), c.k - 1);
      Down(c, r, false) == (c', r') && Descending(h, tl, u, nb, i, v', tl[t].left, c', tl[t].right, r')
  {
    RootAddr(c.t.left, tl, tl[t].left, Chunk(t), i);
    RootAddr(c.t.right, tl, tl[t].right, Chunk(t), i);
    StepLeft(h, u, nb, v, c.t, c.lo, c.k, r.t, r.lo, r.k, v');
  }

  /** There is nothing on the left: the search moves to the right subtree. */
  lemma DownTurn(h: Heads, tl: TLinks, u: set<Addr>, nb: nat, i: nat, v: Addr, t: Addr, c: Cursor, rst: Addr, r: Cursor,
                 v': Addr)
    requires Descending(h, tl, u, nb, i, v, t, c, rst, r) && Probed(h, nb, v, t, v')
    requires c.k > 0 && nb < c.lo + Pow2(c.k - 1) && c.t.right.Node? && c.t.left.Empty?
    ensures t in tl && tl[t].right != 0 && tl[t].left == 0
    ensures Settled(h, tl, u, nb, i, v', tl[t].right, Down(c, r, false).1)
  {
    RootAddr(c.t.left, tl, tl[t].left, Chunk(t), i);
    RootAddr(c.t.right, tl, tl[t].right, Chunk(t), i);
    StepLeft(h, u, nb, v, c.t, c.lo, c.k, r.t, r.lo, r.k, v');
    TakeReserve(h, u, nb, v', c.t.right, c.lo + Pow2(c.k - 1), c.k - 1);
  }

  lemma RootsDiffer(n: Trie, h: Heads, tl: TLinks, t: Addr, p: Parent, i: nat, lo: nat, k: nat)
    requires n.Node? && n.right.Node? && Linked(n, tl, t, p, i) && Ranged(n, h, lo, k)
    ensures tl[t].left != tl[t].right
  {
    if n.left.Node? { HalvesOrdered(n, h, lo, k, n.left.chain[0], n.right.chain[0]); }
  }

  /** A probe of the chunk at the current node: its size is known, and only an exact fit ends in a one-size range. */
  lemma AtNode(h: Heads, tl: TLinks, u: set<Addr>, nb: nat, i: nat, v: Addr, t: Addr, c: Cursor, rst: Addr, r: Cursor)
    requires Descending(h, tl, u, nb, i, v, t, c, rst, r)
    ensures t == c.t.chain[0] && t in u && t != 0 && t in tl && (Sz(h, t) != nb ==> c.k > 0)
  {
    assert t in c.t.chain && t in Nodes(c.t);
  }

  lemma SettledByExact(h: Heads, tl: TLinks, u: set<Addr>, nb: nat, i: nat, v: Addr, t: Addr, c: Cursor, rst: Addr,
                       r: Cursor)
    requires Descending(h, tl, u, nb, i, v, t, c, rst, r) && t != 0 && Sz(h, t) == nb
    ensures Settled(h, tl, u, nb, i, t, t, c)
  {}

  /** sizebits holds the bits of nb below the current range, shifted to the top. */
  ghost predicate BitsAt(nb: nat, c: Cursor, bits: nat) {
    c.k <= 32 && c.lo <= nb && bits == Shl(nb - c.lo, 32 - c.k)
  }

  lemma Start(h: Heads, tl: TLinks, root: Addr, nb: nat, i: nat, t0: Trie) returns (c: Cursor, r: Cursor)
    requires i < NTREEBINS && InBin(nb, i) && 0 < nb < WORD
    requires t0.Node? && Linked(t0, tl, root, Bin(i), i) && Ranged(t0, h, RangeLo(i), RangeBits(i))
    ensures c.t == t0 && Descending(h, tl, Nodes(t0), nb, i, 0, root, c, 0, r)
    ensures BitsAt(nb, c, Shl(nb, LeftShift(i)) % WORD)
  {
    c := Cursor(t0, Bin(i), RangeLo(i), RangeBits(i));
    r := Cursor(Empty, Bin(i), 0, 0);
    FirstBits(nb, i);
    InBinRange(i, nb);
  }

  /** One iteration after the probe: one level down, or a stop at the reserve. */
  lemma Iterate(h: Heads, tl: TLinks, u: set<Addr>, nb: nat, i: nat, v0: Addr, t: Addr, c: Cursor, bits: nat,
                rst: Addr, r: Cursor, v: Addr) returns (c': Cursor, r': Cursor)
    requires Descending(h, tl, u, nb, i, v0, t, c, rst, r) && BitsAt(nb, c, bits) && Probed(h, nb, v0, t, v)
    ensures t in tl
    ensures var n := if bits / 0x8000_0000 == 1 then tl[t].right else tl[t].left;
      var rst' := if tl[t].right != 0 && tl[t].right != n then tl[t].right else rst;
      && (n != 0 ==> c'.t < c.t && Descending(h, tl, u, nb, i, v, n, c', rst', r') && BitsAt(nb, c', (2 * bits) % WORD))
      && (n == 0 ==> Settled(h, tl, u, nb, i, v, rst', r'))
  {
    AtNode(h, tl, u, nb, i, v0, t, c, rst, r);
    if c.k == 0 {
      OneSize(h, tl, u, nb, i, v0, t, c, rst, r, v);
      c', r' := c, r;
    } else {
      ProbeBit(nb, c.lo, c.k, bits);
      if bits / 0x8000_0000 == 1 { DownRight(h, tl, u, nb, i, v0, t, c, rst, r, v); }
      else { DownLeft(h, tl, u, nb, i, v0, t, c, rst, r, v); }
      c', r' := Down(c, r, bits / 0x8000_0000 == 1).0, Down(c, r, bits / 0x8000_0000 == 1).1;
    }
  }

  /** A range of one size has no children, and its chunk is as good as any. */
  lemma OneSize(h: Heads, tl: TLinks, u: set<Addr>, nb: nat, i: nat, v0: Addr, t: Addr, c: Cursor, rst: Addr, r: Cursor,
                v: Addr)
    requires Descending(h, tl, u, nb, i, v0, t, c, rst, r) && Probed(h, nb, v0, t, v) && c.k == 0
    ensures t in tl && tl[t].left == 0 && tl[t].right == 0 && Settled(h, tl, u, nb, i, v, rst, r)
  {
    RootAddr(c.t.left, tl, tl[t].left, Chunk(t), i);
    RootAddr(c.t.right, tl, tl[t].right, Chunk(t), i);
    assert Pow2(0) == 1 && Sz(h, t) == nb;
  }

  /** A probe keeps the better of what was found and the chunk t. */
  lemma Probe(h: Heads, u: set<Addr>, nb: nat, v0: Addr, rsize0: nat, t: Addr)
    requires 0 < nb < WORD && Found(h, u, nb, v0, rsize0) && rsize0 <= WORD - nb && t in u && t != 0 && Sz(h, t) < WORD
    ensures var trem := (Sz(h, t) - nb) % WORD; var better := trem < rsize0;
      var v, rsize := if better then t else v0, if better then trem else rsize0;
      && Found(h, u, nb, v, rsize) && rsize <= WORD - nb && Probed(h, nb, v0, t, v)
      && (better && trem == 0 ==> Sz(h, t) == nb) && (rsize > 0 ==> Sz(h, t) != nb)
  {
    WrappedProbe(Sz(h, t), nb, rsize0);
  }

  /** The size whose place in the bins a search for nb bytes looks up: its own, or for a size that no tree bin has, the
      one in bin 0 with the same low bits. */
  function Steer(nb: nat): nat { if nb >= MIN_LARGE_SIZE then nb else MIN_LARGE_SIZE + nb % 128 }

  lemma SteerBits(nb: nat)
    requires nb < MIN_LARGE_SIZE
    ensures Shl(nb, LeftShift(0)) % WORD == Shl(Steer(nb), LeftShift(0)) % WORD
  {
    ShlIsMul(nb, 25);
    ShlIsMul(Steer(nb), 25);
    assert Pow2(25) == 0x200_0000 by { Pow2Small(); }
    var q: nat := 2 - nb / 128;
    assert Steer(nb) == nb + 128 * q;
    ModShift(nb * 0x200_0000, q);
  }

  lemma ModShift(a: nat, q: nat)
    requires q <= 2
    ensures (a + WORD * q) % WORD == a % WORD
  {}

  lemma SteerIndex(nb: nat)
    requires 0 < nb < WORD
    ensures var i := TreeIndex(nb); i < NTREEBINS && InBin(Steer(nb), i) && nb <= Steer(nb) < WORD
    ensures nb < MIN_LARGE_SIZE ==> TreeIndex(nb) == 0
    ensures Shl(nb, LeftShift(TreeIndex(nb))) % WORD == Shl(Steer(nb), LeftShift(TreeIndex(nb))) % WORD
  {
    TreeIndexRange(Steer(nb));
    if nb < MIN_LARGE_SIZE {
      SteerBits(nb);
      FirstBin(Steer(nb));
    }
  }

  lemma FirstBin(s: nat)
    requires MIN_LARGE_SIZE <= s < MIN_LARGE_SIZE + 128
    ensures TreeIndex(s) == 0
  {
    Pow2Small();
    assert s / 256 == 1 && Log2(1) == 0;
  }

  /** The first loop of tmalloc_large: follow the bits of nb, which are those of s, down bin i. */
  method Descend(h: Heads, tl: TLinks, root: Addr, nb: nat, i: nat, ghost s: nat, ghost t0: Trie)
    returns (v: Addr, rsize: nat, t: Addr, ghost c: Cursor)
    requires i < NTREEBINS && InBin(s, i) && 0 < nb <= s < WORD && (s == nb || nb < MIN_LARGE_SIZE)
    requires Shl(nb, LeftShift(i)) % WORD == Shl(s, LeftShift(i)) % WORD
    requires t0.Node? && Linked(t0, tl, root, Bin(i), i) && Ranged(t0, h, RangeLo(i), RangeBits(i))
    requires forall a :: a in Nodes(t0) ==> MIN_LARGE_SIZE <= Sz(h, a) < WORD
    ensures Found(h, Nodes(t0), nb, v, rsize) && Settled(h, tl, Nodes(t0), s, i, v, t, c)
    ensures nb < MIN_LARGE_SIZE ==> v != 0
  {
    v, rsize, t := 0, WORD - nb, root;
    var sizebits: nat := Shl(nb, LeftShift(i)) % WORD;
    var rst := 0;
    ghost var r;
    ghost var u := Nodes(t0);
    c, r := Start(h, tl, root, s, i, t0);
    while true
      invariant Descending(h, tl, u, s, i, v, t, c, rst, r) && BitsAt(s, c, sizebits)
      invariant Found(h, u, nb, v, rsize) && 0 < rsize <= WORD - nb
      decreases c.t
    {
      ghost var v0 := v;
      AtNode(h, tl, u, s, i, v, t, c, rst, r);
      Probe(h, u, nb, v, rsize, t);
      var trem := (Sz(h, t) - nb) % WORD;
      if trem < rsize {
        v, rsize := t, trem;
        if rsize == 0 {
          SettledByExact(h, tl, u, s, i, v0, t, c, rst, r);
          return;
        }
      }
      c, r := Iterate(h, tl, u, s, i, v0, t, c, sizebits, rst, r, v);
      var rt := tl[t].right;
      t := if sizebits / 0x8000_0000 == 1 then tl[t].right else tl[t].left;
      if rt != 0 && rt != t { rst := rt; }
      if t == 0 {
        t, c := rst, r;
        return;
      }
      sizebits := (2 * sizebits) % WORD;
    }
  }

  lemma LeftmostStep(h: Heads, tl: TLinks, u: set<Addr>, nb: nat, i: nat, v: Addr, t: Addr, c: Cursor, v': Addr)
    returns (c': Cursor)
    requires t != 0 && Settled(h, tl, u, nb, i, v, t, c) && Probed(h, nb, v, t, v')
    ensures t in tl && t in u && c'.t < c.t
    ensures Settled(h, tl, u, nb, i, v', if tl[t].left != 0 then tl[t].left else tl[t].right, c')
  {
    RootAddr(c.t.left, tl, tl[t].left, Chunk(t), i);
    assert t in c.t.chain && t in Nodes(c.t);
    LeftmostCovers(h, u, nb, v, c.t, c.lo, c.k, v');
    c' := if c.t.left.Node? then Cursor(c.t.left, Chunk(t), c.lo, c.k - 1)
          else if c.k == 0 then Cursor(Empty, Chunk(t), 0, 0)
          else Cursor(c.t.right, Chunk(t), c.lo + Pow2(c.k - 1), c.k - 1);
  }

  /** The second loop of tmalloc_large: the smallest chunk of a subtree lies on its leftmost path. */
  method FindLeast(h: Heads, tl: TLinks, nb: nat, ghost s: nat, ghost i: nat, v0: Addr, rsize0: nat, t0: Addr,
                   ghost u: set<Addr>, ghost c0: Cursor)
    returns (v: Addr, rsize: nat)
    requires 0 < nb <= s < WORD && Found(h, u, nb, v0, rsize0) && rsize0 <= WORD - nb
    requires Settled(h, tl, u, s, i, v0, t0, c0)
    requires forall a :: a in u ==> Sz(h, a) < WORD
    ensures Found(h, u, nb, v, rsize) && Covers(h, u, s, v, Empty) && (v0 != 0 ==> v != 0)
  {
    v, rsize := v0, rsize0;
    var t := t0;
    ghost var c := c0;
    while t != 0
      invariant Found(h, u, nb, v, rsize) && rsize <= WORD - nb && Settled(h, tl, u, s, i, v, t, c)
      invariant v0 != 0 ==> v != 0
      decreases c.t
    {
      ghost var v1 := v;
      InSubtree(h, tl, u, s, i, v, t, c);
      Probe(h, u, nb, v, rsize, t);
      var trem := (Sz(h, t) - nb) % WORD;
      if trem < rsize {
        rsize, v := trem, t;
      }
      c := LeftmostStep(h, tl, u, s, i, v1, t, c, v);
      t := if tl[t].left != 0 then tl[t].left else tl[t].right;
    }
    RootAddr(c.t, tl, t, c.p, i);
  }

  lemma InSubtree(h: Heads, tl: TLinks, u: set<Addr>, nb: nat, i: nat, v: Addr, t: Addr, c: Cursor)
    requires t != 0 && Settled(h, tl, u, nb, i, v, t, c)
    ensures t in u
  {
    assert t in c.t.chain && t in Nodes(c.t);
  }

  // ---- all bins ------------------------------------------------------------------------------

  /** Every chunk is in the bin of its size. */
  ghost predicate Binned(f: seq<Trie>, h: Heads) {
    |f| == NTREEBINS && forall j, a :: 0 <= j < |f| && a in Nodes(f[j]) ==> InBin(Sz(h, a), j)
  }

  lemma ForestBinned(f: seq<Trie>, h: Heads, tl: TLinks, rl: RLinks, roots: seq<Addr>, treemap: nat)
    requires ForestOk(f, h, tl, rl, roots, treemap)
    ensures Binned(f, h)
  {
    forall j, a | 0 <= j < |f| && a in Nodes(f[j]) ensures InBin(Sz(h, a), j) {
      assert BinOk(f[j], h, tl, rl, roots[j], j);
    }
  }

  /** Chunks in a lower bin are smaller. */
  lemma BinOrder(f: seq<Trie>, h: Heads, i: nat, j: nat, a: Addr, b: Addr)
    requires Binned(f, h) && i < j < NTREEBINS && a in Nodes(f[i]) && b in Nodes(f[j])
    ensures Sz(h, a) < Sz(h, b)
  {
    BinsOrdered(Sz(h, a), Sz(h, b), i, j);
  }

  /** Bins below the request's hold nothing that fits. */
  lemma LowBins(f: seq<Trie>, h: Heads, nb: nat, i: nat, a: Addr)
    requires Binned(f, h) && i < NTREEBINS && InBin(nb, i) && a in ForestNodes(f) && Sz(h, a) >= nb && a !in Nodes(f[i])
    ensures exists j :: i < j < NTREEBINS && a in Nodes(f[j])
  {
    var j :| 0 <= j < |f| && a in Nodes(f[j]);
    if j < i { BinsOrdered(Sz(h, a), nb, j, i); }
  }

  /** Bins above hold only larger chunks than the request's own bin. */
  lemma OtherBins(f: seq<Trie>, h: Heads, nb: nat, i: nat, v: Addr, t: Trie)
    requires Binned(f, h) && i < NTREEBINS && InBin(nb, i)
    requires Covers(h, Nodes(f[i]), nb, v, t) && (v != 0 || t.Node?) && Nodes(t) <= Nodes(f[i])
    requires if v != 0 then v in Nodes(f[i]) else forall b :: b in Nodes(t) ==> nb <= Sz(h, b)
    ensures Covers(h, ForestNodes(f), nb, v, t)
  {
    forall a | a in ForestNodes(f) && Sz(h, a) >= nb && !(v != 0 && Sz(h, v) <= Sz(h, a)) && a !in Nodes(t)
      ensures t.Node? && forall b :: b in Nodes(t) ==> nb <= Sz(h, b) < Sz(h, a)
    {
      if a !in Nodes(f[i]) {
        LowBins(f, h, nb, i, a);
        var j :| i < j < NTREEBINS && a in Nodes(f[j]);
        if v != 0 { BinOrder(f, h, i, j, v, a); }
        forall b | b in Nodes(t) ensures Sz(h, b) < Sz(h, a) { BinOrder(f, h, i, j, b, a); }
      }
    }
  }

  /** Nothing fits in the request's own bin, and t is the next non-empty bin n above it. */
  lemma NextBin(f: seq<Trie>, h: Heads, nb: nat, i: nat, n: nat)
    requires Binned(f, h) && i < n < NTREEBINS && InBin(nb, i) && Covers(h, Nodes(f[i]), nb, 0, Empty)
    requires f[n].Node? && forall j :: i < j < n ==> f[j].Empty?
    ensures Covers(h, ForestNodes(f), nb, 0, f[n]) && forall b :: b in Nodes(f[n]) ==> nb <= Sz(h, b)
  {
    forall b | b in Nodes(f[n]) ensures nb <= Sz(h, b) { BinsOrdered(nb, Sz(h, b), i, n); }
    forall a | a in ForestNodes(f) && Sz(h, a) >= nb && a !in Nodes(f[n])
      ensures forall b :: b in Nodes(f[n]) ==> Sz(h, b) < Sz(h, a)
    {
      LowBins(f, h, nb, i, a);
      var j :| i < j < NTREEBINS && a in Nodes(f[j]);
      forall b | b in Nodes(f[n]) ensures Sz(h, b) < Sz(h, a) { BinOrder(f, h, n, j, b, a); }
    }
  }

  /** Nothing fits in the request's own bin, and all bins above it are empty. */
  lemma NoBin(f: seq<Trie>, h: Heads, nb: nat, i: nat)
    requires Binned(f, h) && i < NTREEBINS && InBin(nb, i) && Covers(h, Nodes(f[i]), nb, 0, Empty)
    requires forall j :: i < j < NTREEBINS ==> f[j].Empty?
    ensures Covers(h, ForestNodes(f), nb, 0, Empty)
  {
    forall a | a in ForestNodes(f) ensures Sz(h, a) < nb {
      if Sz(h, a) >= nb && a !in Nodes(f[i]) { LowBins(f, h, nb, i, a); }
    }
  }

  /** The least bit of left_bits(idx2bit(i)) & treemap is the next non-empty bin. */
  lemma LeftBitsFindBin(f: seq<Trie>, treemap: nat, i: nat)
    requires |f| == NTREEBINS && treemap < WORD && i < NTREEBINS
    requires forall j :: 0 <= j < NTREEBINS ==> (TestBit(treemap, j) <==> f[j].Node?)
    ensures Pow2(i) < WORD
    ensures var left := And(LeftBits(Pow2(i)), treemap);
      && left < WORD
      && (left == 0 ==> forall j :: i < j < NTREEBINS ==> f[j].Empty?)
      && (left != 0 ==>
            && LeastBit(left) > 0 && Ctz(LeastBit(left)) == Ctz(left) && i < Ctz(left) < NTREEBINS && f[Ctz(left)].Node?
            && forall j :: i < j < Ctz(left) ==> f[j].Empty?)
  {
    Pow2Below(i);
    var left := And(LeftBits(Pow2(i)), treemap);
    AndBound(LeftBits(Pow2(i)), treemap);
    if left == 0 {
      forall j | i < j < NTREEBINS ensures f[j].Empty? { LeftBitsMask(treemap, i, j); ZeroBits(j); }
    } else {
      LeastBitIsFirst(left);
      LeftBitsMask(treemap, i, Ctz(left));
      forall j | i < j < Ctz(left) ensures f[j].Empty? { LeftBitsMask(treemap, i, j); CtzIsFirst(left, j); }
    }
  }

  /** What the search needs of a bin. */
  ghost predicate Searchable(t: Trie, h: Heads, tl: TLinks, root: Addr, i: nat, u: set<Addr>)
    requires i < NTREEBINS
  {
    && Linked(t, tl, root, Bin(i), i) && Ranged(t, h, RangeLo(i), RangeBits(i))
    && (root != 0 <==> t.Node?) && Nodes(t) <= u
  }

  lemma BinSearchable(t: Trie, h: Heads, tl: TLinks, rl: RLinks, root: Addr, i: nat, u: set<Addr>)
    requires i < NTREEBINS && BinOk(t, h, tl, rl, root, i) && Nodes(t) <= u
    ensures Searchable(t, h, tl, root, i, u)
  {
    RootAddr(t, tl, root, Bin(i), i);
  }

  lemma NodesInForest(f: seq<Trie>, i: nat)
    requires i < |f|
    ensures Nodes(f[i]) <= ForestNodes(f)
  {
    forall a | a in Nodes(f[i]) ensures a in ForestNodes(f) {}
  }

  /** The request's own bin: descend it, or find it empty. */
  method SearchOwnBin(h: Heads, tl: TLinks, root: Addr, nb: nat, i: nat, ghost s: nat, ghost f: seq<Trie>)
    returns (v: Addr, rsize: nat, t: Addr, ghost c: Cursor)
    requires i < NTREEBINS && InBin(s, i) && 0 < nb <= s < WORD && (s == nb || nb < MIN_LARGE_SIZE)
    requires Shl(nb, LeftShift(i)) % WORD == Shl(s, LeftShift(i)) % WORD
    requires Binned(f, h) && Searchable(f[i], h, tl, root, i, ForestNodes(f))
    requires forall a :: a in ForestNodes(f) ==> MIN_LARGE_SIZE <= Sz(h, a) < WORD
    ensures Found(h, ForestNodes(f), nb, v, rsize)
    ensures if t == 0 && v == 0 then Covers(h, Nodes(f[i]), s, 0, Empty)
      else Settled(h, tl, ForestNodes(f), s, i, v, t, c)
    ensures nb < MIN_LARGE_SIZE && f[i].Node? ==> v != 0
  {
    t := root;
    v, rsize := 0, WORD - nb;
    c := Cursor(f[i], Bin(i), 0, 0);
    if t != 0 {
      v, rsize, t, c := Descend(h, tl, t, nb, i, s, f[i]);
      RootAddr(c.t, tl, t, c.p, i);
      if t != 0 || v != 0 { OtherBins(f, h, s, i, v, c.t); }
    }
  }

  /** The next non-empty bin above, when the own bin has nothing that fits. */
  method SearchNextBin(h: Heads, tl: TLinks, roots: seq<Addr>, treemap: nat, i: nat, ghost s: nat, ghost f: seq<Trie>)
    returns (t: Addr, ghost c: Cursor, ghost n: nat)
    requires i < NTREEBINS && InBin(s, i) && |roots| == NTREEBINS && treemap < WORD
    requires Binned(f, h) && Covers(h, Nodes(f[i]), s, 0, Empty)
    requires forall j :: 0 <= j < NTREEBINS ==> (TestBit(treemap, j) <==> f[j].Node?)
    requires forall j :: 0 <= j < NTREEBINS ==> Searchable(f[j], h, tl, roots[j], j, ForestNodes(f))
    ensures Settled(h, tl, ForestNodes(f), s, n, 0, t, c)
  {
    t, c, n := 0, Cursor(Empty, Bin(i), 0, 0), i;
    LeftBitsFindBin(f, treemap, i);
    var leftbits := And(LeftBits(Pow2(i)), treemap);
    if leftbits != 0 {
      var j := Ctz(LeastBit(leftbits));
      t := roots[j];
      c, n := Cursor(f[j], Bin(j), RangeLo(j), RangeBits(j)), j;
      assert Searchable(f[j], h, tl, roots[j], j, ForestNodes(f));
      NextBin(f, h, s, i, j);
    } else {
      NoBin(f, h, s, i);
    }
  }

  /** What the search needs of all bins. */
  ghost predicate ForestSearchable(f: seq<Trie>, h: Heads, tl: TLinks, roots: seq<Addr>, treemap: nat) {
    && Binned(f, h) && |roots| == NTREEBINS && treemap < WORD
    && (forall j :: 0 <= j < NTREEBINS ==> (TestBit(treemap, j) <==> f[j].Node?))
    && (forall j :: 0 <= j < NTREEBINS ==> Searchable(f[j], h, tl, roots[j], j, ForestNodes(f)))
    && (forall a :: a in ForestNodes(f) ==> Sz(h, a) < WORD)
  }

  lemma ForestIsSearchable(f: seq<Trie>, h: Heads, tl: TLinks, rl: RLinks, roots: seq<Addr>, treemap: nat)
    requires ForestOk(f, h, tl, rl, roots, treemap)
    ensures ForestSearchable(f, h, tl, roots, treemap)
  {
    ForestBinned(f, h, tl, rl, roots, treemap);
    forall j | 0 <= j < NTREEBINS ensures Searchable(f[j], h, tl, roots[j], j, ForestNodes(f)) {
      NodesInForest(f, j);
      BinSearchable(f[j], h, tl, rl, roots[j], j, ForestNodes(f));
    }
  }

  lemma LargeSizes(f: seq<Trie>, h: Heads)
    requires Binned(f, h)
    ensures forall a :: a in ForestNodes(f) ==> Sz(h, a) >= MIN_LARGE_SIZE
  {
    forall a | a in ForestNodes(f) ensures Sz(h, a) >= MIN_LARGE_SIZE {
      var i :| 0 <= i < |f| && a in Nodes(f[i]);
      Pow2Small();
      Pow2Monotone(8, i / 2 + 8);
    }
  }

  /** No chunk of at least s bytes is better than v. */
  ghost predicate Beats(h: Heads, u: set<Addr>, s: nat, v: Addr) {
    forall a :: a in u && Sz(h, a) >= s ==> Sz(h, v) <= Sz(h, a)
  }

  /** The own bin, and the next one where that has nothing: the subtree that is left to search. */
  method SearchBins(h: Heads, tl: TLinks, roots: seq<Addr>, treemap: nat, nb: nat, ghost f: seq<Trie>)
    returns (v: Addr, rsize: nat, t: Addr, ghost c: Cursor, ghost bin: nat)
    requires ForestSearchable(f, h, tl, roots, treemap) && 0 < nb < WORD
    requires forall a :: a in ForestNodes(f) ==> Sz(h, a) >= MIN_LARGE_SIZE
    ensures Found(h, ForestNodes(f), nb, v, rsize) && nb <= Steer(nb) < WORD && rsize <= WORD - nb
    ensures Settled(h, tl, ForestNodes(f), Steer(nb), bin, v, t, c)
    ensures nb < MIN_LARGE_SIZE && v == 0 ==> forall a :: a in ForestNodes(f) ==> Sz(h, a) >= Steer(nb)
  {
    var idx := TreeIndex(nb);
    SteerIndex(nb);
    bin := idx;
    assert Searchable(f[idx], h, tl, roots[idx], idx, ForestNodes(f));
    v, rsize, t, c := SearchOwnBin(h, tl, roots[idx], nb, idx, Steer(nb), f);
    FoundBound(h, ForestNodes(f), nb, v, rsize);
    if t == 0 && v == 0 {
      t, c, bin := SearchNextBin(h, tl, roots, treemap, idx, Steer(nb), f);
    }
    if nb < MIN_LARGE_SIZE && v == 0 { AllAbove(f, h, Steer(nb), idx); }
  }

  lemma FoundBound(h: Heads, u: set<Addr>, nb: nat, v: Addr, rsize: nat)
    requires Found(h, u, nb, v, rsize) && nb < WORD && forall a :: a in u ==> Sz(h, a) < WORD
    ensures rsize <= WORD - nb
  {}

  /** tmalloc_large up to its choice, over all tree bins: it finds a chunk that fits if there is one. None that has the
      size it looks up, or more, is better; so it is a best fit for every request of the size of a tree chunk, and for a
      smaller one whose low bits are zero. */
  method BestFit(h: Heads, tl: TLinks, roots: seq<Addr>, treemap: nat, nb: nat, ghost f: seq<Trie>)
    returns (v: Addr, rsize: nat)
    requires ForestSearchable(f, h, tl, roots, treemap) && 0 < nb < WORD
    ensures v == 0 <==> forall a :: a in ForestNodes(f) ==> Sz(h, a) < nb
    ensures v != 0 ==> v in ForestNodes(f) && Sz(h, v) >= nb && rsize == Sz(h, v) - nb
    ensures v != 0 ==> Beats(h, ForestNodes(f), Steer(nb), v)
    ensures v != 0 && (nb >= MIN_LARGE_SIZE || nb % 128 == 0) ==> IsBestFit(h, ForestNodes(f), nb, v)
  {
    LargeSizes(f, h);
    ghost var c, bin;
    var t;
    v, rsize, t, c, bin := SearchBins(h, tl, roots, treemap, nb, f);
    ghost var v0 := v;
    v, rsize := FindLeast(h, tl, nb, Steer(nb), bin, v, rsize, t, ForestNodes(f), c);
    Choice(h, ForestNodes(f), nb, v0, v, rsize);
  }

  /** What the search has found when no subtree is left. */
  lemma Choice(h: Heads, u: set<Addr>, nb: nat, v0: Addr, v: Addr, rsize: nat)
    requires Found(h, u, nb, v, rsize) && Covers(h, u, Steer(nb), v, Empty) && (v0 != 0 ==> v != 0)
    requires forall a :: a in u ==> MIN_LARGE_SIZE <= Sz(h, a)
    requires nb < MIN_LARGE_SIZE && v0 == 0 ==> forall a :: a in u ==> Sz(h, a) >= Steer(nb)
    ensures v == 0 <==> forall a :: a in u ==> Sz(h, a) < nb
    ensures v != 0 ==> v in u && Sz(h, v) >= nb && rsize == Sz(h, v) - nb && Beats(h, u, Steer(nb), v)
    ensures v != 0 && (nb >= MIN_LARGE_SIZE || nb % 128 == 0) ==> IsBestFit(h, u, nb, v)
  {}

  /** With the bin of s empty, every chunk of at least the least tree size has s bytes, if no bin is below. */
  lemma AllAbove(f: seq<Trie>, h: Heads, s: nat, i: nat)
    requires Binned(f, h) && i < NTREEBINS && InBin(s, i) && i == 0 && f[i].Empty?
    ensures forall a :: a in ForestNodes(f) ==> Sz(h, a) >= s
  {
    forall a | a in ForestNodes(f) ensures Sz(h, a) >= s {
      var j :| 0 <= j < |f| && a in Nodes(f[j]);
      BinsOrdered(s, Sz(h, a), i, j);
    }
  }
}
