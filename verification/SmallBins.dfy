/** The 32 small bins: circular lists of equal-sized chunks, each through a header inside malloc_state. */
module SmallBins {
  import opened Basics
  import opened Bits
  import opened Chunks

  const NSMALLBINS: nat := 32

  /** smallbin_at(M, i), an address outside the chunk memory. */
  function Hdr(i: nat): Addr { -1 - i }

  /** Bin i holds the chunks c, all of size 8 * i. The ring counts only while the bin is not empty:
      unlinking the last chunk clears the map bit and leaves the header's pointers stale. */
  ghost predicate SmallBinOk(c: seq<Addr>, h: Heads, rl: RLinks, i: nat) {
    && (forall a :: a in c ==> a > 0 && Sz(h, a) == 8 * i)
    && (|c| > 0 ==> Ring(rl, [Hdr(i)] + c))
  }

  ghost predicate SmallOk(f: seq<seq<Addr>>, h: Heads, rl: RLinks, smallmap: nat) {
    && |f| == NSMALLBINS && smallmap < WORD
    && (forall i :: 0 <= i < NSMALLBINS ==> SmallBinOk(f[i], h, rl, i))
    && (forall i :: 0 <= i < NSMALLBINS ==> (TestBit(smallmap, i) <==> |f[i]| > 0))
  }

  ghost function SmallNodes(f: seq<seq<Addr>>): set<Addr> {
    set i, a | 0 <= i < |f| && a in f[i] :: a
  }

  lemma SmallMember(f: seq<seq<Addr>>, h: Heads, rl: RLinks, smallmap: nat, a: Addr)
    requires SmallOk(f, h, rl, smallmap)
    ensures a in SmallNodes(f) <==> a > 0 && Sz(h, a) % 8 == 0 && Sz(h, a) < 256 && a in f[Sz(h, a) / 8]
  {
    if a in SmallNodes(f) {
      var i :| 0 <= i < |f| && a in f[i];
      assert SmallBinOk(f[i], h, rl, i);
    } else if Sz(h, a) % 8 == 0 && Sz(h, a) < 256 && a in f[Sz(h, a) / 8] {
      assert false;
    }
  }

  lemma BinFrame(c: seq<Addr>, h: Heads, rl: RLinks, h': Heads, rl': RLinks, i: nat)
    requires SmallBinOk(c, h, rl, i)
    requires forall a :: a in c ==> Sz(h', a) == Sz(h, a)
    requires |c| > 0 ==> forall a :: a in [Hdr(i)] + c && a in rl ==> a in rl' && rl'[a] == rl[a]
    ensures SmallBinOk(c, h', rl', i)
  {
    if |c| > 0 { RingFrame(rl, rl', [Hdr(i)] + c); }
  }

  /** The writes of insert_small_chunk. */
  function InsertWrites(rl: RLinks, i: nat, marked: bool, x: Addr): RLinks
    requires marked ==> Hdr(i) in rl && rl[Hdr(i)].fd in rl
  {
    if marked then RingAttach(rl, Hdr(i), x)
    else rl[Hdr(i) := RLink(x, x)][x := RLink(Hdr(i), Hdr(i))]
  }

  lemma InsertBin(c: seq<Addr>, h: Heads, rl: RLinks, i: nat, x: Addr)
    requires SmallBinOk(c, h, rl, i) && x > 0 && Sz(h, x) == 8 * i && x !in c
    ensures |c| > 0 ==> Hdr(i) in rl && rl[Hdr(i)].fd in rl && (rl[Hdr(i)].fd == c[0])
    ensures SmallBinOk([x] + c, h, InsertWrites(rl, i, |c| > 0, x), i)
  {
    if |c| > 0 {
      var r := [Hdr(i)] + c;
      assert r[0] == Hdr(i) && r[1] == c[0] && r[1..] == c;
      RingInsert(rl, r, x);
      assert [r[0], x] + r[1..] == [Hdr(i)] + ([x] + c);
    } else {
      var rl' := InsertWrites(rl, i, false, x);
      assert [x] + c == [x];
      assert Ring(rl', [Hdr(i), x]);
      assert [Hdr(i)] + [x] == [Hdr(i), x];
    }
  }

  /** The writes of unlink_small_chunk. */
  function UnlinkWrites(rl: RLinks, x: Addr): RLinks
    requires x in rl && rl[x].fd in rl && rl[x].bk in rl
  {
    if rl[x].fd == rl[x].bk then rl else RingDetach(rl, x)
  }

  /** A chunk's two neighbours are bin members, and one and the same exactly when it is the last chunk. */
  lemma Neighbours(c: seq<Addr>, h: Heads, rl: RLinks, i: nat, x: Addr)
    requires SmallBinOk(c, h, rl, i) && x in c
    ensures x in rl && rl[x].fd in rl && rl[x].bk in rl
    ensures rl[x].fd in [Hdr(i)] + c && rl[x].bk in [Hdr(i)] + c
    ensures rl[x].fd == rl[x].bk <==> |c| == 1
  {
    var r := [Hdr(i)] + c;
    assert x in r;
    RingNeighbours(rl, r, x);
    RingNeighboursDiffer(rl, r, x);
  }

  lemma UnlinkBin(c: seq<Addr>, h: Heads, rl: RLinks, i: nat, j: nat)
    requires SmallBinOk(c, h, rl, i) && j < |c|
    ensures c[j] in rl && rl[c[j]].fd in rl && rl[c[j]].bk in rl
    ensures SmallBinOk(DropAt(c, j), h, UnlinkWrites(rl, c[j]), i)
  {
    Neighbours(c, h, rl, i, c[j]);
    assert forall a :: a in DropAt(c, j) ==> a in c;
    if |c| > 1 { UnlinkRing(c, rl, i, j); }
  }

  lemma UnlinkRing(c: seq<Addr>, rl: RLinks, i: nat, j: nat)
    requires |c| > 1 && Ring(rl, [Hdr(i)] + c) && j < |c|
    ensures c[j] in rl && rl[c[j]].fd in rl && rl[c[j]].bk in rl
    ensures Ring(RingDetach(rl, c[j]), [Hdr(i)] + DropAt(c, j))
  {
    var r := [Hdr(i)] + c;
    assert r[j + 1] == c[j];
    RingRemoveInner(rl, r, j + 1);
    assert DropAt(r, j + 1) == [Hdr(i)] + DropAt(c, j);
  }

  lemma BinNoDup(c: seq<Addr>, h: Heads, rl: RLinks, i: nat)
    requires SmallBinOk(c, h, rl, i)
    ensures NoDup(c)
  {
    var r := [Hdr(i)] + c;
    assert forall k :: 0 <= k < |c| ==> c[k] == r[k + 1];
  }
}
