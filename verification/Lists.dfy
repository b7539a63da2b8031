/** The intrusive doubly linked lists of list.h. */
module Lists {
  import opened Basics

  /** Elements; 0 is NULL. */
  type Node = int

  /** The next and prev fields of all elements. */
  datatype Links = Links(next: map<Node, Node>, prev: map<Node, Node>)

  datatype List = List(head: Node, tail: Node)

  function Next(k: Links, e: Node): Node { if e in k.next then k.next[e] else 0 }
  function Prev(k: Links, e: Node): Node { if e in k.prev then k.prev[e] else 0 }

  /** The list runs through s: forward over next, backward over prev, null at both ends. */
  ghost predicate ListOk(l: List, k: Links, s: seq<Node>) {
    && NoDup(s) && (forall i :: 0 <= i < |s| ==> s[i] != 0)
    && l.head == (if |s| == 0 then 0 else s[0]) && (|s| > 0 ==> l.tail == s[|s| - 1])
    && (forall i, j :: 0 <= i < |s| && 0 <= j < |s| && j == i + 1 ==> Next(k, s[i]) == s[j] && Prev(k, s[j]) == s[i])
    && (|s| > 0 ==> Prev(k, s[0]) == 0 && Next(k, s[|s| - 1]) == 0)
  }

  ghost predicate Detached(k: Links, e: Node) { Next(k, e) == 0 && Prev(k, e) == 0 }

  /** The links of elements outside s are the same. */
  ghost predicate SameOutside(k: Links, k': Links, s: set<Node>) {
    forall e :: e !in s ==> Next(k', e) == Next(k, e) && Prev(k', e) == Prev(k, e)
  }

  // ---- list_append -------------------------------------------------------------------------------------

  function Append(l: List, k: Links, e: Node): (List, Links) {
    if l.head == 0 then (List(e, e), k)
    else
      var next := k.next[l.tail := e];
      var prev := k.prev[e := l.tail];
      (l.(tail := e), Links(next[e := 0], prev))
  }

  /** Appending to an empty list leaves the element's own links alone, so they must be null before. */
  lemma AppendOk(l: List, k: Links, s: seq<Node>, e: Node)
    requires ListOk(l, k, s) && e != 0 && e !in s && Detached(k, e)
    ensures var (l', k') := Append(l, k, e); ListOk(l', k', s + [e]) && SameOutside(k, k', Elems(s) + {e})
  {
    var (l', k') := Append(l, k, e);
    var t := s + [e];
    forall i, j | 0 <= i < |t| && 0 <= j < |t| && j == i + 1 ensures Next(k', t[i]) == t[j] && Prev(k', t[j]) == t[i] {
      assert t[i] == s[i];
      if j < |s| { assert t[j] == s[j]; }
    }
    if |s| > 0 { assert t[0] == s[0] && s[|s| - 1] in s; }
  }

  lemma ListFrame(l: List, k: Links, k': Links, s: seq<Node>, u: set<Node>)
    requires ListOk(l, k, s) && SameOutside(k, k', u) && u !! Elems(s)
    ensures ListOk(l, k', s)
  {
    forall i | 0 <= i < |s| ensures Next(k', s[i]) == Next(k, s[i]) && Prev(k', s[i]) == Prev(k, s[i]) {
      assert s[i] in Elems(s);
    }
  }

  // ---- list_remove -------------------------------------------------------------------------------------

  function Remove(l: List, k: Links, e: Node): (List, Links) {
    var n, p := Next(k, e), Prev(k, e);
    var next := if p != 0 then k.next[p := n] else k.next;
    var prev := if n != 0 then k.prev[n := p] else k.prev;
    (List(if l.head == e then n else l.head, if l.tail == e then p else l.tail), Links(next[e := 0], prev[e := 0]))
  }

  lemma RemoveOk(l: List, k: Links, s: seq<Node>, j: nat)
    requires ListOk(l, k, s) && j < |s|
    ensures var (l', k') := Remove(l, k, s[j]);
      ListOk(l', k', DropAt(s, j)) && Detached(k', s[j]) && SameOutside(k, k', Elems(s))
  {
    var e := s[j];
    var (l', k') := Remove(l, k, e);
    var t := DropAt(s, j);
    RemoveLinks(l, k, s, j);
    forall a, b | 0 <= a < |t| && 0 <= b < |t| && b == a + 1 ensures Next(k', t[a]) == t[b] && Prev(k', t[b]) == t[a] {
      var m, n := if a < j then a else a + 1, if b < j then b else b + 1;
      assert t[a] == s[m] && t[b] == s[n];
    }
  }

  lemma RemoveLinks(l: List, k: Links, s: seq<Node>, j: nat)
    requires ListOk(l, k, s) && j < |s|
    ensures Next(k, s[j]) == (if j == |s| - 1 then 0 else s[j + 1]) && Prev(k, s[j]) == (if j == 0 then 0 else s[j - 1])
  {}
}
