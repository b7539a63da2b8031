/** Messages and their checksum. */
module Messages {
  import opened Basics
  import opened Bits

  /** One round of hash2 on 32-bit words: c + (hash << 6) + (hash << 16) - hash. */
  function HashStep(hash: nat, c: Byte): (r: nat)
    ensures r < WORD
  {
    (c as int + hash * 64 + hash * 0x1_0000 - hash) % WORD
  }

  function Hash(data: seq<Byte>, start: nat): (r: nat)
    requires start < WORD
    ensures r < WORD
  {
    if |data| == 0 then start else HashStep(Hash(data[..|data| - 1], start), data[|data| - 1])
  }

  method Hash2(data: seq<Byte>, start: nat) returns (hash: nat)
    requires start < WORD
    ensures hash == Hash(data, start)
  {
    hash := start;
    var i := 0;
    while i < |data|
      invariant i <= |data| && hash < WORD && hash == Hash(data[..i], start)
    {
      assert data[..i + 1][..i] == data[..i];
      hash := (data[i] as int + hash * 64 + hash * 0x1_0000 - hash) % WORD;
      i := i + 1;
    }
    assert data[..i] == data;
  }

  const FACTOR := 65599

  function Power(n: nat): nat { if n == 0 then 1 else FACTOR * Power(n - 1) }

  /** The sum of the first k bytes, each weighted by the power of the factor for the bytes that follow it. */
  function Weighted(data: seq<Byte>, k: nat): nat
    requires k <= |data|
  {
    if k == 0 then 0 else Weighted(data, k - 1) + data[k - 1] as int * Power(|data| - k)
  }

  /** A byte more multiplies the sum of those before it by the factor. */
  lemma {:induction false} WeightedMore(data: seq<Byte>, c: Byte, k: nat)
    requires k <= |data|
    ensures Weighted(data + [c], k) == FACTOR * Weighted(data, k)
  {
    if k > 0 {
      WeightedMore(data, c, k - 1);
      var x, p := data[k - 1] as int, Power(|data| - k);
      assert (data + [c])[k - 1] == data[k - 1] && Power(|data + [c]| - k) == FACTOR * p;
      Commute(x, p);
    }
  }

  lemma StepModulo(x: nat, c: Byte)
    ensures HashStep(x % WORD, c) == (FACTOR * x + c as int) % WORD
  {
    var q, r := x / WORD, x % WORD;
    assert FACTOR * x + c as int == FACTOR * r + c as int + FACTOR * q * WORD;
    SameRest(FACTOR * r + c as int, FACTOR * q);
  }

  lemma Commute(x: nat, y: nat)
    ensures x * (FACTOR * y) == FACTOR * (x * y)
  {}

  lemma NextSum(hash: nat, start: nat, power: nat, sum: nat, c: Byte)
    requires hash == (start * power + sum) % WORD
    ensures HashStep(hash, c) == (start * (FACTOR * power) + (FACTOR * sum + c as int)) % WORD
  {
    Commute(start, power);
    StepModulo(start * power + sum, c);
  }

  /** The hash is the polynomial of the start value and the bytes at 65599, modulo 2^32. */
  lemma {:induction false} HashSum(data: seq<Byte>, start: nat)
    requires start < WORD
    ensures Hash(data, start) == (start * Power(|data|) + Weighted(data, |data|)) % WORD
  {
    if |data| > 0 {
      var p, c := data[..|data| - 1], data[|data| - 1];
      HashSum(p, start);
      assert data == p + [c];
      WeightedMore(p, c, |p|);
      assert Weighted(data, |data|) == FACTOR * Weighted(p, |p|) + c as int * Power(0);
      NextSum(Hash(p, start), start, Power(|p|), Weighted(p, |p|), c);
    }
  }

  /** Zero bytes hash to zero. */
  lemma {:induction false} ZeroHash(data: seq<Byte>)
    requires forall i :: 0 <= i < |data| ==> data[i] == 0
    ensures Hash(data, 0) == 0
  {
    if |data| > 0 { ZeroHash(data[..|data| - 1]); }
  }

  /** The four bytes of a 32-bit word, least significant first; negative numbers are two's complement. */
  function Word(x: int): (r: seq<Byte>)
    ensures |r| == 4
  {
    var n := x % WORD;
    [n % 256, n / 256 % 256, n / 0x1_0000 % 256, n / 0x100_0000 % 256]
  }

  lemma WordBytes(x: int)
    ensures var r := Word(x);
      r[0] as int + 256 * r[1] as int + 0x1_0000 * r[2] as int + 0x100_0000 * r[3] as int == x % WORD
  {
    var n := x % WORD;
    var a := n / 256;
    var b := a / 256;
    assert n / 0x1_0000 == b && n / 0x100_0000 == b / 256 && b / 256 < 256;
  }

  const HEADER_SIZE := 28

  /** struct message without its list node. */
  datatype Message = Message(checksum: nat, sender: int, replyPort: int, code: nat, data: seq<Byte>)

  /** message_checksum as one hash over the fields laid end to end. */
  function Fields(m: Message): seq<Byte> {
    Word(m.sender) + Word(m.replyPort) + Word(m.code) + Word(|m.data|) + m.data
  }

  function Checksum(m: Message): (r: nat)
    ensures r < WORD
  {
    Hash(Fields(m), 0)
  }

  lemma {:induction false} HashJoin(a: seq<Byte>, b: seq<Byte>, start: nat)
    requires start < WORD
    ensures Hash(a + b, start) == Hash(b, Hash(a, start))
  {
    if |b| == 0 {
      assert a + b == a;
    } else {
      HashJoin(a, b[..|b| - 1], start);
      assert (a + b)[..|a + b| - 1] == a + b[..|b| - 1];
    }
  }

  /** message_checksum: five calls of hash2, each starting from the last one's result. */
  method MessageChecksum(m: Message) returns (r: nat)
    ensures r == Checksum(m)
  {
    r := Hash2(Word(m.sender), 0);
    r := Hash2(Word(m.replyPort), r);
    r := Hash2(Word(m.code), r);
    r := Hash2(Word(|m.data|), r);
    r := Hash2(m.data, r);
    HashJoin(Word(m.sender), Word(m.replyPort), 0);
    HashJoin(Word(m.sender) + Word(m.replyPort), Word(m.code), 0);
    HashJoin(Word(m.sender) + Word(m.replyPort) + Word(m.code), Word(|m.data|), 0);
    HashJoin(Word(m.sender) + Word(m.replyPort) + Word(m.code) + Word(|m.data|), m.data, 0);
  }

  /** What user-side msgrecv sees in its buffer when the kernel wrote nothing: it cleared the buffer before the call. */
  const ZEROED := Message(0, 0, 0, 0, [])

  /** The assertion of user-side msgrecv holds on a cleared buffer. */
  lemma ZeroedChecksum()
    ensures Checksum(ZEROED) == ZEROED.checksum
  {
    var f := Fields(ZEROED);
    forall i | 0 <= i < |f| ensures f[i] == 0 {
      assert f == Word(0) + Word(0) + Word(0) + Word(0);
    }
    ZeroHash(f);
  }

  /** Sealing a message sets its checksum to what its other fields hash to. */
  function Seal(m: Message): (r: Message)
    ensures r == m.(checksum := r.checksum) && Checksum(r) == r.checksum
  {
    m.(checksum := Checksum(m))
  }
}
