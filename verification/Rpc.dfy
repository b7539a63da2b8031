/** The wire format of the generated RPC stubs: what the client encodes the server decodes, and back. */
module Rpc {
  import opened Basics
  import opened Messages

  datatype Type = IntType | LongType | StringType | BlobType
  datatype Modifier = NoModifier | OutModifier | OneWayModifier
  datatype Param = Param(ty: Type, mod: Modifier)

  /** Argument values: machine words, C strings without their terminator, byte blocks. For an out parameter the client
      sends Room, the size of its buffer, or nothing. */
  datatype Value = Int(word: nat) | Long(word: nat) | Str(data: seq<Byte>) | Blob(data: seq<Byte>) | Room(size: nat)
    | Nothing

  // ---- little-endian words -------------------------------------------------------------------------------

  function Limit(n: nat): nat { if n == 0 then 1 else 256 * Limit(n - 1) }

  function LE(x: nat, n: nat): (r: seq<Byte>)
    ensures |r| == n
  {
    if n == 0 then [] else [x % 256] + LE(x / 256, n - 1)
  }

  function FromLE(b: seq<Byte>): nat { if |b| == 0 then 0 else b[0] as int + 256 * FromLE(b[1..]) }

  lemma {:induction false} WordRoundTrip(x: nat, n: nat)
    requires x < Limit(n)
    ensures FromLE(LE(x, n)) == x
  {
    if n > 0 {
      WordRoundTrip(x / 256, n - 1);
      assert LE(x, n)[1..] == LE(x / 256, n - 1);
    }
  }

  lemma {:induction false} BytesOfWord(b: seq<Byte>)
    ensures FromLE(b) < Limit(|b|) && LE(FromLE(b), |b|) == b
  {
    if |b| > 0 {
      BytesOfWord(b[1..]);
      var x := FromLE(b);
      assert x % 256 == b[0] as int && x / 256 == FromLE(b[1..]);
      assert b == [b[0]] + b[1..];
    }
  }

  lemma Limits()
    ensures Limit(4) == 0x1_0000_0000 && Limit(8) == 0x1_0000_0000_0000_0000
  {
    assert Limit(4) == 256 * Limit(3) && Limit(3) == 256 * Limit(2) && Limit(2) == 256 * Limit(1) && Limit(1) == 256;
    assert Limit(8) == 256 * Limit(7) && Limit(7) == 256 * Limit(6) && Limit(6) == 256 * Limit(5) &&
      Limit(5) == 256 * Limit(4);
  }

  // ---- one item --------------------------------------------------------------------------------------------

  /** Typecodes: lower case for arguments, upper case for out parameters and results. */
  const INT_IN: Byte := 105
  const LONG_IN: Byte := 108
  const STRING_IN: Byte := 115
  const BLOB_IN: Byte := 98
  const INT_OUT: Byte := 73
  const LONG_OUT: Byte := 76
  const STRING_OUT: Byte := 83
  const BLOB_OUT: Byte := 66

  /** A typecode and an n-byte word. */
  function Item(code: Byte, x: nat, n: nat): seq<Byte> { [code] + LE(x, n) }

  /** Reading it back: the typecode is asserted, the word must be there. */
  function TakeItem(b: seq<Byte>, code: Byte, n: nat): Option<(nat, seq<Byte>)> {
    if |b| >= 1 + n && b[0] == code then Some((FromLE(b[1..1 + n]), b[1 + n..])) else None
  }

  lemma ItemRoundTrip(code: Byte, x: nat, n: nat, rest: seq<Byte>)
    requires x < Limit(n)
    ensures TakeItem(Item(code, x, n) + rest, code, n) == Some((x, rest))
  {
    WordRoundTrip(x, n);
    var b := Item(code, x, n) + rest;
    assert b[1..1 + n] == LE(x, n) && b[1 + n..] == rest;
  }

  /** A word is read exactly if its typecode and all its bytes are there. */
  lemma ItemExact(b: seq<Byte>, code: Byte, n: nat, x: nat, rest: seq<Byte>)
    ensures TakeItem(b, code, n) == Some((x, rest)) <==> x < Limit(n) && b == Item(code, x, n) + rest
  {
    if x < Limit(n) && b == Item(code, x, n) + rest { ItemRoundTrip(code, x, n, rest); }
    if TakeItem(b, code, n) == Some((x, rest)) {
      BytesOfWord(b[1..1 + n]);
      assert b == [b[0]] + b[1..1 + n] + b[1 + n..];
    }
  }

  /** A typecode, a size and that many bytes. */
  function Bytes(code: Byte, data: seq<Byte>): seq<Byte> { Item(code, |data|, 4) + data }

  function TakeBytes(b: seq<Byte>, code: Byte): Option<(seq<Byte>, seq<Byte>)> {
    match TakeItem(b, code, 4)
    case None => None
    case Some((n, rest)) => if |rest| >= n then Some((rest[..n], rest[n..])) else None
  }

  lemma BytesRoundTrip(code: Byte, data: seq<Byte>, rest: seq<Byte>)
    requires |data| < Limit(4)
    ensures TakeBytes(Bytes(code, data) + rest, code) == Some((data, rest))
  {
    assert Bytes(code, data) + rest == Item(code, |data|, 4) + (data + rest);
    ItemRoundTrip(code, |data|, 4, data + rest);
    assert (data + rest)[..|data|] == data && (data + rest)[|data|..] == rest;
  }

  lemma BytesExact(b: seq<Byte>, code: Byte, data: seq<Byte>, rest: seq<Byte>)
    ensures TakeBytes(b, code) == Some((data, rest)) <==> |data| < Limit(4) && b == Bytes(code, data) + rest
  {
    if |data| < Limit(4) && b == Bytes(code, data) + rest { BytesRoundTrip(code, data, rest); }
    if TakeBytes(b, code) == Some((data, rest)) {
      var (n, r) := TakeItem(b, code, 4).value;
      ItemExact(b, code, 4, n, r);
      assert r == data + rest;
    }
  }

  /** A C string: the bytes before the first zero. */
  function CString(b: seq<Byte>): seq<Byte> { if |b| == 0 || b[0] == 0 then [] else [b[0]] + CString(b[1..]) }

  lemma {:induction false} CStringOf(s: seq<Byte>)
    requires 0 !in s
    ensures CString(s + [0]) == s
  {
    if |s| > 0 {
      CStringOf(s[1..]);
      assert (s + [0])[1..] == s[1..] + [0];
    }
  }

  // ---- arguments --------------------------------------------------------------------------------------------

  /** A value that the client may pass for a parameter. */
  predicate Fits(p: Param, v: Value) {
    if p.mod != OutModifier then
      match p.ty
      case IntType => v.Int? && v.word < Limit(4)
      case LongType => v.Long? && v.word < Limit(8)
      case StringType => v.Str? && 0 !in v.data && |v.data| + 1 < Limit(4)
      case BlobType => v.Blob? && |v.data| < Limit(4)
    else if p.ty == StringType || p.ty == BlobType then v.Room? && v.size < Limit(4)
    else v == Nothing
  }

  /** The client's argument encoder, one parameter. */
  function EncodeArg(p: Param, v: Value): seq<Byte>
    requires Fits(p, v)
  {
    if p.mod != OutModifier then
      match p.ty
      case IntType => Item(INT_IN, v.word, 4)
      case LongType => Item(LONG_IN, v.word, 8)
      case StringType => Bytes(STRING_IN, v.data + [0])
      case BlobType => Bytes(BLOB_IN, v.data)
    else
      match p.ty
      case StringType => Item(STRING_OUT, v.size, 4)
      case BlobType => Item(BLOB_OUT, v.size, 4)
      case _ => []
  }

  /** The send size the client adds up before it encodes. */
  function ArgSize(p: Param, v: Value): nat
    requires Fits(p, v)
  {
    if p.mod != OutModifier then
      match p.ty
      case IntType => 5
      case LongType => 9
      case StringType => 1 + 4 + |v.data| + 1
      case BlobType => 1 + 4 + |v.data|
    else if p.ty == StringType || p.ty == BlobType then 5
    else 0
  }

  /** The server's argument decoder, one parameter: everything but a plain parameter counts as out. */
  function DecodeArg(p: Param, b: seq<Byte>): Option<(Value, seq<Byte>)> {
    if p.mod == NoModifier then
      match p.ty
      case IntType => (match TakeItem(b, INT_IN, 4) case None => None case Some((x, r)) => Some((Int(x), r)))
      case LongType => (match TakeItem(b, LONG_IN, 8) case None => None case Some((x, r)) => Some((Long(x), r)))
      case StringType =>
        (match TakeBytes(b, STRING_IN) case None => None case Some((d, r)) => Some((Str(CString(d)), r)))
      case BlobType => (match TakeBytes(b, BLOB_IN) case None => None case Some((d, r)) => Some((Blob(d), r)))
    else
      match p.ty
      case StringType => (match TakeItem(b, STRING_OUT, 4) case None => None case Some((x, r)) => Some((Room(x), r)))
      case BlobType => (match TakeItem(b, BLOB_OUT, 4) case None => None case Some((x, r)) => Some((Room(x), r)))
      case _ => Some((Nothing, b))
  }

  /** The server decodes what the client encoded exactly for parameters that are not marked oneway. */
  lemma ArgRoundTrip(p: Param, v: Value, rest: seq<Byte>)
    requires Fits(p, v)
    ensures |EncodeArg(p, v)| == ArgSize(p, v)
    ensures DecodeArg(p, EncodeArg(p, v) + rest) == Some((v, rest)) <==> p.mod != OneWayModifier
  {
    if p.mod == OutModifier {
      if p.ty == StringType { ItemRoundTrip(STRING_OUT, v.size, 4, rest); }
      if p.ty == BlobType { ItemRoundTrip(BLOB_OUT, v.size, 4, rest); }
      if p.ty == IntType || p.ty == LongType { assert EncodeArg(p, v) + rest == rest; }
    } else if p.mod == NoModifier {
      match p.ty
      case IntType => ItemRoundTrip(INT_IN, v.word, 4, rest);
      case LongType => ItemRoundTrip(LONG_IN, v.word, 8, rest);
      case StringType => BytesRoundTrip(STRING_IN, v.data + [0], rest); CStringOf(v.data);
      case BlobType => BytesRoundTrip(BLOB_IN, v.data, rest);
    }
  }

  // ---- a whole argument list ---------------------------------------------------------------------------------

  /** The bytes b are an encoded argument v and then rest. The bytes sent for a string may go on behind its end. */
  ghost predicate StartsWith(p: Param, b: seq<Byte>, v: Value, rest: seq<Byte>) {
    if p == Param(StringType, NoModifier) then v.Str? && exists d :: SentAs(b, d, rest) && v.data == CString(d)
    else Fits(p, v) && b == EncodeArg(p, v) + rest
  }

  ghost predicate SentAs(b: seq<Byte>, d: seq<Byte>, rest: seq<Byte>) {
    |d| < Limit(4) && b == Bytes(STRING_IN, d) + rest
  }

  /** Whatever arrives, the server takes an argument exactly if the bytes are an encoding of it; it stops on all
      others. */
  lemma ArgExact(p: Param, b: seq<Byte>, v: Value, rest: seq<Byte>)
    requires p.mod != OneWayModifier
    ensures DecodeArg(p, b) == Some((v, rest)) <==> StartsWith(p, b, v, rest)
  {
    if p.mod == NoModifier {
      match p.ty
      case IntType => if v.Int? { ItemExact(b, INT_IN, 4, v.word, rest); }
      case LongType => if v.Long? { ItemExact(b, LONG_IN, 8, v.word, rest); }
      case StringType => StringExact(p, b, v, rest);
      case BlobType => if v.Blob? { BytesExact(b, BLOB_IN, v.data, rest); }
    } else {
      match p.ty
      case StringType => if v.Room? { ItemExact(b, STRING_OUT, 4, v.size, rest); }
      case BlobType => if v.Room? { ItemExact(b, BLOB_OUT, 4, v.size, rest); }
      case _ => assert [] + rest == rest;
    }
  }

  lemma StringExact(p: Param, b: seq<Byte>, v: Value, rest: seq<Byte>)
    requires p == Param(StringType, NoModifier)
    ensures DecodeArg(p, b) == Some((v, rest)) <==> StartsWith(p, b, v, rest)
  {
    if DecodeArg(p, b) == Some((v, rest)) {
      var (d, r) := TakeBytes(b, STRING_IN).value;
      BytesExact(b, STRING_IN, d, r);
      assert SentAs(b, d, rest);
    }
    if StartsWith(p, b, v, rest) {
      var d :| SentAs(b, d, rest) && v.data == CString(d);
      BytesExact(b, STRING_IN, d, rest);
    }
  }

  predicate AllFit(ps: seq<Param>, vs: seq<Value>) {
    |ps| == |vs| && (|ps| > 0 ==> Fits(ps[0], vs[0]) && AllFit(ps[1..], vs[1..]))
  }

  predicate NoOneWay(ps: seq<Param>) { forall i :: 0 <= i < |ps| ==> ps[i].mod != OneWayModifier }

  lemma NoOneWayTail(ps: seq<Param>)
    requires |ps| > 0
    ensures NoOneWay(ps) <==> ps[0].mod != OneWayModifier && NoOneWay(ps[1..])
  {
    assert forall i :: 0 < i < |ps| ==> ps[i] == ps[1..][i - 1];
  }

  function EncodeArgs(ps: seq<Param>, vs: seq<Value>): seq<Byte>
    requires AllFit(ps, vs)
  {
    if |ps| == 0 then [] else EncodeArg(ps[0], vs[0]) + EncodeArgs(ps[1..], vs[1..])
  }

  function DecodeArgs(ps: seq<Param>, b: seq<Byte>): Option<(seq<Value>, seq<Byte>)> {
    if |ps| == 0 then Some(([], b))
    else match DecodeArg(ps[0], b)
      case None => None
      case Some((v, rest)) =>
        match DecodeArgs(ps[1..], rest)
        case None => None
        case Some((vs, end)) => Some(([v] + vs, end))
  }

  function ArgsSize(ps: seq<Param>, vs: seq<Value>): nat
    requires AllFit(ps, vs)
  {
    if |ps| == 0 then 0 else ArgSize(ps[0], vs[0]) + ArgsSize(ps[1..], vs[1..])
  }

  /** A value sent for a oneway parameter never comes out as it went in. */
  lemma OneWayChanges(p: Param, v: Value, b: seq<Byte>)
    requires Fits(p, v) && p.mod == OneWayModifier
    ensures DecodeArg(p, b).Some? ==> DecodeArg(p, b).value.0 != v
  {
  }

  lemma ArgsStep(ps: seq<Param>, b: seq<Byte>, v: Value, b': seq<Byte>, vs: seq<Value>, end: seq<Byte>)
    requires |ps| > 0 && DecodeArg(ps[0], b) == Some((v, b'))
    ensures DecodeArgs(ps, b) == Some(([v] + vs, end)) <==> DecodeArgs(ps[1..], b') == Some((vs, end))
  {
    var r := DecodeArgs(ps[1..], b');
    if r.Some? && [v] + r.value.0 == [v] + vs { assert r.value.0 == ([v] + vs)[1..] == vs; }
  }

  lemma FirstLost(ps: seq<Param>, b: seq<Byte>, vs: seq<Value>, end: seq<Byte>)
    requires |ps| > 0 && |vs| > 0 && (DecodeArg(ps[0], b).Some? ==> DecodeArg(ps[0], b).value.0 != vs[0])
    ensures DecodeArgs(ps, b) != Some((vs, end))
  {}

  lemma FirstArg(ps: seq<Param>, vs: seq<Value>, tail: seq<Byte>, rest: seq<Byte>)
    requires |ps| > 0 && |vs| > 0 && Fits(ps[0], vs[0])
    ensures DecodeArgs(ps, EncodeArg(ps[0], vs[0]) + tail) == Some((vs, rest)) <==>
      ps[0].mod != OneWayModifier && DecodeArgs(ps[1..], tail) == Some((vs[1..], rest))
  {
    var b := EncodeArg(ps[0], vs[0]) + tail;
    if ps[0].mod == OneWayModifier {
      OneWayChanges(ps[0], vs[0], b);
      FirstLost(ps, b, vs, rest);
    } else {
      ArgRoundTrip(ps[0], vs[0], tail);
      ArgsStep(ps, b, vs[0], tail, vs[1..], rest);
      assert vs == [vs[0]] + vs[1..];
    }
  }

  /** The handler receives the caller's arguments, for every argument list, if and only if no parameter is oneway. */
  lemma {:induction false} CallRoundTrip(ps: seq<Param>, vs: seq<Value>, rest: seq<Byte>)
    requires AllFit(ps, vs)
    ensures DecodeArgs(ps, EncodeArgs(ps, vs) + rest) == Some((vs, rest)) <==> NoOneWay(ps)
  {
    if |ps| == 0 {
      assert EncodeArgs(ps, vs) + rest == rest && vs == [];
    } else {
      var tail := EncodeArgs(ps[1..], vs[1..]) + rest;
      assert EncodeArgs(ps, vs) + rest == EncodeArg(ps[0], vs[0]) + tail;
      assert vs == [vs[0]] + vs[1..];
      NoOneWayTail(ps);
      FirstArg(ps, vs, tail, rest);
      CallRoundTrip(ps[1..], vs[1..], rest);
    }
  }

  /** The client stub: sizes are added up, then every argument is written and taken off what remains. */
  method SerializeArgs(ps: seq<Param>, vs: seq<Value>) returns (b: seq<Byte>, size: nat, left: int)
    requires AllFit(ps, vs)
    ensures b == EncodeArgs(ps, vs) && size == |b| && left == 0
  {
    size := 0;
    for i := 0 to |ps|
      invariant AllFit(ps[i..], vs[i..]) && size + ArgsSize(ps[i..], vs[i..]) == ArgsSize(ps, vs)
    {
      assert ps[i..][1..] == ps[i + 1..] && vs[i..][1..] == vs[i + 1..];
      size := size + ArgSize(ps[i], vs[i]);
    }
    b, left := [], size;
    for i := 0 to |ps|
      invariant AllFit(ps[i..], vs[i..]) && b + EncodeArgs(ps[i..], vs[i..]) == EncodeArgs(ps, vs)
      invariant left == ArgsSize(ps[i..], vs[i..]) && left == size - |b|
    {
      assert ps[i..][1..] == ps[i + 1..] && vs[i..][1..] == vs[i + 1..];
      ArgRoundTrip(ps[i], vs[i], []);
      b := b + EncodeArg(ps[i], vs[i]);
      left := left - ArgSize(ps[i], vs[i]);
    }
  }

  // ---- the result ---------------------------------------------------------------------------------------------

  datatype Return = VoidReturn | IntReturn | LongReturn

  /** A returned word: an int is written whole, of a long only the low half; its high half keeps what the buffer
      held. */
  function EncodeReturn(t: Return, w: nat, stale: seq<Byte>): seq<Byte> {
    match t
    case VoidReturn => []
    case IntReturn => Item(INT_OUT, w, 4)
    case LongReturn => Item(LONG_OUT, w % Limit(4), 4) + stale
  }

  function DecodeReturn(t: Return, b: seq<Byte>): Option<(nat, seq<Byte>)> {
    match t
    case VoidReturn => Some((0, b))
    case IntReturn => TakeItem(b, INT_OUT, 4)
    case LongReturn => TakeItem(b, LONG_OUT, 8)
  }

  lemma {:induction false} FromLEJoin(a: seq<Byte>, b: seq<Byte>)
    ensures FromLE(a + b) == FromLE(a) + Limit(|a|) * FromLE(b)
  {
    if |a| == 0 {
      assert a + b == b;
    } else {
      FromLEJoin(a[1..], b);
      assert (a + b)[1..] == a[1..] + b;
      assert Limit(|a|) * FromLE(b) == 256 * (Limit(|a| - 1) * FromLE(b));
    }
  }

  predicate Returns(t: Return, w: nat) {
    match t
    case VoidReturn => w == 0
    case IntReturn => w < Limit(4)
    case LongReturn => w < Limit(8)
  }

  /** What a caller reads for a long: the low half of the returned value under whatever the reply buffer held. */
  lemma LongReads(w: nat, stale: seq<Byte>, rest: seq<Byte>)
    requires |stale| == 4
    ensures DecodeReturn(LongReturn, EncodeReturn(LongReturn, w, stale) + rest)
         == Some((w % 0x1_0000_0000 + 0x1_0000_0000 * FromLE(stale), rest))
  {
    Limits();
    var low := LE(w % Limit(4), 4);
    var b := EncodeReturn(LongReturn, w, stale) + rest;
    assert b[1..9] == low + stale && b[9..] == rest;
    FromLEJoin(low, stale);
    WordRoundTrip(w % Limit(4), 4);
  }

  /** The caller receives the returned word exactly when it is no long, or the stale half happens to be its high
      half. */
  lemma ReturnRoundTrip(t: Return, w: nat, stale: seq<Byte>, rest: seq<Byte>)
    requires Returns(t, w) && |stale| == 4
    ensures DecodeReturn(t, EncodeReturn(t, w, stale) + rest) == Some((w, rest))
       <==> (t == LongReturn ==> FromLE(stale) == w / 0x1_0000_0000)
  {
    match t
    case VoidReturn => assert [] + rest == rest;
    case IntReturn => ItemRoundTrip(INT_OUT, w, 4, rest);
    case LongReturn => LongReads(w, stale, rest);
  }

  /** Over a zeroed reply buffer the first long that does not fit in 32 bits comes back as zero. */
  lemma LongReturnLost()
    ensures DecodeReturn(LongReturn, EncodeReturn(LongReturn, 0x1_0000_0000, [0, 0, 0, 0])) == Some((0, []))
  {
    LongReads(0x1_0000_0000, [0, 0, 0, 0], []);
    assert EncodeReturn(LongReturn, 0x1_0000_0000, [0, 0, 0, 0]) + [] ==
      EncodeReturn(LongReturn, 0x1_0000_0000, [0, 0, 0, 0]);
    assert FromLE([0, 0, 0, 0]) == 0 by {
      assert [0, 0, 0, 0] == LE(0, 4);
      WordRoundTrip(0, 4);
    }
  }

  // ---- out parameters ------------------------------------------------------------------------------------------

  /** An out parameter and the room the caller has for it. */
  datatype Slot = Slot(ty: Type, room: nat)

  /** A value a handler may leave in an out parameter, before asking whether it fits the caller's room. */
  predicate Typed(o: Slot, v: Value) {
    match o.ty
    case IntType => v.Int? && v.word < Limit(4)
    case LongType => v.Long? && v.word < Limit(8)
    case StringType => v.Str? && 0 !in v.data && |v.data| + 1 < Limit(4)
    case BlobType => v.Blob? && |v.data| < Limit(4)
  }

  predicate InRoom(o: Slot, v: Value)
    requires Typed(o, v)
  {
    match o.ty
    case StringType => |v.data| + 1 <= o.room
    case BlobType => |v.data| <= o.room
    case _ => true
  }

  function EncodeOut(o: Slot, v: Value): seq<Byte>
    requires Typed(o, v)
  {
    match o.ty
    case IntType => Item(INT_OUT, v.word, 4)
    case LongType => Item(LONG_OUT, v.word, 8)
    case StringType => Bytes(STRING_OUT, v.data + [0])
    case BlobType => Bytes(BLOB_OUT, v.data)
  }

  function DecodeOut(o: Slot, b: seq<Byte>): Option<(Value, seq<Byte>)> {
    match o.ty
    case IntType => (match TakeItem(b, INT_OUT, 4) case None => None case Some((x, r)) => Some((Int(x), r)))
    case LongType => (match TakeItem(b, LONG_OUT, 8) case None => None case Some((x, r)) => Some((Long(x), r)))
    case StringType =>
      (match TakeBytes(b, STRING_OUT)
       case None => None
       case Some((d, r)) => if |d| <= o.room then Some((Str(CString(d)), r)) else None)
    case BlobType =>
      (match TakeBytes(b, BLOB_OUT)
       case None => None
       case Some((d, r)) => if |d| <= o.room then Some((Blob(d), r)) else None)
  }

  /** What the caller sets aside for one out parameter. */
  function SlotSize(o: Slot): nat {
    match o.ty
    case IntType => 5
    case LongType => 9
    case _ => 5 + o.room
  }

  lemma OutRoundTrip(o: Slot, v: Value, rest: seq<Byte>)
    requires Typed(o, v)
    ensures InRoom(o, v) ==> DecodeOut(o, EncodeOut(o, v) + rest) == Some((v, rest))
    ensures !InRoom(o, v) ==> DecodeOut(o, EncodeOut(o, v) + rest) == None
    ensures InRoom(o, v) <==> |EncodeOut(o, v)| <= SlotSize(o)
  {
    match o.ty
    case IntType => ItemRoundTrip(INT_OUT, v.word, 4, rest);
    case LongType => ItemRoundTrip(LONG_OUT, v.word, 8, rest);
    case StringType => BytesRoundTrip(STRING_OUT, v.data + [0], rest); CStringOf(v.data);
    case BlobType => BytesRoundTrip(BLOB_OUT, v.data, rest);
  }

  /** The bytes b are an out value that fits, and then rest. */
  ghost predicate ReturnsWith(o: Slot, b: seq<Byte>, v: Value, rest: seq<Byte>) {
    if o.ty == StringType then v.Str? && exists d :: RepliedAs(o, b, d, rest) && v.data == CString(d)
    else Typed(o, v) && InRoom(o, v) && b == EncodeOut(o, v) + rest
  }

  ghost predicate RepliedAs(o: Slot, b: seq<Byte>, d: seq<Byte>, rest: seq<Byte>) {
    |d| < Limit(4) && |d| <= o.room && b == Bytes(STRING_OUT, d) + rest
  }

  /** Whatever the reply, the caller takes an out value exactly if the bytes are an encoding of it that fits its room.
      */
  lemma OutExact(o: Slot, b: seq<Byte>, v: Value, rest: seq<Byte>)
    ensures DecodeOut(o, b) == Some((v, rest)) <==> ReturnsWith(o, b, v, rest)
  {
    match o.ty
    case IntType => if v.Int? { ItemExact(b, INT_OUT, 4, v.word, rest); }
    case LongType => if v.Long? { ItemExact(b, LONG_OUT, 8, v.word, rest); }
    case StringType => OutStringExact(o, b, v, rest);
    case BlobType => if v.Blob? { BytesExact(b, BLOB_OUT, v.data, rest); }
  }

  lemma OutStringExact(o: Slot, b: seq<Byte>, v: Value, rest: seq<Byte>)
    requires o.ty == StringType
    ensures DecodeOut(o, b) == Some((v, rest)) <==> ReturnsWith(o, b, v, rest)
  {
    if DecodeOut(o, b) == Some((v, rest)) {
      var (d, r) := TakeBytes(b, STRING_OUT).value;
      BytesExact(b, STRING_OUT, d, r);
      assert RepliedAs(o, b, d, rest);
    }
    if ReturnsWith(o, b, v, rest) {
      var d :| RepliedAs(o, b, d, rest) && v.data == CString(d);
      BytesExact(b, STRING_OUT, d, rest);
    }
  }

  predicate AllTyped(os: seq<Slot>, vs: seq<Value>) {
    |os| == |vs| && forall i :: 0 <= i < |os| ==> Typed(os[i], vs[i])
  }

  predicate AllInRoom(os: seq<Slot>, vs: seq<Value>)
    requires AllTyped(os, vs)
  {
    forall i :: 0 <= i < |os| ==> InRoom(os[i], vs[i])
  }

  function EncodeOuts(os: seq<Slot>, vs: seq<Value>): seq<Byte>
    requires AllTyped(os, vs)
  {
    if |os| == 0 then [] else EncodeOut(os[0], vs[0]) + EncodeOuts(os[1..], vs[1..])
  }

  function DecodeOuts(os: seq<Slot>, b: seq<Byte>): Option<seq<Value>> {
    if |os| == 0 then Some([])
    else match DecodeOut(os[0], b)
      case None => None
      case Some((v, rest)) =>
        match DecodeOuts(os[1..], rest)
        case None => None
        case Some(vs) => Some([v] + vs)
  }

  function SlotsSize(os: seq<Slot>): nat { if |os| == 0 then 0 else SlotSize(os[0]) + SlotsSize(os[1..]) }

  lemma AllInRoomTail(os: seq<Slot>, vs: seq<Value>)
    requires AllTyped(os, vs) && |os| > 0
    ensures AllTyped(os[1..], vs[1..])
    ensures AllInRoom(os, vs) <==> InRoom(os[0], vs[0]) && AllInRoom(os[1..], vs[1..])
  {
    forall i | 1 <= i < |os| ensures os[i] == os[1..][i - 1] && vs[i] == vs[1..][i - 1] {}
  }

  lemma OutsStep(os: seq<Slot>, b: seq<Byte>, v: Value, b': seq<Byte>)
    requires |os| > 0 && DecodeOut(os[0], b) == Some((v, b'))
    ensures DecodeOuts(os, b) ==
      match DecodeOuts(os[1..], b') case None => None case Some(vs) => Some([v] + vs)
  {}

  /** The caller gets every out value back if each fits its room, and stops on an assertion otherwise. */
  lemma {:induction false} OutsRoundTrip(os: seq<Slot>, vs: seq<Value>)
    requires AllTyped(os, vs)
    ensures AllInRoom(os, vs) ==>
      DecodeOuts(os, EncodeOuts(os, vs)) == Some(vs) && |EncodeOuts(os, vs)| <= SlotsSize(os)
    ensures !AllInRoom(os, vs) ==> DecodeOuts(os, EncodeOuts(os, vs)) == None
  {
    if |os| > 0 {
      var rest := EncodeOuts(os[1..], vs[1..]);
      AllInRoomTail(os, vs);
      OutRoundTrip(os[0], vs[0], rest);
      OutsRoundTrip(os[1..], vs[1..]);
      assert vs == [vs[0]] + vs[1..];
      if InRoom(os[0], vs[0]) { OutsStep(os, EncodeOut(os[0], vs[0]) + rest, vs[0], rest); }
    }
  }

  lemma OutsFrom(os: seq<Slot>, vs: seq<Value>, i: nat)
    requires AllTyped(os, vs) && i < |os|
    ensures EncodeOuts(os[i..], vs[i..]) == EncodeOut(os[i], vs[i]) + EncodeOuts(os[i + 1..], vs[i + 1..])
  {
    assert os[i..][1..] == os[i + 1..] && vs[i..][1..] == vs[i + 1..];
  }

  /** The server stub: it writes the return word and the out values into a reply buffer of the given size, whose old
      contents show through behind a long; it stops on an assertion exactly when the reply does not fit. */
  method SerializeResult(t: Return, w: nat, stale: seq<Byte>, os: seq<Slot>, vs: seq<Value>, capacity: nat)
    returns (b: seq<Byte>, ok: bool)
    requires Returns(t, w) && |stale| == 4 && AllTyped(os, vs)
    ensures ok <==> |EncodeReturn(t, w, stale) + EncodeOuts(os, vs)| <= capacity
    ensures ok ==> b == EncodeReturn(t, w, stale) + EncodeOuts(os, vs)
  {
    var first := EncodeReturn(t, w, stale);
    var avail: int := capacity - |first|;
    if avail < 0 { return [], false; }
    b := [];
    for i := 0 to |os|
      invariant b + EncodeOuts(os[i..], vs[i..]) == EncodeOuts(os, vs)
      invariant avail == capacity - |first| - |b| && 0 <= avail
    {
      var item := EncodeOut(os[i], vs[i]);
      OutsFrom(os, vs, i);
      if avail < |item| { return [], false; }
      b := b + item;
      avail := avail - |item|;
    }
    b, ok := first + b, true;
  }

  /** The bytes of a returned word: what the caller sets aside for it. */
  function ReturnSize(t: Return): nat {
    match t
    case VoidReturn => 0
    case IntReturn => 5
    case LongReturn => 9
  }

  /** A whole reply: if the handler kept to the caller's sizes, the reply fits what the caller set aside, the
      returned int and all out values come back unchanged, and of a long at least the low half. */
  lemma ReplyRoundTrip(t: Return, w: nat, stale: seq<Byte>, os: seq<Slot>, vs: seq<Value>)
    requires Returns(t, w) && |stale| == 4 && AllTyped(os, vs) && AllInRoom(os, vs)
    ensures |EncodeReturn(t, w, stale)| == ReturnSize(t) && |EncodeOuts(os, vs)| <= SlotsSize(os)
    ensures var r := DecodeReturn(t, EncodeReturn(t, w, stale) + EncodeOuts(os, vs));
      && r.Some?
      && r.value.0 % 0x1_0000_0000 == w % 0x1_0000_0000
      && (t != LongReturn ==> r.value.0 == w)
      && DecodeOuts(os, r.value.1) == Some(vs)
  {
    OutsRoundTrip(os, vs);
    ReturnRoundTrip(t, w, stale, EncodeOuts(os, vs));
    if t == LongReturn {
      LongReads(w, stale, EncodeOuts(os, vs));
      LowHalf(w, FromLE(stale));
    }
  }

  /** What a client stub makes of a reply: values, the return code for a receive that failed, or a failed assertion. */
  datatype Outcome = Received(word: nat, values: seq<Value>) | FailRecv | Stopped

  /** The receiving half of a client stub: msgrecv refuses a reply larger than the buffer set aside. */
  function Receive(t: Return, os: seq<Slot>, reply: seq<Byte>): Outcome {
    if |reply| > ReturnSize(t) + SlotsSize(os) then FailRecv
    else
      match DecodeReturn(t, reply)
      case None => Stopped
      case Some((w, rest)) => (match DecodeOuts(os, rest) case None => Stopped case Some(vs) => Received(w, vs))
  }

  /** The three outcomes, for whatever the handler put out: values that all fit their rooms arrive; of others, a reply
      that is too large as a whole makes the stub return an error, and one that is not stops the caller. */
  lemma ReplyOutcome(t: Return, w: nat, stale: seq<Byte>, os: seq<Slot>, vs: seq<Value>)
    requires Returns(t, w) && |stale| == 4 && AllTyped(os, vs)
    ensures var reply := EncodeReturn(t, w, stale) + EncodeOuts(os, vs); var r := Receive(t, os, reply);
      && (r.Received? <==> AllInRoom(os, vs))
      && (r.Received? ==> r.values == vs && r.word % 0x1_0000_0000 == w % 0x1_0000_0000)
      && (r.Received? && t != LongReturn ==> r.word == w)
      && (r.FailRecv? <==> |reply| > ReturnSize(t) + SlotsSize(os))
      && (r.Stopped? <==> !AllInRoom(os, vs) && |reply| <= ReturnSize(t) + SlotsSize(os))
  {
    OutsRoundTrip(os, vs);
    if AllInRoom(os, vs) {
      ReplyRoundTrip(t, w, stale, os, vs);
    } else {
      ReturnLeaves(t, w, stale, EncodeOuts(os, vs));
    }
  }

  /** Whatever the returned word, its decoder leaves the out values. */
  lemma ReturnLeaves(t: Return, w: nat, stale: seq<Byte>, rest: seq<Byte>)
    requires Returns(t, w) && |stale| == 4
    ensures var r := DecodeReturn(t, EncodeReturn(t, w, stale) + rest); r.Some? && r.value.1 == rest
  {
    ReturnRoundTrip(t, w, stale, rest);
    if t == LongReturn { LongReads(w, stale, rest); }
  }

  lemma LowHalf(w: nat, high: nat)
    ensures (w % 0x1_0000_0000 + 0x1_0000_0000 * high) % 0x1_0000_0000 == w % 0x1_0000_0000
  {}
}
