/** Whole runs of seeks and reads on an intact file. */
module FileRuns {
  import opened Basics
  import opened Bits
  import opened Fat
  import opened FatFile

  datatype FileOp = Seek(ofs: nat) | Read(btr: nat)

  /** The file pointer after an operation: clipped to the file. */
  function Moved(size: nat, at: nat, op: FileOp): nat {
    match op
    case Seek(ofs) => if ofs > size then size else ofs
    case Read(btr) => if at <= size && btr > size - at then size else at + btr
  }

  /** In an intact file every position can be reached. */
  lemma IntactReachable(d: Disk, v: Volume, c: nat, size: nat, x: nat)
    requires v.csize > 0 && Complete(d, v, c, 0, size) && x <= size
    ensures Reachable(d, v, c, x) && (x > 0 ==> c != 0)
  {
    if x > 0 {
      assert HasFileByte(d, v, c, x - 1);
      HasStart(d, v, c, (x - 1) / SS);
      if x % SS != 0 { InsideSector(x); }
    }
  }

  /** What one operation on an intact file returns: the bytes between the old and the new file pointer, if it reads. */
  ghost predicate Returns(d: Disk, v: Volume, c: nat, size: nat, at: nat, op: FileOp, data: seq<Byte>, at': nat)
    requires v.csize > 0
  {
    at' == Moved(size, at, op) && Holds(d, v, c, at, data) && |data| == if op.Read? then at' - at else 0
  }

  ghost predicate Replayed(d: Disk, v: Volume, c: nat, size: nat, ops: seq<FileOp>, got: seq<seq<Byte>>, at: seq<nat>)
    requires v.csize > 0
  {
    && |at| == |got| + 1 && |got| <= |ops|
    && forall i, j :: 0 <= i < j < |at| && j == i + 1 ==> Returns(d, v, c, size, at[i], ops[i], got[i], at[j])
  }

  lemma ReplayOn(d: Disk, v: Volume, c: nat, size: nat, ops: seq<FileOp>, got: seq<seq<Byte>>, at: seq<nat>,
                 data: seq<Byte>, x: nat)
    requires v.csize > 0 && Replayed(d, v, c, size, ops, got, at) && |got| < |ops|
    requires Returns(d, v, c, size, at[|got|], ops[|got|], data, x)
    ensures Replayed(d, v, c, size, ops, got + [data], at + [x])
  {}

  method Perform(f: File, op: FileOp) returns (data: seq<Byte>)
    requires f.Valid() && f.err == Ok && Complete(f.fs.disk, f.fs.v, f.sclust, 0, f.objsize)
    modifies f, f.fs
    ensures f.Valid() && f.err == Ok && Returns(f.fs.disk, f.fs.v, f.sclust, f.objsize, old(f.fptr), op, data, f.fptr)
  {
    data := [];
    var res;
    match op
    case Seek(ofs) =>
      IntactReachable(f.fs.disk, f.fs.v, f.sclust, f.objsize, Moved(f.objsize, f.fptr, Seek(ofs)));
      res := f.FLseek(ofs);
    case Read(btr) => res, data := f.FRead(btr);
  }

  /** Any sequence of seeks and reads on an intact file succeeds: the file pointer moves as over a plain array of
      bytes, and every read returns the bytes of the file between its old and its new place. */
  method Replay(f: File, ops: seq<FileOp>) returns (got: seq<seq<Byte>>, ghost at: seq<nat>)
    requires f.Valid() && f.err == Ok && Complete(f.fs.disk, f.fs.v, f.sclust, 0, f.objsize)
    modifies f, f.fs
    ensures f.Valid() && f.err == Ok && Replayed(f.fs.disk, f.fs.v, f.sclust, f.objsize, ops, got, at)
    ensures |got| == |ops| && at[0] == old(f.fptr) && at[|ops|] == f.fptr
  {
    got, at := [], [f.fptr];
    while |got| < |ops|
      invariant f.Valid() && f.err == Ok && Replayed(f.fs.disk, f.fs.v, f.sclust, f.objsize, ops, got, at)
      invariant at[0] == old(f.fptr) && at[|got|] == f.fptr
    {
      var data := Perform(f, ops[|got|]);
      ReplayOn(f.fs.disk, f.fs.v, f.sclust, f.objsize, ops, got, at, data, f.fptr);
      got, at := got + [data], at + [f.fptr];
    }
  }
}
