/**
 Reusable request bodies (common/body_storage.go, common/gin.go): a body is
 read once into memory or into a temporary file, and both storages are meant to
 behave alike. Operations on files and readers are assumed not to fail.
 */
module BodyStorage {
  import opened Basics

  const SEEK_START := 0
  const SEEK_CURRENT := 1
  const SEEK_END := 2

  /** The most that one read of a file returns, on every platform Go supports. */
  const MAX_READ := 0x4000_0000

  /** What a storage holds, where its read position is, and whether it has been closed. */
  datatype State = State(data: seq<byte>, pos: nat, closed: bool)

  function Fresh(data: seq<byte>): State
  {
    State(data, 0, false)
  }

  datatype Op =
    | Read(n: nat)
    | Seek(offset: int, whence: int)
    | Bytes
    | Size
    | Close

  datatype Observation =
    | GotBytes(bytes: seq<byte>, eof: bool)
    | At(pos: int)
    | Invalid            // bad whence or negative position
    | Contents(data: seq<byte>)
    | Length(n: int)
    | Done
    | StorageClosed

  // ----- The library readers underneath -----

  function Next(data: seq<byte>, pos: nat, n: nat): seq<byte>
  {
    if pos >= |data| then [] else if pos + n <= |data| then data[pos..pos + n] else data[pos..]
  }

  /** Where a seek leads, if it is one of the three kinds and valid. */
  function Target(data: seq<byte>, pos: nat, offset: int, whence: int): Option<nat>
  {
    var base := if whence == SEEK_START then 0 else if whence == SEEK_CURRENT then pos else |data|;
    if whence < SEEK_START || whence > SEEK_END || base + offset < 0 then None else Some(base + offset)
  }

  /** A kind of seek Go does not define, which a file hands to the operating system all the same. */
  predicate OddSeek(whence: int)
  {
    whence < SEEK_START || whence > SEEK_END
  }

  /**
   The operating system: what it makes of an odd seek, given the file, the
   position, the offset and the kind, and the last position it lets a file have.
   */
  datatype System = System(odd: (seq<byte>, nat, int, int) -> Option<nat>, limit: nat)

  predicate Within(os: System, data: seq<byte>, pos: nat)
  {
    pos <= |data| || pos <= os.limit
  }

  function FileTarget(os: System, data: seq<byte>, pos: nat, offset: int, whence: int): Option<nat>
  {
    var target := if OddSeek(whence) then os.odd(data, pos, offset, whence) else Target(data, pos, offset, whence);
    if target.Some? && !Within(os, data, target.value) then None else target
  }

  /** How much of a read a file attempts. */
  function Capped(n: nat): nat
  {
    if n > MAX_READ then MAX_READ else n
  }

  /** `bytes.Reader`: past the end even an empty read reports EOF. */
  class Reader {
    const data: seq<byte>
    var pos: nat

    constructor (data: seq<byte>)
      ensures this.data == data && pos == 0
    {
      this.data, pos := data, 0;
    }

    method Read(n: nat) returns (out: seq<byte>, eof: bool)
      modifies this
      ensures out == Next(data, old(pos), n) && pos == old(pos) + |out|
      ensures eof <==> old(pos) >= |data|
    {
      if pos >= |data| { return [], true; }
      out := Next(data, pos, n);
      pos := pos + |out|;
      eof := false;
    }

    method Seek(offset: int, whence: int) returns (r: Option<nat>)
      modifies this
      ensures r == Target(data, old(pos), offset, whence) && pos == if r.Some? then r.value else old(pos)
    {
      r := Target(data, pos, offset, whence);
      if r.Some? { pos := r.value; }
    }
  }

  /** `os.File`: an empty read returns at once, without looking at the end, and a long one is cut short. */
  class File {
    const os: System
    const data: seq<byte>
    var pos: nat

    constructor (os: System, data: seq<byte>)
      ensures this.os == os && this.data == data && pos == 0
    {
      this.os, this.data, pos := os, data, 0;
    }

    method Read(n: nat) returns (out: seq<byte>, eof: bool)
      modifies this
      ensures out == Next(data, old(pos), Capped(n)) && pos == old(pos) + |out|
      ensures eof <==> n > 0 && old(pos) >= |data|
    {
      if n == 0 { return [], false; }
      out := Next(data, pos, Capped(n));
      eof := |out| == 0;
      pos := pos + |out|;
    }

    method Seek(offset: int, whence: int) returns (r: Option<nat>)
      modifies this
      ensures r == FileTarget(os, data, old(pos), offset, whence) && pos == if r.Some? then r.value else old(pos)
    {
      r := FileTarget(os, data, pos, offset, whence);
      if r.Some? { pos := r.value; }
    }
  }

  // ----- The two storages -----

  class MemoryStorage {
    const reader: Reader
    const size: int
    var closed: bool

    ghost predicate Valid()
      reads this, reader
    {
      size == |reader.data|
    }

    ghost function Now(): State
      reads this, reader
    {
      State(reader.data, reader.pos, closed)
    }

    constructor (data: seq<byte>)
      ensures Valid() && fresh(reader) && Now() == Fresh(data)
    {
      reader := new Reader(data);
      size, closed := |data|, false;
    }

    method Perform(op: Op) returns (seen: Observation)
      requires Valid()
      modifies this, reader
      ensures Valid() && Now() == After(old(Now()), op) && seen == MemorySees(old(Now()), op)
    {
      match op
      case Size => return Length(size);
      case Close =>
        closed := true;
        return Done;
      case Read(n) =>
        if closed { return StorageClosed; }
        var out, eof := reader.Read(n);
        return GotBytes(out, eof);
      case Seek(offset, whence) =>
        if closed { return StorageClosed; }
        var r := reader.Seek(offset, whence);
        return if r.Some? then At(r.value) else Invalid;
      case Bytes =>
        if closed { return StorageClosed; }
        return Contents(reader.data);
    }
  }

  class DiskStorage {
    const file: File
    const size: int
    var closed: bool

    ghost predicate Valid()
      reads this, file
    {
      size == |file.data| && Within(file.os, file.data, file.pos)
    }

    ghost function Now(): State
      reads this, file
    {
      State(file.data, file.pos, closed)
    }

    constructor (os: System, data: seq<byte>)
      ensures Valid() && fresh(file) && Now() == Fresh(data) && file.os == os
    {
      file := new File(os, data);
      size, closed := |data|, false;
    }

    /** Reads the whole file and puts the position back. */
    method ReadAll() returns (data: seq<byte>)
      requires Valid()
      modifies file
      ensures data == file.data && file.pos == old(file.pos)
    {
      var current := file.Seek(0, SEEK_CURRENT);
      var _ := file.Seek(0, SEEK_START);
      data := [];
      while |data| < size
        invariant file.pos == |data| <= size && data == file.data[..|data|]
      {
        var more, eof := file.Read(size - |data|);
        data := data + more;
      }
      assert file.data[..|data|] == file.data;
      var _ := file.Seek(current.value, SEEK_START);
    }

    method Perform(op: Op) returns (seen: Observation)
      requires Valid()
      modifies this, file
      ensures Valid() && Now() == DiskAfter(file.os, old(Now()), op) && seen == DiskSees(file.os, old(Now()), op)
    {
      match op
      case Size => return Length(size);
      case Close =>
        closed := true;
        return Done;
      case Read(n) =>
        if closed { return StorageClosed; }
        var out, eof := file.Read(n);
        return GotBytes(out, eof);
      case Seek(offset, whence) =>
        if closed { return StorageClosed; }
        var r := file.Seek(offset, whence);
        return if r.Some? then At(r.value) else Invalid;
      case Bytes =>
        if closed { return StorageClosed; }
        var data := ReadAll();
        return Contents(data);
    }
  }

  /** Where an operation leaves a storage whose seeks lead to `target`. */
  function Moved(s: State, op: Op, target: Option<nat>): State
  {
    match op
    case Close => s.(closed := true)
    case Read(n) => if s.closed then s else s.(pos := s.pos + |Next(s.data, s.pos, n)|)
    case Seek(_, _) => if s.closed || target.None? then s else s.(pos := target.value)
    case _ => s
  }

  function Sees(s: State, op: Op, eof: bool, target: Option<nat>): Observation
  {
    match op
    case Size => Length(|s.data|)
    case Close => Done
    case Read(n) => if s.closed then StorageClosed else GotBytes(Next(s.data, s.pos, n), eof)
    case Seek(_, _) => if s.closed then StorageClosed else if target.Some? then At(target.value) else Invalid
    case Bytes => if s.closed then StorageClosed else Contents(s.data)
  }

  function MemoryTarget(s: State, op: Op): Option<nat>
  {
    if op.Seek? then Target(s.data, s.pos, op.offset, op.whence) else None
  }

  function DiskTarget(os: System, s: State, op: Op): Option<nat>
  {
    if op.Seek? then FileTarget(os, s.data, s.pos, op.offset, op.whence) else None
  }

  function After(s: State, op: Op): State
  {
    Moved(s, op, MemoryTarget(s, op))
  }

  function OnFile(op: Op): Op
  {
    if op.Read? then Read(Capped(op.n)) else op
  }

  function DiskAfter(os: System, s: State, op: Op): State
  {
    Moved(s, OnFile(op), DiskTarget(os, s, op))
  }

  function MemorySees(s: State, op: Op): Observation
  {
    Sees(s, op, s.pos >= |s.data|, MemoryTarget(s, op))
  }

  function DiskSees(os: System, s: State, op: Op): Observation
  {
    Sees(s, OnFile(op), op.Read? && op.n > 0 && s.pos >= |s.data|, DiskTarget(os, s, op))
  }

  function Run(s: State, ops: seq<Op>): State
  {
    if ops == [] then s else After(Run(s, ops[..|ops| - 1]), ops[|ops| - 1])
  }

  function DiskState(os: System, s: State, ops: seq<Op>): State
  {
    if ops == [] then s else DiskAfter(os, DiskState(os, s, ops[..|ops| - 1]), ops[|ops| - 1])
  }

  function MemoryRun(s: State, ops: seq<Op>): seq<Observation>
  {
    if ops == [] then []
    else MemoryRun(s, ops[..|ops| - 1]) + [MemorySees(Run(s, ops[..|ops| - 1]), ops[|ops| - 1])]
  }

  function DiskRun(os: System, s: State, ops: seq<Op>): seq<Observation>
  {
    if ops == [] then []
    else DiskRun(os, s, ops[..|ops| - 1]) + [DiskSees(os, DiskState(os, s, ops[..|ops| - 1]), ops[|ops| - 1])]
  }

  /**
   An operation that tells the two apart: an empty read at or past the end, a read
   of more than a file returns at once while there is as much, a seek past the last
   position a file may have, or one of a kind Go does not define that the operating
   system accepts.
   */
  predicate Telling(os: System, s: State, op: Op)
  {
    && !s.closed
    && match op
       case Read(n) => if n == 0 then s.pos >= |s.data| else n > MAX_READ && |s.data| - s.pos > MAX_READ
       case Seek(offset, whence) =>
         if OddSeek(whence) then FileTarget(os, s.data, s.pos, offset, whence).Some?
         else
           var target := Target(s.data, s.pos, offset, whence);
           target.Some? && !Within(os, s.data, target.value)
       case _ => false
  }

  ghost predicate TellsNothing(os: System, s: State, ops: seq<Op>)
  {
    forall i :: 0 <= i < |ops| ==> !Telling(os, Run(s, ops[..i]), ops[i])
  }

  /**
   The two storages cannot be told apart by any sequence of operations, except,
   exactly, by an empty read at the end (memory then reports EOF and disk does
   not), by a read that a file cuts short, and by a seek that memory accepts and
   the operating system does not or the other way round.
   */
  lemma {:induction false} Indistinguishable(os: System, s: State, ops: seq<Op>)
    ensures |MemoryRun(s, ops)| == |DiskRun(os, s, ops)| == |ops|
    ensures MemoryRun(s, ops) == DiskRun(os, s, ops) <==> TellsNothing(os, s, ops)
    ensures TellsNothing(os, s, ops) ==> Run(s, ops) == DiskState(os, s, ops)
  {
    if ops != [] {
      var before, last := ops[..|ops| - 1], ops[|ops| - 1];
      Indistinguishable(os, s, before);
      TellsNothingBefore(os, s, ops);
      TellsIff(os, Run(s, before), last);
      var m, d := MemoryRun(s, before), DiskRun(os, s, before);
      SameEnds(m, MemorySees(Run(s, before), last), d, DiskSees(os, DiskState(os, s, before), last));
    }
  }

  lemma TellsIff(os: System, s: State, op: Op)
    ensures MemorySees(s, op) == DiskSees(os, s, op) <==> !Telling(os, s, op)
    ensures !Telling(os, s, op) ==> After(s, op) == DiskAfter(os, s, op)
  {
  }

  lemma SameEnds<T>(a: seq<T>, x: T, b: seq<T>, y: T)
    requires |a| == |b|
    ensures a + [x] == b + [y] <==> a == b && x == y
  {
    if a + [x] == b + [y] {
      assert a == (a + [x])[..|a|] == (b + [y])[..|b|] == b;
      assert (a + [x])[|a|] == (b + [y])[|b|];
    }
  }

  lemma TellsNothingBefore(os: System, s: State, ops: seq<Op>)
    requires ops != []
    ensures TellsNothing(os, s, ops) <==>
            TellsNothing(os, s, ops[..|ops| - 1]) && !Telling(os, Run(s, ops[..|ops| - 1]), ops[|ops| - 1])
  {
    var before := ops[..|ops| - 1];
    assert forall i :: 0 <= i < |before| ==> before[..i] == ops[..i] && before[i] == ops[i];
  }

  /** The kind 3 looks for data on Linux: it leads to its offset as long as that is inside the file. */
  lemma SeekingForDataTells(os: System, data: seq<byte>, offset: nat)
    requires offset < |data| && os.odd(data, 0, offset, 3) == Some(offset)
    ensures MemoryRun(Fresh(data), [Seek(offset, 3)]) == [Invalid]
    ensures DiskRun(os, Fresh(data), [Seek(offset, 3)]) == [At(offset)]
  {
    assert [Seek(offset, 3)][..0] == [];
  }

  /** Reading a fresh storage to the end in any chunks yields the data in order. */
  lemma {:induction false} ChunksAddUp(s: State, sizes: seq<nat>)
    requires !s.closed && s.pos <= |s.data|
    ensures var t := Run(s, Reads(sizes));
            t.data == s.data && !t.closed && s.pos <= t.pos <= |s.data| && Chunks(s, sizes) == s.data[s.pos..t.pos]
  {
    if sizes != [] {
      var before := sizes[..|sizes| - 1];
      ChunksAddUp(s, before);
      assert Reads(sizes)[..|sizes| - 1] == Reads(before);
      NextExtends(s.data, s.pos, Run(s, Reads(before)).pos, sizes[|sizes| - 1]);
    } else {
      assert Reads(sizes) == [];
    }
  }

  lemma NextExtends(data: seq<byte>, from_: nat, pos: nat, n: nat)
    requires from_ <= pos <= |data|
    ensures pos + |Next(data, pos, n)| <= |data|
    ensures data[from_..pos] + Next(data, pos, n) == data[from_..pos + |Next(data, pos, n)|]
  {
  }

  function Reads(sizes: seq<nat>): (ops: seq<Op>)
    ensures |ops| == |sizes| && forall i :: 0 <= i < |sizes| ==> ops[i] == Read(sizes[i])
  {
    seq(|sizes|, i requires 0 <= i < |sizes| => Read(sizes[i]))
  }

  /** What successive reads return, joined. */
  function Chunks(s: State, sizes: seq<nat>): seq<byte>
  {
    if sizes == [] then []
    else
      var before := sizes[..|sizes| - 1];
      var mid := Run(s, Reads(before));
      Chunks(s, before) + Next(mid.data, mid.pos, sizes[|sizes| - 1])
  }

  /**
   Whatever was read, sought and asked before, both storages give the whole body
   until they are closed, and its size even then.
   */
  lemma {:induction false} BodyStaysWhole(os: System, data: seq<byte>, ops: seq<Op>)
    ensures var m, d := Run(Fresh(data), ops), DiskState(os, Fresh(data), ops);
            && m.data == d.data == data && (m.closed <==> Close in ops) && (d.closed <==> Close in ops)
            && MemorySees(m, Size) == Length(|data|) == DiskSees(os, d, Size)
            && MemorySees(m, Bytes) == DiskSees(os, d, Bytes) ==
               if Close in ops then StorageClosed else Contents(data)
  {
    if ops != [] {
      BodyStaysWhole(os, data, ops[..|ops| - 1]);
      assert ops == ops[..|ops| - 1] + [ops[|ops| - 1]];
    }
  }

  /** A fresh storage is read from its first byte, and a seek to an offset makes the next read start there. */
  lemma ReadsFromTheOffset(os: System, data: seq<byte>, offset: nat, n: nat)
    requires offset <= |data| && n <= 0x4000_0000
    ensures var m, d := After(Fresh(data), Seek(offset, 0)), DiskAfter(os, Fresh(data), Seek(offset, 0));
            && m == d && MemorySees(m, Read(n)).GotBytes? && DiskSees(os, d, Read(n)).GotBytes?
            && MemorySees(m, Read(n)).bytes == DiskSees(os, d, Read(n)).bytes ==
               if offset + n <= |data| then data[offset..offset + n] else data[offset..]
  {
  }

  /** Where seeks lead on an open storage of either kind: from the start, from here or from the end, and never below. */
  lemma SeeksLead(os: System, s: State, offset: int)
    requires !s.closed && s.pos <= os.limit && |s.data| + s.pos + offset <= os.limit
    ensures LeadsTo(os, s, Seek(offset, 0), offset)
    ensures LeadsTo(os, s, Seek(offset, 1), s.pos + offset)
    ensures LeadsTo(os, s, Seek(offset, 2), |s.data| + offset)
  {
  }

  /** Both storages move to the target and say so, or stay and refuse a target below zero. */
  predicate LeadsTo(os: System, s: State, op: Op, target: int)
  {
    if target < 0 then
      After(s, op) == DiskAfter(os, s, op) == s && MemorySees(s, op) == DiskSees(os, s, op) == Invalid
    else
      && After(s, op) == DiskAfter(os, s, op) == s.(pos := target)
      && MemorySees(s, op) == DiskSees(os, s, op) == At(target)
  }

  /** A read that asks for something says EOF exactly at or past the end, on either kind. */
  lemma EndIsReported(os: System, s: State, n: nat)
    requires !s.closed && n > 0
    ensures MemorySees(s, Read(n)).eof <==> s.pos >= |s.data|
    ensures DiskSees(os, s, Read(n)).eof <==> s.pos >= |s.data|
    ensures MemorySees(s, Read(n)).bytes == [] <==> s.pos >= |s.data|
  {
  }
}
