/**
 The usage counters of the body cache (common/disk_cache_config.go) under
 concurrency: storages are created and closed by any number of goroutines, and
 every atomic operation on a counter is one step. A storage increments its count
 and then its bytes before anybody can close it; the first close claims it by
 compare-and-swap and decrements both, storing zero if a disk counter went negative.
 */
module CacheCounters {

  datatype Stage =
    | New               // about to add one to the count
    | Counted           // about to add its size
    | Open
    | Claimed           // about to take one from the count
    | CountNegative     // the count went negative, about to store zero
    | Uncounted         // about to take its size
    | BytesNegative     // the bytes went negative, about to store zero
    | Gone

  datatype Storage = Storage(disk: bool, size: nat, stage: Stage)

  datatype Counters = Counters(count: int, bytes: int)

  datatype System = System(storages: seq<Storage>, disk: Counters, memory: Counters)

  datatype Event =
    | Create(disk: bool, size: nat)
    | Advance(i: nat)      // storage i makes its next atomic step
    | Close(i: nat)        // a close of storage i, the first one or a repeated one
    | Reset                // the disk usage is reset after a file cleanup

  /** The storage's next atomic step on the counters of its kind. */
  function Stepped(s: Storage, c: Counters): (Storage, Counters)
  {
    match s.stage
    case New => (s.(stage := Counted), c.(count := c.count + 1))
    case Counted => (s.(stage := Open), c.(bytes := c.bytes + s.size))
    case Claimed =>
      (s.(stage := if s.disk && c.count - 1 < 0 then CountNegative else Uncounted), c.(count := c.count - 1))
    case CountNegative => (s.(stage := Uncounted), c.(count := 0))
    case Uncounted =>
      (s.(stage := if s.disk && c.bytes - s.size < 0 then BytesNegative else Gone), c.(bytes := c.bytes - s.size))
    case BytesNegative => (s.(stage := Gone), c.(bytes := 0))
    case _ => (s, c)
  }

  function Next(sys: System, e: Event): System
  {
    match e
    case Create(disk, size) => sys.(storages := sys.storages + [Storage(disk, size, New)])
    case Advance(i) =>
      if i >= |sys.storages| then sys
      else
        var s := sys.storages[i];
        var (s', c) := Stepped(s, if s.disk then sys.disk else sys.memory);
        System(sys.storages[i := s'], if s.disk then c else sys.disk, if s.disk then sys.memory else c)
    case Close(i) =>
      if i < |sys.storages| && sys.storages[i].stage == Open
      then sys.(storages := sys.storages[i := sys.storages[i].(stage := Claimed)])
      else sys
    case Reset => sys.(disk := Counters(0, 0))
  }

  const EMPTY := System([], Counters(0, 0), Counters(0, 0))

  function Run(events: seq<Event>): System
  {
    if events == [] then EMPTY else Next(Run(events[..|events| - 1]), events[|events| - 1])
  }

  // ----- What the counters count -----

  /** Does the storage currently stand in the count of its kind? */
  function InCount(disk: bool): Storage -> int
  {
    (s: Storage) => if s.disk == disk && (s.stage == Counted || s.stage == Open || s.stage == Claimed) then 1 else 0
  }

  function InBytes(disk: bool): Storage -> int
  {
    (s: Storage) =>
      if s.disk == disk && (s.stage == Open || s.stage == Claimed || s.stage == Uncounted) then s.size else 0
  }

  function Sum(ss: seq<Storage>, f: Storage -> int): int
  {
    if ss == [] then 0 else Sum(ss[..|ss| - 1], f) + f(ss[|ss| - 1])
  }

  ghost predicate Exact(sys: System)
  {
    && sys.disk == Counters(Sum(sys.storages, InCount(true)), Sum(sys.storages, InBytes(true)))
    && sys.memory == Counters(Sum(sys.storages, InCount(false)), Sum(sys.storages, InBytes(false)))
  }

  ghost predicate NeverNegative(sys: System)
  {
    forall i :: 0 <= i < |sys.storages| ==>
      sys.storages[i].stage != CountNegative && sys.storages[i].stage != BytesNegative
  }

  lemma {:induction false} SumPut(ss: seq<Storage>, i: nat, s: Storage, f: Storage -> int)
    requires i < |ss|
    ensures Sum(ss[i := s], f) == Sum(ss, f) - f(ss[i]) + f(s)
  {
    var ss' := ss[i := s];
    if i == |ss| - 1 {
      assert ss'[..|ss| - 1] == ss[..|ss| - 1];
    } else {
      assert ss'[..|ss| - 1] == ss[..|ss| - 1][i := s];
      SumPut(ss[..|ss| - 1], i, s, f);
    }
  }

  lemma {:induction false} SumCovers(ss: seq<Storage>, i: nat, f: Storage -> int)
    requires i < |ss| && forall s :: f(s) >= 0
    ensures Sum(ss, f) >= f(ss[i])
  {
    SumNonNegative(ss[..|ss| - 1], f);
    if i < |ss| - 1 { SumCovers(ss[..|ss| - 1], i, f); }
  }

  lemma {:induction false} SumNonNegative(ss: seq<Storage>, f: Storage -> int)
    requires forall s :: f(s) >= 0
    ensures Sum(ss, f) >= 0
  {
    if ss != [] { SumNonNegative(ss[..|ss| - 1], f); }
  }

  lemma SumPush(ss: seq<Storage>, s: Storage, f: Storage -> int)
    ensures Sum(ss + [s], f) == Sum(ss, f) + f(s)
  {
    assert (ss + [s])[..|ss|] == ss;
  }

  /** In every interleaving, the counters are exact and no clamp is ever reached. */
  lemma {:induction false} AlwaysExact(events: seq<Event>)
    requires forall i :: 0 <= i < |events| ==> !events[i].Reset?
    ensures Exact(Run(events)) && NeverNegative(Run(events))
  {
    if events != [] {
      var before, e := events[..|events| - 1], events[|events| - 1];
      AlwaysExact(before);
      StepExact(Run(before), e);
    }
  }

  lemma StepExact(sys: System, e: Event)
    requires Exact(sys) && NeverNegative(sys) && !e.Reset?
    ensures Exact(Next(sys, e)) && NeverNegative(Next(sys, e))
  {
    match e
    case Create(disk, size) => CreateExact(sys, Storage(disk, size, New));
    case Advance(i) => if i < |sys.storages| { AdvanceExact(sys, i); }
    case Close(i) => CloseExact(sys, i);
  }

  lemma CloseExact(sys: System, i: nat)
    requires Exact(sys) && NeverNegative(sys)
    ensures Exact(Next(sys, Close(i))) && NeverNegative(Next(sys, Close(i)))
  {
    if i < |sys.storages| && sys.storages[i].stage == Open {
      var s := sys.storages[i];
      PutAll(sys.storages, i, s.(stage := Claimed));
      assert forall disk :: InCount(disk)(s) == InCount(disk)(s.(stage := Claimed));
      assert forall disk :: InBytes(disk)(s) == InBytes(disk)(s.(stage := Claimed));
    }
  }

  lemma CreateExact(sys: System, s: Storage)
    requires Exact(sys) && s.stage == New
    ensures Exact(sys.(storages := sys.storages + [s]))
  {
    SumPush(sys.storages, s, InCount(true));
    SumPush(sys.storages, s, InBytes(true));
    SumPush(sys.storages, s, InCount(false));
    SumPush(sys.storages, s, InBytes(false));
  }

  lemma PutAll(ss: seq<Storage>, i: nat, s: Storage)
    requires i < |ss|
    ensures forall disk :: Sum(ss[i := s], InCount(disk)) ==
              Sum(ss, InCount(disk)) - InCount(disk)(ss[i]) + InCount(disk)(s)
    ensures forall disk :: Sum(ss[i := s], InBytes(disk)) ==
              Sum(ss, InBytes(disk)) - InBytes(disk)(ss[i]) + InBytes(disk)(s)
  {
    forall disk: bool
      ensures Sum(ss[i := s], InCount(disk)) == Sum(ss, InCount(disk)) - InCount(disk)(ss[i]) + InCount(disk)(s)
      ensures Sum(ss[i := s], InBytes(disk)) == Sum(ss, InBytes(disk)) - InBytes(disk)(ss[i]) + InBytes(disk)(s)
    {
      SumPut(ss, i, s, InCount(disk));
      SumPut(ss, i, s, InBytes(disk));
    }
  }

  lemma AdvanceExact(sys: System, i: nat)
    requires i < |sys.storages| && Exact(sys) && NeverNegative(sys)
    ensures Exact(Next(sys, Advance(i))) && NeverNegative(Next(sys, Advance(i)))
  {
    var s := sys.storages[i];
    var c := if s.disk then sys.disk else sys.memory;
    assert c.count >= InCount(s.disk)(s) && c.bytes >= InBytes(s.disk)(s) by {
      SumCovers(sys.storages, i, InCount(s.disk));
      SumCovers(sys.storages, i, InBytes(s.disk));
    }
    StepBalances(s, c);
    PutAll(sys.storages, i, Stepped(s, c).0);
  }

  /** A step changes its counters by exactly what it changes about the storage's own standing, and clamps nothing. */
  lemma StepBalances(s: Storage, c: Counters)
    requires s.stage != CountNegative && s.stage != BytesNegative
    requires c.count >= InCount(s.disk)(s) && c.bytes >= InBytes(s.disk)(s)
    ensures var (s', c') := Stepped(s, c);
            && s'.disk == s.disk && s'.stage != CountNegative && s'.stage != BytesNegative
            && c'.count - c.count == InCount(s.disk)(s') - InCount(s.disk)(s)
            && c'.bytes - c.bytes == InBytes(s.disk)(s') - InBytes(s.disk)(s)
            && InCount(!s.disk)(s') == 0 == InCount(!s.disk)(s) && InBytes(!s.disk)(s') == 0 == InBytes(!s.disk)(s)
  {
  }

  /** Open storages of a kind: how many, and how many bytes. */
  function OpenCount(disk: bool): Storage -> int
  {
    (s: Storage) => if s.disk == disk && s.stage == Open then 1 else 0
  }

  function OpenBytes(disk: bool): Storage -> int
  {
    (s: Storage) => if s.disk == disk && s.stage == Open then s.size else 0
  }

  ghost predicate Quiescent(sys: System)
  {
    forall i :: 0 <= i < |sys.storages| ==> sys.storages[i].stage == Open || sys.storages[i].stage == Gone
  }

  /** When nobody is in the middle of creating or closing, the counters describe the open storages. */
  lemma QuiescentCounters(events: seq<Event>)
    requires forall i :: 0 <= i < |events| ==> !events[i].Reset?
    requires Quiescent(Run(events))
    ensures var sys := Run(events);
            && sys.disk == Counters(Sum(sys.storages, OpenCount(true)), Sum(sys.storages, OpenBytes(true)))
            && sys.memory == Counters(Sum(sys.storages, OpenCount(false)), Sum(sys.storages, OpenBytes(false)))
  {
    AlwaysExact(events);
    var ss := Run(events).storages;
    SumSame(ss, InCount(true), OpenCount(true));
    SumSame(ss, InBytes(true), OpenBytes(true));
    SumSame(ss, InCount(false), OpenCount(false));
    SumSame(ss, InBytes(false), OpenBytes(false));
  }

  lemma {:induction false} SumSame(ss: seq<Storage>, f: Storage -> int, g: Storage -> int)
    requires forall i :: 0 <= i < |ss| ==> f(ss[i]) == g(ss[i])
    ensures Sum(ss, f) == Sum(ss, g)
  {
    if ss != [] { SumSame(ss[..|ss| - 1], f, g); }
  }

  /** Resetting the usage while a file is open is what makes the clamp fire. */
  lemma ResetFiresTheClamp(size: nat)
    ensures var live := Next(Next(Next(EMPTY, Create(true, size)), Advance(0)), Advance(0));
            var closing := Next(Next(Next(live, Reset), Close(0)), Advance(0));
            closing.storages == [Storage(true, size, CountNegative)]
  {
  }

  /** Then the clamps bring both counters back to zero, and the storage is gone all the same. */
  lemma ClampsRecover(size: nat)
    requires size > 0
    ensures var live := Next(Next(Next(EMPTY, Create(true, size)), Advance(0)), Advance(0));
            var negative := Next(Next(Next(live, Reset), Close(0)), Advance(0));
            var counted := Next(negative, Advance(0));
            var short := Next(counted, Advance(0));
            && negative.disk == Counters(-1, 0) && counted.disk == Counters(0, 0)
            && short.storages == [Storage(true, size, BytesNegative)]
            && short.disk.count == 0 == short.disk.bytes + size
            && Next(short, Advance(0)) == System([Storage(true, size, Gone)], Counters(0, 0), Counters(0, 0))
  {
    var live := Next(Next(Next(EMPTY, Create(true, size)), Advance(0)), Advance(0));
    assert live.storages == [Storage(true, size, Open)];
    var negative := Next(Next(Next(live, Reset), Close(0)), Advance(0));
    assert negative.storages == [Storage(true, size, CountNegative)];
    var counted := Next(negative, Advance(0));
    assert counted.storages == [Storage(true, size, Uncounted)];
  }

  function CountersOf(sys: System, disk: bool): Counters
  {
    if disk then sys.disk else sys.memory
  }

  /** Opening a storage of either kind, step by step, adds it and its size to the counters of its kind alone. */
  lemma OpeningCounts(sys: System, disk: bool, size: nat)
    ensures var i := |sys.storages|;
            var after := Next(Next(Next(sys, Create(disk, size)), Advance(i)), Advance(i));
            && |after.storages| == i + 1 && after.storages[i] == Storage(disk, size, Open)
            && CountersOf(after, disk).count == CountersOf(sys, disk).count + 1
            && CountersOf(after, disk).bytes == CountersOf(sys, disk).bytes + size
            && CountersOf(after, !disk) == CountersOf(sys, !disk)
  {
  }

  /** Closing one gives both back, once: a second close does nothing. */
  lemma ClosingGivesBack(sys: System, i: nat)
    requires Exact(sys) && NeverNegative(sys) && i < |sys.storages| && sys.storages[i].stage == Open
    ensures var s, claimed := sys.storages[i], Next(sys, Close(i));
            var after := Next(Next(claimed, Advance(i)), Advance(i));
            && Next(claimed, Close(i)) == claimed && Next(after, Close(i)) == after
            && after.storages == sys.storages[i := Storage(s.disk, s.size, Gone)]
            && CountersOf(after, s.disk).count == CountersOf(sys, s.disk).count - 1
            && CountersOf(after, s.disk).bytes == CountersOf(sys, s.disk).bytes - s.size
            && CountersOf(after, !s.disk) == CountersOf(sys, !s.disk)
  {
    var s := sys.storages[i];
    SumCovers(sys.storages, i, InCount(s.disk));
    SumCovers(sys.storages, i, InBytes(s.disk));
    assert CountersOf(sys, s.disk).count >= 1 && CountersOf(sys, s.disk).bytes >= s.size;
  }
}
