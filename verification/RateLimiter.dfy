/**
 The in-memory sliding-window limiter (common/rate-limit.go).

 The limiter keeps at most `max` timestamps per key, drops the oldest when it
 admits on a full queue, gives back the newest on release, and forgets whole
 keys in a background sweep. The reference keeps the full log of unreleased
 acceptances and simply counts the ones younger than the window.
 */
module RateLimiter {

  datatype Limit = Limit(max: int, window: int)

  type Store = map<string, seq<int>>

  function At(store: Store, key: string): seq<int>
  {
    if key in store then store[key] else []
  }

  datatype Op =
    | Request(key: string, now: int)
    | Release(key: string)
    | Sweep(now: int)

  // ----- One queue -----

  datatype Verdict = Verdict(admitted: bool, queue: seq<int>)

  /** What one request does to its key's queue when the limit is at least one. */
  function Slide(queue: seq<int>, limit: Limit, now: int): Verdict
  {
    if |queue| < limit.max || |queue| == 0 then Verdict(true, queue + [now])
    else if now - queue[0] >= limit.window then Verdict(true, queue[1..] + [now])
    else Verdict(false, queue)
  }

  datatype Outcome = Admitted | Refused | Crashed

  /**
   A request for any limit. Below one, a new key is admitted at zero and makes the
   allocation fail under it, and a known key with an empty queue has no oldest entry.
   */
  function Served(store: Store, key: string, limit: Limit, now: int): (Outcome, Store)
  {
    if key !in store then
      if limit.max < 0 then (Crashed, store) else (Admitted, store[key := [now]])
    else if |store[key]| == 0 && limit.max <= 0 then (Crashed, store)
    else
      var v := Slide(store[key], limit, now);
      if v.admitted then (Admitted, store[key := v.queue]) else (Refused, store)
  }

  /** From a limit of one on nothing crashes, and a missing key is an empty queue. */
  lemma ServesFromOneOn(store: Store, key: string, limit: Limit, now: int)
    ensures limit.max >= 1 ==>
              var v := Slide(At(store, key), limit, now);
              Served(store, key, limit, now) ==
              if v.admitted then (Admitted, store[key := v.queue]) else (Refused, store)
    ensures Served(store, key, limit, now).0 == Crashed <==>
            if key in store then store[key] == [] && limit.max <= 0 else limit.max < 0
  {
    assert [] + [now] == [now];
  }

  function GiveBack(queue: seq<int>): seq<int>
  {
    if queue == [] then [] else queue[..|queue| - 1]
  }

  predicate Stale(queue: seq<int>, expiration: int, now: int)
  {
    queue == [] || now - queue[|queue| - 1] > expiration
  }

  function Swept(store: Store, expiration: int, now: int): Store
  {
    map key | key in store && !Stale(store[key], expiration, now) :: store[key]
  }

  // ----- The limiter itself -----

  class InMemoryRateLimiter {
    var store: Store
    const expiration: int

    constructor (expiration: int)
      ensures store == map[] && this.expiration == expiration
    {
      store := map[];
      this.expiration := expiration;
    }

    method Request(key: string, maxRequestNum: int, duration: int, now: int) returns (outcome: Outcome)
      modifies this
      ensures (outcome, store) == Served(old(store), key, Limit(maxRequestNum, duration), now)
    {
      if key in store {
        var queue := store[key];
        if |queue| < maxRequestNum {
          store := store[key := queue + [now]];
          return Admitted;
        } else if |queue| == 0 {
          return Crashed;                   // there is no oldest entry to look at
        } else if now - queue[0] >= duration {
          queue := queue[1..];
          store := store[key := queue + [now]];
          return Admitted;
        } else {
          return Refused;
        }
      }
      if maxRequestNum < 0 { return Crashed; }   // a negative capacity
      store := store[key := []];
      store := store[key := store[key] + [now]];
      assert store[key] == [now] && store == old(store)[key := [now]];
      return Admitted;
    }

    method Release(key: string)
      modifies this
      ensures store == if key in old(store) then old(store)[key := GiveBack(old(store)[key])] else old(store)
    {
      if key !in store || |store[key]| == 0 {
        assert key in store ==> store == store[key := GiveBack(store[key])];
        return;
      }
      store := store[key := store[key][..|store[key]| - 1]];
    }

    /** One round of the background sweep; Go visits the map's keys in an arbitrary order. */
    method ClearExpiredItems(now: int)
      modifies this
      ensures store == Swept(old(store), expiration, now)
    {
      var pending := store.Keys;
      while pending != {}
        invariant pending <= store.Keys <= old(store).Keys
        invariant forall key :: key in old(store) && (key in pending || !Stale(old(store)[key], expiration, now)) ==>
                    key in store
        invariant forall key :: key in store ==>
          store[key] == old(store)[key] && (key in pending || !Stale(store[key], expiration, now))
      {
        var key :| key in pending;
        var queue := store[key];
        var size := |queue|;
        if size == 0 || now - queue[size - 1] > expiration {
          store := store - {key};
        }
        pending := pending - {key};
      }
    }
  }

  // ----- The reference: full logs, windows counted afresh -----

  /** How many acceptances in `log` are younger than the window at `now`. */
  function InWindow(log: seq<int>, window: int, now: int): nat
  {
    if log == [] then 0
    else InWindow(log[1..], window, now) + if now - log[0] < window then 1 else 0
  }

  function LogStep(limits: string -> Limit, logs: Store, op: Op): (Store, seq<bool>)
  {
    match op
    case Request(key, now) =>
      if InWindow(At(logs, key), limits(key).window, now) < limits(key).max
      then (logs[key := At(logs, key) + [now]], [true])
      else (logs, [false])
    case Release(key) => (logs[key := GiveBack(At(logs, key))], [])
    case Sweep(_) => (logs, [])
  }

  function StoreStep(limits: string -> Limit, expiration: int, store: Store, op: Op): (Store, seq<bool>)
  {
    match op
    case Request(key, now) =>
      var v := Slide(At(store, key), limits(key), now);
      (if v.admitted then store[key := v.queue] else store, [v.admitted])
    case Release(key) =>
      (if key in store then store[key := GiveBack(store[key])] else store, [])
    case Sweep(now) => (Swept(store, expiration, now), [])
  }

  function LogRun(limits: string -> Limit, ops: seq<Op>): (Store, seq<bool>)
  {
    if ops == [] then (map[], [])
    else
      var (logs, answers) := LogRun(limits, ops[..|ops| - 1]);
      var (logs', more) := LogStep(limits, logs, ops[|ops| - 1]);
      (logs', answers + more)
  }

  function StoreRun(limits: string -> Limit, expiration: int, ops: seq<Op>): (Store, seq<bool>)
  {
    if ops == [] then (map[], [])
    else
      var (store, answers) := StoreRun(limits, expiration, ops[..|ops| - 1]);
      var (store', more) := StoreStep(limits, expiration, store, ops[|ops| - 1]);
      (store', answers + more)
  }

  function Clock(ops: seq<Op>, start: int): int
  {
    if ops == [] then start
    else
      var op := ops[|ops| - 1];
      if op.Release? then Clock(ops[..|ops| - 1], start) else op.now
  }

  /** The clock never goes back. */
  predicate InOrder(ops: seq<Op>, start: int)
  {
    ops == [] ||
    (InOrder(ops[..|ops| - 1], start) && Clock(ops[..|ops| - 1], start) <= Clock(ops, start))
  }

  ghost predicate Sorted(log: seq<int>)
  {
    forall i, j :: 0 <= i <= j < |log| ==> log[i] <= log[j]
  }

  /** The queue is a tail of the log, and what it forgot has left the window for good. */
  ghost predicate Tracks(queue: seq<int>, log: seq<int>, limit: Limit, clock: int)
  {
    && |queue| <= limit.max && |queue| <= |log|
    && (forall i :: 0 <= i < |queue| ==> queue[i] == log[|log| - |queue| + i])
    && Sorted(log)
    && (log != [] ==> log[|log| - 1] <= clock)
    && (forall i :: 0 <= i < |log| - |queue| ==> clock - log[i] >= limit.window)
  }

  ghost predicate AllTrack(store: Store, logs: Store, limits: string -> Limit, clock: int)
  {
    forall key :: Tracks(At(store, key), At(logs, key), limits(key), clock)
  }

  /**
   Every answer of every run equals the reference's, whatever the releases and
   sweeps in between. `window <= expiration + 1` is implied by the documented
   bound that no window exceeds the expiration period.
   */
  lemma {:induction false} AnswersAsTheLog(limits: string -> Limit, expiration: int, ops: seq<Op>, start: int)
    requires forall key :: limits(key).max >= 1 && limits(key).window <= expiration + 1
    requires InOrder(ops, start)
    ensures StoreRun(limits, expiration, ops).1 == LogRun(limits, ops).1
    ensures AllTrack(StoreRun(limits, expiration, ops).0, LogRun(limits, ops).0, limits, Clock(ops, start))
  {
    if ops != [] {
      var before := ops[..|ops| - 1];
      AnswersAsTheLog(limits, expiration, before, start);
      StepAnswersAsTheLog(limits, expiration, StoreRun(limits, expiration, before).0, LogRun(limits, before).0,
                          ops[|ops| - 1], Clock(before, start), Clock(ops, start));
    }
  }

  lemma StepAnswersAsTheLog(limits: string -> Limit, expiration: int, store: Store, logs: Store, op: Op, clock: int,
                            clock': int)
    requires forall key :: limits(key).max >= 1 && limits(key).window <= expiration + 1
    requires AllTrack(store, logs, limits, clock)
    requires clock <= clock' && clock' == if op.Release? then clock else op.now
    ensures StoreStep(limits, expiration, store, op).1 == LogStep(limits, logs, op).1
    ensures AllTrack(StoreStep(limits, expiration, store, op).0, LogStep(limits, logs, op).0, limits, clock')
  {
    match op
    case Request(key, now) =>
      assert Tracks(At(store, key), At(logs, key), limits(key), clock);
      SlideTracks(At(store, key), At(logs, key), limits(key), clock, now);
      RequestKeepsOthers(limits, store, logs, key, clock, now);
    case Release(key) => ReleaseTracks(limits, store, logs, key, clock);
    case Sweep(now) => SweepTracks(limits, expiration, store, logs, clock, now);
  }

  lemma RequestKeepsOthers(limits: string -> Limit, store: Store, logs: Store, key: string, clock: int, now: int)
    requires AllTrack(store, logs, limits, clock) && clock <= now
    ensures forall queue, log | Tracks(queue, log, limits(key), now) ::
              AllTrack(store[key := queue], logs[key := log], limits, now)
    ensures Tracks(At(store, key), At(logs, key), limits(key), now)
    ensures AllTrack(store, logs, limits, now)
  {
    forall k
      ensures Tracks(At(store, k), At(logs, k), limits(k), now)
    {
      TracksLater(At(store, k), At(logs, k), limits(k), clock, now);
    }
  }

  lemma ReleaseTracks(limits: string -> Limit, store: Store, logs: Store, key: string, clock: int)
    requires AllTrack(store, logs, limits, clock)
    ensures AllTrack(if key in store then store[key := GiveBack(store[key])] else store,
                     logs[key := GiveBack(At(logs, key))], limits, clock)
  {
    assert Tracks(At(store, key), At(logs, key), limits(key), clock);
    GiveBackTracks(At(store, key), At(logs, key), limits(key), clock);
  }

  lemma SweepTracks(limits: string -> Limit, expiration: int, store: Store, logs: Store, clock: int, now: int)
    requires forall key :: limits(key).max >= 1 && limits(key).window <= expiration + 1
    requires AllTrack(store, logs, limits, clock) && clock <= now
    ensures AllTrack(Swept(store, expiration, now), logs, limits, now)
  {
    forall key
      ensures Tracks(At(Swept(store, expiration, now), key), At(logs, key), limits(key), now)
    {
      assert Tracks(At(store, key), At(logs, key), limits(key), clock);
      if key in store && Stale(store[key], expiration, now) {
        ForgetTracks(store[key], At(logs, key), limits(key), expiration, clock, now);
      } else {
        TracksLater(At(store, key), At(logs, key), limits(key), clock, now);
      }
    }
  }

  lemma TracksLater(queue: seq<int>, log: seq<int>, limit: Limit, clock: int, now: int)
    requires clock <= now && Tracks(queue, log, limit, clock)
    ensures Tracks(queue, log, limit, now)
  {
  }

  lemma SlideTracks(queue: seq<int>, log: seq<int>, limit: Limit, clock: int, now: int)
    requires limit.max >= 1 && clock <= now
    requires Tracks(queue, log, limit, clock)
    ensures var v := Slide(queue, limit, now);
            && v.admitted == (InWindow(log, limit.window, now) < limit.max)
            && Tracks(v.queue, if v.admitted then log + [now] else log, limit, now)
  {
    TracksLater(queue, log, limit, clock, now);
    var dropped := |log| - |queue|;
    WindowWithin(log, limit.window, now, dropped);
    if |queue| < limit.max {
      PushTracks(queue, log, limit, now);
    } else if now - queue[0] >= limit.window {
      assert queue[0] == log[dropped];
      WindowWithin(log, limit.window, now, dropped + 1);
      PushTracks(queue[1..], log, limit, now);
    } else {
      assert queue[0] == log[dropped];
      WindowFull(log, limit.window, now, dropped);
    }
  }

  lemma PushTracks(queue: seq<int>, log: seq<int>, limit: Limit, now: int)
    requires |queue| < limit.max && Tracks(queue, log, limit, now)
    ensures Tracks(queue + [now], log + [now], limit, now)
  {
  }

  /** At most the entries from `k` on can be in the window when all earlier ones have left it. */
  lemma {:induction false} WindowWithin(log: seq<int>, window: int, now: int, k: nat)
    requires k <= |log|
    requires forall i :: 0 <= i < k ==> now - log[i] >= window
    ensures InWindow(log, window, now) <= |log| - k
  {
    if log != [] {
      WindowWithin(log[1..], window, now, if k == 0 then 0 else k - 1);
    }
  }

  /** On a sorted log, one entry in the window puts every later entry in it too. */
  lemma {:induction false} WindowFull(log: seq<int>, window: int, now: int, k: nat)
    requires Sorted(log) && k < |log| && now - log[k] < window
    ensures InWindow(log, window, now) >= |log| - k
  {
    if k > 0 {
      WindowFull(log[1..], window, now, k - 1);
    } else if |log| > 1 {
      WindowFull(log[1..], window, now, 0);
    }
  }

  lemma GiveBackTracks(queue: seq<int>, log: seq<int>, limit: Limit, clock: int)
    requires Tracks(queue, log, limit, clock)
    ensures Tracks(GiveBack(queue), GiveBack(log), limit, clock)
  {
    if queue != [] {
      assert log != [];
    }
  }

  lemma ForgetTracks(queue: seq<int>, log: seq<int>, limit: Limit, expiration: int, clock: int, now: int)
    requires limit.window <= expiration + 1 && clock <= now
    requires Tracks(queue, log, limit, clock) && Stale(queue, expiration, now)
    ensures Tracks([], log, limit, now)
  {
    if queue != [] {
      assert log[|log| - 1] == queue[|queue| - 1];
    }
  }

  // ----- What the limit guarantees -----

  /** Any `max + 1` consecutive surviving admissions of a key span at least the window. */
  ghost predicate Spaced(log: seq<int>, limit: Limit)
  {
    forall i, j :: 0 <= i < j < |log| && j - i >= limit.max ==> log[j] - log[i] >= limit.window
  }

  /** What the limiter itself let through and was not given back, per key. */
  function Admissions(limits: string -> Limit, expiration: int, ops: seq<Op>): Store
  {
    if ops == [] then map[]
    else
      var before, op := ops[..|ops| - 1], ops[|ops| - 1];
      var logs := Admissions(limits, expiration, before);
      match op
      case Request(key, now) =>
        if StoreStep(limits, expiration, StoreRun(limits, expiration, before).0, op).1 == [true]
        then logs[key := At(logs, key) + [now]] else logs
      case Release(key) => logs[key := GiveBack(At(logs, key))]
      case Sweep(_) => logs
  }

  /** The limiter's own admissions are the reference's log. */
  lemma {:induction false} AdmitsAsTheLog(limits: string -> Limit, expiration: int, ops: seq<Op>, start: int)
    requires forall key :: limits(key).max >= 1 && limits(key).window <= expiration + 1
    requires InOrder(ops, start)
    ensures Admissions(limits, expiration, ops) == LogRun(limits, ops).0
  {
    if ops != [] {
      var before := ops[..|ops| - 1];
      AdmitsAsTheLog(limits, expiration, before, start);
      assert StoreStep(limits, expiration, StoreRun(limits, expiration, before).0, ops[|ops| - 1]).1 ==
             LogStep(limits, LogRun(limits, before).0, ops[|ops| - 1]).1 by {
        NextAnswerAlike(limits, expiration, ops, start);
      }
    }
  }

  lemma NextAnswerAlike(limits: string -> Limit, expiration: int, ops: seq<Op>, start: int)
    requires forall key :: limits(key).max >= 1 && limits(key).window <= expiration + 1
    requires InOrder(ops, start) && ops != []
    ensures var before := ops[..|ops| - 1];
            StoreStep(limits, expiration, StoreRun(limits, expiration, before).0, ops[|ops| - 1]).1 ==
            LogStep(limits, LogRun(limits, before).0, ops[|ops| - 1]).1
  {
    var before := ops[..|ops| - 1];
    AnswersAsTheLog(limits, expiration, before, start);
    StepAnswersAsTheLog(limits, expiration, StoreRun(limits, expiration, before).0, LogRun(limits, before).0,
                        ops[|ops| - 1], Clock(before, start), Clock(ops, start));
  }

  /**
   In every run of requests, releases and sweeps, any `max + 1` consecutive
   admissions of a key that were not given back span at least its window.
   */
  lemma EveryRunIsSpaced(limits: string -> Limit, expiration: int, ops: seq<Op>, start: int, key: string)
    requires forall key :: limits(key).max >= 1 && limits(key).window <= expiration + 1
    requires InOrder(ops, start)
    ensures Spaced(At(Admissions(limits, expiration, ops), key), limits(key))
  {
    AdmitsAsTheLog(limits, expiration, ops, start);
    LogIsSpaced(limits, ops, start, key);
  }

  lemma {:induction false} LogIsSpaced(limits: string -> Limit, ops: seq<Op>, start: int, key: string)
    requires limits(key).max >= 1 && InOrder(ops, start)
    ensures var log := At(LogRun(limits, ops).0, key);
            Sorted(log) && Spaced(log, limits(key)) && (log != [] ==> log[|log| - 1] <= Clock(ops, start))
  {
    if ops != [] {
      var before, op := ops[..|ops| - 1], ops[|ops| - 1];
      LogIsSpaced(limits, before, start, key);
      var log := At(LogRun(limits, before).0, key);
      if op.Request? && op.key == key && InWindow(log, limits(key).window, op.now) < limits(key).max {
        AdmittedIsSpaced(log, limits(key), op.now);
      }
    }
  }

  lemma AdmittedIsSpaced(log: seq<int>, limit: Limit, now: int)
    requires limit.max >= 1 && Sorted(log) && Spaced(log, limit)
    requires log != [] ==> log[|log| - 1] <= now
    requires InWindow(log, limit.window, now) < limit.max
    ensures Spaced(log + [now], limit) && Sorted(log + [now])
  {
    forall i | 0 <= i <= |log| - limit.max
      ensures now - log[i] >= limit.window
    {
      if now - log[i] < limit.window { WindowFull(log, limit.window, now, i); }
    }
    var more := log + [now];
    forall i, j | 0 <= i < j < |more| && j - i >= limit.max
      ensures more[j] - more[i] >= limit.window
    {
      if j < |log| { assert more[j] == log[j] && more[i] == log[i]; }
    }
  }

  /**
   The bound on the window is exact: past `expiration + 1` a sweep forgets
   admissions that still count, some run is answered differently from the
   reference, and `max + 1` admissions in a row span less than the window.
   */
  lemma SweepForgetsTooEarly(limits: string -> Limit, expiration: int, key: string) returns (ops: seq<Op>)
    requires expiration >= 0 && limits(key).max >= 1 && limits(key).window > expiration + 1
    ensures InOrder(ops, 0)
    ensures StoreRun(limits, expiration, ops).1 != LogRun(limits, ops).1
    ensures !Spaced(At(Admissions(limits, expiration, ops), key), limits(key))
  {
    var limit := limits(key);
    var filled := Filling(limits, expiration, key, limit.max);
    ops := filled + [Sweep(expiration + 1), Request(key, expiration + 1)];
    OneMoreAfterTheSweep(limits, expiration, key, filled);
    var log := At(Admissions(limits, expiration, ops), key);
    assert log[limit.max] - log[0] < limit.window;
  }

  lemma OneMoreAfterTheSweep(limits: string -> Limit, expiration: int, key: string, filled: seq<Op>)
    requires expiration >= 0 && limits(key).max >= 1 && limits(key).window > expiration + 1
    requires InOrder(filled, 0) && Clock(filled, 0) == 0
    requires At(StoreRun(limits, expiration, filled).0, key) == Zeros(limits(key).max)
    requires At(LogRun(limits, filled).0, key) == Zeros(limits(key).max)
    requires At(Admissions(limits, expiration, filled), key) == Zeros(limits(key).max)
    requires |StoreRun(limits, expiration, filled).1| == |LogRun(limits, filled).1|
    ensures var ops := filled + [Sweep(expiration + 1), Request(key, expiration + 1)];
            && InOrder(ops, 0) && StoreRun(limits, expiration, ops).1 != LogRun(limits, ops).1
            && At(Admissions(limits, expiration, ops), key) == Zeros(limits(key).max) + [expiration + 1]
  {
    var limit := limits(key);
    var swept := filled + [Sweep(expiration + 1)];
    var ops := filled + [Sweep(expiration + 1), Request(key, expiration + 1)];
    assert swept[..|swept| - 1] == filled && ops[..|ops| - 1] == swept;
    assert At(StoreRun(limits, expiration, swept).0, key) == [];
    ZerosInWindow(limit.max, limit.window, expiration + 1);
    DifferAtTheEnd(StoreRun(limits, expiration, swept).1, LogRun(limits, swept).1);
  }

  lemma DifferAtTheEnd(served: seq<bool>, counted: seq<bool>)
    requires |served| == |counted|
    ensures served + [true] != counted + [false]
  {
    assert (served + [true])[|served|] != (counted + [false])[|served|];
  }

  /** The first `n` requests of a key, all at once, are all admitted. */
  lemma {:induction false} Filling(limits: string -> Limit, expiration: int, key: string, n: nat) returns (ops: seq<Op>)
    requires n <= limits(key).max && limits(key).window > 0
    ensures InOrder(ops, 0) && Clock(ops, 0) == 0
    ensures At(StoreRun(limits, expiration, ops).0, key) == Zeros(n) == At(LogRun(limits, ops).0, key)
    ensures At(Admissions(limits, expiration, ops), key) == Zeros(n)
    ensures |StoreRun(limits, expiration, ops).1| == |LogRun(limits, ops).1|
  {
    if n == 0 {
      ops := [];
    } else {
      var before := Filling(limits, expiration, key, n - 1);
      ops := before + [Request(key, 0)];
      assert ops[..|ops| - 1] == before;
      ZerosInWindow(n - 1, limits(key).window, 0);
    }
  }

  function Zeros(n: nat): (zs: seq<int>)
    ensures |zs| == n && forall i :: 0 <= i < n ==> zs[i] == 0
  {
    if n == 0 then [] else Zeros(n - 1) + [0]
  }

  lemma ZerosInWindow(n: nat, window: int, now: int)
    requires now < window
    ensures InWindow(Zeros(n), window, now) == n
  {
    if n > 0 { WindowFull(Zeros(n), window, now, 0); }
    WindowWithin(Zeros(n), window, now, 0);
  }

  // ----- What a release undoes -----

  /** The op takes or gives back a slot of the key. */
  predicate Touches(op: Op, key: string)
  {
    (op.Request? || op.Release?) && op.key == key
  }

  ghost predicate LeavesAlone(ops: seq<Op>, key: string)
  {
    forall i :: 0 <= i < |ops| ==> !Touches(ops[i], key)
  }

  /** A run of the reference from given logs. */
  function LogFrom(limits: string -> Limit, logs: Store, ops: seq<Op>): (Store, seq<bool>)
  {
    if ops == [] then (logs, [])
    else
      var (logs', answers) := LogFrom(limits, logs, ops[..|ops| - 1]);
      var (logs'', more) := LogStep(limits, logs', ops[|ops| - 1]);
      (logs'', answers + more)
  }

  lemma {:induction false} LogRunFromNothing(limits: string -> Limit, ops: seq<Op>)
    ensures LogRun(limits, ops) == LogFrom(limits, map[], ops)
  {
    if ops != [] { LogRunFromNothing(limits, ops[..|ops| - 1]); }
  }

  lemma {:induction false} LogFromSplits(limits: string -> Limit, logs: Store, a: seq<Op>, b: seq<Op>)
    ensures var (mid, answers) := LogFrom(limits, logs, a);
            LogFrom(limits, logs, a + b) == (LogFrom(limits, mid, b).0, answers + LogFrom(limits, mid, b).1)
  {
    var (mid, answers) := LogFrom(limits, logs, a);
    if b == [] {
      assert a + b == a && answers + [] == answers;
    } else {
      assert (a + b)[..|a + b| - 1] == a + b[..|b| - 1];
      LogFromSplits(limits, logs, a, b[..|b| - 1]);
      var (logs', more) := LogFrom(limits, mid, b[..|b| - 1]);
      Regroup(answers, more, LogStep(limits, logs', b[|b| - 1]).1);
    }
  }

  lemma Regroup<T>(a: seq<T>, b: seq<T>, c: seq<T>)
    ensures a + b + c == a + (b + c)
  {
  }

  /** The same log for every key but one, whose log on the left has one admission more. */
  ghost predicate OneMore(logs: Store, logs': Store, key: string, now: int)
  {
    && At(logs, key) == At(logs', key) + [now]
    && forall k :: k != key ==> At(logs, k) == At(logs', k)
  }

  ghost predicate SameLogs(logs: Store, logs': Store)
  {
    forall k :: At(logs, k) == At(logs', k)
  }

  lemma OneMoreStep(limits: string -> Limit, logs: Store, logs': Store, op: Op, key: string, now: int)
    requires OneMore(logs, logs', key, now) && !Touches(op, key)
    ensures OneMore(LogStep(limits, logs, op).0, LogStep(limits, logs', op).0, key, now)
    ensures LogStep(limits, logs, op).1 == LogStep(limits, logs', op).1
  {
    forall k | k != key
      ensures At(LogStep(limits, logs, op).0, k) == At(LogStep(limits, logs', op).0, k)
    {
      assert At(logs, k) == At(logs', k);
    }
    if !op.Sweep? { assert At(logs, op.key) == At(logs', op.key); }
  }

  lemma {:induction false} OneMoreStays(limits: string -> Limit, logs: Store, logs': Store, ops: seq<Op>, key: string,
                                        now: int)
    requires OneMore(logs, logs', key, now) && LeavesAlone(ops, key)
    ensures OneMore(LogFrom(limits, logs, ops).0, LogFrom(limits, logs', ops).0, key, now)
    ensures LogFrom(limits, logs, ops).1 == LogFrom(limits, logs', ops).1
  {
    if ops != [] {
      var before := ops[..|ops| - 1];
      OneMoreStays(limits, logs, logs', before, key, now);
      OneMoreStep(limits, LogFrom(limits, logs, before).0, LogFrom(limits, logs', before).0, ops[|ops| - 1], key, now);
    }
  }

  lemma SameLogsStep(limits: string -> Limit, logs: Store, logs': Store, op: Op)
    requires SameLogs(logs, logs')
    ensures SameLogs(LogStep(limits, logs, op).0, LogStep(limits, logs', op).0)
    ensures LogStep(limits, logs, op).1 == LogStep(limits, logs', op).1
  {
    forall k
      ensures At(LogStep(limits, logs, op).0, k) == At(LogStep(limits, logs', op).0, k)
    {
      assert At(logs, k) == At(logs', k);
    }
    if !op.Sweep? { assert At(logs, op.key) == At(logs', op.key); }
  }

  lemma {:induction false} SameLogsAnswerAlike(limits: string -> Limit, logs: Store, logs': Store, ops: seq<Op>)
    requires SameLogs(logs, logs')
    ensures SameLogs(LogFrom(limits, logs, ops).0, LogFrom(limits, logs', ops).0)
    ensures LogFrom(limits, logs, ops).1 == LogFrom(limits, logs', ops).1
  {
    if ops != [] {
      var before := ops[..|ops| - 1];
      SameLogsAnswerAlike(limits, logs, logs', before);
      SameLogsStep(limits, LogFrom(limits, logs, before).0, LogFrom(limits, logs', before).0, ops[|ops| - 1]);
    }
  }

  /** Releasing takes exactly the last admission of its key back. */
  lemma ReleaseTakesBack(limits: string -> Limit, logs: Store, logs': Store, key: string, now: int)
    requires OneMore(logs, logs', key, now)
    ensures SameLogs(LogStep(limits, logs, Release(key)).0, logs')
  {
    var released := LogStep(limits, logs, Release(key)).0;
    assert (At(logs', key) + [now])[..|At(logs', key)|] == At(logs', key);
    assert At(released, key) == At(logs', key);
  }

  /** On the reference: an admitted request and its release answer true once and change no other answer. */
  lemma Undone(limits: string -> Limit, logs: Store, key: string, now: int, mid: seq<Op>, after: seq<Op>)
    requires LeavesAlone(mid, key)
    requires InWindow(At(logs, key), limits(key).window, now) < limits(key).max
    ensures LogFrom(limits, logs, [Request(key, now)] + mid + [Release(key)] + after).1 ==
            [true] + LogFrom(limits, logs, mid + after).1
  {
    var request, release, plain := [Request(key, now)], [Release(key)], LogFrom(limits, logs, mid).0;
    var freed := LogFrom(limits, logs, request + mid + release).0;
    Freed(limits, logs, key, now, mid);
    LogFromSplits(limits, logs, request + mid + release, after);
    SameLogsAnswerAlike(limits, freed, plain, after);
    LogFromSplits(limits, logs, mid, after);
    Regroup([true], LogFrom(limits, logs, mid).1, LogFrom(limits, plain, after).1);
  }

  /** After the request and what lies between, one admission more. */
  lemma Held(limits: string -> Limit, logs: Store, key: string, now: int, mid: seq<Op>)
    requires LeavesAlone(mid, key)
    requires InWindow(At(logs, key), limits(key).window, now) < limits(key).max
    ensures var (held, answers) := LogFrom(limits, logs, [Request(key, now)] + mid);
            OneMore(held, LogFrom(limits, logs, mid).0, key, now) && answers == [true] + LogFrom(limits, logs, mid).1
  {
    var taken := LogStep(limits, logs, Request(key, now)).0;
    OneByOne(limits, logs, Request(key, now));
    LogFromSplits(limits, logs, [Request(key, now)], mid);
    OneMoreStays(limits, taken, logs, mid, key, now);
  }

  /** After the release, the same logs. */
  lemma Freed(limits: string -> Limit, logs: Store, key: string, now: int, mid: seq<Op>)
    requires LeavesAlone(mid, key)
    requires InWindow(At(logs, key), limits(key).window, now) < limits(key).max
    ensures var (freed, answers) := LogFrom(limits, logs, [Request(key, now)] + mid + [Release(key)]);
            SameLogs(freed, LogFrom(limits, logs, mid).0) && answers == [true] + LogFrom(limits, logs, mid).1
  {
    var (held, answers) := LogFrom(limits, logs, [Request(key, now)] + mid);
    Held(limits, logs, key, now, mid);
    LogFromSplits(limits, logs, [Request(key, now)] + mid, [Release(key)]);
    OneByOne(limits, held, Release(key));
    ReleaseTakesBack(limits, held, LogFrom(limits, logs, mid).0, key, now);
    assert answers + [] == answers;
  }

  lemma OneByOne(limits: string -> Limit, logs: Store, op: Op)
    ensures LogFrom(limits, logs, [op]) == LogStep(limits, logs, op)
  {
    assert [op][..0] == [];
    assert [] + LogStep(limits, logs, op).1 == LogStep(limits, logs, op).1;
  }

  lemma {:induction false} OrderSplits(a: seq<Op>, b: seq<Op>, start: int)
    ensures Clock(a + b, start) == Clock(b, Clock(a, start))
    ensures InOrder(a + b, start) <==> InOrder(a, start) && InOrder(b, Clock(a, start))
  {
    if b == [] {
      assert a + b == a;
    } else {
      assert (a + b)[..|a + b| - 1] == a + b[..|b| - 1];
      OrderSplits(a, b[..|b| - 1], start);
    }
  }

  lemma {:induction false} EarlierStart(ops: seq<Op>, start: int, start': int)
    requires InOrder(ops, start) && start' <= start
    ensures InOrder(ops, start') && Clock(ops, start') <= Clock(ops, start)
  {
    if ops != [] { EarlierStart(ops[..|ops| - 1], start, start'); }
  }

  /** Leaving out the two keeps the clock in order. */
  lemma StillInOrder(before: seq<Op>, key: string, now: int, mid: seq<Op>, after: seq<Op>, start: int)
    requires InOrder(before + ([Request(key, now)] + mid + [Release(key)] + after), start)
    ensures InOrder(before, start) && Clock(before, start) <= now && InOrder(before + (mid + after), start)
  {
    var t, request, release := Clock(before, start), [Request(key, now)], [Release(key)];
    OrderSplits(before, request + mid + release + after, start);
    OrderSplits(request + mid + release, after, t);
    OrderSplits(request + mid, release, t);
    OrderSplits(request, mid, t);
    assert request[..0] == [] && release[..0] == [];
    EarlierStart(mid, now, t);
    EarlierStart(after, Clock(mid, now), Clock(mid, t));
    OrderSplits(mid, after, t);
    OrderSplits(before, mid + after, start);
  }

  /**
   In every run of the limiter: an admitted request that is released before its
   key is used again has never been. Every other answer, whatever came in between
   and comes later, is the one the limiter gives without the two.
   */
  lemma ReleasedWasNeverThere(limits: string -> Limit, expiration: int, before: seq<Op>, key: string, now: int,
                              mid: seq<Op>, after: seq<Op>, start: int)
    requires forall key :: limits(key).max >= 1 && limits(key).window <= expiration + 1
    requires LeavesAlone(mid, key)
    requires InOrder(before + ([Request(key, now)] + mid + [Release(key)] + after), start)
    requires StoreStep(limits, expiration, StoreRun(limits, expiration, before).0, Request(key, now)).1 == [true]
    ensures var n := |StoreRun(limits, expiration, before).1|;
            var answers := StoreRun(limits, expiration, before + (mid + after)).1;
            && n <= |answers|
            && StoreRun(limits, expiration, before + ([Request(key, now)] + mid + [Release(key)] + after)).1 ==
               answers[..n] + [true] + answers[n..]
  {
    var whole := [Request(key, now)] + mid + [Release(key)] + after;
    var logs := LogRun(limits, before).0;
    StillInOrder(before, key, now, mid, after, start);
    AnswersAsTheLog(limits, expiration, before, start);
    AnswersAsTheLog(limits, expiration, before + whole, start);
    AnswersAsTheLog(limits, expiration, before + (mid + after), start);
    StepAnswersAsTheLog(limits, expiration, StoreRun(limits, expiration, before).0, logs, Request(key, now),
                        Clock(before, start), now);
    Undone(limits, logs, key, now, mid, after);
    RunSplits(limits, before, whole);
    RunSplits(limits, before, mid + after);
    Inserted(LogRun(limits, before).1, LogFrom(limits, logs, mid + after).1);
  }

  lemma RunSplits(limits: string -> Limit, a: seq<Op>, b: seq<Op>)
    ensures LogRun(limits, a + b).1 == LogRun(limits, a).1 + LogFrom(limits, LogRun(limits, a).0, b).1
  {
    LogRunFromNothing(limits, a);
    LogRunFromNothing(limits, a + b);
    LogFromSplits(limits, map[], a, b);
  }

  lemma Inserted(a: seq<bool>, b: seq<bool>)
    ensures a + ([true] + b) == (a + b)[..|a|] + [true] + (a + b)[|a|..]
  {
    assert (a + b)[..|a|] == a && (a + b)[|a|..] == b;
  }
}
