/**
 The verification-code store (common/verification.go): codes registered per
 purpose and key, valid for ten minutes, with expired entries evicted whenever
 a registration finds the map too large. Times are in nanoseconds.
 */
module Verification {

  const EMAIL_VERIFICATION := "v"
  const PASSWORD_RESET := "r"
  const MAP_MAX_SIZE := 10
  const VALID_MINUTES := 10
  const SECOND := 1_000_000_000

  datatype Value = Value(code: string, time: int)

  type Codes = map<string, Value>

  /** `int(now.Sub(t).Seconds()) >= VerificationValidMinutes*60`, for a clock that does not go back. */
  predicate Expired(v: Value, now: int)
  {
    (now - v.time) / SECOND >= VALID_MINUTES * 60
  }

  function Kept(codes: Codes, now: int): Codes
  {
    map k | k in codes && !Expired(codes[k], now) :: codes[k]
  }

  function Registered(codes: Codes, key: string, code: string, purpose: string, now: int): Codes
  {
    var added := codes[purpose + key := Value(code, now)];
    if |added| > MAP_MAX_SIZE then Kept(added, now) else added
  }

  predicate Verifies(codes: Codes, key: string, code: string, purpose: string, now: int)
  {
    purpose + key in codes && !Expired(codes[purpose + key], now) && code == codes[purpose + key].code
  }

  class Store {
    var codes: Codes

    constructor ()
      ensures codes == map[]
    {
      codes := map[];
    }

    method Register(key: string, code: string, purpose: string, now: int)
      modifies this
      ensures codes == Registered(old(codes), key, code, purpose, now)
    {
      codes := codes[purpose + key := Value(code, now)];
      if |codes| > MAP_MAX_SIZE {
        RemoveExpiredPairs(now);
      }
    }

    method Verify(key: string, code: string, purpose: string, now: int) returns (ok: bool)
      ensures ok == Verifies(codes, key, code, purpose, now)
    {
      if purpose + key !in codes || (now - codes[purpose + key].time) / SECOND >= VALID_MINUTES * 60 {
        return false;
      }
      return code == codes[purpose + key].code;
    }

    method Delete(key: string, purpose: string)
      modifies this
      ensures codes == old(codes) - {purpose + key}
    {
      codes := codes - {purpose + key};
    }

    method RemoveExpiredPairs(now: int)
      modifies this
      ensures codes == Kept(old(codes), now)
    {
      var pending := codes.Keys;
      while pending != {}
        invariant pending <= codes.Keys <= old(codes).Keys
        invariant forall k :: k in old(codes) && (k in pending || !Expired(old(codes)[k], now)) ==> k in codes
        invariant forall k :: k in codes ==> codes[k] == old(codes)[k] && (k in pending || !Expired(codes[k], now))
      {
        var k :| k in pending;
        if (now - codes[k].time) / SECOND >= VALID_MINUTES * 60 {
          codes := codes - {k};
        }
        pending := pending - {k};
      }
    }
  }

  // ----- Whole runs against the history of registrations -----

  datatype Event =
    | Registration(key: string, code: string, purpose: string, now: int)
    | Deletion(key: string, purpose: string)

  /** The newest registration for this purpose and key not followed by a deletion of it. */
  function Latest(history: seq<Event>, key: string, purpose: string): (latest: seq<Value>)
    ensures |latest| <= 1
  {
    if history == [] then []
    else
      var e := history[|history| - 1];
      if e.key != key || e.purpose != purpose then Latest(history[..|history| - 1], key, purpose)
      else if e.Registration? then [Value(e.code, e.now)]
      else []
  }

  function Run(history: seq<Event>): Codes
  {
    if history == [] then map[]
    else
      var codes := Run(history[..|history| - 1]);
      match history[|history| - 1]
      case Registration(key, code, purpose, now) => Registered(codes, key, code, purpose, now)
      case Deletion(key, purpose) => codes - {purpose + key}
  }

  ghost predicate Purpose(p: string)
  {
    p == EMAIL_VERIFICATION || p == PASSWORD_RESET
  }

  ghost predicate InOrder(history: seq<Event>, now: int)
  {
    && (forall i :: 0 <= i < |history| ==> Purpose(history[i].purpose))
    && (forall i :: 0 <= i < |history| && history[i].Registration? ==> history[i].now <= now)
    && (forall i, j :: 0 <= i < j < |history| && history[i].Registration? && history[j].Registration? ==>
          history[i].now <= history[j].now)
  }

  /**
   Eviction is never observable: after every run a code verifies exactly when
   it is the latest undeleted registration of its own purpose and key and less
   than ten minutes have passed.
   */
  lemma VerifiesLatest(history: seq<Event>, key: string, code: string, purpose: string, now: int)
    requires InOrder(history, now) && Purpose(purpose)
    ensures Verifies(Run(history), key, code, purpose, now) <==>
            exists v :: v in Latest(history, key, purpose) && v.code == code && now - v.time < 600 * SECOND
  {
    HoldsLatest(history, key, purpose, now);
    var latest := Latest(history, key, purpose);
    if latest != [] {
      assert latest == [latest[0]];
      assert Expired(latest[0], now) <==> now - latest[0].time >= 600 * SECOND;
    }
  }

  /** What the store holds under a combined key is the latest registration, unless that has expired. */
  lemma {:induction false} HoldsLatest(history: seq<Event>, key: string, purpose: string, now: int)
    requires InOrder(history, now) && Purpose(purpose)
    ensures var codes, latest := Run(history), Latest(history, key, purpose);
            && (purpose + key in codes ==> latest == [codes[purpose + key]])
            && (purpose + key !in codes && latest != [] ==> Expired(latest[0], now))
  {
    if history != [] {
      var before := history[..|history| - 1];
      var e := history[|history| - 1];
      SameSlot(e.purpose, e.key, purpose, key);
      if e.Registration? {
        HoldsLatest(before, key, purpose, e.now);
        StaysExpired(history, key, purpose, e.now, now);
      } else {
        HoldsLatest(before, key, purpose, now);
      }
    }
  }

  lemma StaysExpired(history: seq<Event>, key: string, purpose: string, earlier: int, now: int)
    requires earlier <= now
    ensures forall v :: v in Latest(history, key, purpose) && Expired(v, earlier) ==> Expired(v, now)
  {
  }

  /** The two purposes cannot collide under the concatenated key. */
  lemma SameSlot(p: string, k: string, purpose: string, key: string)
    requires Purpose(p) && Purpose(purpose)
    ensures p + k == purpose + key <==> p == purpose && k == key
  {
    if p + k == purpose + key {
      assert (p + k)[0] == (purpose + key)[0];
      assert k == (p + k)[1..] == (purpose + key)[1..] == key;
    }
  }

  // ----- What eviction is for -----

  /** After a registration the store holds at most ten codes, or none that is ten minutes old. */
  lemma StaysSmall(history: seq<Event>, slot: string)
    requires history != [] && history[|history| - 1].Registration?
    ensures var codes, now := Run(history), history[|history| - 1].now;
            slot in codes && |codes| > 10 ==> now - codes[slot].time < 600 * SECOND
  {
  }

  /** Evicting drops exactly the codes that could no longer be verified anyway. */
  lemma EvictsOnlyTheDead(codes: Codes, key: string, code: string, purpose: string, now: int, later: int)
    requires now <= later
    ensures Verifies(Kept(codes, now), key, code, purpose, later) <==> Verifies(codes, key, code, purpose, later)
    ensures purpose + key in Kept(codes, now) <==>
            purpose + key in codes && now - codes[purpose + key].time < 600 * SECOND
  {
  }
}
