/**
 Choosing the key of a multi-key channel for a request (model/channel.go). In
 polling mode the channel keeps an index and takes the next enabled key from there,
 going round; the specification is the list of enabled keys, turned to start there.
 */
module KeyPolling {
  import MultiKey

  datatype Mode = Random | Polling | Other

  datatype Pick = NoKeys | NoneEnabled | Picked(key: string, index: nat)

  predicate On(status: map<int, int>, i: int)
  {
    i !in status || status[i] == MultiKey.ENABLED
  }

  /** The enabled indices from `lo` up to `hi`, in order. */
  function EnabledIn(status: map<int, int>, lo: nat, hi: nat): seq<nat>
    decreases hi - lo
  {
    if lo >= hi then [] else (if On(status, lo) then [lo] else []) + EnabledIn(status, lo + 1, hi)
  }

  /** The enabled indices in the order they are met going round from `start`. */
  function Round(status: map<int, int>, n: nat, start: nat): seq<nat>
  {
    EnabledIn(status, start, n) + EnabledIn(status, 0, start)
  }

  /** An index outside the list starts over. */
  function Start(index: int, n: nat): nat
  {
    if index < 0 || index >= n then 0 else index
  }

  class Channel {
    const keys: seq<string>
    const status: map<int, int>
    const mode: Mode
    var pollingIndex: int

    constructor (keys: seq<string>, status: map<int, int>, mode: Mode, pollingIndex: int)
      ensures this.keys == keys && this.status == status && this.mode == mode && this.pollingIndex == pollingIndex
    {
      this.keys, this.status, this.mode, this.pollingIndex := keys, status, mode, pollingIndex;
    }

    /** `roll` is the random number drawn in random mode. */
    method GetNextEnabledKey(roll: nat) returns (pick: Pick)
      modifies this
      ensures var enabled := EnabledIn(status, 0, |keys|);
              var round := Round(status, |keys|, Start(old(pollingIndex), |keys|));
              if keys == [] then pick == NoKeys && pollingIndex == old(pollingIndex)
              else if enabled == [] then pick == NoneEnabled && pollingIndex == old(pollingIndex)
              else if mode == Polling then
                && round != [] && round[0] < |keys| && pick == Picked(keys[round[0]], round[0])
                && pollingIndex == (round[0] + 1) % |keys|
              else
                && pick.Picked? && pick.index < |keys| && pick.key == keys[pick.index]
                && pollingIndex == old(pollingIndex)
                && pick.index == if mode == Random then enabled[roll % |enabled|] else enabled[0]
    {
      if |keys| == 0 { return NoKeys; }
      var enabledIdx := CollectEnabled(status, |keys|);
      if |enabledIdx| == 0 { return NoneEnabled; }
      EnabledInIs(status, 0, |keys|);
      match mode
      case Random =>
        var selected := enabledIdx[roll % |enabledIdx|];
        return Picked(keys[selected], selected);
      case Polling =>
        var start := Start(pollingIndex, |keys|);
        var idx := FindEnabled(status, |keys|, start, enabledIdx[0]);
        pollingIndex := (idx + 1) % |keys|;
        return Picked(keys[idx], idx);
      case Other =>
        return Picked(keys[enabledIdx[0]], enabledIdx[0]);
    }
  }

  method CollectEnabled(status: map<int, int>, n: nat) returns (enabledIdx: seq<nat>)
    ensures enabledIdx == EnabledIn(status, 0, n)
  {
    enabledIdx := [];
    for i := 0 to n
      invariant enabledIdx == EnabledIn(status, 0, i)
    {
      EnabledSplit(status, 0, i, i + 1);
      if On(status, i) { enabledIdx := enabledIdx + [i]; }
    }
  }

  /** Going round from `start` meets an enabled index, the first of the round. */
  method FindEnabled(status: map<int, int>, n: nat, start: nat, ghost known: nat) returns (idx: nat)
    requires start < n && known < n && On(status, known)
    ensures Round(status, n, start) != [] && idx == Round(status, n, start)[0] && idx < n
  {
    ghost var offset := if known >= start then known - start else known + n - start;
    var i := 0;
    while !On(status, Turned(start, i, n))
      invariant 0 <= i <= offset < n && Turned(start, offset, n) == known
      invariant forall j :: 0 <= j < i ==> !On(status, Turned(start, j, n))
      decreases offset - i
    {
      i := i + 1;
    }
    FirstOfRound(status, n, start, i);
    idx := (start + i) % n;
  }

  /** `(start + i) % n` for less than a whole turn. */
  function Turned(start: nat, i: nat, n: nat): (idx: nat)
    requires start < n && i < n
    ensures idx == (start + i) % n
  {
    TurnIs(start, i, n);
    if start + i < n then start + i else start + i - n
  }

  lemma TurnIs(start: nat, i: nat, n: nat)
    requires start < n && i < n
    ensures (start + i) % n == if start + i < n then start + i else start + i - n
  {
    QuotientIs(start + i, n, if start + i < n then 0 else 1);
  }

  lemma QuotientIs(a: nat, n: nat, q: nat)
    requires n > 0 && q * n <= a < q * n + n
    ensures a % n == a - q * n
  {
    var d := a / n;
    assert a == d * n + a % n;
    Multiples(d, q, n);
    Multiples(q, d, n);
  }

  lemma {:induction false} Multiples(a: int, b: int, n: nat)
    ensures a < b ==> a * n + n <= b * n
    decreases b - a
  {
    if a < b {
      assert b * n == (b - 1) * n + n;
      Multiples(a, b - 1, n);
    }
  }

  lemma FirstOfRound(status: map<int, int>, n: nat, start: nat, i: nat)
    requires start < n && i < n && On(status, Turned(start, i, n))
    requires forall j :: 0 <= j < i ==> !On(status, Turned(start, j, n))
    ensures Round(status, n, start) != [] && Round(status, n, start)[0] == Turned(start, i, n) < n
  {
    if start + i < n {
      forall k | start <= k < start + i
        ensures !On(status, k)
      {
        assert Turned(start, k - start, n) == k;
      }
      FirstIn(status, start, n, start + i);
    } else {
      forall k | start <= k < n
        ensures !On(status, k)
      {
        assert Turned(start, k - start, n) == k;
      }
      forall k | 0 <= k < start + i - n
        ensures !On(status, k)
      {
        assert Turned(start, k + n - start, n) == k;
      }
      NoneIn(status, start, n);
      FirstIn(status, 0, start, start + i - n);
    }
  }

  lemma {:induction false} NoneIn(status: map<int, int>, lo: nat, hi: nat)
    requires forall k :: lo <= k < hi ==> !On(status, k)
    ensures EnabledIn(status, lo, hi) == []
    decreases hi - lo
  {
    if lo < hi { NoneIn(status, lo + 1, hi); }
  }

  lemma {:induction false} FirstIn(status: map<int, int>, lo: nat, hi: nat, k: nat)
    requires lo <= k < hi && On(status, k) && forall j :: lo <= j < k ==> !On(status, j)
    ensures EnabledIn(status, lo, hi) == [k] + EnabledIn(status, k + 1, hi)
    decreases hi - lo
  {
    if lo < k { FirstIn(status, lo + 1, hi, k); }
  }

  lemma {:induction false} EnabledSplit(status: map<int, int>, lo: nat, mid: nat, hi: nat)
    requires lo <= mid <= hi
    ensures EnabledIn(status, lo, hi) == EnabledIn(status, lo, mid) + EnabledIn(status, mid, hi)
    decreases hi - lo
  {
    if lo < mid { EnabledSplit(status, lo + 1, mid, hi); }
  }

  /** `e` is exactly the enabled indices of a stretch, ascending. */
  ghost predicate Lists(status: map<int, int>, e: seq<nat>, lo: nat, hi: nat)
  {
    && (forall k :: 0 <= k < |e| ==> lo <= e[k] < hi && On(status, e[k]))
    && (forall j, k :: 0 <= j < k < |e| ==> e[j] < e[k])
    && (forall i :: lo <= i < hi && On(status, i) ==> i in e)
  }

  lemma {:induction false} EnabledInIs(status: map<int, int>, lo: nat, hi: nat)
    ensures Lists(status, EnabledIn(status, lo, hi), lo, hi)
    decreases hi - lo
  {
    if lo < hi {
      EnabledInIs(status, lo + 1, hi);
      OneIndexMore(status, EnabledIn(status, lo + 1, hi), lo, hi);
    }
  }

  lemma OneIndexMore(status: map<int, int>, rest: seq<nat>, lo: nat, hi: nat)
    requires lo < hi && Lists(status, rest, lo + 1, hi)
    ensures Lists(status, (if On(status, lo) then [lo] else []) + rest, lo, hi)
  {
    if On(status, lo) {
      LoFirst(status, rest, [lo] + rest, lo, hi);
    } else {
      assert [] + rest == rest;
    }
  }

  lemma LoFirst(status: map<int, int>, rest: seq<nat>, e: seq<nat>, lo: nat, hi: nat)
    requires lo < hi && Lists(status, rest, lo + 1, hi) && On(status, lo)
    requires |e| == |rest| + 1 && e[0] == lo && forall k :: 0 < k < |e| ==> e[k] == rest[k - 1]
    ensures Lists(status, e, lo, hi)
  {
    forall i | lo <= i < hi && On(status, i)
      ensures i in e
    {
      if i == lo {
        assert e[0] == i;
      } else {
        var k :| 0 <= k < |rest| && rest[k] == i;
        assert e[k + 1] == i;
      }
    }
  }

  // ----- Many picks in a row -----

  /** The index after `p`, going round. */
  function After(p: nat, n: nat): nat
  {
    if p + 1 == n then 0 else p + 1
  }

  lemma AfterIs(p: nat, n: nat)
    requires p < n
    ensures After(p, n) == (p + 1) % n < n
  {
    QuotientIs(p + 1, n, if p + 1 == n then 1 else 0);
  }

  /** The indices of `m` picks in a row. */
  function Picks(status: map<int, int>, n: nat, start: nat, m: nat): seq<nat>
    decreases m
  {
    var round := Round(status, n, start);
    if m == 0 || round == [] then [] else [round[0]] + Picks(status, n, After(round[0], n), m - 1)
  }

  /** A pick turns the round by one. */
  lemma RoundTurns(status: map<int, int>, n: nat, start: nat)
    requires start < n && Round(status, n, start) != []
    ensures var round := Round(status, n, start);
            round[0] < n && Round(status, n, After(round[0], n)) == round[1..] + [round[0]]
  {
    var upper, lower := EnabledIn(status, start, n), EnabledIn(status, 0, start);
    EnabledInIs(status, start, n);
    EnabledInIs(status, 0, start);
    if upper != [] {
      TurnsInUpper(status, n, start, upper[0]);
    } else {
      TurnsInLower(status, n, start, lower[0]);
    }
  }

  lemma {:induction false} FirstSplits(status: map<int, int>, lo: nat, hi: nat)
    requires EnabledIn(status, lo, hi) != []
    ensures var p := EnabledIn(status, lo, hi)[0];
            && lo <= p < hi && EnabledIn(status, lo, hi) == [p] + EnabledIn(status, p + 1, hi)
            && EnabledIn(status, lo, p + 1) == [p]
    decreases hi - lo
  {
    if !On(status, lo) { FirstSplits(status, lo + 1, hi); }
  }

  lemma TurnsInUpper(status: map<int, int>, n: nat, start: nat, p: nat)
    requires start < n && EnabledIn(status, start, n) != [] && p == EnabledIn(status, start, n)[0]
    ensures var round := Round(status, n, start);
            round[0] == p < n && Round(status, n, After(p, n)) == round[1..] + [p]
  {
    var lower, rest := EnabledIn(status, 0, start), EnabledIn(status, p + 1, n);
    FirstSplits(status, start, n);
    EnabledSplit(status, 0, start, p + 1);
    RoundAfterUpper(status, n, p, lower, rest);
    UpperShape(Round(status, n, start), Round(status, n, After(p, n)), p, rest, lower);
  }

  lemma RoundAfterUpper(status: map<int, int>, n: nat, p: nat, lower: seq<nat>, rest: seq<nat>)
    requires p < n && EnabledIn(status, 0, p + 1) == lower + [p] && EnabledIn(status, p + 1, n) == rest
    ensures Round(status, n, After(p, n)) == rest + (lower + [p])
  {
    if p + 1 == n {
      assert rest == [] && EnabledIn(status, 0, 0) == [];
    }
  }

  lemma UpperShape<T>(round: seq<T>, next: seq<T>, p: T, rest: seq<T>, lower: seq<T>)
    requires round == [p] + rest + lower && next == rest + (lower + [p])
    ensures round[0] == p && next == round[1..] + [p]
  {
  }

  lemma TurnsInLower(status: map<int, int>, n: nat, start: nat, p: nat)
    requires start < n && EnabledIn(status, start, n) == []
    requires EnabledIn(status, 0, start) != [] && p == EnabledIn(status, 0, start)[0]
    ensures var round := Round(status, n, start);
            round[0] == p < n && Round(status, n, After(p, n)) == round[1..] + [p]
  {
    FirstSplits(status, 0, start);
    EnabledSplit(status, p + 1, start, n);
    LowerShape(Round(status, n, start), Round(status, n, After(p, n)), p, EnabledIn(status, p + 1, start));
  }

  lemma LowerShape<T>(round: seq<T>, next: seq<T>, p: T, rest: seq<T>)
    requires round == [] + ([p] + rest) && next == rest + [] + [p]
    ensures round[0] == p && next == round[1..] + [p]
  {
  }

  lemma {:induction false} PicksFollowTheRound(status: map<int, int>, n: nat, start: nat, m: nat)
    requires start < n && m <= |Round(status, n, start)|
    ensures Picks(status, n, start, m) == Round(status, n, start)[..m]
    decreases m
  {
    if m > 0 {
      var round := Round(status, n, start);
      RoundTurns(status, n, start);
      var next := After(round[0], n);
      var turned := Round(status, n, next);
      PicksFollowTheRound(status, n, next, m - 1);
      TakesFirst(round, turned, m);
    }
  }

  lemma TakesFirst<T>(round: seq<T>, turned: seq<T>, m: nat)
    requires 0 < m <= |round| && turned == round[1..] + [round[0]]
    ensures [round[0]] + turned[..m - 1] == round[..m]
  {
  }

  /** How far an index is ahead of the start, going round. */
  function Ahead(start: nat, i: nat, n: nat): int
  {
    if i >= start then i - start else i + n - start
  }

  /** `r` is exactly the enabled indices, each once, in the order they are met going round from `start`. */
  ghost predicate TakesTurns(status: map<int, int>, r: seq<nat>, n: nat, start: nat)
  {
    && (forall k :: 0 <= k < |r| ==> r[k] < n && On(status, r[k]))
    && (forall j, k :: 0 <= j < k < |r| ==> Ahead(start, r[j], n) < Ahead(start, r[k], n))
    && (forall i :: 0 <= i < n && On(status, i) ==> i in r)
  }

  /**
   With the statuses fixed, as many picks in a row as there are enabled keys, from
   any polling index, return each enabled key exactly once, in cyclic order.
   */
  lemma EachEnabledKeyOnce(status: map<int, int>, n: nat, start: nat)
    requires start < n
    ensures var m := |EnabledIn(status, 0, n)|;
            |Picks(status, n, start, m)| == m && TakesTurns(status, Picks(status, n, start, m), n, start)
  {
    var round := Round(status, n, start);
    assert |round| == |EnabledIn(status, 0, n)| by { EnabledSplit(status, 0, start, n); }
    assert Picks(status, n, start, |round|) == round by {
      PicksFollowTheRound(status, n, start, |round|);
      assert round[..|round|] == round;
    }
    RoundIs(status, n, start);
  }

  lemma RoundIs(status: map<int, int>, n: nat, start: nat)
    requires start < n
    ensures TakesTurns(status, Round(status, n, start), n, start)
  {
    EnabledInIs(status, start, n);
    EnabledInIs(status, 0, start);
    UpperThenLower(status, EnabledIn(status, start, n), EnabledIn(status, 0, start), n, start);
  }

  lemma UpperThenLower(status: map<int, int>, upper: seq<nat>, lower: seq<nat>, n: nat, start: nat)
    requires start < n && Lists(status, upper, start, n) && Lists(status, lower, 0, start)
    ensures TakesTurns(status, upper + lower, n, start)
  {
    var r := upper + lower;
    assert forall k :: 0 <= k < |r| ==> r[k] == if k < |upper| then upper[k] else lower[k - |upper|];
  }

  /** After the last pick of such a round the next one is the same: the keys take turns for ever. */
  lemma TheRoundComesBack(status: map<int, int>, n: nat, start: nat)
    requires start < n && Round(status, n, start) != []
    ensures var round := Round(status, n, start); Round(status, n, After(round[|round| - 1], n)) == round
  {
    var round := Round(status, n, start);
    RoundAfter(status, n, start, |round|);
    WholeTurn(round);
  }

  lemma WholeTurn<T>(round: seq<T>)
    ensures round[|round|..] + round[..|round|] == round
  {
  }

  lemma {:induction false} RoundAfter(status: map<int, int>, n: nat, start: nat, m: nat)
    requires start < n && 0 < m <= |Round(status, n, start)|
    ensures var round := Round(status, n, start);
            Round(status, n, After(round[m - 1], n)) == round[m..] + round[..m]
    decreases m
  {
    var round := Round(status, n, start);
    RoundTurns(status, n, start);
    if m > 1 {
      var next := After(round[0], n);
      var turned := Round(status, n, next);
      assert turned[m - 2] == round[m - 1];
      RoundAfter(status, n, next, m - 1);
      TurnedOnce(round, turned, m);
    } else {
      assert round[..1] == [round[0]];
    }
  }

  lemma TurnedOnce<T>(round: seq<T>, turned: seq<T>, m: nat)
    requires 0 < m <= |round| && turned == round[1..] + [round[0]]
    ensures turned[m - 1..] + turned[..m - 1] == round[m..] + round[..m]
  {
    var first, rest := round[0], round[1..];
    assert round == [first] + rest;
    assert turned[m - 1..] == rest[m - 1..] + [first];
    assert turned[..m - 1] == rest[..m - 1];
    assert round[m..] == rest[m - 1..];
    assert round[..m] == [first] + rest[..m - 1];
  }

  /** What was picked so far, followed by the picks still to come, is all of them. */
  ghost predicate OnCourse(picks: seq<nat>, status: map<int, int>, n: nat, start: nat, m: nat, all: seq<nat>)
  {
    picks + Picks(status, n, start, m) == all
  }

  /** Many requests on one channel in polling mode pick as specified. */
  method Serve(channel: Channel, m: nat) returns (picks: seq<nat>)
    requires channel.mode == Polling && channel.keys != [] && EnabledIn(channel.status, 0, |channel.keys|) != []
    modifies channel
    ensures picks == Picks(channel.status, |channel.keys|, Start(old(channel.pollingIndex), |channel.keys|), m)
  {
    var n := |channel.keys|;
    picks := [];
    ghost var all := Picks(channel.status, n, Start(channel.pollingIndex, n), m);
    for i := 0 to m
      invariant OnCourse(picks, channel.status, n, Start(channel.pollingIndex, n), m - i, all)
    {
      ghost var start := Start(channel.pollingIndex, n);
      var index := Poll(channel);
      OnePick(channel.status, n, start, m - i, picks, all);
      picks := picks + [index];
    }
  }

  method Poll(channel: Channel) returns (index: nat)
    requires channel.mode == Polling && channel.keys != [] && EnabledIn(channel.status, 0, |channel.keys|) != []
    modifies channel
    ensures var n := |channel.keys|; var round := Round(channel.status, n, Start(old(channel.pollingIndex), n));
            round != [] && index == round[0] < n && channel.pollingIndex == After(index, n) < n
  {
    var pick := channel.GetNextEnabledKey(0);
    index := pick.index;
    AfterIs(index, |channel.keys|);
  }

  lemma OnePick(status: map<int, int>, n: nat, start: nat, m: nat, picks: seq<nat>, all: seq<nat>)
    requires m > 0 && Round(status, n, start) != [] && OnCourse(picks, status, n, start, m, all)
    ensures var first := Round(status, n, start)[0]; OnCourse(picks + [first], status, n, After(first, n), m - 1, all)
  {
    var first := Round(status, n, start)[0];
    Regroup(picks, [first], Picks(status, n, After(first, n), m - 1));
  }

  lemma Regroup<T>(a: seq<T>, b: seq<T>, c: seq<T>)
    ensures a + (b + c) == a + b + c
  {
  }
}
