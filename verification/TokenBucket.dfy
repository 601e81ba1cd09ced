/**
 The compute bridge's token bucket (controller/compute_bridge.go), over exact
 real seconds: `take` refills by the time since the last call, spends a token if
 there is one, and otherwise tells the caller how long to wait.
 */
module TokenBucket {
  import opened Basics
  import opened Text

  const DEFAULT_RATE := 50.0
  const DEFAULT_BURST := 100.0

  datatype Bucket = Bucket(rate: real, burst: real, tokens: real, last: Option<real>)

  function Min(x: real, y: real): real
  {
    if x <= y then x else y
  }

  function New(rate: real, burst: real): Bucket
  {
    Bucket(rate, burst, burst, None)
  }

  /** What the time since the last call is worth. */
  function Earned(b: Bucket, now: real): real
  {
    if b.last.Some? then b.rate * (now - b.last.value) else 0.0
  }

  function Refilled(b: Bucket, now: real): real
  {
    if b.last.Some? then Min(b.burst, b.tokens + Earned(b, now)) else b.tokens
  }

  predicate Grants(b: Bucket, now: real)
  {
    Refilled(b, now) >= 1.0
  }

  function After(b: Bucket, now: real): Bucket
  {
    b.(tokens := Refilled(b, now) - (if Grants(b, now) then 1.0 else 0.0), last := Some(now))
  }

  function Wait(b: Bucket, now: real): real
    requires b.rate > 0.0
  {
    if Grants(b, now) then 0.0 else (1.0 - Refilled(b, now)) / b.rate
  }

  class RateLimiter {
    const rate: real
    const burst: real
    var tokens: real
    var last: Option<real>

    ghost function State(): Bucket
      reads this
    {
      Bucket(rate, burst, tokens, last)
    }

    constructor (rate: real, burst: real)
      ensures State() == New(rate, burst)
    {
      this.rate, this.burst, tokens, last := rate, burst, burst, None;
    }

    method Take(now: real) returns (wait: real)
      requires rate > 0.0
      modifies this
      ensures State() == After(old(State()), now)
      ensures wait == Wait(old(State()), now)
      ensures wait == 0.0 <==> Grants(old(State()), now)
    {
      if last.Some? {
        tokens := Min(burst, tokens + rate * (now - last.value));
      }
      last := Some(now);
      if tokens >= 1.0 {
        tokens := tokens - 1.0;
        return 0.0;
      }
      PositiveQuotient(1.0 - tokens, rate);
      return (1.0 - tokens) / rate;
    }
  }

  lemma PositiveQuotient(x: real, y: real)
    requires x > 0.0 && y > 0.0
    ensures x / y > 0.0
  {
  }

  // ----- Whole runs -----

  function Run(b: Bucket, calls: seq<real>): Bucket
  {
    if calls == [] then b else After(Run(b, calls[..|calls| - 1]), calls[|calls| - 1])
  }

  /** How many of the calls spend a token. */
  function Spent(b: Bucket, calls: seq<real>): nat
  {
    if calls == [] then 0
    else
      var before := calls[..|calls| - 1];
      Spent(b, before) + if Grants(Run(b, before), calls[|calls| - 1]) then 1 else 0
  }

  /**
   In any stretch of a run that ends with a spent token, at most
   `burst + rate * elapsed` tokens are spent, `elapsed` being the time between
   its first and last calls. The calls' times may be in any order.
   */
  lemma SpendingIsBounded(rate: real, burst: real, earlier: seq<real>, stretch: seq<real>)
    requires stretch != []
    requires Grants(Run(Run(New(rate, burst), earlier), stretch[..|stretch| - 1]), stretch[|stretch| - 1])
    ensures Spent(Run(New(rate, burst), earlier), stretch) as real <=
            burst + rate * (stretch[|stretch| - 1] - stretch[0])
  {
    RunShape(New(rate, burst), earlier);
    SpendingFrom(Run(New(rate, burst), earlier), stretch, rate, burst);
  }

  lemma SpendingFrom(b: Bucket, stretch: seq<real>, rate: real, burst: real)
    requires b.rate == rate && b.burst == burst && b.tokens <= burst
    requires stretch != [] && Grants(Run(b, stretch[..|stretch| - 1]), stretch[|stretch| - 1])
    ensures Spent(b, stretch) as real <= burst + rate * (stretch[|stretch| - 1] - stretch[0])
  {
    var earned := Total(Gaps(b, stretch)[1..]);
    assert earned == rate * (stretch[|stretch| - 1] - stretch[0]) by { GapsAddUp(b, stretch); }
    assert Spent(b, stretch) as real <= burst + earned by { StretchIsBounded(b, stretch); }
  }

  lemma StretchIsBounded(b: Bucket, stretch: seq<real>)
    requires stretch != [] && b.tokens <= b.burst
    requires Grants(Run(b, stretch[..|stretch| - 1]), stretch[|stretch| - 1])
    ensures Spent(b, stretch) as real <= b.burst + Total(Gaps(b, stretch)[1..])
  {
    var before, gaps, p := stretch[..|stretch| - 1], Gaps(b, stretch), Pot(b.tokens, 0);
    SameRun(b, stretch);
    SameRun(b, before);
    OneMore(b, stretch);
    assert gaps[..|gaps| - 1] == Gaps(b, before);
    assert FillAll(p, b.burst, gaps).tokens >= 0.0 by { Bounded(p, b.burst, gaps); }
    Bounded(p, b.burst, gaps);
  }

  lemma OneMore(b: Bucket, calls: seq<real>)
    requires calls != [] && Grants(Run(b, calls[..|calls| - 1]), calls[|calls| - 1])
    ensures Spent(b, calls) == Spent(b, calls[..|calls| - 1]) + 1
  {
  }

  lemma {:induction false} RunShape(b: Bucket, calls: seq<real>)
    requires b.tokens <= b.burst
    ensures var after := Run(b, calls);
            && after.rate == b.rate && after.burst == b.burst && after.tokens <= b.burst
            && after.last == if calls == [] then b.last else Some(calls[|calls| - 1])
  {
    if calls != [] { RunShape(b, calls[..|calls| - 1]); }
  }

  /** The same run told by how many tokens each gap between calls earns. */
  datatype Pot = Pot(tokens: real, spent: nat)

  function Fill(p: Pot, burst: real, gap: real): Pot
  {
    var tokens := Min(burst, p.tokens + gap);
    if tokens >= 1.0 then Pot(tokens - 1.0, p.spent + 1) else Pot(tokens, p.spent)
  }

  function FillAll(p: Pot, burst: real, gaps: seq<real>): Pot
  {
    if gaps == [] then p else Fill(FillAll(p, burst, gaps[..|gaps| - 1]), burst, gaps[|gaps| - 1])
  }

  function Total(gaps: seq<real>): real
  {
    if gaps == [] then 0.0 else Total(gaps[..|gaps| - 1]) + gaps[|gaps| - 1]
  }

  function Gap(b: Bucket, calls: seq<real>): real
    requires calls != []
  {
    if |calls| > 1 then b.rate * (calls[|calls| - 1] - calls[|calls| - 2])
    else if b.last.Some? then b.rate * (calls[0] - b.last.value)
    else 0.0
  }

  function Gaps(b: Bucket, calls: seq<real>): (gaps: seq<real>)
    ensures |gaps| == |calls|
  {
    if calls == [] then [] else Gaps(b, calls[..|calls| - 1]) + [Gap(b, calls)]
  }

  lemma {:induction false} SameRun(b: Bucket, calls: seq<real>)
    requires b.tokens <= b.burst
    ensures FillAll(Pot(b.tokens, 0), b.burst, Gaps(b, calls)) == Pot(Run(b, calls).tokens, Spent(b, calls))
  {
    if calls != [] {
      var before := calls[..|calls| - 1];
      SameRun(b, before);
      RunShape(b, before);
      assert Gaps(b, calls)[..|calls| - 1] == Gaps(b, before);
      SameCall(Run(b, before), calls[|calls| - 1], b.burst, Gap(b, calls), Spent(b, before));
    }
  }

  lemma RefilledBy(b: Bucket, now: real, gap: real)
    requires b.tokens <= b.burst && gap == Earned(b, now)
    ensures Refilled(b, now) == Min(b.burst, b.tokens + gap)
  {
    if b.last.None? { assert b.tokens + gap == b.tokens; }
  }

  lemma SameCall(b: Bucket, now: real, burst: real, gap: real, spent: nat)
    requires b.burst == burst && b.tokens <= burst
    requires gap == Earned(b, now)
    ensures Fill(Pot(b.tokens, spent), burst, gap) ==
            Pot(After(b, now).tokens, spent + if Grants(b, now) then 1 else 0)
  {
    RefilledBy(b, now, gap);
  }

  /** All gaps but the first add up to the refill over the whole stretch. */
  lemma {:induction false} GapsAddUp(b: Bucket, calls: seq<real>)
    requires calls != []
    ensures Total(Gaps(b, calls)[1..]) == b.rate * (calls[|calls| - 1] - calls[0])
  {
    var before := calls[..|calls| - 1];
    var gaps := Gaps(b, calls);
    if before != [] {
      GapsAddUp(b, before);
      assert gaps[1..][..|gaps| - 2] == Gaps(b, before)[1..];
      Distribute(b.rate, before[|before| - 1] - calls[0], calls[|calls| - 1] - before[|before| - 1]);
    }
  }

  /** What is left after a stretch is at most the burst, plus the refill, minus what was spent. */
  lemma {:induction false} Bounded(p: Pot, burst: real, gaps: seq<real>)
    requires gaps != []
    ensures var q := FillAll(p, burst, gaps);
            q.tokens + (q.spent - p.spent) as real <= burst + Total(gaps[1..])
    ensures FillAll(p, burst, gaps).tokens >= 0.0 ||
            FillAll(p, burst, gaps).spent == FillAll(p, burst, gaps[..|gaps| - 1]).spent
  {
    var before := gaps[..|gaps| - 1];
    if before != [] {
      Bounded(p, burst, before);
      assert gaps[1..][..|gaps| - 2] == before[1..];
    }
  }

  lemma Distribute(r: real, x: real, y: real)
    ensures r * (x + y) == r * x + r * y
  {
  }

  /**
   A refused caller is granted exactly from the announced time on, if nobody
   else calls in between; so waiting out the delay, or any whole number of
   seconds at least as long, is enough and nothing shorter is.
   */
  lemma RetryAfterIsExact(b: Bucket, now: real, later: real)
    requires b.rate > 0.0 && b.burst >= 1.0 && !Grants(b, now)
    ensures Grants(After(b, now), later) <==> later >= now + Wait(b, now)
  {
    var missing := 1.0 - Refilled(b, now);
    var elapsed := later - now;
    QuotientBound(missing, b.rate, elapsed);
    var a := After(b, now);
    assert a.last == Some(now) && a.tokens == Refilled(b, now) && a.burst == b.burst;
    Commutes(b.rate, elapsed);
    assert Earned(a, later) == b.rate * elapsed;
    assert Grants(a, later) <==> a.tokens + Earned(a, later) >= 1.0;
  }

  lemma Commutes(x: real, y: real)
    ensures x * y == y * x
  {
  }

  lemma QuotientBound(x: real, y: real, z: real)
    requires y > 0.0
    ensures z >= x / y <==> z * y >= x
  {
    assert x / y * y == x;
    if z >= x / y {
      assert (z - x / y) * y >= 0.0;
    } else {
      assert (x / y - z) * y > 0.0;
    }
  }

  /** The whole-second header is at least the delay. */
  lemma CeilingIsEnough(b: Bucket, now: real, seconds: int)
    requires b.rate > 0.0 && b.burst >= 1.0 && !Grants(b, now)
    requires seconds as real >= Wait(b, now)
    ensures Grants(After(b, now), now + seconds as real)
  {
    RetryAfterIsExact(b, now, now + seconds as real);
  }

  // ----- The setting -----

  datatype Float = NaN | Inf | NegInf | Finite(r: real)

  predicate AtMostZero(f: Float)
  {
    f.NegInf? || (f.Finite? && f.r <= 0.0)
  }

  predicate BelowOne(f: Float)
  {
    f.NegInf? || (f.Finite? && f.r < 1.0)
  }

  function Twice(f: Float): Float
  {
    if f.Finite? then Finite(2.0 * f.r) else f
  }

  function AtLeastOne(f: Float): Float
  {
    if BelowOne(f) then Finite(1.0) else f
  }

  /** `strings.Cut`: the text before and after the first separator. */
  function Cut(s: string, sep: char): (string, string, bool)
  {
    if s == "" then ("", "", false)
    else if s[0] == sep then ("", s[1..], true)
    else
      var (before, after, found) := Cut(s[1..], sep);
      ([s[0]] + before, after, found)
  }

  /** `parse` is `strconv.ParseFloat`, which accepts "NaN" and "Inf". */
  function ParseRateLimit(value: string, parse: string -> Option<Float>): (Float, Float)
  {
    var defaults := (Finite(DEFAULT_RATE), Finite(DEFAULT_BURST));
    var text := TrimSpace(value);
    if text == "" then defaults
    else
      var (rateText, burstText, hasBurst) := Cut(text, ':');
      var rate := parse(rateText);
      if rate.None? || AtMostZero(rate.value) then defaults
      else if !hasBurst then (rate.value, AtLeastOne(Twice(rate.value)))
      else
        var burst := parse(burstText);
        if burst.None? || BelowOne(burst.value) then defaults
        else (rate.value, AtLeastOne(burst.value))
  }

  /**
   A positive finite rate and room for at least one call. At an infinite rate two
   calls at one instant would refill zero times infinity, which is not a number.
   */
  predicate Usable(setting: (Float, Float))
  {
    && setting.0.Finite? && setting.0.r > 0.0
    && (setting.1.Inf? || (setting.1.Finite? && setting.1.r >= 1.0))
  }

  /** The text is taken as well-formed, and a number in it is NaN or the rate infinite, which the range checks pass. */
  predicate SaysOdd(value: string, parse: string -> Option<Float>)
  {
    var text := TrimSpace(value);
    var (rateText, burstText, hasBurst) := Cut(text, ':');
    var rate, burst := parse(rateText), parse(burstText);
    && text != "" && rate.Some? && !AtMostZero(rate.value)
    && (hasBurst ==> burst.Some? && !BelowOne(burst.value))
    && (!rate.value.Finite? || (hasBurst && burst.value.NaN?))
  }

  /** A malformed value keeps the default, and every accepted value is usable except a NaN or an infinite rate. */
  lemma UsableUnlessOdd(value: string, parse: string -> Option<Float>)
    ensures Usable(ParseRateLimit(value, parse)) <==> !SaysOdd(value, parse)
  {
  }

  lemma NaNIsAccepted(parse: string -> Option<Float>)
    requires parse("NaN") == Some(NaN)
    ensures ParseRateLimit("NaN", parse) == (NaN, NaN)
  {
    assert TrimSpace("NaN") == "NaN";
    CutWithout("NaN", ':');
  }

  lemma InfIsAccepted(parse: string -> Option<Float>)
    requires parse("Inf") == Some(Inf)
    ensures ParseRateLimit("Inf", parse) == (Inf, Inf)
  {
    assert TrimSpace("Inf") == "Inf";
    CutWithout("Inf", ':');
  }

  lemma {:induction false} CutWithout(s: string, sep: char)
    requires sep !in s
    ensures Cut(s, sep) == (s, "", false)
  {
    if s != "" {
      CutWithout(s[1..], sep);
      assert [s[0]] + s[1..] == s;
    }
  }

  // ----- A new bucket -----

  function Repeated(now: real, n: nat): (calls: seq<real>)
    ensures |calls| == n && forall i :: 0 <= i < n ==> calls[i] == now
  {
    if n == 0 then [] else Repeated(now, n - 1) + [now]
  }

  function Nothings(n: nat): (gaps: seq<real>)
    ensures |gaps| == n
  {
    if n == 0 then [] else Nothings(n - 1) + [0.0]
  }

  /** Calls at one instant earn nothing between them. */
  lemma {:induction false} NothingBetween(rate: real, burst: real, now: real, n: nat)
    ensures Gaps(New(rate, burst), Repeated(now, n)) == Nothings(n)
  {
    if n > 0 {
      var b, calls := New(rate, burst), Repeated(now, n);
      assert calls[..|calls| - 1] == Repeated(now, n - 1);
      NothingBetween(rate, burst, now, n - 1);
      NoGap(b, calls, now);
      assert Gaps(b, calls) == Gaps(b, Repeated(now, n - 1)) + [Gap(b, calls)];
    }
  }

  lemma NoGap(b: Bucket, calls: seq<real>, now: real)
    requires calls != [] && b.last.None? && forall i :: 0 <= i < |calls| ==> calls[i] == now
    ensures Gap(b, calls) == 0.0
  {
    if |calls| > 1 { TimesZero(b.rate, calls[|calls| - 1] - calls[|calls| - 2]); }
  }

  lemma {:induction false} FillsNothing(burst: real, n: nat)
    requires n as real <= burst
    ensures FillAll(Pot(burst, 0), burst, Nothings(n)) == Pot(burst - n as real, n)
  {
    if n > 0 {
      FillsNothing(burst, n - 1);
      assert Nothings(n)[..n - 1] == Nothings(n - 1) && Nothings(n)[n - 1] == 0.0;
    }
  }

  lemma BurstRun(rate: real, burst: real, now: real, n: nat)
    requires n as real <= burst
    ensures Spent(New(rate, burst), Repeated(now, n)) == n
    ensures var b := Run(New(rate, burst), Repeated(now, n));
            b.burst == burst && b.tokens == burst - n as real && (b.last.Some? ==> b.last.value == now)
  {
    SameRun(New(rate, burst), Repeated(now, n));
    NothingBetween(rate, burst, now, n);
    FillsNothing(burst, n);
    RunShape(New(rate, burst), Repeated(now, n));
    if n > 0 { assert Repeated(now, n)[n - 1] == now; }
  }

  lemma SameInstant(b: Bucket, now: real)
    requires b.tokens <= b.burst && (b.last.Some? ==> b.last.value == now)
    ensures Refilled(b, now) == b.tokens
  {
    if b.last.Some? { TimesZero(b.rate, now - b.last.value); }
    RefilledBy(b, now, 0.0);
  }

  lemma TimesZero(x: real, y: real)
    requires y == 0.0
    ensures x * y == 0.0
  {
  }

  /** A new bucket grants as many calls at one instant as its burst holds whole tokens, and then no more. */
  lemma NewBucketGrantsItsBurst(rate: real, burst: real, now: real, n: nat)
    requires n as real <= burst
    ensures Spent(New(rate, burst), Repeated(now, n)) == n
    ensures Grants(Run(New(rate, burst), Repeated(now, n)), now) <==> (n + 1) as real <= burst
  {
    BurstRun(rate, burst, now, n);
    SameInstant(Run(New(rate, burst), Repeated(now, n)), now);
  }

  // ----- Well-formed settings -----

  /** The setting means what it says: nothing is 50 and 100, a rate alone has twice that as its burst, at least one. */
  lemma SettingReads(rateText: string, burstText: string, rate: real, burst: real, parse: string -> Option<Float>)
    requires TrimSpace(rateText) == rateText != ""
    requires TrimSpace(rateText + ":" + burstText) == rateText + ":" + burstText
    requires ':' !in rateText && parse(rateText) == Some(Finite(rate)) && parse(burstText) == Some(Finite(burst))
    ensures ParseRateLimit("", parse) == (Finite(50.0), Finite(100.0))
    ensures ParseRateLimit(rateText, parse) ==
            if rate <= 0.0 then (Finite(50.0), Finite(100.0))
            else (Finite(rate), Finite(if 2.0 * rate < 1.0 then 1.0 else 2.0 * rate))
    ensures ParseRateLimit(rateText + ":" + burstText, parse) ==
            if rate <= 0.0 || burst < 1.0 then (Finite(50.0), Finite(100.0)) else (Finite(rate), Finite(burst))
  {
    CutWithout(rateText, ':');
    CutFirst(rateText, burstText, ':');
  }

  lemma {:induction false} CutFirst(before: string, after: string, sep: char)
    requires sep !in before
    ensures Cut(before + [sep] + after, sep) == (before, after, true)
  {
    var s := before + [sep] + after;
    if before == "" {
      assert s[1..] == after;
    } else {
      CutFirst(before[1..], after, sep);
      assert s[1..] == before[1..] + [sep] + after;
      assert [before[0]] + before[1..] == before;
    }
  }
}
