/**
 Batch enrichment of model metadata (controller/model_meta.go). The batch splits
 the models into exact names and name rules, queries bound channels twice for
 all of them, gathers what each rule matches in one pass over the price list,
 and writes the results back into the models in place. The specification says,
 model by model, what each one must end up with.
 */
module ModelEnrichment {
  import opened Basics

  const EXACT := 0
  const PREFIX := 1
  const CONTAINS := 2
  const SUFFIX := 3

  datatype BoundChannel = BoundChannel(name: string, kind: int)

  datatype Model = Model(name: string, rule: int, endpoints: string, bound: seq<BoundChannel>,
                         groups: seq<string>, quotas: seq<int>, matched: seq<string>, matchedCount: int)

  datatype Pricing = Pricing(model: string, endpoints: seq<string>, groups: seq<string>, quota: int)

  /** The caches and the database as the batch sees them; `marshal` writes endpoint types as JSON. */
  datatype World = World(pricing: seq<Pricing>, bound: string -> seq<BoundChannel>,
                         endpointsOf: string -> seq<string>, groupsOf: string -> seq<string>,
                         quotasOf: string -> seq<int>, marshal: seq<string> -> string)

  /** One query for many names; names without channels are absent from its answer. */
  function BoundChannels(w: World, names: set<string>): map<string, seq<BoundChannel>>
  {
    map n | n in names && w.bound(n) != [] :: w.bound(n)
  }

  // ----- What one model must end up with -----

  predicate PartAt(s: string, part: string, i: int)
  {
    0 <= i && i + |part| <= |s| && s[i..i + |part|] == part
  }

  predicate Contains(s: string, part: string)
  {
    exists i :: 0 <= i <= |s| && PartAt(s, part, i)
  }

  predicate Matches(m: Model, name: string)
  {
    if m.rule == PREFIX then m.name <= name
    else if m.rule == SUFFIX then |m.name| <= |name| && name[|name| - |m.name|..] == m.name
    else m.rule == CONTAINS && Contains(name, m.name)
  }

  /** The names a rule matches, in price-list order. */
  function MatchedNames(pricing: seq<Pricing>, m: Model): seq<string>
  {
    if pricing == [] then []
    else
      var p := pricing[|pricing| - 1];
      MatchedNames(pricing[..|pricing| - 1], m) + if Matches(m, p.model) then [p.model] else []
  }

  ghost predicate Distinct<T>(s: seq<T>)
  {
    forall i, j :: 0 <= i < j < |s| ==> s[i] != s[j]
  }

  ghost predicate Ascending(s: seq<int>)
  {
    forall i, j :: 0 <= i < j < |s| ==> s[i] < s[j]
  }

  predicate OffersEndpoint(pricing: seq<Pricing>, m: Model, e: string)
  {
    exists p :: p in pricing && Matches(m, p.model) && e in p.endpoints
  }

  predicate OffersGroup(pricing: seq<Pricing>, m: Model, g: string)
  {
    exists p :: p in pricing && Matches(m, p.model) && g in p.groups
  }

  predicate OffersQuota(pricing: seq<Pricing>, m: Model, q: int)
  {
    exists p :: p in pricing && Matches(m, p.model) && p.quota == q
  }

  predicate Serves(w: World, names: seq<string>, c: BoundChannel)
  {
    exists n :: n in names && c in w.bound(n)
  }

  /** All endpoint types the rule's matches offer, each once, in some order. */
  ghost predicate ListsEndpoints(pricing: seq<Pricing>, m: Model, eps: seq<string>)
  {
    Distinct(eps) && forall e :: e in eps <==> OffersEndpoint(pricing, m, e)
  }

  ghost predicate ListsGroups(pricing: seq<Pricing>, m: Model, groups: seq<string>)
  {
    Distinct(groups) && forall g :: g in groups <==> OffersGroup(pricing, m, g)
  }

  /** All quota types, each once, in ascending order. */
  ghost predicate ListsQuotas(pricing: seq<Pricing>, m: Model, quotas: seq<int>)
  {
    Ascending(quotas) && forall q :: q in quotas <==> OffersQuota(pricing, m, q)
  }

  ghost predicate ListsChannels(w: World, names: seq<string>, bound: seq<BoundChannel>)
  {
    Distinct(bound) && forall c :: c in bound <==> Serves(w, names, c)
  }

  ghost predicate EnrichedExact(w: World, before: Model, after: Model)
  {
    var endpoints := if before.endpoints == "" then w.marshal(w.endpointsOf(before.name)) else before.endpoints;
    after == before.(endpoints := endpoints, bound := w.bound(before.name),
                     groups := w.groupsOf(before.name), quotas := w.quotasOf(before.name))
  }

  ghost predicate EnrichedRule(w: World, before: Model, after: Model)
  {
    var names := MatchedNames(w.pricing, before);
    && after.name == before.name && after.rule == before.rule
    && after.matched == names && after.matchedCount == |names|
    && (if names == [] then
          after.endpoints == before.endpoints && after.groups == before.groups && after.quotas == before.quotas
        else
          && (if before.endpoints != "" then after.endpoints == before.endpoints
              else exists eps :: ListsEndpoints(w.pricing, before, eps) && after.endpoints == w.marshal(eps))
          && ListsGroups(w.pricing, before, after.groups)
          && ListsQuotas(w.pricing, before, after.quotas))
    && (if exists c :: Serves(w, names, c) then ListsChannels(w, names, after.bound) else after.bound == before.bound)
  }

  ghost predicate Enriched(w: World, before: Model, after: Model)
  {
    if before.rule == EXACT then EnrichedExact(w, before, after) else EnrichedRule(w, before, after)
  }

  ghost predicate AllEnriched(w: World, before: seq<Option<Model>>, after: seq<Option<Model>>)
  {
    && |before| == |after|
    && forall i :: 0 <= i < |before| ==>
         if before[i].None? then after[i].None? else after[i].Some? && Enriched(w, before[i].value, after[i].value)
  }

  // ----- The channel key -----

  function Digits(n: nat): string
  {
    if n < 10 then [(n + '0' as int) as char] else Digits(n / 10) + [(n % 10 + '0' as int) as char]
  }

  /** `strconv.Itoa`. */
  function Itoa(n: int): string
  {
    if n < 0 then "-" + Digits(-n) else Digits(n)
  }

  function ChannelKey(c: BoundChannel): string
  {
    c.name + "_" + Itoa(c.kind)
  }

  function Value(s: string): int
  {
    if s == "" then 0 else 10 * Value(s[..|s| - 1]) + (s[|s| - 1] as int - '0' as int)
  }

  lemma {:induction false} DigitsShape(n: nat)
    ensures Value(Digits(n)) == n && Digits(n) != ""
    ensures forall i :: 0 <= i < |Digits(n)| ==> '0' <= Digits(n)[i] <= '9'
  {
    if n >= 10 {
      DigitsShape(n / 10);
      assert Digits(n)[..|Digits(n)| - 1] == Digits(n / 10);
    } else {
      assert Digits(n)[..0] == "";
    }
  }

  lemma ItoaShape(n: int)
    ensures '_' !in Itoa(n)
    ensures n < 0 ==> Itoa(n)[0] == '-' && Value(Itoa(n)[1..]) == -n
    ensures n >= 0 ==> Itoa(n)[0] != '-' && Value(Itoa(n)) == n
  {
    DigitsShape(if n < 0 then -n else n);
    if n < 0 { assert Itoa(n)[1..] == Digits(-n); }
  }

  /** The key identifies the channel: names may contain underscores, printed numbers may not. */
  lemma KeyIsInjective(c: BoundChannel, d: BoundChannel)
    requires ChannelKey(c) == ChannelKey(d)
    ensures c == d
  {
    ItoaShape(c.kind);
    ItoaShape(d.kind);
    LastUnderscore(c.name, Itoa(c.kind), d.name, Itoa(d.kind));
  }

  lemma LastUnderscore(a: string, x: string, b: string, y: string)
    requires a + "_" + x == b + "_" + y && '_' !in x && '_' !in y
    ensures a == b && x == y
  {
    var key := a + "_" + x;
    assert key[|a|] == '_' && key[|b|] == '_';
    assert forall i :: |a| < i < |key| ==> key[i] == x[i - |a| - 1];
    assert forall i :: |b| < i < |key| ==> key[i] == y[i - |b| - 1];
    assert |a| == |b|;
    assert a == key[..|a|] == b;
    assert x == key[|a| + 1..] == y;
  }

  // ----- Gathering what the rules match -----

  datatype Tally = Tally(names: seq<string>, endpoints: set<string>, groups: set<string>, quotas: set<int>)

  function Items<T(==)>(s: seq<T>): set<T>
  {
    set x | x in s
  }

  function Counted(t: Tally, p: Pricing): Tally
  {
    Tally(t.names + [p.model], t.endpoints + Items(p.endpoints), t.groups + Items(p.groups), t.quotas + {p.quota})
  }

  function TallyOf(pricing: seq<Pricing>, m: Model): Tally
  {
    if pricing == [] then Tally([], {}, {}, {})
    else
      var t, p := TallyOf(pricing[..|pricing| - 1], m), pricing[|pricing| - 1];
      if Matches(m, p.model) then Counted(t, p) else t
  }

  /** The running tally of a rule holds exactly what its matches offer. */
  lemma {:induction false} TallyIs(pricing: seq<Pricing>, m: Model)
    ensures var t := TallyOf(pricing, m);
            && t.names == MatchedNames(pricing, m)
            && (forall e :: e in t.endpoints <==> OffersEndpoint(pricing, m, e))
            && (forall g :: g in t.groups <==> OffersGroup(pricing, m, g))
            && (forall q :: q in t.quotas <==> OffersQuota(pricing, m, q))
  {
    if pricing != [] {
      var init, p := pricing[..|pricing| - 1], pricing[|pricing| - 1];
      TallyIs(init, m);
      assert pricing == init + [p];
      assert forall x :: x in pricing <==> x in init || x == p;
    }
  }

  function TallyAt(tallies: map<int, Tally>, idx: int): Tally
  {
    if idx in tallies then tallies[idx] else Tally([], {}, {}, {})
  }

  function ChannelsAt(channels: map<string, seq<BoundChannel>>, name: string): seq<BoundChannel>
  {
    if name in channels then channels[name] else []
  }

  ghost predicate Indices(models: seq<Option<Model>>, indices: seq<nat>)
  {
    Distinct(indices) && forall k :: 0 <= k < |indices| ==> indices[k] < |models| && models[indices[k]].Some?
  }

  ghost predicate Tallied(models: seq<Option<Model>>, indices: seq<nat>, tallies: map<int, Tally>, k: int,
                          pricing: seq<Pricing>)
    requires 0 <= k < |indices| && Indices(models, indices)
  {
    && TallyAt(tallies, indices[k]) == TallyOf(pricing, models[indices[k]].value)
    && (indices[k] in tallies <==> TallyAt(tallies, indices[k]).names != [])
  }

  /** One pass over the price list for all rules at once. */
  method CollectMatches(models: seq<Option<Model>>, ruleIndices: seq<nat>, pricing: seq<Pricing>)
      returns (tallies: map<int, Tally>)
    requires Indices(models, ruleIndices)
    ensures forall k :: 0 <= k < |ruleIndices| ==> Tallied(models, ruleIndices, tallies, k, pricing)
  {
    tallies := map[];
    for n := 0 to |pricing|
      invariant forall k :: 0 <= k < |ruleIndices| ==> Tallied(models, ruleIndices, tallies, k, pricing[..n])
    {
      var p := pricing[n];
      ghost var seen := pricing[..n];
      assert pricing[..n + 1] == seen + [p];
      for j := 0 to |ruleIndices|
        invariant forall k :: 0 <= k < j ==> Tallied(models, ruleIndices, tallies, k, seen + [p])
        invariant forall k :: j <= k < |ruleIndices| ==> Tallied(models, ruleIndices, tallies, k, seen)
      {
        var idx := ruleIndices[j];
        var mm := models[idx].value;
        OneMoreTallied(models, ruleIndices, tallies, j, seen, p);
        ghost var next := OneMore(tallies, idx, mm, p);
        if !Matches(mm, p.model) {
          assert tallies == next;
          continue;
        }
        tallies := tallies[idx := Counted(TallyAt(tallies, idx), p)];
        assert tallies == next;
      }
    }
    assert pricing[..|pricing|] == pricing;
  }

  function OneMore(tallies: map<int, Tally>, idx: nat, m: Model, p: Pricing): map<int, Tally>
  {
    if Matches(m, p.model) then tallies[idx := Counted(TallyAt(tallies, idx), p)] else tallies
  }

  /** Counting one price row for the rule at position `j` leaves the other rules' tallies alone. */
  lemma OneMoreTallied(models: seq<Option<Model>>, indices: seq<nat>, tallies: map<int, Tally>, j: nat,
                       seen: seq<Pricing>, p: Pricing)
    requires Indices(models, indices) && j < |indices|
    requires forall k :: 0 <= k < j ==> Tallied(models, indices, tallies, k, seen + [p])
    requires forall k :: j <= k < |indices| ==> Tallied(models, indices, tallies, k, seen)
    ensures var idx := indices[j];
            var next := OneMore(tallies, idx, models[idx].value, p);
            && (forall k :: 0 <= k <= j ==> Tallied(models, indices, next, k, seen + [p]))
            && (forall k :: j < k < |indices| ==> Tallied(models, indices, next, k, seen))
  {
    var idx := indices[j];
    var next := OneMore(tallies, idx, models[idx].value, p);
    assert (seen + [p])[..|seen|] == seen;
    assert Tallied(models, indices, tallies, j, seen);
    assert Tallied(models, indices, next, j, seen + [p]);
    forall k | 0 <= k < j
      ensures Tallied(models, indices, next, k, seen + [p])
    {
      assert Tallied(models, indices, tallies, k, seen + [p]) && indices[k] != indices[j];
    }
    forall k | j < k < |indices|
      ensures Tallied(models, indices, next, k, seen)
    {
      assert Tallied(models, indices, tallies, k, seen) && indices[j] != indices[k];
    }
  }

  lemma DistinctPush<T>(s: seq<T>, x: T)
    requires Distinct(s) && x !in s
    ensures Distinct(s + [x])
  {
  }

  method AllMatched(tallies: map<int, Tally>, ruleIndices: seq<nat>) returns (names: set<string>)
    ensures forall k, n :: 0 <= k < |ruleIndices| && n in TallyAt(tallies, ruleIndices[k]).names ==> n in names
  {
    names := {};
    for j := 0 to |ruleIndices|
      invariant forall k, n :: 0 <= k < j && n in TallyAt(tallies, ruleIndices[k]).names ==> n in names
    {
      names := names + Items(TallyAt(tallies, ruleIndices[j]).names);
    }
  }

  /** The elements of a set in the order a Go map happens to yield them. */
  method Listed<T(==)>(s: set<T>) returns (out: seq<T>)
    ensures Distinct(out) && forall x :: x in out <==> x in s
  {
    out := [];
    var pending := s;
    while pending != {}
      invariant pending <= s && Distinct(out)
      invariant forall x :: x in out <==> x in s && x !in pending
    {
      var x :| x in pending;
      out := out + [x];
      pending := pending - {x};
    }
  }

  method SortInts(s: seq<int>) returns (out: seq<int>)
    requires Distinct(s)
    ensures Ascending(out) && forall x :: x in out <==> x in s
  {
    out := [];
    for i := 0 to |s|
      invariant Ascending(out)
      invariant forall x :: x in out <==> x in s[..i]
    {
      assert s[..i + 1] == s[..i] + [s[i]];
      var k := 0;
      while k < |out| && out[k] < s[i]
        invariant 0 <= k <= |out| && forall j :: 0 <= j < k ==> out[j] < s[i]
      {
        k := k + 1;
      }
      assert s[i] !in s[..i];
      Inserted(out, k, s[i]);
      out := out[..k] + [s[i]] + out[k..];
    }
    assert s[..|s|] == s;
  }

  lemma Inserted(out: seq<int>, k: nat, v: int)
    requires Ascending(out) && k <= |out| && v !in out
    requires forall j :: 0 <= j < k ==> out[j] < v
    requires k < |out| ==> v <= out[k]
    ensures Ascending(out[..k] + [v] + out[k..])
    ensures forall x :: x in out[..k] + [v] + out[k..] <==> x == v || x in out
  {
    if k < |out| { assert out[k] in out; }
    InsertedAscends(out, k, v);
    InsertedHolds(out, k, v);
  }

  lemma InsertedAscends(out: seq<int>, k: nat, v: int)
    requires Ascending(out) && k <= |out|
    requires forall j :: 0 <= j < k ==> out[j] < v
    requires k < |out| ==> v < out[k]
    ensures Ascending(out[..k] + [v] + out[k..])
  {
    var more := out[..k] + [v] + out[k..];
    forall i, j | 0 <= i < j < |more|
      ensures more[i] < more[j]
    {
      assert more[i] == if i < k then out[i] else if i == k then v else out[i - 1];
      assert more[j] == if j < k then out[j] else if j == k then v else out[j - 1];
    }
  }

  lemma InsertedHolds<T>(out: seq<T>, k: nat, v: T)
    requires k <= |out|
    ensures forall x :: x in out[..k] + [v] + out[k..] <==> x == v || x in out
  {
    assert out == out[..k] + out[k..];
  }

  /** The channels of all names, de-duplicated by their printed key. */
  method UnionChannels(names: seq<string>, channels: map<string, seq<BoundChannel>>) returns (chs: seq<BoundChannel>)
    ensures Distinct(chs)
    ensures forall c :: c in chs <==> exists n :: n in names && c in ChannelsAt(channels, n)
  {
    var channelSet: map<string, BoundChannel> := map[];
    for i := 0 to |names|
      invariant forall k :: k in channelSet ==> k == ChannelKey(channelSet[k])
      invariant forall c :: Holds(channelSet, c) <==> exists n :: n in names[..i] && c in ChannelsAt(channels, n)
    {
      assert names[..i + 1] == names[..i] + [names[i]];
      channelSet := AddChannels(channelSet, ChannelsAt(channels, names[i]));
    }
    assert names[..|names|] == names;
    chs := [];
    var pending := channelSet.Keys;
    while pending != {}
      invariant pending <= channelSet.Keys && Distinct(chs)
      invariant forall c :: c in chs <==> Holds(channelSet, c) && ChannelKey(c) !in pending
    {
      var key :| key in pending;
      chs := chs + [channelSet[key]];
      forall c | ChannelKey(c) == key
        ensures c == channelSet[key]
      {
        KeyIsInjective(c, channelSet[key]);
      }
      pending := pending - {key};
    }
  }

  predicate Holds(channelSet: map<string, BoundChannel>, c: BoundChannel)
  {
    ChannelKey(c) in channelSet && channelSet[ChannelKey(c)] == c
  }

  method AddChannels(channelSet: map<string, BoundChannel>, chs: seq<BoundChannel>)
      returns (more: map<string, BoundChannel>)
    requires forall k :: k in channelSet ==> k == ChannelKey(channelSet[k])
    ensures forall k :: k in more ==> k == ChannelKey(more[k])
    ensures forall c :: Holds(more, c) <==> Holds(channelSet, c) || c in chs
  {
    more := channelSet;
    for i := 0 to |chs|
      invariant forall k :: k in more ==> k == ChannelKey(more[k])
      invariant forall c :: Holds(more, c) <==> Holds(channelSet, c) || c in chs[..i]
    {
      assert chs[..i + 1] == chs[..i] + [chs[i]];
      forall c | ChannelKey(c) == ChannelKey(chs[i])
        ensures c == chs[i]
      {
        KeyIsInjective(c, chs[i]);
      }
      more := more[ChannelKey(chs[i]) := chs[i]];
    }
    assert chs[..|chs|] == chs;
  }

  // ----- Writing back -----

  /** What a rule model ends up with, given its tally and the channels of the matched names. */
  method FillRule(w: World, m: Model, t: Tally, present: bool, channels: map<string, seq<BoundChannel>>)
      returns (mm: Model)
    requires t == TallyOf(w.pricing, m) && (present <==> t.names != [])
    requires forall n :: n in t.names ==> ChannelsAt(channels, n) == w.bound(n)
    ensures EnrichedRule(w, m, mm)
  {
    TallyIs(w.pricing, m);
    mm := m;
    if present && mm.endpoints == "" {
      var eps := Listed(t.endpoints);
      assert ListsEndpoints(w.pricing, m, eps);
      mm := mm.(endpoints := w.marshal(eps));
    }
    if present {
      var groups := Listed(t.groups);
      mm := mm.(groups := groups);
    }
    if present {
      var arr := Listed(t.quotas);
      arr := SortInts(arr);
      mm := mm.(quotas := arr);
    }
    var chs := UnionChannels(t.names, channels);
    forall c
      ensures c in chs <==> Serves(w, t.names, c)
    {
      if Serves(w, t.names, c) {
        var n :| n in t.names && c in w.bound(n);
        assert c in ChannelsAt(channels, n);
      }
    }
    if |chs| > 0 {
      assert Serves(w, t.names, chs[0]);
      mm := mm.(bound := chs);
    }
    mm := mm.(matched := t.names, matchedCount := |t.names|);
  }

  function ExactResult(w: World, m: Model): Model
  {
    m.(endpoints := if m.endpoints == "" then w.marshal(w.endpointsOf(m.name)) else m.endpoints,
       bound := w.bound(m.name), groups := w.groupsOf(m.name), quotas := w.quotasOf(m.name))
  }

  /** The indices of the exact models by name, and of all other models in order. */
  ghost predicate Split(models: seq<Option<Model>>, n: nat, exactIdx: map<string, seq<nat>>, ruleIndices: seq<nat>)
  {
    && (forall name :: name in exactIdx ==> forall idx :: idx in exactIdx[name] ==> IsExact(models, idx, name))
    && (forall i :: 0 <= i < n && i < |models| && models[i].Some? && models[i].value.rule == EXACT ==>
          models[i].value.name in exactIdx && i in exactIdx[models[i].value.name])
    && (forall idx :: idx in ruleIndices <==> 0 <= idx < n && IsRule(models, idx))
    && Distinct(ruleIndices)
  }

  ghost predicate IsRule(models: seq<Option<Model>>, idx: nat)
  {
    idx < |models| && models[idx].Some? && models[idx].value.rule != EXACT
  }

  ghost predicate IsExact(models: seq<Option<Model>>, idx: nat, name: string)
  {
    idx < |models| && models[idx].Some? && models[idx].value.rule == EXACT && models[idx].value.name == name
  }

  method SplitRules(models: seq<Option<Model>>) returns (exactIdx: map<string, seq<nat>>, ruleIndices: seq<nat>)
    ensures Split(models, |models|, exactIdx, ruleIndices)
  {
    exactIdx, ruleIndices := map[], [];
    for i := 0 to |models|
      invariant Split(models, i, exactIdx, ruleIndices)
    {
      if models[i].None? { continue; }
      var m := models[i].value;
      if m.rule == EXACT {
        exactIdx := exactIdx[m.name := (if m.name in exactIdx then exactIdx[m.name] else []) + [i]];
      } else {
        assert i !in ruleIndices;
        DistinctPush(ruleIndices, i);
        ruleIndices := ruleIndices + [i];
      }
    }
  }

  method EnrichExact(models: array<Option<Model>>, exactIdx: map<string, seq<nat>>, ruleIndices: seq<nat>, w: World)
    requires Split(models[..], models.Length, exactIdx, ruleIndices)
    modifies models
    ensures forall i :: 0 <= i < models.Length ==>
              models[i] == Partly(w, old(models[i]), {})
  {
    ghost var was := models[..];
    var channelsByModel := BoundChannels(w, exactIdx.Keys);
    var pending := exactIdx.Keys;
    while pending != {}
      invariant pending <= exactIdx.Keys
      invariant forall i :: 0 <= i < models.Length ==> models[i] == Partly(w, was[i], pending)
    {
      var name :| name in pending;
      var chs := ChannelsAt(channelsByModel, name);
      var indices := exactIdx[name];
      for k := 0 to |indices|
        invariant forall i :: 0 <= i < models.Length ==>
                    models[i] == if i in indices[..k] then Partly(w, was[i], {}) else Partly(w, was[i], pending)
      {
        var idx := indices[k];
        assert idx in indices && IsExact(was, idx, name);
        assert indices[..k + 1] == indices[..k] + [idx];
        var mm := models[idx].value;
        models[idx] := Some(FilledExact(w, mm, chs));
      }
      assert indices[..|indices|] == indices;
      pending := pending - {name};
    }
  }

  /** An exact model is done once its name is no longer pending. */
  ghost function Partly(w: World, m: Option<Model>, pending: set<string>): Option<Model>
  {
    if m.Some? && m.value.rule == EXACT && m.value.name !in pending then Some(ExactResult(w, m.value)) else m
  }

  /** What the loop writes; `chs` comes from the batched query. */
  function FilledExact(w: World, mm: Model, chs: seq<BoundChannel>): Model
  {
    var eps := if mm.endpoints == "" then w.marshal(w.endpointsOf(mm.name)) else mm.endpoints;
    mm.(endpoints := eps, bound := chs, groups := w.groupsOf(mm.name), quotas := w.quotasOf(mm.name))
  }

  method Backfill(models: array<Option<Model>>, ruleIndices: seq<nat>, tallies: map<int, Tally>,
                  channels: map<string, seq<BoundChannel>>, w: World)
    requires Indices(models[..], ruleIndices)
    requires forall k :: 0 <= k < |ruleIndices| ==> Tallied(models[..], ruleIndices, tallies, k, w.pricing)
    requires forall k, n :: 0 <= k < |ruleIndices| && n in TallyAt(tallies, ruleIndices[k]).names ==>
               ChannelsAt(channels, n) == w.bound(n)
    modifies models
    ensures forall i :: 0 <= i < models.Length && i !in ruleIndices ==> models[i] == old(models[i])
    ensures forall i :: 0 <= i < models.Length && i in ruleIndices ==>
              old(models[i]).Some? && models[i].Some? && EnrichedRule(w, old(models[i]).value, models[i].value)
  {
    ghost var was := models[..];
    for k := 0 to |ruleIndices|
      invariant forall i :: 0 <= i < models.Length && i !in ruleIndices[..k] ==> models[i] == was[i]
      invariant forall i :: 0 <= i < models.Length && i in ruleIndices[..k] ==>
                  was[i].Some? && models[i].Some? && EnrichedRule(w, was[i].value, models[i].value)
    {
      var idx := ruleIndices[k];
      assert Tallied(was, ruleIndices, tallies, k, w.pricing);
      assert idx !in ruleIndices[..k];
      assert ruleIndices[..k + 1] == ruleIndices[..k] + [idx];
      var mm := FillRule(w, models[idx].value, TallyAt(tallies, idx), idx in tallies, channels);
      models[idx] := Some(mm);
    }
    assert ruleIndices[..|ruleIndices|] == ruleIndices;
  }

  /** The whole batch gives every model what the one-at-a-time definition asks for, and nothing to missing ones. */
  method EnrichModels(models: array<Option<Model>>, w: World)
    modifies models
    ensures AllEnriched(w, old(models[..]), models[..])
  {
    if models.Length == 0 { return; }
    ghost var was := models[..];
    var exactIdx, ruleIndices := SplitRules(models[..]);
    assert forall i :: 0 <= i < |was| ==> (IsRule(was, i) <==> i in ruleIndices);
    EnrichExact(models, exactIdx, ruleIndices, w);
    if |ruleIndices| == 0 {
      forall i | 0 <= i < |was| && was[i].Some?
        ensures models[i].Some? && Enriched(w, was[i].value, models[i].value)
      {
        assert !IsRule(was, i);
      }
      return;
    }
    ghost var mid := models[..];
    forall k | 0 <= k < |ruleIndices|
      ensures ruleIndices[k] < |mid| && mid[ruleIndices[k]] == was[ruleIndices[k]] && IsRule(was, ruleIndices[k])
    {
      assert ruleIndices[k] in ruleIndices;
    }
    var tallies := CollectMatches(models[..], ruleIndices, w.pricing);
    var names := AllMatched(tallies, ruleIndices);
    var matchedChannels := BoundChannels(w, names);
    Backfill(models, ruleIndices, tallies, matchedChannels, w);
  }

  // ----- What a rule matches -----

  /** A prefix rule matches what begins with its name, a suffix rule what ends with it, and so on. */
  lemma MatchesIff(m: Model, name: string)
    ensures m.rule == 1 ==> (Matches(m, name) <==> exists rest :: name == m.name + rest)
    ensures m.rule == 2 ==> (Matches(m, name) <==> exists left, right :: name == left + m.name + right)
    ensures m.rule == 3 ==> (Matches(m, name) <==> exists left :: name == left + m.name)
    ensures m.rule != 1 && m.rule != 2 && m.rule != 3 ==> !Matches(m, name)
  {
    if m.rule == 1 && Matches(m, name) {
      assert name == m.name + name[|m.name|..];
    } else if m.rule == 2 {
      ContainsIff(name, m.name);
    } else if m.rule == 3 {
      EndsIff(name, m.name);
    }
  }

  lemma EndsIff(s: string, part: string)
    ensures |part| <= |s| && s[|s| - |part|..] == part <==> exists left :: s == left + part
  {
    if |part| <= |s| && s[|s| - |part|..] == part {
      assert s == s[..|s| - |part|] + part;
    }
  }

  lemma ContainsIff(s: string, part: string)
    ensures Contains(s, part) <==> exists left, right :: s == left + part + right
  {
    if Contains(s, part) {
      var i :| 0 <= i <= |s| && PartAt(s, part, i);
      assert s == s[..i] + part + s[i + |part|..];
    }
    if left, right :| s == left + part + right {
      assert s[|left|..|left| + |part|] == part;
      assert PartAt(s, part, |left|);
    }
  }

  /** A name is listed as matched exactly if a price row of that name is matched. */
  lemma {:induction false} MatchedIff(pricing: seq<Pricing>, m: Model, name: string)
    ensures name in MatchedNames(pricing, m) <==>
            exists i :: 0 <= i < |pricing| && pricing[i].model == name && Matches(m, name)
  {
    if pricing != [] {
      var init := pricing[..|pricing| - 1];
      MatchedIff(init, m, name);
      assert forall i :: 0 <= i < |init| ==> init[i] == pricing[i];
    }
  }
}
