/**
 The published price list (controller/pricing.go): every request starts from a
 table that is cached for all callers, copies it, and writes the caller's own
 annotations and visible groups into the copies.
 */
module Pricing {
  import opened Basics

  const ALL := "all"
  const DEFAULT_GROUP := "default"

  /** The fields the request pipeline reads or writes; `price` stands for all the others. */
  datatype Row<Price> = Row(model: string, price: Price, groups: seq<string>, customerRatio: Option<real>,
                            defaultRatio: Option<real>)

  /** The operator's settings: per-group model discounts and the catalogued models. */
  datatype Settings = Settings(discount: (string, string) -> Option<real>, catalogued: string -> bool)

  /** A caller: the group of the user, empty for an anonymous visitor, and the groups it may use. */
  datatype Caller = Caller(group: string, usable: set<string>)

  // ----- What a request publishes -----

  function WithCustomer<Price>(r: Row<Price>, group: string, s: Settings): Row<Price>
  {
    var ratio := s.discount(group, r.model);
    if group != "" && ratio.Some? && s.catalogued(r.model) then r.(customerRatio := ratio) else r
  }

  function WithDefault<Price>(r: Row<Price>, s: Settings): Row<Price>
  {
    var ratio := s.discount(DEFAULT_GROUP, r.model);
    if ratio.Some? then r.(defaultRatio := ratio) else r
  }

  function Usable(groups: seq<string>, usable: set<string>): seq<string>
  {
    if groups == [] then []
    else Usable(groups[..|groups| - 1], usable) + if groups[|groups| - 1] in usable then [groups[|groups| - 1]] else []
  }

  function Hidden<Price>(r: Row<Price>, usable: set<string>): Row<Price>
  {
    if ALL in r.groups then r else r.(groups := Usable(r.groups, usable))
  }

  /** A row is shown to callers of one of its groups; nobody sees anything without a usable group. */
  predicate Visible<Price>(r: Row<Price>, usable: set<string>)
  {
    usable != {} && (ALL in r.groups || exists g :: g in r.groups && g in usable)
  }

  function Kept<Price>(rows: seq<Row<Price>>, usable: set<string>): seq<Row<Price>>
  {
    if rows == [] then []
    else Kept(rows[..|rows| - 1], usable) + if Visible(rows[|rows| - 1], usable) then [rows[|rows| - 1]] else []
  }

  function AllWithCustomer<Price>(rows: seq<Row<Price>>, group: string, s: Settings): (out: seq<Row<Price>>)
    ensures |out| == |rows| && forall i :: 0 <= i < |rows| ==> out[i] == WithCustomer(rows[i], group, s)
  {
    seq(|rows|, i requires 0 <= i < |rows| => WithCustomer(rows[i], group, s))
  }

  /** What one row becomes for one caller. */
  function Shown<Price>(r: Row<Price>, c: Caller, s: Settings): Row<Price>
  {
    WithDefault(Hidden(WithCustomer(r, c.group, s), c.usable), s)
  }

  function Published<Price>(rows: seq<Row<Price>>, c: Caller, s: Settings): seq<Row<Price>>
  {
    if rows == [] then []
    else
      var last := rows[|rows| - 1];
      Published(rows[..|rows| - 1], c, s) + if Visible(last, c.usable) then [Shown(last, c, s)] else []
  }

  // ----- The pipeline -----

  /** An anonymous caller gets the cached table itself, any other caller its own rows. */
  method ApplyCustomer<Price(0)>(pricing: array<Row<Price>>, group: string, s: Settings)
      returns (out: array<Row<Price>>)
    ensures out[..] == AllWithCustomer(pricing[..], group, s)
    ensures if group == "" then out == pricing else fresh(out)
  {
    if group == "" { return pricing; }
    out := Copy(pricing);
    for i := 0 to out.Length
      invariant out.Length == pricing.Length && fresh(out)
      invariant forall k :: 0 <= k < out.Length ==>
                  out[k] == if k < i then WithCustomer(pricing[k], group, s) else pricing[k]
    {
      var ratio := s.discount(group, out[i].model);
      if ratio.None? { continue; }
      if !s.catalogued(out[i].model) { continue; }
      out[i] := out[i].(customerRatio := ratio);
    }
  }

  method Copy<T>(pricing: array<T>) returns (out: array<T>)
    ensures fresh(out) && out[..] == pricing[..]
  {
    out := new T[pricing.Length](i requires 0 <= i < pricing.Length reads pricing => pricing[i]);
  }

  method FilterByUsable<Price>(pricing: array<Row<Price>>, usable: set<string>) returns (filtered: seq<Row<Price>>)
    ensures filtered == Kept(pricing[..], usable)
  {
    filtered := [];
    if pricing.Length == 0 { return; }
    if usable == {} {
      NothingUsable(pricing[..]);
      return;
    }
    for i := 0 to pricing.Length
      invariant filtered == Kept(pricing[..i], usable)
    {
      assert pricing[..i + 1][..i] == pricing[..i];
      if ALL in pricing[i].groups {
        filtered := filtered + [pricing[i]];
        continue;
      }
      var j := 0;
      while j < |pricing[i].groups| && pricing[i].groups[j] !in usable
        invariant 0 <= j <= |pricing[i].groups|
        invariant forall k :: 0 <= k < j ==> pricing[i].groups[k] !in usable
      {
        j := j + 1;
      }
      if j < |pricing[i].groups| {
        assert pricing[i].groups[j] in pricing[i].groups;
        filtered := filtered + [pricing[i]];
      }
    }
    assert pricing[..pricing.Length] == pricing[..];
  }

  lemma {:induction false} NothingUsable<Price>(rows: seq<Row<Price>>)
    ensures Kept(rows, {}) == []
  {
    if rows != [] { NothingUsable(rows[..|rows| - 1]); }
  }

  method VisibleGroups(groups: seq<string>, usable: set<string>) returns (visible: seq<string>)
    ensures visible == Usable(groups, usable)
  {
    visible := [];
    for i := 0 to |groups|
      invariant visible == Usable(groups[..i], usable)
    {
      assert groups[..i + 1][..i] == groups[..i];
      if groups[i] in usable { visible := visible + [groups[i]]; }
    }
    assert groups[..|groups|] == groups;
  }

  method HideGroups<Price>(pricing: seq<Row<Price>>, usable: set<string>) returns (out: array<Row<Price>>)
    ensures fresh(out) && out.Length == |pricing|
    ensures forall i :: 0 <= i < |pricing| ==> out[i] == Hidden(pricing[i], usable)
  {
    out := new Row<Price>[|pricing|](i requires 0 <= i < |pricing| => pricing[i]);
    for i := 0 to out.Length
      invariant forall k :: 0 <= k < out.Length ==> out[k] == if k < i then Hidden(pricing[k], usable) else pricing[k]
    {
      if ALL in out[i].groups { continue; }
      var visible := VisibleGroups(out[i].groups, usable);
      out[i] := out[i].(groups := visible);
    }
  }

  method ApplyDefault<Price>(pricing: array<Row<Price>>, s: Settings) returns (out: array<Row<Price>>)
    ensures fresh(out) && out.Length == pricing.Length
    ensures forall i :: 0 <= i < pricing.Length ==> out[i] == WithDefault(pricing[i], s)
  {
    out := Copy(pricing);
    for i := 0 to out.Length
      invariant out.Length == pricing.Length
      invariant forall k :: 0 <= k < out.Length ==> out[k] == if k < i then WithDefault(pricing[k], s) else pricing[k]
    {
      var ratio := s.discount(DEFAULT_GROUP, out[i].model);
      if ratio.None? { continue; }
      out[i] := out[i].(defaultRatio := ratio);
    }
  }

  /** One request; having no `modifies` clause, it leaves the cached table as it was. */
  method GetPricing<Price(0)>(cached: array<Row<Price>>, c: Caller, s: Settings) returns (out: array<Row<Price>>)
    ensures fresh(out) && out[..] == Published(cached[..], c, s)
  {
    var rows := ApplyCustomer(cached, c.group, s);
    var filtered := FilterByUsable(rows, c.usable);
    var hidden := HideGroups(filtered, c.usable);
    out := ApplyDefault(hidden, s);
    Composed(cached[..], c, s);
  }

  /** Annotating, filtering, hiding and annotating again is one pass over the rows. */
  lemma {:induction false} Composed<Price>(rows: seq<Row<Price>>, c: Caller, s: Settings)
    ensures var kept, published := Kept(AllWithCustomer(rows, c.group, s), c.usable), Published(rows, c, s);
            && |published| == |kept|
            && forall i :: 0 <= i < |kept| ==> published[i] == WithDefault(Hidden(kept[i], c.usable), s)
  {
    if rows != [] {
      var init, last := rows[..|rows| - 1], rows[|rows| - 1];
      Composed(init, c, s);
      assert AllWithCustomer(rows, c.group, s)[..|rows| - 1] == AllWithCustomer(init, c.group, s);
      assert Visible(WithCustomer(last, c.group, s), c.usable) == Visible(last, c.usable);
    }
  }

  /** Any sequence of requests on one cached table: each is answered as if it were the only one. */
  method Serve<Price(0)>(cached: array<Row<Price>>, callers: seq<Caller>, s: Settings)
      returns (answers: seq<seq<Row<Price>>>)
    ensures |answers| == |callers|
    ensures forall i :: 0 <= i < |callers| ==> answers[i] == Published(cached[..], callers[i], s)
  {
    answers := [];
    for i := 0 to |callers|
      invariant |answers| == i
      invariant forall k :: 0 <= k < i ==> answers[k] == Published(cached[..], callers[k], s)
    {
      var out := GetPricing(cached, callers[i], s);
      answers := answers + [out[..]];
    }
  }

  // ----- What a published list guarantees -----

  lemma {:induction false} UsableIs(groups: seq<string>, usable: set<string>)
    ensures forall g :: g in Usable(groups, usable) <==> g in groups && g in usable
  {
    if groups != [] {
      UsableIs(groups[..|groups| - 1], usable);
      assert groups == groups[..|groups| - 1] + [groups[|groups| - 1]];
    }
  }

  /**
   A published row names only groups its caller may use, and at least one, unless it
   is for everybody; prices are as cached.
   */
  lemma {:induction false} PublishesOnlyUsableGroups<Price>(rows: seq<Row<Price>>, c: Caller, s: Settings)
    ensures forall r :: r in Published(rows, c, s) ==>
              ALL in r.groups || (r.groups != [] && forall g :: g in r.groups ==> g in c.usable)
    ensures forall r :: r in Published(rows, c, s) ==>
              exists r' :: r' in rows && r == Shown(r', c, s) && r.model == r'.model && r.price == r'.price
  {
    if rows != [] {
      var init, last := rows[..|rows| - 1], rows[|rows| - 1];
      PublishesOnlyUsableGroups(init, c, s);
      assert rows == init + [last];
      UsableIs(last.groups, c.usable);
    }
  }

  /** Every visible row is published, and rows keep their order: the list of two tables is the two lists. */
  lemma {:induction false} PublishedInOrder<Price>(a: seq<Row<Price>>, b: seq<Row<Price>>, c: Caller, s: Settings)
    ensures Published(a + b, c, s) == Published(a, c, s) + Published(b, c, s)
  {
    if b == [] {
      assert a + b == a;
    } else {
      assert (a + b)[..|a + b| - 1] == a + b[..|b| - 1];
      PublishedInOrder(a, b[..|b| - 1], c, s);
    }
  }

  /** The advertised new-user price of a row does not depend on who asks, and an anonymous caller sees no contract. */
  lemma AdvertisedAlike<Price>(r: Row<Price>, c: Caller, d: Caller, s: Settings)
    ensures Shown(r, c, s).defaultRatio == Shown(r, d, s).defaultRatio
    ensures Shown(r, Caller("", c.usable), s).customerRatio == r.customerRatio
    ensures Shown(r, c, s).customerRatio == r.customerRatio ||
            Shown(r, c, s).customerRatio == s.discount(c.group, r.model)
  {
  }

  /** A row is published exactly for a caller with some usable group that the row is open to. */
  lemma PublishedIff<Price>(r: Row<Price>, c: Caller, s: Settings)
    ensures |Published([r], c, s)| <= 1
    ensures Published([r], c, s) != [] <==>
            && (exists g :: g in c.usable)
            && ("all" in r.groups || exists i :: 0 <= i < |r.groups| && r.groups[i] in c.usable)
  {
    assert [r][..0] == [];
    if g :| g in c.usable { assert c.usable != {}; }
    if i :| 0 <= i < |r.groups| && r.groups[i] in c.usable { assert r.groups[i] in r.groups; }
  }

  /**
   What it then shows: the cached model and price, of its groups only the usable
   ones unless it is open to all, the caller's own discount on a catalogued model,
   and the default group's.
   */
  lemma PublishedShows<Price>(r: Row<Price>, c: Caller, s: Settings)
    requires Published([r], c, s) != []
    ensures var out := Published([r], c, s)[0];
            && out.model == r.model && out.price == r.price
            && (forall g :: g in out.groups <==> g in r.groups && ("all" in r.groups || g in c.usable))
            && out.customerRatio == (if c.group != "" && s.catalogued(r.model) && s.discount(c.group, r.model).Some?
                                     then s.discount(c.group, r.model) else r.customerRatio)
            && out.defaultRatio == (if s.discount("default", r.model).Some?
                                    then s.discount("default", r.model) else r.defaultRatio)
  {
    assert [r][..0] == [];
    assert Published([r], c, s) == [Shown(r, c, s)];
    UsableIs(r.groups, c.usable);
  }
}
