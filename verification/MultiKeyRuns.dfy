/**
 Whole runs of actions on a multi-key channel row (controller/channel.go,
 model/channel.go) against the plain list of key records: what the row shows after
 any sequence of actions, when that is what an operator expects, whose disable time
 a key shows, and how a row is created.
 */
module MultiKeyRuns {
  import opened Basics
  import opened Text
  import opened MultiKey

  // ----- Whole runs -----

  /** One action on a row shows exactly what it does to the list; a safe one leaves the row in order. */
  method Act(channel: Channel, action: Action)
    requires channel.Valid()
    modifies channel
    ensures channel.Records() == Actual(old(channel.Records()), action)
    ensures Safe(old(channel.Records()), action) ==> channel.Valid()
  {
    match action
    case DisableKey(i) => var _ := channel.DisableKey(Some(i));
    case EnableKey(i) => var _ := channel.EnableKey(Some(i));
    case EnableAll => var _ := channel.EnableAllKeys();
    case DisableAll => var _ := channel.DisableAllKeys();
    case DeleteKey(i) => DeleteFrom(channel, i);
    case DeleteDisabled => DeleteDisabledFrom(channel);
    case AutoDisable(key, reason, now) => var _ := channel.AutoDisable(key, reason, now);
    case AutoEnable(key) => var _ := channel.AutoEnable(key);
    case Append(text) => AppendTo(channel, text);
  }

  method DeleteFrom(channel: Channel, i: int)
    requires channel.Valid()
    modifies channel
    ensures channel.Records() == Actual(old(channel.Records()), DeleteKey(i))
    ensures Safe(old(channel.Records()), DeleteKey(i)) ==> channel.Valid()
  {
    var _ := channel.DeleteKey(Some(i));
  }

  method DeleteDisabledFrom(channel: Channel)
    requires channel.Valid()
    modifies channel
    ensures channel.Records() == Actual(old(channel.Records()), DeleteDisabled)
    ensures Safe(old(channel.Records()), DeleteDisabled) ==> channel.Valid()
  {
    ghost var rs := channel.Records();
    ghost var left, after := WithoutAuto(rs), Reread(WithoutAuto(rs), rs);
    DeletesDisabled(rs, left, after);
    var deletedCount := channel.DeleteDisabledKeys();
    if deletedCount == 0 {
      assert channel.Records() == rs;
    } else {
      assert channel.Records() == after;
    }
  }

  lemma DeletesDisabled(rs: seq<KeyRecord>, left: seq<KeyRecord>, after: seq<KeyRecord>)
    requires left == WithoutAuto(rs) && after == Reread(left, rs)
    ensures Actual(rs, DeleteDisabled) == if |left| == |rs| then rs else after
    ensures Safe(rs, DeleteDisabled) ==> |left| >= |rs| || !BlankEnd(left)
  {
  }

  method AppendTo(channel: Channel, text: string)
    requires channel.Valid()
    modifies channel
    ensures channel.Records() == Actual(old(channel.Records()), Append(text))
    ensures Safe(old(channel.Records()), Append(text)) ==> channel.Valid()
  {
    AppendActual(channel.Records(), GetKeys(channel.key), text);
    AppendSafe(channel.Records(), GetKeys(channel.key), text);
    NoKeysNoText(channel.key);
    channel.AppendKeys(text);
  }

  lemma AppendActual(rs: seq<KeyRecord>, keys: seq<string>, text: string)
    requires KeysOf(rs) == keys
    ensures var added := NewKeys(keys, Split(text, '\n'));
            Actual(rs, Append(text)) == if keys == [] then AllNew(GetKeys(text)) else Reread(rs + AllNew(added), rs)
  {
  }

  lemma AppendSafe(rs: seq<KeyRecord>, keys: seq<string>, text: string)
    requires KeysOf(rs) == keys
    ensures Safe(rs, Append(text)) <==> !(keys == [""] && NewKeys(keys, Split(text, '\n')) != [])
  {
  }

  lemma NoKeysNoText(text: string)
    ensures GetKeys(text) == [] <==> text == ""
  {
  }

  ghost predicate SafeRun(rs: seq<KeyRecord>, actions: seq<Action>)
  {
    actions == [] ||
    (SafeRun(rs, actions[..|actions| - 1]) && Safe(Played(rs, actions[..|actions| - 1]), actions[|actions| - 1]))
  }

  /**
   Runs any sequence of actions on any channel row, as far as they are safe and
   through the first one that is not: the row always shows what the list does.
   */
  method Play(channel: Channel, actions: seq<Action>) returns (n: nat, safe: bool)
    requires channel.Valid()
    modifies channel
    ensures n <= |actions| && channel.Records() == Played(old(channel.Records()), actions[..n])
    ensures safe <==> SafeRun(old(channel.Records()), actions)
    ensures safe ==> n == |actions| && channel.Valid()
    ensures !safe ==> n > 0 && !SafeRun(old(channel.Records()), actions[..n])
    ensures FaithfulRun(old(channel.Records()), actions) ==>
              safe && channel.Records() == Wished(old(channel.Records()), actions)
  {
    ghost var was := channel.Records();
    assert FaithfulRun(was, actions) ==> SafeRun(was, actions) && Played(was, actions) == Wished(was, actions) by {
      if FaithfulRun(was, actions) { FaithfulRunsThrough(channel.key, was, actions); }
    }
    n := 0;
    while n < |actions|
      invariant n <= |actions| && channel.Valid() && channel.Records() == Played(was, actions[..n])
      invariant SafeRun(was, actions[..n])
    {
      PlaysNext(was, actions, n);
      safe := ActSafely(channel, actions[n]);
      n := n + 1;
      if !safe {
        SafePrefix(was, actions, n);
        return;
      }
    }
    assert actions[..|actions|] == actions;
    safe := true;
  }

  method ActSafely(channel: Channel, action: Action) returns (safe: bool)
    requires channel.Valid()
    modifies channel
    ensures channel.Records() == Actual(old(channel.Records()), action)
    ensures safe == Safe(old(channel.Records()), action) && (safe ==> channel.Valid())
  {
    var info := Info(channel.statusList, channel.disabledTime, channel.disabledReason);
    safe := Safe(RecordsOf(GetKeys(channel.key), info), action);
    Act(channel, action);
  }

  lemma PlaysNext(rs: seq<KeyRecord>, actions: seq<Action>, n: nat)
    requires n < |actions|
    ensures Played(rs, actions[..n + 1]) == Actual(Played(rs, actions[..n]), actions[n])
    ensures SafeRun(rs, actions[..n + 1]) <==> SafeRun(rs, actions[..n]) && Safe(Played(rs, actions[..n]), actions[n])
  {
    assert actions[..n + 1][..n] == actions[..n];
  }

  lemma {:induction false} SafePrefix(rs: seq<KeyRecord>, actions: seq<Action>, n: nat)
    requires n <= |actions|
    ensures SafeRun(rs, actions) ==> SafeRun(rs, actions[..n])
    decreases |actions|
  {
    if n == |actions| {
      assert actions[..n] == actions;
    } else {
      assert actions[..|actions| - 1][..n] == actions[..n];
      SafePrefix(rs, actions[..|actions| - 1], n);
    }
  }

  /** An action does what is expected of it: it is safe and does not delete every key. */
  predicate Faithful(rs: seq<KeyRecord>, a: Action)
  {
    Safe(rs, a) && !WipesOut(rs, a)
  }

  lemma ActsAsExpectedIff(rs: seq<KeyRecord>, a: Action)
    requires Readable(KeysOf(rs))
    ensures Actual(rs, a) == Expected(rs, a) <==> Faithful(rs, a)
  {
    match a
    case DeleteKey(i) =>
      if 0 <= i < |rs| && |rs| > 1 {
        WithoutLines(rs, i);
        SurvivesIff(Without(rs, i), rs);
      }
    case DeleteDisabled => DeletesDisabledIff(rs);
    case Append(text) =>
      if rs != [] {
        NewKeysAreKeys(KeysOf(rs), Split(text, '\n'));
        AppendingIsSafeIff(rs, NewKeys(KeysOf(rs), Split(text, '\n')));
      }
    case _ =>
  }

  lemma DeletesDisabledIff(rs: seq<KeyRecord>)
    requires Readable(KeysOf(rs))
    ensures Actual(rs, DeleteDisabled) == Expected(rs, DeleteDisabled) <==> Faithful(rs, DeleteDisabled)
  {
    var left := WithoutAuto(rs);
    WithoutAutoLines(rs);
    if left == [] {
      WipedOutComesBack(rs);
      assert |Reread(left, rs)| == |rs|;
    } else if |left| < |rs| {
      SurvivesIff(left, rs);
    }
  }

  lemma WithoutLines(rs: seq<KeyRecord>, i: int)
    requires Lines(KeysOf(rs))
    ensures Lines(KeysOf(Without(rs, i)))
  {
    var left := Without(rs, i);
    forall j | 0 <= j < |left|
      ensures '\n' !in KeysOf(left)[j]
    {
      var k := if 0 <= i < |rs| && j >= i then j + 1 else j;
      assert left[j] == rs[k] && KeysOf(rs)[k] == rs[k].key;
    }
  }

  lemma {:induction false} WithoutAutoLines(rs: seq<KeyRecord>)
    requires Lines(KeysOf(rs))
    ensures Lines(KeysOf(WithoutAuto(rs))) && |WithoutAuto(rs)| <= |rs|
  {
    if rs != [] {
      var init := rs[..|rs| - 1];
      assert KeysOf(init) == KeysOf(rs)[..|rs| - 1];
      WithoutAutoLines(init);
      var left, before := WithoutAuto(rs), WithoutAuto(init);
      assert KeysOf(rs)[|rs| - 1] == rs[|rs| - 1].key;
      forall j | 0 <= j < |left|
        ensures '\n' !in KeysOf(left)[j]
      {
        if j < |before| { assert KeysOf(left)[j] == KeysOf(before)[j]; }
      }
    }
  }

  lemma StaysReadable(rs: seq<KeyRecord>, a: Action)
    requires Readable(KeysOf(rs)) && Faithful(rs, a)
    ensures Readable(KeysOf(Expected(rs, a)))
  {
    match a
    case DeleteKey(i) => WithoutLines(rs, i);
    case DeleteDisabled => WithoutAutoLines(rs);
    case Append(text) => AppendStaysReadable(rs, text);
    case _ => KeepsTheKeys(rs, a);
  }

  lemma KeepsTheKeys(rs: seq<KeyRecord>, a: Action)
    requires !a.DeleteKey? && !a.DeleteDisabled? && !a.Append?
    ensures KeysOf(Expected(rs, a)) == KeysOf(rs)
  {
  }

  lemma AppendStaysReadable(rs: seq<KeyRecord>, text: string)
    requires Readable(KeysOf(rs)) && Safe(rs, Append(text))
    ensures Readable(KeysOf(Expected(rs, Append(text))))
  {
    if rs == [] {
      assert KeysOf(AllNew(GetKeys(text))) == GetKeys(text);
      TextsAreReadable(text);
    } else {
      var keys, added := KeysOf(rs), NewKeys(KeysOf(rs), Split(text, '\n'));
      NewKeysAreKeys(keys, Split(text, '\n'));
      KeysAppended(rs, added);
      AddedStayReadable(keys, added);
    }
  }

  lemma AddedStayReadable(keys: seq<string>, added: seq<string>)
    requires Readable(keys) && keys != [] && Solid(added) && (keys == [""] ==> added == [])
    ensures Readable(keys + added)
  {
    if added == [] { assert keys + added == keys; }
  }

  /** After every action of the run the list is the expected one. */
  ghost predicate Agrees(rs: seq<KeyRecord>, actions: seq<Action>)
  {
    Played(rs, actions) == Wished(rs, actions) && (actions == [] || Agrees(rs, actions[..|actions| - 1]))
  }

  /** Every action is faithful where it falls. */
  ghost predicate FaithfulRun(rs: seq<KeyRecord>, actions: seq<Action>)
  {
    actions == [] ||
    (FaithfulRun(rs, actions[..|actions| - 1]) &&
     Faithful(Wished(rs, actions[..|actions| - 1]), actions[|actions| - 1]))
  }

  /**
   After every action of a run the list is the expected one, exactly when every
   action is faithful where it falls: no deletion leaves a blank end or nothing,
   and nothing is appended to a text of only newlines.
   */
  lemma {:induction false} AgreesIff(rs: seq<KeyRecord>, actions: seq<Action>)
    requires Readable(KeysOf(rs))
    ensures Agrees(rs, actions) <==> FaithfulRun(rs, actions)
    ensures FaithfulRun(rs, actions) ==> Readable(KeysOf(Wished(rs, actions)))
  {
    if actions != [] {
      var init, last := actions[..|actions| - 1], actions[|actions| - 1];
      AgreesIff(rs, init);
      if FaithfulRun(rs, init) { AgreesOnceMore(rs, init, last, actions); }
    }
  }

  lemma AgreesOnceMore(rs: seq<KeyRecord>, init: seq<Action>, last: Action, actions: seq<Action>)
    requires actions != [] && init == actions[..|actions| - 1] && last == actions[|actions| - 1]
    requires Played(rs, init) == Wished(rs, init) && Readable(KeysOf(Wished(rs, init)))
    ensures Played(rs, actions) == Wished(rs, actions) <==> Faithful(Wished(rs, init), last)
    ensures Faithful(Wished(rs, init), last) ==> Readable(KeysOf(Wished(rs, actions)))
  {
    ActsAsExpectedIff(Wished(rs, init), last);
    if Faithful(Wished(rs, init), last) { StaysReadable(Wished(rs, init), last); }
  }

  lemma FaithfulRunsThrough(text: string, rs: seq<KeyRecord>, actions: seq<Action>)
    requires RecordsFrom(rs, text) && FaithfulRun(rs, actions)
    ensures SafeRun(rs, actions) && Played(rs, actions) == Wished(rs, actions)
  {
    TextsAreReadable(text);
    assert KeysOf(rs) == GetKeys(text);
    FaithfulIsSafe(rs, actions);
  }

  lemma {:induction false} FaithfulIsSafe(rs: seq<KeyRecord>, actions: seq<Action>)
    requires Readable(KeysOf(rs)) && FaithfulRun(rs, actions)
    ensures SafeRun(rs, actions) && Played(rs, actions) == Wished(rs, actions)
  {
    AgreesIff(rs, actions);
    if actions != [] { FaithfulIsSafe(rs, actions[..|actions| - 1]); }
  }

  // ----- The ways in which a run can differ -----

  /** A channel's only key, auto-disabled and then deleted, is an enabled key again. */
  method DeletedKeyComesBack(key: string, reason: string, now: int) returns (channel: Channel)
    requires Solid([key])
    ensures fresh(channel) && channel.Records() == [Fresh(key)]
  {
    KeysRoundTrip([key]);
    channel := new Channel(key, 1);
    assert channel.Records() == [Fresh(key)];
    var _ := channel.AutoDisable(key, reason, now);
    assert channel.Records() == [KeyRecord(key, AUTO_DISABLED, Some(now), Some(reason))];
    OneAuto(channel.Records()[0]);
    var _ := channel.DeleteDisabledKeys();
  }

  lemma OneAuto(r: KeyRecord)
    requires r.status == AUTO_DISABLED
    ensures WithoutAuto([r]) == [] && Reread([], [r]) == [Fresh(r.key)]
  {
    assert [r][..0] == [];
    WipedOutComesBack([r]);
  }

  /** Deleting the key before a blank one enables the auto-disabled key behind it. */
  method DeletionLosesAStatus(reason: string, now: int) returns (channel: Channel)
    ensures fresh(channel) && channel.Records() == [Fresh("b")]
  {
    BlankInside();
    channel := new Channel("a\n\nb", 3);
    assert channel.Records() == [Fresh("a"), Fresh(""), Fresh("b")];
    MarksTheThird("a", "", "b", reason, now);
    var _ := channel.AutoDisable("b", reason, now);
    BlankEndIsLost(KeyRecord("b", AUTO_DISABLED, Some(now), Some(reason)));
    var _ := channel.DeleteKey(Some(0));
  }

  lemma MarksTheThird(x: string, y: string, z: string, reason: string, now: int)
    requires x != z && y != z
    ensures Expected([Fresh(x), Fresh(y), Fresh(z)], AutoDisable(z, reason, now)) ==
            [Fresh(x), Fresh(y), KeyRecord(z, AUTO_DISABLED, Some(now), Some(reason))]
  {
    FindIs([Fresh(x), Fresh(y), Fresh(z)], z, 2);
  }

  lemma BlankInside()
    ensures GetKeys("a\n\nb") == ["a", "", "b"]
  {
    KeysRoundTrip(["a", "", "b"]);
    assert Join(["a", "", "b"], '\n') == "a\n\nb";
  }

  lemma BlankEndIsLost(b: KeyRecord)
    requires b.key == "b"
    ensures var rs := [Fresh("a"), Fresh(""), b];
            Without(rs, 0) == [Fresh(""), b] && Reread(Without(rs, 0), rs) == [Fresh("b")]
  {
    var rs := [Fresh("a"), Fresh(""), b];
    assert KeysOf([Fresh(""), b]) == ["", "b"];
    assert Join(["", "b"], '\n') == "\nb";
    KeysRoundTrip(["b"]);
    assert GetKeys("\nb") == ["b"];
  }

  /** A time and a reason that an automatic disable left behind are shown again by a manual one. */
  method StaleTimeComesBack(key: string, reason: string, now: int) returns (channel: Channel)
    requires Solid([key])
    ensures fresh(channel) && |channel.Records()| == 1 && channel.Records()[0].key == key
    ensures Show(channel.Records()[0]) == Shown(MANUALLY_DISABLED, now, reason)
  {
    KeysRoundTrip([key]);
    channel := new Channel(key, 1);
    assert channel.Records() == [Fresh(key)];
    OnOneKey(Fresh(key), reason, now);
    var _ := channel.AutoDisable(key, reason, now);
    OnOneKey(KeyRecord(key, AUTO_DISABLED, Some(now), Some(reason)), reason, now);
    var _ := channel.AutoEnable(key);
    OnOneKey(KeyRecord(key, ENABLED, Some(now), Some(reason)), reason, now);
    var _ := channel.DisableKey(Some(0));
  }

  lemma OnOneKey(r: KeyRecord, reason: string, now: int)
    ensures Expected([r], AutoDisable(r.key, reason, now)) == [KeyRecord(r.key, AUTO_DISABLED, Some(now), Some(reason))]
    ensures Expected([r], AutoEnable(r.key)) == [r.(status := ENABLED)]
    ensures Expected([r], DisableKey(0)) == [r.(status := MANUALLY_DISABLED)]
  {
  }

  // ----- Whose time and reason a key shows -----

  /** The indices of the records that deleting the disabled keys keeps. */
  function Survivors(rs: seq<KeyRecord>): (out: seq<nat>)
    ensures |out| == |WithoutAuto(rs)|
    ensures forall k :: 0 <= k < |out| ==> out[k] < |rs| && WithoutAuto(rs)[k] == Kept(rs[out[k]])
  {
    if rs == [] then []
    else Survivors(rs[..|rs| - 1]) + if rs[|rs| - 1].status == AUTO_DISABLED then [] else [|rs| - 1]
  }

  /** The action disables the key at index `i` automatically. */
  predicate Marks(rs: seq<KeyRecord>, a: Action, i: nat)
  {
    a.AutoDisable? && i < |rs| && Find(rs, a.key) == i
  }

  /** The index whose time and reason are at index `i` after an action; none if it clears them or the key is new. */
  function Origin(rs: seq<KeyRecord>, a: Action, i: nat): (k: Option<nat>)
    requires i < |Actual(rs, a)|
    ensures k.Some? ==> k.value < |rs|
  {
    match a
    case EnableKey(j) => if j == i then None else Some(i)
    case EnableAll => None
    case DeleteKey(j) =>
      if !(0 <= j < |rs| && |rs| > 1) then Some(i)
      else if i >= |rs| - 1 then None else if i < j then Some(i) else Some(i + 1)
    case DeleteDisabled =>
      if |WithoutAuto(rs)| == |rs| then Some(i)
      else if i >= |WithoutAuto(rs)| || rs[Survivors(rs)[i]].status == ENABLED then None
      else Some(Survivors(rs)[i])
    case Append(_) => if i < |rs| then Some(i) else None
    case _ => Some(i)
  }

  /** The time and reason a key was last marked with automatically, if nothing cleared them since. */
  function LastMark(rs: seq<KeyRecord>, actions: seq<Action>, i: nat): (Option<int>, Option<string>)
    requires i < |Played(rs, actions)|
    decreases |actions|
  {
    if actions == [] then (rs[i].time, rs[i].reason)
    else
      var before, a := Played(rs, actions[..|actions| - 1]), actions[|actions| - 1];
      if Marks(before, a, i) then (Some(a.now), Some(a.reason))
      else
        var k := Origin(before, a, i);
        if k.None? then (None, None) else LastMark(rs, actions[..|actions| - 1], k.value)
  }

  /** The entries of `r` are those of the record at `k`, or none. */
  predicate CarriesOver(r: KeyRecord, rs: seq<KeyRecord>, k: Option<nat>)
    requires k.Some? ==> k.value < |rs|
  {
    if k.None? then r.time == None && r.reason == None
    else r.time == rs[k.value].time && r.reason == rs[k.value].reason
  }

  lemma OneActionBack(rs: seq<KeyRecord>, a: Action, i: nat)
    requires i < |Actual(rs, a)|
    ensures var r := Actual(rs, a)[i];
            if Marks(rs, a, i) then r.time == Some(a.now) && r.reason == Some(a.reason)
            else CarriesOver(r, rs, Origin(rs, a, i))
  {
    match a
    case DeleteKey(j) =>
      if 0 <= j < |rs| && |rs| > 1 { DeletedBack(rs, j, i, KeysRead(KeysOf(Without(rs, j)), KeysOf(rs))); }
    case DeleteDisabled => DisabledDeletedBack(rs, i, KeysRead(KeysOf(WithoutAuto(rs)), KeysOf(rs)));
    case Append(text) =>
      var wished := rs + AllNew(NewKeys(KeysOf(rs), Split(text, '\n')));
      AppendedBack(rs, wished, i, KeysRead(KeysOf(wished), KeysOf(rs)));
    case _ => OtherBack(rs, a, i);
  }

  lemma AppendedBack(rs: seq<KeyRecord>, wished: seq<KeyRecord>, i: nat, keys: seq<string>)
    requires rs <= wished && forall k :: |rs| <= k < |wished| ==> wished[k] == Fresh(wished[k].key)
    ensures i < |keys| ==> CarriesOver(Rekeyed(wished, keys)[i], rs, if i < |rs| then Some(i) else None)
  {
  }

  lemma OtherBack(rs: seq<KeyRecord>, a: Action, i: nat)
    requires !a.DeleteKey? && !a.DeleteDisabled? && !a.Append? && i < |Expected(rs, a)|
    ensures var r := Expected(rs, a)[i];
            if Marks(rs, a, i) then r.time == Some(a.now) && r.reason == Some(a.reason)
            else CarriesOver(r, rs, Origin(rs, a, i))
  {
  }

  lemma DeletedBack(rs: seq<KeyRecord>, j: nat, i: nat, keys: seq<string>)
    requires i < |keys| && j < |rs|
    ensures var r := Rekeyed(Without(rs, j), keys)[i];
            if i >= |rs| - 1 then r.time == None && r.reason == None
            else var k := if i < j then i else i + 1; r.time == rs[k].time && r.reason == rs[k].reason
  {
    if i < |rs| - 1 { WithoutAt(rs, j, i); }
  }

  lemma WithoutAt(rs: seq<KeyRecord>, j: nat, i: nat)
    requires j < |rs| && i < |rs| - 1
    ensures Without(rs, j)[i] == rs[if i < j then i else i + 1]
  {
  }

  lemma DisabledDeletedBack(rs: seq<KeyRecord>, i: nat, keys: seq<string>)
    ensures i < |keys| ==>
              var r := Rekeyed(WithoutAuto(rs), keys)[i];
              if i >= |WithoutAuto(rs)| || rs[Survivors(rs)[i]].status == ENABLED
              then r.time == None && r.reason == None
              else r.time == rs[Survivors(rs)[i]].time && r.reason == rs[Survivors(rs)[i]].reason
  {
    if i < |WithoutAuto(rs)| { assert WithoutAuto(rs)[i] == Kept(rs[Survivors(rs)[i]]); }
  }

  /**
   In every run a key carries the time and reason of the last automatic disable
   that nothing cleared since, through every re-indexing, and shows them however
   it was disabled last.
   */
  lemma {:induction false} ShowsTheLastMark(rs: seq<KeyRecord>, actions: seq<Action>, i: nat)
    requires i < |Played(rs, actions)|
    ensures var r, mark := Played(rs, actions)[i], LastMark(rs, actions, i);
            && r.time == mark.0 && r.reason == mark.1
            && (r.status != ENABLED ==>
                  Show(r) == Shown(r.status, if mark.0.Some? then mark.0.value else 0,
                                   if mark.1.Some? then mark.1.value else ""))
    decreases |actions|
  {
    if actions != [] {
      var init, a := actions[..|actions| - 1], actions[|actions| - 1];
      var before := Played(rs, init);
      OneActionBack(before, a, i);
      var k := Origin(before, a, i);
      if k.Some? { ShowsTheLastMark(rs, init, k.value); }
    }
  }

  // ----- Creating a channel -----

  /** The lines of a submitted text, trimmed; a line of blanks becomes a blank key. */
  function CleanKeys(lines: seq<string>): seq<string>
  {
    if lines == [] then []
    else CleanKeys(lines[..|lines| - 1]) + if lines[|lines| - 1] == "" then [] else [TrimSpace(lines[|lines| - 1])]
  }

  /**
   A multi-key channel is created unless its text comes out empty, and its size
   is the number of its keys exactly when neither the first nor the last is blank.
   */
  method AddChannel(text: string) returns (channel: Option<Channel>)
    ensures var keys := CleanKeys(Split(text, '\n'));
            && (channel.None? <==> keys == [] || keys == [""])
            && (channel.Some? ==>
                  && fresh(channel.value) && channel.value.key == Join(keys, '\n') && channel.value.size == |keys|
                  && channel.value.Records() == AllNew(GetKeys(Join(keys, '\n')))
                  && (channel.value.Valid() <==> keys[0] != "" && keys[|keys| - 1] != ""))
  {
    var lines := Split(text, '\n');
    var cleanKeys: seq<string> := [];
    for i := 0 to |lines|
      invariant cleanKeys == CleanKeys(lines[..i])
    {
      assert lines[..i + 1][..i] == lines[..i];
      if lines[i] == "" { continue; }
      cleanKeys := cleanKeys + [TrimSpace(lines[i])];
    }
    assert lines[..|lines|] == lines;
    CreatedSize(lines);
    var key := Join(cleanKeys, '\n');
    if key == "" { return None; }
    var c := new Channel(key, |cleanKeys|);
    return Some(c);
  }

  lemma {:induction false} CleanKeysAreLines(lines: seq<string>)
    requires Lines(lines)
    ensures Lines(CleanKeys(lines))
  {
    if lines != [] {
      CleanKeysAreLines(lines[..|lines| - 1]);
      TrimIsTrimmed(lines[|lines| - 1], IsSpace);
    }
  }

  lemma CreatedSize(lines: seq<string>)
    requires Lines(lines)
    ensures var keys := CleanKeys(lines);
            && (Join(keys, '\n') == "" <==> keys == [] || keys == [""])
            && (Join(keys, '\n') != "" ==>
                  (|GetKeys(Join(keys, '\n'))| == |keys| <==> keys[0] != "" && keys[|keys| - 1] != ""))
  {
    var keys := CleanKeys(lines);
    CleanKeysAreLines(lines);
    if keys != [] {
      TextIsBlank(keys);
      if Join(keys, '\n') != "" { SizeIff(keys); }
    }
  }

  /** A blank end makes the list that is read back shorter. */
  lemma SizeIff(keys: seq<string>)
    requires |keys| > 0 && Lines(keys) && keys != [""]
    ensures |GetKeys(Join(keys, '\n'))| == |keys| <==> keys[0] != "" && keys[|keys| - 1] != ""
  {
    TextIsBlank(keys);
    KeysRoundTrip(keys);
    if keys[0] == "" || keys[|keys| - 1] == "" { BlankEndShortens(keys); }
  }

  function Breaks(s: string): nat
  {
    if s == "" then 0 else Breaks(s[1..]) + if s[0] == '\n' then 1 else 0
  }

  lemma {:induction false} BreaksConcat(a: string, b: string)
    ensures Breaks(a + b) == Breaks(a) + Breaks(b)
  {
    if a == "" {
      assert a + b == b;
    } else {
      assert (a + b)[1..] == a[1..] + b;
      BreaksConcat(a[1..], b);
    }
  }

  lemma {:induction false} SplitBreaks(s: string)
    ensures |Split(s, '\n')| == Breaks(s) + 1
  {
    if s != "" { SplitBreaks(s[1..]); }
  }

  lemma {:induction false} TrimLeftBreaks(s: string)
    ensures Breaks(TrimLeft(s, IsNewline)) <= Breaks(s)
    ensures s != "" && s[0] == '\n' ==> Breaks(TrimLeft(s, IsNewline)) < Breaks(s)
  {
    if s != "" { TrimLeftBreaks(s[1..]); }
  }

  lemma {:induction false} TrimRightBreaks(s: string)
    ensures Breaks(TrimRight(s, IsNewline)) <= Breaks(s)
    ensures s != "" && s[|s| - 1] == '\n' ==> Breaks(TrimRight(s, IsNewline)) < Breaks(s)
  {
    if s != "" {
      var init, last := s[..|s| - 1], s[|s| - 1..];
      TrimRightBreaks(init);
      assert s == init + last && last[1..] == "";
      BreaksConcat(init, last);
    }
  }

  /** Text that starts or ends with a newline reads back as fewer keys than it has lines. */
  lemma TrimmedBreaks(s: string)
    requires s != "" && (s[0] == '\n' || s[|s| - 1] == '\n')
    ensures Breaks(Trim(s, IsNewline)) < Breaks(s)
  {
    TrimLeftBreaks(s);
    TrimRightBreaks(TrimLeft(s, IsNewline));
    if s[0] != '\n' { assert TrimLeft(s, IsNewline) == s; }
  }

  lemma {:induction false} JoinBreaks(keys: seq<string>)
    requires |keys| > 0 && Lines(keys)
    ensures Breaks(Join(keys, '\n')) == |keys| - 1
  {
    SplitJoin(keys, '\n');
    SplitBreaks(Join(keys, '\n'));
  }

  lemma BlankEndShortens(keys: seq<string>)
    requires |keys| > 1 && Lines(keys) && (keys[0] == "" || keys[|keys| - 1] == "")
    ensures |GetKeys(Join(keys, '\n'))| < |keys|
  {
    var text := Join(keys, '\n');
    JoinBreaks(keys);
    BlankEndsShow(keys);
    TrimmedBreaks(text);
    SplitBreaks(Trim(text, IsNewline));
  }

  lemma {:induction false} BlankEndsShow(keys: seq<string>)
    requires |keys| > 1
    ensures var text := Join(keys, '\n');
            text != "" && (keys[0] == "" ==> text[0] == '\n') && (keys[|keys| - 1] == "" ==> text[|text| - 1] == '\n')
  {
    if |keys| > 2 { BlankEndsShow(keys[1..]); }
  }

  /** A trailing line of blanks: two keys are counted and one is read back. */
  method CreatedTooLarge() returns (channel: Option<Channel>)
    ensures channel.Some? && fresh(channel.value) && channel.value.key == "a\n"
    ensures channel.value.size == 2 && GetKeys(channel.value.key) == ["a"]
  {
    SplitExample();
    channel := AddChannel("a\n ");
  }

  lemma SplitExample()
    ensures CleanKeys(Split("a\n ", '\n')) == ["a", ""] && Join(["a", ""], '\n') == "a\n" && GetKeys("a\n") == ["a"]
  {
    SplitJoin(["a", " "], '\n');
    assert Join(["a", " "], '\n') == "a\n ";
    TrimFixed("a", IsSpace);
    assert TrimSpace(" ") == "";
    assert ["a", " "][..1] == ["a"] && ["a"][..0] == [];
    assert Join(["a", ""], '\n') == "a\n";
    TrimPadded("", "a", "\n", IsNewline);
    assert "" + "a" + "\n" == "a\n";
    SplitWithout("a", '\n');
  }

  /** A key list as the operator sees it. */
  function Visible(rs: seq<KeyRecord>): (out: seq<(string, Shown)>)
    ensures |out| == |rs| && forall i :: 0 <= i < |rs| ==> out[i] == (rs[i].key, Show(rs[i]))
  {
    seq(|rs|, i requires 0 <= i < |rs| => (rs[i].key, Show(rs[i])))
  }

  function DropAuto(shown: seq<(string, Shown)>): seq<(string, Shown)>
  {
    if shown == [] then []
    else (if shown[0].1.status == AUTO_DISABLED then [] else [shown[0]]) + DropAuto(shown[1..])
  }

  lemma {:induction false} DropAutoPush(shown: seq<(string, Shown)>, last: (string, Shown))
    ensures DropAuto(shown + [last]) == DropAuto(shown) + if last.1.status == AUTO_DISABLED then [] else [last]
  {
    if shown == [] {
      assert shown + [last] == [last];
    } else {
      DropAutoPush(shown[1..], last);
      assert (shown + [last])[1..] == shown[1..] + [last];
    }
  }

  /** Deletion keeps exactly the records that are not auto-disabled, in order, and shows them as before. */
  lemma {:induction false} WithoutAutoIs(rs: seq<KeyRecord>)
    ensures forall r :: r in WithoutAuto(rs) <==> exists r' :: r' in rs && r'.status != AUTO_DISABLED && r == Kept(r')
    ensures Visible(WithoutAuto(rs)) == DropAuto(Visible(rs))
  {
    if rs != [] {
      var init, last := rs[..|rs| - 1], rs[|rs| - 1];
      WithoutAutoIs(init);
      assert rs == init + [last];
      DropAutoPush(Visible(init), (last.key, Show(last)));
      assert Visible(rs) == Visible(init) + [(last.key, Show(last))];
    }
  }
}
