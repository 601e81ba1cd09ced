/**
 Reconciling a channel's model list with its upstream
 (controller/channel_upstream_update.go): ordered-set operations on model
 names, detection of pending changes, and applying the changes an operator
 selects. Regular expressions are an arbitrary predicate.
 */
module Upstream {
  import opened Basics
  import opened Text

  // ----- Ordered sets of model names -----

  /** Trimmed, non-blank, first occurrences only. */
  function Normalize(models: seq<string>): seq<string>
  {
    if models == [] then []
    else
      var before := Normalize(models[..|models| - 1]);
      var model := TrimSpace(models[|models| - 1]);
      if model == "" || model in before then before else before + [model]
  }

  function Names(models: seq<string>): set<string>
  {
    set m | m in models
  }

  function Without(models: seq<string>, gone: set<string>): seq<string>
  {
    if models == [] then []
    else
      var m := models[|models| - 1];
      Without(models[..|models| - 1], gone) + if m in gone then [] else [m]
  }

  function Within(models: seq<string>, kept: set<string>): seq<string>
  {
    Without(models, Names(models) - kept)
  }

  function Merge(base: seq<string>, appended: seq<string>): seq<string>
  {
    Normalize(base) + Without(Normalize(appended), Names(Normalize(base)))
  }

  function Subtract(base: seq<string>, removed: seq<string>): seq<string>
  {
    Without(Normalize(base), Names(Normalize(removed)))
  }

  function Intersect(base: seq<string>, allowed: seq<string>): seq<string>
  {
    Within(Normalize(base), Names(Normalize(allowed)))
  }

  /** Adding wins when a model is in both lists. */
  function ApplySelected(origin: seq<string>, add: seq<string>, remove: seq<string>): seq<string>
  {
    Subtract(Merge(origin, Normalize(add)), Subtract(Normalize(remove), Normalize(add)))
  }

  method MergeModelNames(base: seq<string>, appended: seq<string>) returns (merged: seq<string>)
    ensures merged == Merge(base, appended)
  {
    NormalizeIsNormal(appended);
    merged := AppendUnseen(Normalize(base), Normalize(appended));
  }

  /** The merge loop. */
  method AppendUnseen(first: seq<string>, extra: seq<string>) returns (merged: seq<string>)
    requires Normal(extra)
    ensures merged == first + Without(extra, Names(first))
  {
    merged := first;
    var seen := Names(first);
    for i := 0 to |extra|
      invariant merged == first + Without(extra[..i], Names(first))
      invariant seen == Names(first) + Names(extra[..i])
    {
      WithoutNext(extra, i, Names(first));
      if extra[i] in seen {
        continue;
      }
      seen := seen + {extra[i]};
      merged := merged + [extra[i]];
    }
    assert extra[..|extra|] == extra;
  }

  lemma WithoutNext(models: seq<string>, i: nat, gone: set<string>)
    requires i < |models| && Normal(models)
    ensures Without(models[..i + 1], gone) == Without(models[..i], gone) + if models[i] in gone then [] else [models[i]]
    ensures Names(models[..i + 1]) == Names(models[..i]) + {models[i]} && models[i] !in Names(models[..i])
  {
    assert models[..i + 1][..i] == models[..i];
    assert models[..i + 1] == models[..i] + [models[i]];
  }

  ghost predicate Normal(models: seq<string>)
  {
    && (forall i, j :: 0 <= i < j < |models| ==> models[i] != models[j])
    && Clean(models)
  }

  ghost predicate Clean(models: seq<string>)
  {
    forall i :: 0 <= i < |models| ==> models[i] != "" && TrimSpace(models[i]) == models[i]
  }

  lemma {:induction false} NormalizeIsNormal(models: seq<string>)
    ensures Normal(Normalize(models))
  {
    if models != [] {
      NormalizeIsNormal(models[..|models| - 1]);
      TrimIsTrimmed(models[|models| - 1], IsSpace);
      TrimFixed(TrimSpace(models[|models| - 1]), IsSpace);
    }
  }

  lemma {:induction false} NormalizeFixed(models: seq<string>)
    requires Normal(models)
    ensures Normalize(models) == models
  {
    if models != [] {
      var init, m := models[..|models| - 1], models[|models| - 1];
      NormalizeFixed(init);
      assert m !in init;
      assert models == init + [m];
    }
  }

  /** A normalized list holds exactly the trimmed, non-blank entries of the original. */
  lemma {:induction false} NormalizeNames(models: seq<string>, name: string)
    ensures name in Normalize(models) <==> name != "" && exists i :: 0 <= i < |models| && TrimSpace(models[i]) == name
  {
    if models != [] {
      var init := models[..|models| - 1];
      NormalizeNames(init, name);
      assert models == init + [models[|models| - 1]];
    }
  }

  lemma NamesConcat(a: seq<string>, b: seq<string>)
    ensures Names(a + b) == Names(a) + Names(b)
  {
    assert forall m :: m in a + b <==> m in a || m in b;
  }

  lemma NormalConcat(a: seq<string>, b: seq<string>)
    requires Normal(a) && Normal(b) && Names(a) !! Names(b)
    ensures Normal(a + b)
  {
    forall i, j | 0 <= i < j < |a + b|
      ensures (a + b)[i] != (a + b)[j]
    {
      if i < |a| <= j { assert a[i] in Names(a) && b[j - |a|] in Names(b); }
    }
  }

  lemma {:induction false} WithoutNames(models: seq<string>, gone: set<string>)
    ensures Names(Without(models, gone)) == Names(models) - gone
  {
    if models != [] {
      var init, m := models[..|models| - 1], models[|models| - 1];
      WithoutNames(init, gone);
      assert models == init + [m];
      NamesConcat(init, [m]);
      NamesConcat(Without(init, gone), if m in gone then [] else [m]);
    }
  }

  lemma {:induction false} WithoutNormal(models: seq<string>, gone: set<string>)
    requires Normal(models)
    ensures Normal(Without(models, gone))
  {
    if models != [] {
      var init, m := models[..|models| - 1], models[|models| - 1];
      WithoutNormal(init, gone);
      WithoutNames(init, gone);
      assert m !in Names(init);
      if m !in gone { NormalConcat(Without(init, gone), [m]); }
    }
  }

  lemma {:induction false} WithoutNone(models: seq<string>, gone: set<string>)
    requires Names(models) !! gone
    ensures Without(models, gone) == models
  {
    if models != [] {
      var init, m := models[..|models| - 1], models[|models| - 1];
      assert models == init + [m];
      assert m in Names(models);
      assert Names(init) <= Names(models);
      WithoutNone(init, gone);
    }
  }

  lemma {:induction false} WithoutConcat(a: seq<string>, b: seq<string>, gone: set<string>)
    ensures Without(a + b, gone) == Without(a, gone) + Without(b, gone)
  {
    if b == [] {
      assert a + b == a;
    } else {
      assert (a + b)[..|a + b| - 1] == a + b[..|b| - 1];
      WithoutConcat(a, b[..|b| - 1], gone);
    }
  }

  /** Every operation yields a normalized list with the names its name promises. */
  lemma OperationNames(a: seq<string>, b: seq<string>)
    ensures Normal(Merge(a, b)) && Names(Merge(a, b)) == Names(Normalize(a)) + Names(Normalize(b))
    ensures Normal(Subtract(a, b)) && Names(Subtract(a, b)) == Names(Normalize(a)) - Names(Normalize(b))
    ensures Normal(Intersect(a, b)) && Names(Intersect(a, b)) == Names(Normalize(a)) * Names(Normalize(b))
  {
    var na, nb := Normalize(a), Normalize(b);
    NormalizeIsNormal(a);
    NormalizeIsNormal(b);
    WithoutNames(nb, Names(na));
    WithoutNormal(nb, Names(na));
    NormalConcat(na, Without(nb, Names(na)));
    NamesConcat(na, Without(nb, Names(na)));
    WithoutNames(na, Names(nb));
    WithoutNormal(na, Names(nb));
    WithoutNames(na, Names(na) - Names(nb));
    WithoutNormal(na, Names(na) - Names(nb));
  }

  lemma OnNormal(a: seq<string>, b: seq<string>)
    requires Normal(a) && Normal(b)
    ensures Merge(a, b) == a + Without(b, Names(a))
    ensures Subtract(a, b) == Without(a, Names(b))
    ensures Intersect(a, b) == Within(a, Names(b))
  {
    NormalizeFixed(a);
    NormalizeFixed(b);
  }

  /** The next list is the survivors in their order, followed by the genuinely new models in theirs. */
  lemma SelectedInOrder(origin: seq<string>, add: seq<string>, remove: seq<string>)
    requires Normal(origin) && Normal(add) && Normal(remove)
    ensures ApplySelected(origin, add, remove) ==
            Without(origin, Names(remove) - Names(add)) + Without(add, Names(origin))
  {
    NormalizeFixed(add);
    NormalizeFixed(remove);
    var extra, dropped := Without(add, Names(origin)), Without(remove, Names(add));
    OnNormal(origin, add);
    OnNormal(remove, add);
    WithoutNames(add, Names(origin));
    WithoutNormal(add, Names(origin));
    WithoutNames(remove, Names(add));
    WithoutNormal(remove, Names(add));
    NormalConcat(origin, extra);
    OnNormal(origin + extra, dropped);
    WithoutConcat(origin, extra, Names(dropped));
    WithoutNone(extra, Names(dropped));
  }

  lemma SelectedNames(origin: seq<string>, add: seq<string>, remove: seq<string>)
    requires Normal(origin) && Normal(add) && Normal(remove)
    ensures Normal(ApplySelected(origin, add, remove))
    ensures Names(ApplySelected(origin, add, remove)) == Names(origin) - (Names(remove) - Names(add)) + Names(add)
  {
    SelectedInOrder(origin, add, remove);
    var gone := Names(remove) - Names(add);
    WithoutNames(origin, gone);
    WithoutNormal(origin, gone);
    WithoutNames(add, Names(origin));
    WithoutNormal(add, Names(origin));
    NormalConcat(Without(origin, gone), Without(add, Names(origin)));
    NamesConcat(Without(origin, gone), Without(add, Names(origin)));
  }

  // ----- A channel and its settings -----

  const REGEX_PREFIX := "regex:"

  predicate IsComma(c: char)
  {
    c == ','
  }

  /** `Channel.GetModels`. */
  function GetModels(text: string): seq<string>
  {
    if text == "" then [] else Split(Trim(text, IsComma), ',')
  }

  /** The model text and the upstream-update settings of a channel. */
  datatype Settings = Settings(models: string, ignored: seq<string>, detected: seq<string>, removed: seq<string>,
                               checkedAt: int)

  function Local(s: Settings): seq<string>
  {
    Normalize(GetModels(s.models))
  }

  /** What upstream offers and how names are redirected, held fixed between two detections. */
  datatype World = World(upstream: seq<string>, mapping: map<string, string>, matches: (string, string) -> bool)

  predicate IsRegex(entry: string)
  {
    |entry| >= 6 && entry[..6] == REGEX_PREFIX
  }

  predicate Ignores(w: World, entry: string, name: string)
  {
    if IsRegex(entry) then w.matches(TrimSpace(entry[6..]), name) else entry == name
  }

  predicate IsIgnored(w: World, entries: seq<string>, name: string)
  {
    exists e :: e in entries && Ignores(w, e, name)
  }

  /** The upstream models that are local already, behind a redirect, or ignored. */
  function Covered(w: World, upstream: seq<string>, local: seq<string>, ignored: seq<string>): set<string>
  {
    set m | m in upstream && (m in Normalize(local) || m in w.mapping.Values || IsIgnored(w, Normalize(ignored), m))
  }

  /** Upstream models neither local, nor behind a redirect, nor ignored. */
  function PendingAdd(w: World, local: seq<string>, ignored: seq<string>): seq<string>
  {
    var upstream := Normalize(w.upstream);
    Without(upstream, Covered(w, upstream, local, ignored))
  }

  /** Local models upstream no longer has, redirect sources excepted. */
  function PendingRemove(w: World, local: seq<string>): seq<string>
  {
    var models := Normalize(local);
    Without(models, set m | m in models && (m in w.mapping || m in Normalize(w.upstream)))
  }

  /** A forced check whose fetch succeeds, without automatic apply. */
  function Detected(w: World, s: Settings, now: int): Settings
  {
    s.(detected := PendingAdd(w, GetModels(s.models), s.ignored), removed := PendingRemove(w, GetModels(s.models)),
       checkedAt := now)
  }

  datatype Applied = Applied(settings: Settings, added: seq<string>, removed: seq<string>, changed: bool)

  function Adding(s: Settings, add: seq<string>): seq<string>
  {
    Intersect(add, Normalize(s.detected))
  }

  function Removing(s: Settings, add: seq<string>, remove: seq<string>): seq<string>
  {
    Subtract(Intersect(remove, Normalize(s.removed)), Adding(s, add))
  }

  function IgnoredNext(ignored: seq<string>, adding: seq<string>, ignoring: seq<string>): seq<string>
  {
    var merged := Merge(ignored, ignoring);
    if adding != [] then Subtract(merged, adding) else merged
  }

  function Apply(s: Settings, add: seq<string>, ignore: seq<string>, remove: seq<string>, now: int): Applied
  {
    var adding, ignoring, removing := Adding(s, add), Adding(s, ignore), Removing(s, add, remove);
    var origin := Local(s);
    var next := ApplySelected(origin, adding, removing);
    Applied(Settings(if origin != next then Join(next, ',') else s.models,
                     IgnoredNext(s.ignored, adding, ignoring),
                     Subtract(Normalize(s.detected), adding + ignoring),
                     Subtract(Normalize(s.removed), removing),
                     now),
            adding, removing, origin != next)
  }

  class Channel {
    var models: string
    var ignored: seq<string>
    var detected: seq<string>
    var removed: seq<string>
    var checkedAt: int

    function Stored(): Settings
      reads this
    {
      Settings(models, ignored, detected, removed, checkedAt)
    }

    constructor (s: Settings)
      ensures Stored() == s
    {
      models, ignored, detected, removed, checkedAt := s.models, s.ignored, s.detected, s.removed, s.checkedAt;
    }

    /** The per-channel check; `upstream` is the fetched list, or None when the fetch failed. */
    method Check(upstream: Option<seq<string>>, mapping: map<string, string>, matches: (string, string) -> bool,
                 force: bool, minInterval: int, autoSync: bool, now: int)
      returns (modelsChanged: bool, autoAdded: int, ok: bool)
      modifies this
      ensures var skipped := !force && old(checkedAt) > 0 && now - old(checkedAt) < minInterval;
              if skipped || upstream.None? then
                && !modelsChanged && autoAdded == 0 && ok == skipped
                && Stored() == if skipped then old(Stored()) else old(Stored()).(checkedAt := now)
              else
                var w := World(upstream.value, mapping, matches);
                var add := PendingAdd(w, GetModels(old(models)), old(ignored));
                && ok && modelsChanged == (autoSync && add != []) && autoAdded == (if modelsChanged then |add| else 0)
                && Stored() == if modelsChanged then Synced(w, old(Stored()), now) else Detected(w, old(Stored()), now)
    {
      modelsChanged, autoAdded, ok := false, 0, true;
      if !force && checkedAt > 0 && now - checkedAt < minInterval { return; }
      checkedAt := now;
      if upstream.None? { return false, 0, false; }
      var w := World(upstream.value, mapping, matches);
      var pendingAdd := PendingAdd(w, GetModels(models), ignored);
      var pendingRemove := PendingRemove(w, GetModels(models));
      if autoSync && |pendingAdd| > 0 {
        var origin := Normalize(GetModels(models));
        MergedIsLonger(w, models, ignored);
        var merged := MergeModelNames(origin, pendingAdd);
        if |merged| > |origin| {
          models := Join(merged, ',');
          autoAdded := |merged| - |origin|;
          modelsChanged := true;
        }
        detected := [];
      } else {
        detected := pendingAdd;
      }
      removed := pendingRemove;
    }

    method ApplyUpdates(addInput: seq<string>, ignoreInput: seq<string>, removeInput: seq<string>, now: int)
      returns (added: seq<string>, removed_: seq<string>, remaining: seq<string>, remainingRemove: seq<string>,
               modelsChanged: bool)
      modifies this
      ensures var a := Apply(old(Stored()), addInput, ignoreInput, removeInput, now);
              && Stored() == a.settings && added == a.added && removed_ == a.removed && modelsChanged == a.changed
              && remaining == a.settings.detected && remainingRemove == a.settings.removed
    {
      var pendingAdd := Normalize(detected);
      var pendingRemove := Normalize(removed);
      added := Intersect(addInput, pendingAdd);
      var ignoring := Intersect(ignoreInput, pendingAdd);
      removed_ := Intersect(removeInput, pendingRemove);
      removed_ := Subtract(removed_, added);
      assert added == Adding(old(Stored()), addInput) && ignoring == Adding(old(Stored()), ignoreInput);
      assert removed_ == Removing(old(Stored()), addInput, removeInput);
      var origin := Normalize(GetModels(models));
      var next := ApplySelected(origin, added, removed_);
      modelsChanged := origin != next;
      if modelsChanged {
        models := Join(next, ',');
      }
      ignored := MergeModelNames(ignored, ignoring);
      if |added| > 0 {
        ignored := Subtract(ignored, added);
      }
      remaining := Subtract(pendingAdd, added + ignoring);
      remainingRemove := Subtract(pendingRemove, removed_);
      detected := remaining;
      removed := remainingRemove;
      checkedAt := now;
    }
  }

  // ----- Model text -----

  ghost predicate CommaFree(models: seq<string>)
  {
    forall i :: 0 <= i < |models| ==> ',' !in models[i]
  }

  /** A normalized list survives being stored as text exactly when no name contains a comma. */
  lemma ModelsRoundTrip(models: seq<string>)
    requires Normal(models)
    ensures GetModels(Join(models, ',')) == models <==> CommaFree(models)
  {
    if models != [] && CommaFree(models) {
      JoinEnds(models, ',');
      TrimFixed(Join(models, ','), IsComma);
      SplitJoin(models, ',');
    }
  }

  lemma {:induction false} NormalizeKeepsCommaFree(models: seq<string>)
    requires CommaFree(models)
    ensures CommaFree(Normalize(models))
  {
    if models != [] {
      NormalizeKeepsCommaFree(models[..|models| - 1]);
      TrimIsTrimmed(models[|models| - 1], IsSpace);
    }
  }

  lemma LocalIsCommaFree(s: Settings)
    ensures CommaFree(Local(s)) && Normal(Local(s))
  {
    NormalizeKeepsCommaFree(GetModels(s.models));
    NormalizeIsNormal(GetModels(s.models));
  }

  lemma CommaFreeConcat(a: seq<string>, b: seq<string>, c: seq<string>)
    requires CommaFree(a) && CommaFree(b) && Names(c) <= Names(a) + Names(b)
    ensures CommaFree(c)
  {
    forall i | 0 <= i < |c|
      ensures ',' !in c[i]
    {
      assert c[i] in Names(c);
    }
  }

  // ----- What applying does, for any lists the operator sends -----

  lemma SelectionNames(s: Settings, add: seq<string>, remove: seq<string>)
    ensures Normal(Adding(s, add)) && Names(Adding(s, add)) == Names(Normalize(add)) * Names(Normalize(s.detected))
    ensures Normal(Removing(s, add, remove))
    ensures Names(Removing(s, add, remove)) ==
            Names(Normalize(remove)) * Names(Normalize(s.removed)) - Names(Adding(s, add))
  {
    NormalizeIsNormal(s.detected);
    NormalizeFixed(Normalize(s.detected));
    OperationNames(add, Normalize(s.detected));
    NormalizeIsNormal(s.removed);
    NormalizeFixed(Normalize(s.removed));
    OperationNames(remove, Normalize(s.removed));
    var a, r := Adding(s, add), Intersect(remove, Normalize(s.removed));
    NormalizeFixed(a);
    NormalizeFixed(r);
    OperationNames(r, a);
  }

  /**
   Nothing is added or removed that was not staged and adding wins over
   removing. Survivors keep their order ahead of the new models, exactly when no
   added name contains a comma, and then the change flag says whether the set of
   models changed.
   */
  lemma AppliesOnlyWhatWasStaged(s: Settings, add: seq<string>, ignore: seq<string>, remove: seq<string>, now: int)
    ensures var a := Apply(s, add, ignore, remove, now);
            && Names(a.added) == Names(Normalize(add)) * Names(Normalize(s.detected))
            && Names(a.removed) == Names(Normalize(remove)) * Names(Normalize(s.removed)) - Names(a.added)
            && (Local(a.settings) == Without(Local(s), Names(a.removed)) + Without(a.added, Names(Local(s))) <==>
                CommaFree(a.added))
            && (CommaFree(a.added) ==> (a.changed <==> Names(Local(a.settings)) != Names(Local(s))))
  {
    SelectionNames(s, add, remove);
    if CommaFree(Adding(s, add)) {
      AppliedInOrder(s, add, ignore, remove, now);
    } else {
      AddedCommaIsLost(s, Adding(s, add), Apply(s, add, ignore, remove, now).settings,
                       Without(Local(s), Names(Removing(s, add, remove))));
    }
  }

  /** A stored list never holds a name with a comma, so it is not the list such a name was added to. */
  lemma AddedCommaIsLost(s: Settings, adding: seq<string>, after: Settings, survivors: seq<string>)
    requires !CommaFree(adding)
    ensures Local(after) != survivors + Without(adding, Names(Local(s)))
  {
    var i :| 0 <= i < |adding| && ',' in adding[i];
    LocalIsCommaFree(s);
    LocalIsCommaFree(after);
    assert adding[i] in Names(adding) && adding[i] !in Names(Local(s)) && adding[i] !in Local(after);
    WithoutNames(adding, Names(Local(s)));
    NamesConcat(survivors, Without(adding, Names(Local(s))));
    assert adding[i] in Names(survivors + Without(adding, Names(Local(s))));
  }

  lemma AppliedInOrder(s: Settings, add: seq<string>, ignore: seq<string>, remove: seq<string>, now: int)
    requires CommaFree(Adding(s, add))
    ensures var a := Apply(s, add, ignore, remove, now);
            && Local(a.settings) == Without(Local(s), Names(a.removed)) + Without(a.added, Names(Local(s)))
            && (a.changed <==> Names(Local(a.settings)) != Names(Local(s)))
  {
    var adding, removing, origin := Adding(s, add), Removing(s, add, remove), Local(s);
    SelectionNames(s, add, remove);
    LocalIsCommaFree(s);
    StoredAsText(s, add, ignore, remove, now);
    SelectedInOrder(origin, adding, removing);
    assert Names(removing) - Names(adding) == Names(removing);
    if Names(ApplySelected(origin, adding, removing)) == Names(origin) {
      SameNamesSameList(origin, adding, removing);
    }
  }

  lemma StoredAsText(s: Settings, add: seq<string>, ignore: seq<string>, remove: seq<string>, now: int)
    requires CommaFree(Adding(s, add))
    ensures Local(Apply(s, add, ignore, remove, now).settings) ==
            ApplySelected(Local(s), Adding(s, add), Removing(s, add, remove))
  {
    var adding, removing, origin := Adding(s, add), Removing(s, add, remove), Local(s);
    var next := ApplySelected(origin, adding, removing);
    SelectionNames(s, add, remove);
    LocalIsCommaFree(s);
    SelectedNames(origin, adding, removing);
    CommaFreeConcat(origin, adding, next);
    ModelsRoundTrip(next);
    NormalizeFixed(next);
  }

  /** A selection that leaves the set of models alone leaves the list alone. */
  lemma SameNamesSameList(origin: seq<string>, add: seq<string>, remove: seq<string>)
    requires Normal(origin) && Normal(add) && Normal(remove) && Names(add) !! Names(remove)
    requires Names(ApplySelected(origin, add, remove)) == Names(origin)
    ensures ApplySelected(origin, add, remove) == origin
  {
    SelectedInOrder(origin, add, remove);
    SelectedNames(origin, add, remove);
    var gone := Names(remove) - Names(add);
    assert Names(origin) !! gone by {
      assert forall m :: m in gone ==> m !in Names(add);
    }
    WithoutNone(origin, gone);
    WithoutNames(add, Names(origin));
    assert Names(Without(add, Names(origin))) == {};
    if Without(add, Names(origin)) != [] { HasNames(Without(add, Names(origin))); }
  }

  lemma HasNames(models: seq<string>)
    requires models != []
    ensures Names(models) != {}
  {
    assert models[0] in Names(models);
  }

  /**
   Staged additions split without loss into added, ignored and remaining;
   adding wins over ignoring, and what is added is no longer ignored.
   */
  lemma StagedSplits(s: Settings, add: seq<string>, ignore: seq<string>, remove: seq<string>, now: int)
    ensures var a := Apply(s, add, ignore, remove, now);
            var ignoring := Names(Normalize(ignore)) * Names(Normalize(s.detected));
            && Names(a.added) + ignoring + Names(a.settings.detected) == Names(Normalize(s.detected))
            && Names(a.settings.detected) !! Names(a.added) + ignoring
            && Names(a.settings.removed) == Names(Normalize(s.removed)) - Names(a.removed)
            && Names(a.settings.ignored) == Names(Normalize(s.ignored)) + ignoring - Names(a.added)
  {
    SelectionNames(s, add, remove);
    SelectionNames(s, ignore, remove);
    StagedSplitsInto(s, Adding(s, add), Adding(s, ignore));
    RemovalsLeft(s, add, remove);
    IgnoredAfter(s.ignored, Adding(s, add), Adding(s, ignore));
  }

  lemma StagedSplitsInto(s: Settings, adding: seq<string>, ignoring: seq<string>)
    requires Normal(adding) && Normal(ignoring) && Names(adding) + Names(ignoring) <= Names(Normalize(s.detected))
    ensures var left := Names(Subtract(Normalize(s.detected), adding + ignoring));
            && Names(adding) + Names(ignoring) + left == Names(Normalize(s.detected))
            && left !! Names(adding) + Names(ignoring)
  {
    StagedLeft(s, adding, ignoring);
  }

  lemma StagedLeft(s: Settings, adding: seq<string>, ignoring: seq<string>)
    requires Normal(adding) && Normal(ignoring)
    ensures Names(Subtract(Normalize(s.detected), adding + ignoring)) ==
            Names(Normalize(s.detected)) - (Names(adding) + Names(ignoring))
  {
    NormalizeIsNormal(s.detected);
    RemainingNames(Normalize(s.detected), adding, ignoring);
  }

  lemma RemainingNames(staged: seq<string>, adding: seq<string>, ignoring: seq<string>)
    requires Normal(staged) && Normal(adding) && Normal(ignoring)
    ensures Names(Subtract(staged, adding + ignoring)) == Names(staged) - (Names(adding) + Names(ignoring))
  {
    NormalizeFixed(staged);
    NormalizeFixed(adding);
    OperationNames(staged, adding + ignoring);
    NormalizeConcatNames(adding, ignoring);
  }

  lemma {:induction false} NormalizeConcatNames(a: seq<string>, b: seq<string>)
    requires Clean(b)
    ensures Names(Normalize(a + b)) == Names(Normalize(a)) + Names(b)
  {
    if b == [] {
      assert a + b == a;
    } else {
      var init, m := b[..|b| - 1], b[|b| - 1];
      assert Names(Normalize(a + b)) == Names(Normalize(a + init)) + {m} by {
        NormalizePush(a + init, m);
        assert a + b == (a + init) + [m];
      }
      assert Names(b) == Names(init) + {m} by {
        assert b == init + [m];
        NamesConcat(init, [m]);
      }
      NormalizeConcatNames(a, init);
    }
  }

  lemma NormalizePush(models: seq<string>, name: string)
    requires name != "" && TrimSpace(name) == name
    ensures Names(Normalize(models + [name])) == Names(Normalize(models)) + {name}
  {
    assert (models + [name])[..|models|] == models;
  }

  lemma RemovalsLeft(s: Settings, add: seq<string>, remove: seq<string>)
    ensures Names(Subtract(Normalize(s.removed), Removing(s, add, remove))) ==
            Names(Normalize(s.removed)) - Names(Removing(s, add, remove))
  {
    NormalizeIsNormal(s.removed);
    NormalizeFixed(Normalize(s.removed));
    SelectionNames(s, add, remove);
    NormalizeFixed(Removing(s, add, remove));
    OperationNames(Normalize(s.removed), Removing(s, add, remove));
  }

  lemma IgnoredAfter(ignored: seq<string>, adding: seq<string>, ignoring: seq<string>)
    requires Normal(adding) && Normal(ignoring)
    ensures Normal(IgnoredNext(ignored, adding, ignoring))
    ensures Names(IgnoredNext(ignored, adding, ignoring)) == Names(Normalize(ignored)) + Names(ignoring) - Names(adding)
  {
    OperationNames(ignored, ignoring);
    NormalizeFixed(ignoring);
    NormalizeFixed(adding);
    NormalizeFixed(Merge(ignored, ignoring));
    OperationNames(Merge(ignored, ignoring), adding);
  }

  // ----- Convergence -----

  lemma PendingAddNames(w: World, local: seq<string>, ignored: seq<string>)
    ensures Normal(PendingAdd(w, local, ignored))
    ensures forall m :: m in PendingAdd(w, local, ignored) <==>
              && m in Normalize(w.upstream) && m !in Normalize(local)
              && m !in w.mapping.Values && !IsIgnored(w, Normalize(ignored), m)
  {
    var upstream := Normalize(w.upstream);
    var gone := Covered(w, upstream, local, ignored);
    NormalizeIsNormal(w.upstream);
    WithoutNormal(upstream, gone);
    WithoutNames(upstream, gone);
    forall m
      ensures m in PendingAdd(w, local, ignored) <==> m in Names(upstream) - gone
    {
      assert m in PendingAdd(w, local, ignored) <==> m in Names(PendingAdd(w, local, ignored));
    }
  }

  lemma PendingRemoveNames(w: World, local: seq<string>)
    ensures Normal(PendingRemove(w, local))
    ensures forall m :: m in PendingRemove(w, local) <==>
              m in Normalize(local) && m !in w.mapping && m !in Normalize(w.upstream)
  {
    var models := Normalize(local);
    var gone := set m | m in models && (m in w.mapping || m in Normalize(w.upstream));
    NormalizeIsNormal(local);
    WithoutNormal(models, gone);
    WithoutNames(models, gone);
    forall m
      ensures m in PendingRemove(w, local) <==> m in Names(models) - gone
    {
      assert m in PendingRemove(w, local) <==> m in Names(PendingRemove(w, local));
    }
  }

  /** Applying everything that is staged, as the apply-all endpoint does. */
  function ApplyAll(s: Settings, now: int): Settings
  {
    Apply(s, Normalize(s.detected), [], Normalize(s.removed), now).settings
  }

  /** Nothing but an ignore entry keeps the model from being pending. */
  predicate Hides(w: World, s: Settings, m: string)
  {
    m !in Local(s) && m !in w.mapping.Values && IsIgnored(w, Normalize(s.ignored), m)
  }

  /** Every model an ignore entry hides stays hidden once the entries naming added models are dropped. */
  ghost predicate StaysHidden(w: World, s: Settings)
  {
    var added := PendingAdd(w, GetModels(s.models), s.ignored);
    forall m :: m in Normalize(w.upstream) && Hides(w, s, m) ==>
      exists e :: e in Normalize(s.ignored) && e !in added && Ignores(w, e, m)
  }

  /**
   Detecting, applying everything and detecting again leaves nothing pending,
   exactly when no pending name contains a comma and no model was hidden only by
   an ignore entry that applying drops.
   */
  lemma Converges(w: World, s: Settings, t1: int, t2: int, t3: int)
    ensures var again := Detected(w, ApplyAll(Detected(w, s, t1), t2), t3);
            again.detected == [] && again.removed == [] <==>
            CommaFree(PendingAdd(w, GetModels(s.models), s.ignored)) && StaysHidden(w, s)
  {
    if CommaFree(PendingAdd(w, GetModels(s.models), s.ignored)) {
      ConvergesUnlessUnhidden(w, s, t1, t2, t3);
    } else {
      CommaStaysPending(w, s, t1, t2);
    }
  }

  lemma CommaStaysPending(w: World, s: Settings, t1: int, t2: int)
    requires !CommaFree(PendingAdd(w, GetModels(s.models), s.ignored))
    ensures var s2 := ApplyAll(Detected(w, s, t1), t2); PendingAdd(w, GetModels(s2.models), s2.ignored) != []
  {
    var add := PendingAdd(w, GetModels(s.models), s.ignored);
    var i :| 0 <= i < |add| && ',' in add[i];
    assert add[i] in add;
    PendingAddNames(w, GetModels(s.models), s.ignored);
    var s2 := ApplyAll(Detected(w, s, t1), t2);
    assert !IsIgnored(w, Normalize(s2.ignored), add[i]) by { AppliedAllIgnored(w, s, t1, t2); }
    CommaNamesStayPending(w, s2, add[i]);
  }

  lemma ConvergesUnlessUnhidden(w: World, s: Settings, t1: int, t2: int, t3: int)
    requires CommaFree(PendingAdd(w, GetModels(s.models), s.ignored))
    ensures var again := Detected(w, ApplyAll(Detected(w, s, t1), t2), t3);
            again.detected == [] && again.removed == [] <==> StaysHidden(w, s)
  {
    NothingMoreToRemove(w, s, t1, t2);
    NothingMoreToAddIff(w, s, t1, t2);
  }

  lemma NothingMoreToRemove(w: World, s: Settings, t1: int, t2: int)
    requires CommaFree(PendingAdd(w, GetModels(s.models), s.ignored))
    ensures var s2 := ApplyAll(Detected(w, s, t1), t2); PendingRemove(w, GetModels(s2.models)) == []
  {
    var s2 := ApplyAll(Detected(w, s, t1), t2);
    AppliedAll(w, s, t1, t2);
    PendingAddNames(w, GetModels(s.models), s.ignored);
    PendingRemoveNames(w, GetModels(s.models));
    PendingRemoveNames(w, GetModels(s2.models));
    EmptyIff(PendingRemove(w, GetModels(s2.models)));
  }

  lemma NothingMoreToAddIff(w: World, s: Settings, t1: int, t2: int)
    requires CommaFree(PendingAdd(w, GetModels(s.models), s.ignored))
    ensures var s2 := ApplyAll(Detected(w, s, t1), t2);
            PendingAdd(w, GetModels(s2.models), s2.ignored) == [] <==> StaysHidden(w, s)
  {
    var s2 := ApplyAll(Detected(w, s, t1), t2);
    AppliedAll(w, s, t1, t2);
    AppliedAllIgnored(w, s, t1, t2);
    PendingAddNames(w, GetModels(s.models), s.ignored);
    PendingRemoveNames(w, GetModels(s.models));
    PendingAddNames(w, GetModels(s2.models), s2.ignored);
    EmptyIff(PendingAdd(w, GetModels(s2.models), s2.ignored));
  }

  lemma EmptyIff(models: seq<string>)
    ensures models == [] <==> forall m :: m !in models
  {
    if models != [] { assert models[0] in models; }
  }

  lemma AppliedAll(w: World, s: Settings, t1: int, t2: int)
    requires CommaFree(PendingAdd(w, GetModels(s.models), s.ignored))
    ensures var add, remove := PendingAdd(w, GetModels(s.models), s.ignored), PendingRemove(w, GetModels(s.models));
            forall m :: m in Local(ApplyAll(Detected(w, s, t1), t2)) <==> (m in Local(s) && m !in remove) || m in add
  {
    var s1 := Detected(w, s, t1);
    PendingAddNames(w, GetModels(s.models), s.ignored);
    PendingRemoveNames(w, GetModels(s.models));
    AppliedLocal(s1, t2);
    var s2 := ApplyAll(s1, t2);
    forall m
      ensures m in Local(s2) <==> (m in Local(s) && m !in s1.removed) || m in s1.detected
    {
      assert m in Local(s2) <==> m in Names(Local(s2));
    }
  }

  lemma AppliedAllIgnored(w: World, s: Settings, t1: int, t2: int)
    ensures var add := PendingAdd(w, GetModels(s.models), s.ignored);
            forall e :: e in Normalize(ApplyAll(Detected(w, s, t1), t2).ignored) <==>
              e in Normalize(s.ignored) && e !in add
  {
    var s1 := Detected(w, s, t1);
    PendingAddNames(w, GetModels(s.models), s.ignored);
    PendingRemoveNames(w, GetModels(s.models));
    AppliedIgnored(s1, t2);
    var s2 := ApplyAll(s1, t2);
    forall e
      ensures e in Normalize(s2.ignored) <==> e in Normalize(s.ignored) && e !in s1.detected
    {
      assert e in Normalize(s2.ignored) <==> e in Names(Normalize(s2.ignored));
    }
  }

  lemma AllSelected(s: Settings)
    requires Normal(s.detected) && Normal(s.removed) && Names(s.detected) !! Names(s.removed)
    ensures Normal(Adding(s, s.detected)) && Names(Adding(s, s.detected)) == Names(s.detected)
    ensures Normal(Removing(s, s.detected, s.removed)) && Names(Removing(s, s.detected, s.removed)) == Names(s.removed)
    ensures Normalize(s.detected) == s.detected && Normalize(s.removed) == s.removed
  {
    NormalizeFixed(s.detected);
    NormalizeFixed(s.removed);
    SelectionNames(s, s.detected, s.removed);
  }

  lemma AppliedLocal(s: Settings, now: int)
    requires Normal(s.detected) && Normal(s.removed) && Names(s.detected) !! Names(s.removed) && CommaFree(s.detected)
    ensures Names(Local(ApplyAll(s, now))) == Names(Local(s)) - Names(s.removed) + Names(s.detected)
  {
    var adding, removing := Adding(s, s.detected), Removing(s, s.detected, s.removed);
    AllSelected(s);
    CommaFreeConcat(s.detected, [], adding);
    StoredAsText(s, s.detected, [], s.removed, now);
    SelectedFromLocal(s, adding, removing);
  }

  lemma SelectedFromLocal(s: Settings, adding: seq<string>, removing: seq<string>)
    requires Normal(adding) && Normal(removing) && Names(adding) !! Names(removing)
    ensures Names(ApplySelected(Local(s), adding, removing)) == Names(Local(s)) - Names(removing) + Names(adding)
  {
    LocalIsCommaFree(s);
    SelectedNames(Local(s), adding, removing);
    assert Names(removing) - Names(adding) == Names(removing);
  }

  lemma AppliedIgnored(s: Settings, now: int)
    requires Normal(s.detected) && Normal(s.removed) && Names(s.detected) !! Names(s.removed)
    ensures Names(Normalize(ApplyAll(s, now).ignored)) == Names(Normalize(s.ignored)) - Names(s.detected)
  {
    AllSelected(s);
    SelectionNames(s, [], s.removed);
    IgnoredOnlyDrops(s.ignored, Adding(s, s.detected), Adding(s, []));
  }

  lemma IgnoredOnlyDrops(ignored: seq<string>, adding: seq<string>, ignoring: seq<string>)
    requires Normal(adding) && Normal(ignoring) && Names(ignoring) == {}
    ensures Names(Normalize(IgnoredNext(ignored, adding, ignoring))) == Names(Normalize(ignored)) - Names(adding)
  {
    IgnoredAfter(ignored, adding, ignoring);
    NormalizeFixed(IgnoredNext(ignored, adding, ignoring));
  }

  /** In particular it converges when no pending model bears the name of an ignore pattern. */
  lemma ConvergesWithoutPatternNames(w: World, s: Settings)
    requires forall e :: e in Normalize(s.ignored) && IsRegex(e) ==> e !in PendingAdd(w, GetModels(s.models), s.ignored)
    ensures StaysHidden(w, s)
  {
    PendingAddNames(w, GetModels(s.models), s.ignored);
  }

  /**
   An upstream model named like an ignore pattern, for instance "regex:x": adding
   it drops the pattern, and the other model it matched becomes pending.
   */
  lemma PatternNameDropsThePattern(w: World, s: Settings, pattern: string, hidden: string, t1: int, t2: int, t3: int)
    requires pattern in Normalize(w.upstream) && hidden in Normalize(w.upstream)
    requires pattern !in Local(s) && hidden !in Local(s) && pattern !in w.mapping.Values && hidden !in w.mapping.Values
    requires Normalize(s.ignored) == [pattern] && CommaFree(PendingAdd(w, GetModels(s.models), s.ignored))
    requires Ignores(w, pattern, hidden) && !Ignores(w, pattern, pattern)
    ensures !StaysHidden(w, s)
    ensures hidden !in Detected(w, s, t1).detected
    ensures hidden in Detected(w, ApplyAll(Detected(w, s, t1), t2), t3).detected
  {
    var add, s2 := PendingAdd(w, GetModels(s.models), s.ignored), ApplyAll(Detected(w, s, t1), t2);
    PendingAddNames(w, GetModels(s.models), s.ignored);
    assert pattern in Normalize(s.ignored) && pattern in add && hidden !in add;
    AppliedAll(w, s, t1, t2);
    assert !IsIgnored(w, Normalize(s2.ignored), hidden) by { AppliedAllIgnored(w, s, t1, t2); }
    PendingAddNames(w, GetModels(s2.models), s2.ignored);
  }

  predicate XMatchesY(pattern: string, name: string)
  {
    pattern == "x" && name == "y"
  }

  lemma PatternNameExample(t1: int, t2: int, t3: int)
    ensures var w, s := World(["regex:x", "y"], map[], XMatchesY), Settings("", ["regex:x"], [], [], 0);
            && "y" !in Detected(w, s, t1).detected
            && "y" in Detected(w, ApplyAll(Detected(w, s, t1), t2), t3).detected
  {
    var w, s := World(["regex:x", "y"], map[], XMatchesY), Settings("", ["regex:x"], [], [], 0);
    ExampleIsNormal();
    ExampleHides(w);
    assert Local(s) == [];
    assert w.upstream[0] in w.upstream && w.upstream[1] in w.upstream;
    ExampleIsCommaFree(w, s);
    PatternNameDropsThePattern(w, s, "regex:x", "y", t1, t2, t3);
  }

  lemma ExampleIsCommaFree(w: World, s: Settings)
    requires Normalize(w.upstream) == ["regex:x", "y"]
    ensures CommaFree(PendingAdd(w, GetModels(s.models), s.ignored))
  {
    var add := PendingAdd(w, GetModels(s.models), s.ignored);
    PendingAddNames(w, GetModels(s.models), s.ignored);
    forall i | 0 <= i < |add|
      ensures ',' !in add[i]
    {
      assert add[i] in add;
    }
  }

  lemma ExampleIsNormal()
    ensures Normalize(["regex:x", "y"]) == ["regex:x", "y"] && Normalize(["regex:x"]) == ["regex:x"]
  {
    TrimFixed("regex:x", IsSpace);
    TrimFixed("y", IsSpace);
    TwoNames("regex:x", "y");
  }

  lemma TwoNames(a: string, b: string)
    requires a != "" && b != "" && a != b && TrimSpace(a) == a && TrimSpace(b) == b
    ensures Normalize([a, b]) == [a, b] && Normalize([a]) == [a]
  {
    NormalizeFixed([a]);
    NormalizeFixed([a, b]);
  }

  lemma ExampleHides(w: World)
    requires w.matches == XMatchesY
    ensures Ignores(w, "regex:x", "y") && !Ignores(w, "regex:x", "regex:x")
  {
    assert "regex:x"[..6] == "regex:" && "regex:x"[6..] == "x";
    TrimFixed("x", IsSpace);
  }

  /** A model whose name contains a comma never becomes local, so it stays pending whatever is applied. */
  lemma CommaNamesStayPending(w: World, s: Settings, name: string)
    requires name in Normalize(w.upstream) && ',' in name
    requires name !in w.mapping.Values && !IsIgnored(w, Normalize(s.ignored), name)
    ensures name in PendingAdd(w, GetModels(s.models), s.ignored)
  {
    LocalIsCommaFree(s);
    PendingAddNames(w, GetModels(s.models), s.ignored);
  }

  // ----- The scheduled check -----

  /** With automatic apply the detected models are merged into the list instead of being staged. */
  function Synced(w: World, s: Settings, now: int): Settings
  {
    var add := PendingAdd(w, GetModels(s.models), s.ignored);
    Detected(w, s, now).(models := if add == [] then s.models else Join(Merge(Local(s), add), ','), detected := [])
  }

  /** Everything pending is genuinely new, so merging it grows the list by its length. */
  lemma MergedIsLonger(w: World, text: string, ignored: seq<string>)
    ensures var add := PendingAdd(w, GetModels(text), ignored);
            |Merge(Normalize(GetModels(text)), add)| == |Normalize(GetModels(text))| + |add|
  {
    var local, add := Normalize(GetModels(text)), PendingAdd(w, GetModels(text), ignored);
    PendingAddNames(w, GetModels(text), ignored);
    NormalizeIsNormal(GetModels(text));
    OnNormal(local, add);
    WithoutNone(add, Names(local));
  }

  /**
   After an automatic apply the next check has nothing to add, exactly when no
   pending name contains a comma, and then it has the same models to remove.
   */
  lemma SyncConverges(w: World, s: Settings, now: int, later: int)
    ensures Detected(w, Synced(w, s, now), later).detected == [] <==>
            CommaFree(PendingAdd(w, GetModels(s.models), s.ignored))
    ensures CommaFree(PendingAdd(w, GetModels(s.models), s.ignored)) ==>
              Names(Detected(w, Synced(w, s, now), later).removed) == Names(Detected(w, s, now).removed)
  {
    var add, s' := PendingAdd(w, GetModels(s.models), s.ignored), Synced(w, s, now);
    PendingAddNames(w, GetModels(s.models), s.ignored);
    if CommaFree(add) {
      SyncLeavesNothing(w, s, now, later);
    } else {
      var i :| 0 <= i < |add| && ',' in add[i];
      assert add[i] in add;
      CommaNamesStayPending(w, s', add[i]);
    }
  }

  lemma SyncLeavesNothing(w: World, s: Settings, now: int, later: int)
    requires CommaFree(PendingAdd(w, GetModels(s.models), s.ignored))
    ensures Detected(w, Synced(w, s, now), later).detected == []
    ensures Names(Detected(w, Synced(w, s, now), later).removed) == Names(Detected(w, s, now).removed)
  {
    var s' := Synced(w, s, now);
    SyncedLocal(w, s, now);
    PendingAddNames(w, GetModels(s.models), s.ignored);
    PendingAddNames(w, GetModels(s'.models), s'.ignored);
    PendingRemoveNames(w, GetModels(s.models));
    PendingRemoveNames(w, GetModels(s'.models));
    EmptyIff(Detected(w, s', later).detected);
    var before, after := Detected(w, s, now).removed, Detected(w, s', later).removed;
    forall m
      ensures m in Names(before) <==> m in Names(after)
    {
      assert (m in Names(before) <==> m in before) && (m in Names(after) <==> m in after);
    }
  }

  lemma SyncedLocal(w: World, s: Settings, now: int)
    requires CommaFree(PendingAdd(w, GetModels(s.models), s.ignored))
    ensures forall m :: m in Local(Synced(w, s, now)) <==>
              m in Local(s) || m in PendingAdd(w, GetModels(s.models), s.ignored)
  {
    var add := PendingAdd(w, GetModels(s.models), s.ignored);
    LocalIsCommaFree(s);
    PendingAddNames(w, GetModels(s.models), s.ignored);
    if add != [] {
      var merged := Merge(Local(s), add);
      NormalizeFixed(Local(s));
      NormalizeFixed(add);
      OperationNames(Local(s), add);
      assert Names(merged) == Names(Local(s)) + Names(add);
      CommaFreeConcat(Local(s), add, merged);
      ModelsRoundTrip(merged);
      NormalizeFixed(merged);
      assert forall m :: m in merged <==> m in Names(merged);
    }
  }
}
