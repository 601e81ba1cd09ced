/**
 Runs of checks, automatic applies and applies on one channel
 (controller/channel_upstream_update.go): what the ignore list keeps away and for
 how long, how often a check is made, and what an automatic apply leaves.
 */
module UpstreamRuns {
  import opened Basics
  import opened Text
  import opened Upstream

  // ----- What an entry ignores -----

  /** A model on the ignore list is never pending, whatever upstream offers, unless its name reads as a pattern. */
  lemma PlainNamesAreNeverPending(w: World, local: seq<string>, ignored: seq<string>, name: string)
    requires name in Normalize(ignored) && !("regex:" <= name)
    ensures name !in PendingAdd(w, local, ignored)
  {
    PendingAddNames(w, local, ignored);
    assert Ignores(w, name, name);
  }

  /** A pattern, with any blanks around it, keeps every model away that it matches. */
  lemma MatchedNamesAreNeverPending(w: World, local: seq<string>, ignored: seq<string>, left: string, pattern: string,
                                    right: string, name: string)
    requires "regex:" + (left + pattern + right) in Normalize(ignored)
    requires Over(left, IsSpace) && Over(right, IsSpace) && Trimmed(pattern, IsSpace) && w.matches(pattern, name)
    ensures name !in PendingAdd(w, local, ignored)
  {
    var entry := "regex:" + (left + pattern + right);
    PendingAddNames(w, local, ignored);
    TrimPadded(left, pattern, right, IsSpace);
    assert entry[..6] == "regex:" && entry[6..] == left + pattern + right;
    assert Ignores(w, entry, name);
  }

  /** Nothing else does: a model that is named by no entry and matched by no pattern is pending once upstream has it. */
  lemma OthersArePending(w: World, local: seq<string>, ignored: seq<string>, name: string)
    requires name in Normalize(w.upstream) && name !in Normalize(local) && name !in w.mapping.Values
    requires name !in Normalize(ignored)
    requires forall e :: e in Normalize(ignored) && "regex:" <= e ==> !w.matches(TrimSpace(e[6..]), name)
    ensures name in PendingAdd(w, local, ignored)
  {
    PendingAddNames(w, local, ignored);
    forall e | e in Normalize(ignored)
      ensures !Ignores(w, e, name)
    {
      assert IsRegex(e) <==> "regex:" <= e;
    }
  }

  // ----- How long it lasts -----

  datatype Visit =
    | Detects(w: World)
    | Syncs(w: World)
    | Applies(add: seq<string>, ignore: seq<string>, remove: seq<string>)

  function Visited(s: Settings, v: Visit, now: int): Settings
  {
    match v
    case Detects(w) => Detected(w, s, now)
    case Syncs(w) => Synced(w, s, now)
    case Applies(add, ignore, remove) => Apply(s, add, ignore, remove, now).settings
  }

  function Run(s: Settings, visits: seq<Visit>): Settings
  {
    if visits == [] then s else Visited(Run(s, visits[..|visits| - 1]), visits[|visits| - 1], |visits|)
  }

  ghost predicate NeverAdds(visits: seq<Visit>, name: string)
  {
    forall i :: 0 <= i < |visits| && visits[i].Applies? ==> name !in Normalize(visits[i].add)
  }

  lemma StaysIgnored(s: Settings, v: Visit, now: int, name: string)
    requires name in Normalize(s.ignored) && (v.Applies? ==> name !in Normalize(v.add))
    ensures name in Normalize(Visited(s, v, now).ignored)
  {
    if v.Applies? { IgnoredByApplying(s, v.add, v.ignore, v.remove, now, name); }
  }

  /** An apply ignores what was ignored before or is both staged and sent to be ignored, except what it adds. */
  lemma IgnoredByApplying(s: Settings, add: seq<string>, ignore: seq<string>, remove: seq<string>, now: int,
                          name: string)
    ensures var a := Apply(s, add, ignore, remove, now);
            name in Normalize(a.settings.ignored) <==>
            && (name in Normalize(s.ignored) || (name in Normalize(ignore) && name in Normalize(s.detected)))
            && !(name in Normalize(add) && name in Normalize(s.detected))
  {
    SelectionHas(s, add, name);
    SelectionHas(s, ignore, name);
    NextHas(s.ignored, Adding(s, add), Adding(s, ignore), name);
  }

  lemma SelectionHas(s: Settings, picked: seq<string>, name: string)
    ensures Normal(Adding(s, picked))
    ensures name in Adding(s, picked) <==> name in Normalize(picked) && name in Normalize(s.detected)
  {
    SelectionNames(s, picked, []);
    assert name in Adding(s, picked) <==> name in Names(Adding(s, picked));
  }

  lemma NextHas(ignored: seq<string>, adding: seq<string>, ignoring: seq<string>, name: string)
    requires Normal(adding) && Normal(ignoring)
    ensures name in Normalize(IgnoredNext(ignored, adding, ignoring)) <==>
            (name in Normalize(ignored) || name in ignoring) && name !in adding
  {
    var next := IgnoredNext(ignored, adding, ignoring);
    IgnoredAfter(ignored, adding, ignoring);
    NormalizeFixed(next);
    assert name in next <==> name in Names(next);
  }

  /**
   A model the operator ignored is kept away for good: through every sequence of
   checks, automatic applies and applies that do not add it, and whatever upstream
   comes to offer, it is never pending again.
   */
  lemma {:induction false} IgnoredForGood(s: Settings, visits: seq<Visit>, name: string, w: World)
    requires name in Normalize(s.ignored) && !("regex:" <= name) && NeverAdds(visits, name)
    ensures name in Normalize(Run(s, visits).ignored)
    ensures name !in PendingAdd(w, GetModels(Run(s, visits).models), Run(s, visits).ignored)
  {
    if visits != [] {
      var before := visits[..|visits| - 1];
      IgnoredForGood(s, before, name, w);
      StaysIgnored(Run(s, before), visits[|visits| - 1], |visits|, name);
    }
    PlainNamesAreNeverPending(w, GetModels(Run(s, visits).models), Run(s, visits).ignored, name);
  }

  /** From the moment it is ignored: staged, sent to be ignored and not added. */
  lemma IgnoringKeepsAway(s: Settings, add: seq<string>, ignore: seq<string>, remove: seq<string>, visits: seq<Visit>,
                          name: string, w: World, t1: int, t2: int)
    requires name in Normalize(s.detected) && name in Normalize(ignore) && name !in Normalize(add)
    requires !("regex:" <= name) && NeverAdds(visits, name)
    ensures name !in Detected(w, Run(Apply(s, add, ignore, remove, t1).settings, visits), t2).detected
  {
    IgnoredByApplying(s, add, ignore, remove, t1, name);
    IgnoredForGood(Apply(s, add, ignore, remove, t1).settings, visits, name, w);
  }

  /** Ignored alone, with nothing added, a model comes back exactly if its name is a pattern that does not match it. */
  lemma IgnoredComesBackIff(w: World, s: Settings, name: string, t1: int, t2: int, t3: int)
    requires name in PendingAdd(w, GetModels(s.models), s.ignored)
    ensures var s' := Apply(Detected(w, s, t1), [], [name], [], t2).settings;
            name in Detected(w, s', t3).detected <==> "regex:" <= name && !w.matches(TrimSpace(name[6..]), name)
  {
    var s1 := Detected(w, s, t1);
    var s' := Apply(s1, [], [name], [], t2).settings;
    NothingAdded(s1, [name], t2);
    forall e
      ensures e in Normalize(s'.ignored) <==> e in Normalize(s.ignored) || e == name
    {
      OnlyThatOne(w, s, name, t1, t2, e);
    }
    PendingAgainIff(w, GetModels(s.models), s.ignored, s'.ignored, name);
  }

  lemma OnlyThatOne(w: World, s: Settings, name: string, t1: int, t2: int, e: string)
    requires name in PendingAdd(w, GetModels(s.models), s.ignored)
    ensures e in Normalize(Apply(Detected(w, s, t1), [], [name], [], t2).settings.ignored) <==>
            e in Normalize(s.ignored) || e == name
  {
    var s1 := Detected(w, s, t1);
    PendingAddNames(w, GetModels(s.models), s.ignored);
    NormalizeFixed(s1.detected);
    var i :| 0 <= i < |s1.detected| && s1.detected[i] == name;
    NormalizeFixed([name]);
    IgnoredByApplying(s1, [], [name], [], t2, e);
  }

  lemma PendingAgainIff(w: World, local: seq<string>, ignored: seq<string>, ignored': seq<string>, name: string)
    requires name in PendingAdd(w, local, ignored)
    requires forall e :: e in Normalize(ignored') <==> e in Normalize(ignored) || e == name
    ensures name in PendingAdd(w, local, ignored') <==> "regex:" <= name && !w.matches(TrimSpace(name[6..]), name)
  {
    PendingAddNames(w, local, ignored);
    PendingAddNames(w, local, ignored');
    assert IsIgnored(w, Normalize(ignored'), name) <==> Ignores(w, name, name);
    assert IsRegex(name) <==> "regex:" <= name;
  }

  /** Adding and removing nothing leaves the models as they are. */
  lemma NothingAdded(s: Settings, ignore: seq<string>, now: int)
    ensures Apply(s, [], ignore, [], now).settings.models == s.models
  {
    SelectionNames(s, [], []);
    LocalIsCommaFree(s);
    NoNames(Adding(s, []));
    NoNames(Removing(s, [], []));
    SelectsNothing(Local(s));
  }

  lemma NoNames(models: seq<string>)
    ensures Names(models) == {} <==> models == []
  {
    if models != [] { assert models[0] in Names(models); }
  }

  lemma SelectsNothing(origin: seq<string>)
    requires Normal(origin)
    ensures ApplySelected(origin, [], []) == origin
  {
    var none: seq<string> := [];
    SelectedInOrder(origin, none, none);
    assert Names(none) - Names(none) == {} && Without(none, Names(origin)) == [];
    WithoutNone(origin, {});
    assert origin + [] == origin;
  }

  // ----- How often, and what automatic apply leaves -----

  /** Every check that is made and every apply is dated. */
  lemma VisitsAreDated(s: Settings, v: Visit, now: int)
    ensures Visited(s, v, now).checkedAt == now
  {
  }

  /** A check that nobody forces within the interval after another one, or after an apply, does nothing. */
  method TooSoon(channel: Channel, first: Option<seq<string>>, second: Option<seq<string>>,
                 mapping: map<string, string>, matches: (string, string) -> bool, minInterval: int, autoSync: bool,
                 apply: bool, now: int, later: int)
      returns (between: Settings, changed: bool, added: int, ok: bool)
    requires 0 < now && later - now < minInterval
    modifies channel
    ensures between.checkedAt == now && channel.Stored() == between
    ensures !changed && added == 0 && ok
  {
    if apply {
      var _, _, _, _, _ := channel.ApplyUpdates([], [], [], now);
    } else {
      var _, _, _ := channel.Check(first, mapping, matches, true, minInterval, autoSync, now);
    }
    between := channel.Stored();
    changed, added, ok := channel.Check(second, mapping, matches, false, minInterval, autoSync, later);
  }

  /** After an automatic apply nothing is staged to be added; what was pending is local, unless a name has a comma. */
  lemma SyncStagesNothing(w: World, s: Settings, now: int, name: string)
    ensures Synced(w, s, now).detected == []
    ensures CommaFree(PendingAdd(w, GetModels(s.models), s.ignored)) ==>
              (name in Local(Synced(w, s, now)) <==>
               name in Local(s) || name in PendingAdd(w, GetModels(s.models), s.ignored))
  {
    if CommaFree(PendingAdd(w, GetModels(s.models), s.ignored)) { SyncedLocal(w, s, now); }
  }
}
