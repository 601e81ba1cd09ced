/**
 Loading and saving a multi-key channel row (controller/channel.go,
 model/channel.go). An action works on a copy of the row and is saved later: the
 automatic updates read the row before they take the lock and save it, without the
 key text, after they released it; the manual actions read it before they lock. So
 other saves can fall between a load and its save.
 */
module KeySaves {
  import opened Basics
  import opened Text
  import opened MultiKey

  // ----- The row and a copy of it -----

  method Load(row: Channel) returns (copy: Channel)
    ensures fresh(copy) && copy.key == row.key && copy.size == row.size && copy.Stored() == row.Stored()
  {
    copy := new Channel(row.key, row.size);
    copy.statusList, copy.disabledTime, copy.disabledReason := row.statusList, row.disabledTime, row.disabledReason;
  }

  /** `Channel.SaveWithoutKey`: the size and the maps of the copy land beside whatever keys the row has now. */
  method SaveWithoutKey(row: Channel, copy: Channel)
    requires row != copy && copy.Valid()
    modifies row
    ensures row.key == old(row.key) && row.size == copy.size
    ensures row.Records() == Rekeyed(copy.Records(), GetKeys(row.key))
    ensures row.Valid() <==> |GetKeys(row.key)| == |copy.Records()|
  {
    row.size, row.statusList := copy.size, copy.statusList;
    row.disabledTime, row.disabledReason := copy.disabledTime, copy.disabledReason;
    EntriesStayAtTheirIndices(GetKeys(copy.key), row.Stored(), GetKeys(row.key));
  }

  lemma EntriesStayAtTheirIndices(keys: seq<string>, info: Info, keys': seq<string>)
    requires Sparse(info, |keys|)
    ensures RecordsOf(keys', info) == Rekeyed(RecordsOf(keys, info), keys')
  {
  }

  predicate Automatic(a: Action)
  {
    a.AutoDisable? || a.AutoEnable?
  }

  /** What a row that shows `rs` shows once an action on a copy that shows `cs` is saved over it. */
  function SavedOver(rs: seq<KeyRecord>, cs: seq<KeyRecord>, a: Action): seq<KeyRecord>
  {
    match a
    case AutoDisable(_, _, _) => Rekeyed(Expected(cs, a), KeysOf(rs))
    case AutoEnable(_) => Rekeyed(Expected(cs, a), KeysOf(rs))
    case DisableKey(i) => if 0 <= i < |cs| then Expected(cs, a) else rs
    case EnableKey(i) => if 0 <= i < |cs| then Expected(cs, a) else rs
    case EnableAll => if cs == [] then AllNew(KeysOf(rs)) else Expected(cs, a)
    case DisableAll => if HasEnabled(cs) then Expected(cs, a) else rs
    case DeleteKey(i) => if 0 <= i < |cs| && |cs| > 1 then Reread(Without(cs, i), rs) else rs
    case DeleteDisabled => if |WithoutAuto(cs)| == |cs| then rs else Reread(WithoutAuto(cs), rs)
    case Append(text) =>
      if cs == [] then AllNew(if text == "" then KeysOf(rs) else GetKeys(text))
      else Reread(cs + AllNew(NewKeys(KeysOf(cs), Split(text, '\n'))), rs)
  }

  /** The second half of an automatic update: mark the copy and save it. */
  method SaveMark(row: Channel, copy: Channel, a: Action)
    requires row != copy && row.Valid() && copy.Valid() && Automatic(a)
    modifies row, copy
    ensures row.Records() == SavedOver(old(row.Records()), old(copy.Records()), a)
    ensures row.size == |old(copy.Records())|
    ensures row.Valid() <==> |old(row.Records())| == |old(copy.Records())|
  {
    MarksOver(row.Records(), copy.Records(), a);
    assert KeysOf(row.Records()) == GetKeys(row.key);
    MarkCopy(copy, a);
    SaveWithoutKey(row, copy);
  }

  method MarkCopy(copy: Channel, a: Action)
    requires copy.Valid() && Automatic(a)
    modifies copy
    ensures copy.Valid() && copy.Records() == Expected(old(copy.Records()), a)
  {
    match a
    case AutoDisable(key, reason, now) => var _ := copy.AutoDisable(key, reason, now);
    case AutoEnable(key) => var _ := copy.AutoEnable(key);
  }

  lemma MarksOver(rs: seq<KeyRecord>, cs: seq<KeyRecord>, a: Action)
    requires Automatic(a)
    ensures SavedOver(rs, cs, a) == Rekeyed(Expected(cs, a), KeysOf(rs)) && |Expected(cs, a)| == |cs|
  {
  }

  /** The second half of a manual action: what it made of the copy is written over the row. */
  method SaveAction(row: Channel, copy: Channel, a: Action)
    requires row != copy && row.Valid() && copy.Valid() && !Automatic(a)
    modifies row
    ensures row.Records() == SavedOver(old(row.Records()), copy.Records(), a)
  {
    match a
    case DisableKey(i) => SaveDisabled(row, copy, i);
    case EnableKey(i) => SaveEnabled(row, copy, i);
    case EnableAll => SaveEntries(row, copy, Info(map[], map[], map[]));
    case DisableAll => SaveAllDisabled(row, copy);
    case DeleteKey(i) => SaveWithout(row, copy, i);
    case DeleteDisabled => SaveWithoutAuto(row, copy);
    case Append(text) => SaveAppended(row, copy, text);
  }

  method SaveDisabled(row: Channel, copy: Channel, i: int)
    requires row != copy && copy.Valid()
    modifies row
    ensures row.Records() == SavedOver(old(row.Records()), copy.Records(), DisableKey(i))
  {
    if i < 0 || i >= copy.size { return; }
    var info := Info(copy.statusList, copy.disabledTime, copy.disabledReason);
    DisableOne(GetKeys(copy.key), info, i);
    SaveEntries(row, copy, info.(status := info.status[i := MANUALLY_DISABLED]));
  }

  method SaveEnabled(row: Channel, copy: Channel, i: int)
    requires row != copy && copy.Valid()
    modifies row
    ensures row.Records() == SavedOver(old(row.Records()), copy.Records(), EnableKey(i))
  {
    if i < 0 || i >= copy.size { return; }
    var info := Info(copy.statusList, copy.disabledTime, copy.disabledReason);
    EnableOne(GetKeys(copy.key), info, i);
    SaveEntries(row, copy, Info(info.status - {i}, info.time - {i}, info.reason - {i}));
  }

  method SaveAllDisabled(row: Channel, copy: Channel)
    requires row != copy && copy.Valid()
    modifies row
    ensures row.Records() == SavedOver(old(row.Records()), copy.Records(), DisableAll)
  {
    var info := Info(copy.statusList, copy.disabledTime, copy.disabledReason);
    var status, count := DisableEnabled(GetKeys(copy.key), info);
    if count > 0 { SaveEntries(row, copy, info.(status := status)); }
  }

  method SaveWithout(row: Channel, copy: Channel, i: int)
    requires row != copy && copy.Valid()
    modifies row
    ensures row.Records() == SavedOver(old(row.Records()), copy.Records(), DeleteKey(i))
  {
    if i < 0 || i >= copy.size { return; }
    var info := Info(copy.statusList, copy.disabledTime, copy.disabledReason);
    var left, info' := ReindexWithout(GetKeys(copy.key), info, i);
    if left != [] { SaveKeys(row, left, info'); }
  }

  method SaveWithoutAuto(row: Channel, copy: Channel)
    requires row != copy && copy.Valid()
    modifies row
    ensures row.Records() == SavedOver(old(row.Records()), copy.Records(), DeleteDisabled)
  {
    var info := Info(copy.statusList, copy.disabledTime, copy.disabledReason);
    var left, info', count := ReindexWithoutAuto(GetKeys(copy.key), info);
    DeletesOver(row.Records(), copy.Records(), WithoutAuto(copy.Records()));
    if count > 0 { SaveKeys(row, left, info'); }
  }

  lemma DeletesOver(rs: seq<KeyRecord>, cs: seq<KeyRecord>, left: seq<KeyRecord>)
    requires left == WithoutAuto(cs)
    ensures SavedOver(rs, cs, DeleteDisabled) == if |left| == |cs| then rs else Reread(left, rs)
  {
  }

  /** `Channel.Update` with the copy's own key text. */
  method SaveEntries(row: Channel, copy: Channel, info: Info)
    requires row != copy && copy.size == |GetKeys(copy.key)| && Sparse(info, copy.size)
    modifies row
    ensures row.Records() ==
            if copy.size == 0 then AllNew(GetKeys(old(row.key))) else RecordsOf(GetKeys(copy.key), info)
  {
    row.Update(copy.key, info.status, info.time, info.reason);
    if copy.size == 0 {
      NoEntries(GetKeys(row.key), row.Stored());
    } else {
      FilteredAll(info.status, Below(row.size));
    }
  }

  /** `Channel.Update` with a rebuilt key list. */
  method SaveKeys(row: Channel, keys: seq<string>, info: Info)
    requires Sparse(info, |keys|)
    modifies row
    ensures row.Records() == Reread(RecordsOf(keys, info), old(row.Records()))
  {
    RowRereads(keys, info, row.key, row.Records());
    row.Update(Join(keys, '\n'), info.status, info.time, info.reason);
    assert row.key == TextFor(keys, old(row.key)) && row.Stored() == InfoFor(info, row.key);
  }

  method SaveAppended(row: Channel, copy: Channel, text: string)
    requires row != copy && copy.Valid()
    modifies row
    ensures row.Records() == SavedOver(old(row.Records()), copy.Records(), Append(text))
  {
    if copy.key == "" {
      SaveFirst(row, copy, text);
    } else {
      SaveMore(row, copy, text);
    }
  }

  /** A copy without keys takes the new text as it is. */
  method SaveFirst(row: Channel, copy: Channel, text: string)
    requires row != copy && copy.Valid() && copy.key == ""
    modifies row
    ensures row.Records() == SavedOver(old(row.Records()), [], Append(text)) && copy.Records() == []
  {
    assert KeysOf(row.Records()) == GetKeys(row.key);
    NoEntries(GetKeys(if text != "" then text else row.key), copy.Stored());
    row.Update(text, copy.statusList, copy.disabledTime, copy.disabledReason);
  }

  method SaveMore(row: Channel, copy: Channel, text: string)
    requires row != copy && copy.Valid() && copy.key != ""
    modifies row
    ensures row.Records() == SavedOver(old(row.Records()), copy.Records(), Append(text))
  {
    var existing := GetKeys(copy.key);
    var added := Deduplicate(existing, Split(text, '\n'));
    assert KeysOf(copy.Records()) == existing;
    AppendsOver(row.Records(), copy.Records(), existing, added, text);
    CarryNone(existing, copy.Stored(), added);
    SaveKeys(row, existing + added, Info(copy.statusList, copy.disabledTime, copy.disabledReason));
  }

  lemma AppendsOver(rs: seq<KeyRecord>, cs: seq<KeyRecord>, keys: seq<string>, added: seq<string>, text: string)
    requires KeysOf(cs) == keys && keys != [] && added == NewKeys(keys, Split(text, '\n'))
    ensures SavedOver(rs, cs, Append(text)) == Reread(cs + AllNew(added), rs)
  {
  }

  /** Keys without entries follow as fresh records. */
  lemma CarryNone(keys: seq<string>, info: Info, added: seq<string>)
    requires Sparse(info, |keys|)
    ensures Sparse(info, |keys + added|) && RecordsOf(keys + added, info) == RecordsOf(keys, info) + AllNew(added)
  {
  }

  /** A load with its save right after it is the action itself. */
  method LoadAndSave(row: Channel, a: Action)
    requires row.Valid()
    modifies row
    ensures row.Records() == Actual(old(row.Records()), a)
  {
    AtOnce(row.Records(), a);
    var copy := Load(row);
    if Automatic(a) {
      SaveMark(row, copy, a);
    } else {
      SaveAction(row, copy, a);
    }
  }

  lemma AtOnce(rs: seq<KeyRecord>, a: Action)
    ensures SavedOver(rs, rs, a) == Actual(rs, a)
  {
    match a
    case DisableAll => if !HasEnabled(rs) { assert MapDisabled(rs) == rs; }
    case Append(text) => if rs == [] { assert KeysOf(rs) == GetKeys(""); }
    case AutoDisable(_, _, _) => assert KeysOf(Expected(rs, a)) == KeysOf(rs);
    case AutoEnable(_) => assert KeysOf(Expected(rs, a)) == KeysOf(rs);
    case _ =>
  }

  // ----- What a save does to changes made since the load -----

  /** The action is refused on the copy, or finds nothing to do there. */
  predicate Refused(cs: seq<KeyRecord>, a: Action)
  {
    match a
    case DisableKey(i) => i < 0 || i >= |cs|
    case EnableKey(i) => i < 0 || i >= |cs|
    case DisableAll => forall k :: 0 <= k < |cs| ==> cs[k].status != 1
    case DeleteKey(i) => i < 0 || i >= |cs| || |cs| <= 1
    case DeleteDisabled => forall k :: 0 <= k < |cs| ==> cs[k].status != 3
    case _ => false
  }

  /** Then nothing is saved. */
  lemma RefusedSavesNothing(rs: seq<KeyRecord>, cs: seq<KeyRecord>, a: Action)
    requires Refused(cs, a)
    ensures SavedOver(rs, cs, a) == rs
  {
    if a.DeleteDisabled? { NoneToDelete(cs); }
  }

  lemma {:induction false} NoneToDelete(cs: seq<KeyRecord>)
    requires forall k :: 0 <= k < |cs| ==> cs[k].status != 3
    ensures |WithoutAuto(cs)| == |cs|
  {
    if cs != [] { NoneToDelete(cs[..|cs| - 1]); }
  }

  lemma {:induction false} SomeToDelete(cs: seq<KeyRecord>, k: nat)
    requires k < |cs| && cs[k].status == 3
    ensures |WithoutAuto(cs)| < |cs|
  {
    AtMostAll(cs[..|cs| - 1]);
    if k < |cs| - 1 { SomeToDelete(cs[..|cs| - 1], k); }
  }

  lemma {:induction false} AtMostAll(cs: seq<KeyRecord>)
    ensures |WithoutAuto(cs)| <= |cs|
  {
    if cs != [] { AtMostAll(cs[..|cs| - 1]); }
  }

  /**
   A manual action that goes through saves what it made of its copy, whatever the
   row says by then: every change saved since the load is undone. Only when it
   would store an empty text do the row's own keys stay.
   */
  lemma LastSaveWins(rs: seq<KeyRecord>, cs: seq<KeyRecord>, a: Action)
    requires !Automatic(a) && !Refused(cs, a) && cs != [] && Join(KeysOf(Expected(cs, a)), '\n') != ""
    ensures SavedOver(rs, cs, a) == Actual(cs, a)
  {
    match a
    case DeleteKey(i) => RereadAlike(Without(cs, i), rs, cs);
    case DeleteDisabled =>
      var k :| 0 <= k < |cs| && cs[k].status == 3;
      SomeToDelete(cs, k);
      RereadAlike(WithoutAuto(cs), rs, cs);
    case Append(text) => RereadAlike(cs + AllNew(NewKeys(KeysOf(cs), Split(text, '\n'))), rs, cs);
    case _ =>
  }

  lemma RereadAlike(left: seq<KeyRecord>, rs: seq<KeyRecord>, cs: seq<KeyRecord>)
    requires Join(KeysOf(left), '\n') != ""
    ensures Reread(left, rs) == Reread(left, cs)
  {
  }

  /** An automatic update saves the entries of its copy beside the row's keys, by index. */
  lemma MarksOverwriteEntries(rs: seq<KeyRecord>, cs: seq<KeyRecord>, a: Action, i: nat)
    requires Automatic(a) && i < |rs|
    ensures var saved, marked := SavedOver(rs, cs, a), Actual(cs, a);
            && |saved| == |rs| && |marked| == |cs|
            && saved[i] == if i < |cs| then marked[i].(key := rs[i].key) else KeyRecord(rs[i].key, 1, None, None)
  {
  }

  // ----- When a save does what its action should -----

  /** The row is left in order and shows what acting on the row as it is now would show. */
  predicate Lands(rs: seq<KeyRecord>, cs: seq<KeyRecord>, a: Action)
  {
    (Automatic(a) ==> |rs| == |cs|) && SavedOver(rs, cs, a) == Actual(rs, a)
  }

  /** A copy can be saved, whatever the action, if and only if the row has not changed since it was loaded. */
  lemma SavesLandIff(rs: seq<KeyRecord>, cs: seq<KeyRecord>)
    ensures (forall a :: Lands(rs, cs, a)) <==> cs == rs
  {
    if cs == rs {
      forall a
        ensures Lands(rs, cs, a)
      {
        AtOnce(rs, a);
      }
    } else if forall a :: Lands(rs, cs, a) {
      NoKeyHasIt(rs);
      assert Lands(rs, cs, AutoEnable(Absent(rs)));
      assert Lands(rs, cs, EnableAll);
      if cs != [] { SameKeys(cs, rs); }
      SameRecords(cs, rs);
    }
  }

  /** A text longer than every key. */
  function Absent(rs: seq<KeyRecord>): string
  {
    if rs == [] then "" else Absent(rs[1..]) + rs[0].key + "x"
  }

  lemma {:induction false} NoKeyHasIt(rs: seq<KeyRecord>)
    ensures forall i :: 0 <= i < |rs| ==> |rs[i].key| < |Absent(rs)|
    ensures Find(rs, Absent(rs)) == |rs|
  {
    if rs != [] { NoKeyHasIt(rs[1..]); }
  }

  lemma SameKeys(cs: seq<KeyRecord>, rs: seq<KeyRecord>)
    requires AllNew(KeysOf(cs)) == AllNew(KeysOf(rs))
    ensures KeysOf(cs) == KeysOf(rs)
  {
    assert forall i :: 0 <= i < |cs| ==> AllNew(KeysOf(cs))[i].key == KeysOf(cs)[i];
    assert forall i :: 0 <= i < |rs| ==> AllNew(KeysOf(rs))[i].key == KeysOf(rs)[i];
  }

  lemma SameRecords(cs: seq<KeyRecord>, rs: seq<KeyRecord>)
    requires |cs| == |rs| && KeysOf(cs) == KeysOf(rs) && Rekeyed(cs, KeysOf(rs)) == rs
    ensures cs == rs
  {
    forall i | 0 <= i < |cs|
      ensures cs[i] == rs[i]
    {
      assert Rekeyed(cs, KeysOf(rs))[i] == cs[i].(key := KeysOf(cs)[i]);
    }
  }

  /** The same entries everywhere but at one index. */
  ghost predicate SameBut(rs: seq<KeyRecord>, cs: seq<KeyRecord>, i: nat)
  {
    |rs| == |cs| && forall k :: 0 <= k < |rs| && k != i ==> cs[k].(key := rs[k].key) == rs[k]
  }

  /** While its key stays where it is, a mark lands exactly if nothing changed but that key's own entries. */
  lemma MarkLandsIff(rs: seq<KeyRecord>, cs: seq<KeyRecord>, key: string, reason: string, now: int)
    requires Find(rs, key) == Find(cs, key)
    ensures Lands(rs, cs, AutoDisable(key, reason, now)) <==> SameBut(rs, cs, Find(rs, key))
  {
    var a, i := AutoDisable(key, reason, now), Find(rs, key);
    var mark := KeyRecord(key, AUTO_DISABLED, Some(now), Some(reason));
    if |rs| == |cs| {
      assert SavedOver(rs, cs, a) == Rekeyed(Put(cs, i, mark), KeysOf(rs));
      assert Actual(rs, a) == Put(rs, i, mark);
      PutLandsIff(rs, cs, i, mark);
    }
  }

  function Put(rs: seq<KeyRecord>, i: nat, r: KeyRecord): seq<KeyRecord>
  {
    if i < |rs| then rs[i := r] else rs
  }

  lemma PutLandsIff(rs: seq<KeyRecord>, cs: seq<KeyRecord>, i: nat, r: KeyRecord)
    requires |rs| == |cs| && (i < |rs| ==> r.key == rs[i].key)
    ensures Rekeyed(Put(cs, i, r), KeysOf(rs)) == Put(rs, i, r) <==> SameBut(rs, cs, i)
  {
    var saved, wanted := Rekeyed(Put(cs, i, r), KeysOf(rs)), Put(rs, i, r);
    assert forall k :: 0 <= k < |rs| && k != i ==> saved[k] == cs[k].(key := rs[k].key) && wanted[k] == rs[k];
    assert i < |rs| ==> saved[i] == r == wanted[i];
  }

  /** Disabling a key by hand lands exactly if nothing changed but that key's own status. */
  lemma DisableLandsIff(rs: seq<KeyRecord>, cs: seq<KeyRecord>, i: nat)
    requires i < |cs|
    ensures Lands(rs, cs, DisableKey(i)) <==>
            && |rs| == |cs| && cs[i] == rs[i].(status := cs[i].status)
            && forall k :: 0 <= k < |rs| && k != i ==> cs[k] == rs[k]
  {
    if |rs| == |cs| {
      UpdatesAgree(cs, rs, i, cs[i].(status := MANUALLY_DISABLED), rs[i].(status := MANUALLY_DISABLED));
    }
  }

  lemma UpdatesAgree<T>(a: seq<T>, b: seq<T>, i: nat, x: T, y: T)
    requires i < |a| == |b|
    ensures a[i := x] == b[i := y] <==> x == y && forall k :: 0 <= k < |b| && k != i ==> a[k] == b[k]
  {
    if a[i := x] == b[i := y] {
      assert a[i := x][i] == b[i := y][i];
      assert forall k :: 0 <= k < |b| && k != i ==> a[i := x][k] == a[k] && b[i := y][k] == b[k];
    }
  }

  /** The shortest run that goes wrong: "c" is marked on a copy, "a" is deleted, and the copy is saved. */
  method MarkSavedAfterADeletion(reason: string, now: int) returns (row: Channel)
    ensures fresh(row) && row.Records() == [Fresh("b"), Fresh("c")]
    ensures row.size == 3 && !row.Valid()
  {
    row := ThreeKeyRow();
    var copy := Load(row);
    assert copy.Records() == [Fresh("a"), Fresh("b"), Fresh("c")];
    DeleteFirst(row);
    MarkMisses(reason, now);
    SaveMark(row, copy, AutoDisable("c", reason, now));
  }

  method ThreeKeyRow() returns (row: Channel)
    ensures fresh(row) && row.Valid() && row.Records() == [Fresh("a"), Fresh("b"), Fresh("c")]
  {
    ThreeKeys();
    row := new Channel("a\nb\nc", 3);
  }

  method DeleteFirst(row: Channel)
    requires row.Valid() && row.Records() == [Fresh("a"), Fresh("b"), Fresh("c")]
    modifies row
    ensures row.Valid() && row.Records() == [Fresh("b"), Fresh("c")]
  {
    FirstDeleted();
    var _ := row.DeleteKey(Some(0));
  }

  lemma ThreeKeys()
    ensures GetKeys("a\nb\nc") == ["a", "b", "c"]
  {
    assert Join(["a", "b", "c"], '\n') == "a\nb\nc" by {
      assert ["a", "b", "c"][1..] == ["b", "c"] && ["b", "c"][1..] == ["c"];
    }
    KeysRoundTrip(["a", "b", "c"]);
  }

  lemma FirstDeleted()
    ensures var rs := [Fresh("a"), Fresh("b"), Fresh("c")];
            Without(rs, 0) == [Fresh("b"), Fresh("c")] && !BlankEnd(Without(rs, 0))
  {
  }

  lemma MarkMisses(reason: string, now: int)
    ensures var rs, cs := [Fresh("b"), Fresh("c")], [Fresh("a"), Fresh("b"), Fresh("c")];
            var a := AutoDisable("c", reason, now);
            && SavedOver(rs, cs, a) == rs && |Expected(cs, a)| == 3
            && Expected(rs, a) == [Fresh("b"), KeyRecord("c", AUTO_DISABLED, Some(now), Some(reason))]
  {
    FindIs([Fresh("b"), Fresh("c")], "c", 1);
    FindIs([Fresh("a"), Fresh("b"), Fresh("c")], "c", 2);
  }

  // ----- Whole runs of loads and saves -----

  datatype Event = Loads(session: int) | Saves(session: int, action: Action)

  datatype State = State(rs: seq<KeyRecord>, copies: map<int, seq<KeyRecord>>)

  function Step(s: State, e: Event): State
  {
    match e
    case Loads(n) => s.(copies := s.copies[n := s.rs])
    case Saves(n, a) => if n in s.copies then State(SavedOver(s.rs, s.copies[n], a), s.copies - {n}) else s
  }

  function Run(s: State, events: seq<Event>): State
  {
    if events == [] then s else Step(Run(s, events[..|events| - 1]), events[|events| - 1])
  }

  /** The sessions that loaded after the last save. */
  function UpToDate(events: seq<Event>): set<int>
  {
    if events == [] then {}
    else
      match events[|events| - 1]
      case Loads(n) => UpToDate(events[..|events| - 1]) + {n}
      case Saves(_, _) => {}
  }

  /** No save falls between a session's load and its save. */
  ghost predicate Serial(events: seq<Event>)
  {
    events == [] ||
    (Serial(events[..|events| - 1]) &&
     (events[|events| - 1].Saves? ==> events[|events| - 1].session in UpToDate(events[..|events| - 1])))
  }

  function Actions(events: seq<Event>): seq<Action>
  {
    if events == [] then []
    else
      match events[|events| - 1]
      case Loads(_) => Actions(events[..|events| - 1])
      case Saves(_, a) => Actions(events[..|events| - 1]) + [a]
  }

  /** Runs in which no save comes between a load and its save are runs of whole actions. */
  lemma {:induction false} SerialRunsAreAtomic(rs: seq<KeyRecord>, events: seq<Event>)
    requires Serial(events)
    ensures Run(State(rs, map[]), events).rs == Played(rs, Actions(events))
    ensures forall n :: n in UpToDate(events) ==>
              var s := Run(State(rs, map[]), events); n in s.copies && s.copies[n] == s.rs
  {
    if events != [] {
      var before, e := events[..|events| - 1], events[|events| - 1];
      SerialRunsAreAtomic(rs, before);
      if e.Saves? {
        var s := Run(State(rs, map[]), before);
        AtOnce(s.rs, e.action);
        assert Actions(events)[..|Actions(before)|] == Actions(before);
      }
    }
  }
}
