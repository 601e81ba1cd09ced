/**
 The multi-key channel (controller/channel.go, model/channel.go). A channel row
 holds its keys as newline-separated text and what is known about each key in
 three sparse maps from key index to status, disable time and disable reason.
 Actions update the row in place and deletion re-indexes all three maps; the
 specification is a plain list of key records.
 */
module MultiKey {
  import opened Basics
  import opened Text

  const ENABLED := 1
  const MANUALLY_DISABLED := 2
  const AUTO_DISABLED := 3

  predicate IsNewline(c: char)
  {
    c == '\n'
  }

  /** `Channel.GetKeys` on newline-separated key text. */
  function GetKeys(text: string): seq<string>
  {
    if text == "" then [] else Split(Trim(text, IsNewline), '\n')
  }

  /** A key with the entries the three maps hold for it; without a status entry it is enabled. */
  datatype KeyRecord = KeyRecord(key: string, status: int, time: Option<int>, reason: Option<string>)

  function Fresh(key: string): KeyRecord
  {
    KeyRecord(key, ENABLED, None, None)
  }

  /** What the status listing shows of a record: the time and the reason only of a key that is not enabled. */
  datatype Shown = Shown(status: int, time: int, reason: string)

  function Show(r: KeyRecord): Shown
  {
    if r.status == ENABLED then Shown(ENABLED, 0, "")
    else Shown(r.status, if r.time.Some? then r.time.value else 0, if r.reason.Some? then r.reason.value else "")
  }

  datatype Info = Info(status: map<int, int>, time: map<int, int>, reason: map<int, string>)

  function StatusAt(info: Info, i: int): int
  {
    if i in info.status then info.status[i] else ENABLED
  }

  function Entry<V>(m: map<int, V>, i: int): Option<V>
  {
    if i in m then Some(m[i]) else None
  }

  function RecordAt(key: string, info: Info, i: int): KeyRecord
  {
    KeyRecord(key, StatusAt(info, i), Entry(info.time, i), Entry(info.reason, i))
  }

  function RecordsOf(keys: seq<string>, info: Info): (rs: seq<KeyRecord>)
    ensures |rs| == |keys|
    ensures forall i :: 0 <= i < |keys| ==> rs[i] == RecordAt(keys[i], info, i)
  {
    seq(|keys|, i requires 0 <= i < |keys| => RecordAt(keys[i], info, i))
  }

  /** Every index is below `size` and no entry says "enabled". */
  ghost predicate Sparse(info: Info, size: int)
  {
    && (forall i :: i in info.status ==> 0 <= i < size && info.status[i] != ENABLED)
    && (forall i :: i in info.time ==> 0 <= i < size)
    && (forall i :: i in info.reason ==> 0 <= i < size)
  }

  // ----- The plain-list specification -----

  datatype Action =
    | DisableKey(index: int)
    | EnableKey(index: int)
    | EnableAll
    | DisableAll
    | DeleteKey(index: int)
    | DeleteDisabled
    | AutoDisable(key: string, reason: string, now: int)
    | AutoEnable(key: string)
    | Append(text: string)

  function Disabled(r: KeyRecord): KeyRecord
  {
    if r.status == ENABLED then r.(status := MANUALLY_DISABLED) else r
  }

  predicate HasEnabled(rs: seq<KeyRecord>)
  {
    exists i :: 0 <= i < |rs| && rs[i].status == ENABLED
  }

  function MapDisabled(rs: seq<KeyRecord>): (out: seq<KeyRecord>)
    ensures |out| == |rs| && forall i :: 0 <= i < |rs| ==> out[i] == Disabled(rs[i])
  {
    seq(|rs|, i requires 0 <= i < |rs| => Disabled(rs[i]))
  }

  function KeysOf(rs: seq<KeyRecord>): (keys: seq<string>)
    ensures |keys| == |rs| && forall i :: 0 <= i < |rs| ==> keys[i] == rs[i].key
  {
    seq(|rs|, i requires 0 <= i < |rs| => rs[i].key)
  }

  function AllNew(keys: seq<string>): (rs: seq<KeyRecord>)
    ensures |rs| == |keys| && forall i :: 0 <= i < |keys| ==> rs[i] == Fresh(keys[i])
  {
    seq(|keys|, i requires 0 <= i < |keys| => Fresh(keys[i]))
  }

  /** Deleting the disabled keys also forgets what is left over of an enabled key's past. */
  function Kept(r: KeyRecord): KeyRecord
  {
    if r.status == ENABLED then Fresh(r.key) else r
  }

  function Without(rs: seq<KeyRecord>, i: int): seq<KeyRecord>
  {
    if 0 <= i < |rs| then rs[..i] + rs[i + 1..] else rs
  }

  function WithoutAuto(rs: seq<KeyRecord>): seq<KeyRecord>
  {
    if rs == [] then []
    else WithoutAuto(rs[..|rs| - 1]) + if rs[|rs| - 1].status == AUTO_DISABLED then [] else [Kept(rs[|rs| - 1])]
  }

  /** The first record of a key, or the length of the list. */
  function Find(rs: seq<KeyRecord>, key: string): (i: nat)
    ensures i <= |rs|
    ensures i < |rs| ==> rs[i].key == key
    ensures forall j :: 0 <= j < i ==> rs[j].key != key
  {
    if rs == [] || rs[0].key == key then 0 else 1 + Find(rs[1..], key)
  }

  /** What an operator expects each action to do to the list. */
  function Expected(rs: seq<KeyRecord>, a: Action): seq<KeyRecord>
  {
    match a
    case DisableKey(i) => if 0 <= i < |rs| then rs[i := rs[i].(status := MANUALLY_DISABLED)] else rs
    case EnableKey(i) => if 0 <= i < |rs| then rs[i := Fresh(rs[i].key)] else rs
    case EnableAll => AllNew(KeysOf(rs))
    case DisableAll => MapDisabled(rs)
    case DeleteKey(i) => if |rs| > 1 then Without(rs, i) else rs
    case DeleteDisabled => if |WithoutAuto(rs)| == |rs| then rs else WithoutAuto(rs)
    case AutoDisable(key, reason, now) =>
      var i := Find(rs, key);
      if i < |rs| then rs[i := KeyRecord(key, AUTO_DISABLED, Some(now), Some(reason))] else rs
    case AutoEnable(key) =>
      var i := Find(rs, key);
      if i < |rs| then rs[i := rs[i].(status := ENABLED)] else rs
    case Append(text) =>
      if rs == [] then AllNew(GetKeys(text)) else rs + AllNew(NewKeys(KeysOf(rs), Split(text, '\n')))
  }

  /** What is read back of a key list that is stored as text: an empty text leaves the old one in place. */
  function KeysRead(keys: seq<string>, before: seq<string>): seq<string>
  {
    if Join(keys, '\n') == "" then before else GetKeys(Join(keys, '\n'))
  }

  /** Entries stay at their indices whatever keys are read back. */
  function Rekeyed(left: seq<KeyRecord>, keys: seq<string>): (rs: seq<KeyRecord>)
    ensures |rs| == |keys|
    ensures forall i :: 0 <= i < |keys| ==> rs[i] == if i < |left| then left[i].(key := keys[i]) else Fresh(keys[i])
  {
    seq(|keys|, i requires 0 <= i < |keys| => if i < |left| then left[i].(key := keys[i]) else Fresh(keys[i]))
  }

  /** A list stored as text beside its entries, and read back. */
  function Reread(left: seq<KeyRecord>, before: seq<KeyRecord>): seq<KeyRecord>
  {
    Rekeyed(left, KeysRead(KeysOf(left), KeysOf(before)))
  }

  /** What the code does with the list: whenever keys come or go, the result is stored as text and read back. */
  function Actual(rs: seq<KeyRecord>, a: Action): seq<KeyRecord>
  {
    match a
    case DeleteKey(i) => if 0 <= i < |rs| && |rs| > 1 then Reread(Without(rs, i), rs) else rs
    case DeleteDisabled => if |WithoutAuto(rs)| == |rs| then rs else Reread(WithoutAuto(rs), rs)
    case Append(text) =>
      if rs == [] then AllNew(GetKeys(text)) else Reread(rs + AllNew(NewKeys(KeysOf(rs), Split(text, '\n'))), rs)
    case _ => Expected(rs, a)
  }

  function Played(rs: seq<KeyRecord>, actions: seq<Action>): seq<KeyRecord>
  {
    if actions == [] then rs else Actual(Played(rs, actions[..|actions| - 1]), actions[|actions| - 1])
  }

  function Wished(rs: seq<KeyRecord>, actions: seq<Action>): seq<KeyRecord>
  {
    if actions == [] then rs else Expected(Wished(rs, actions[..|actions| - 1]), actions[|actions| - 1])
  }

  /** A blank key at an end of a list, which is lost when the list is stored as text. */
  predicate BlankEnd(rs: seq<KeyRecord>)
  {
    rs != [] && (rs[0].key == "" || rs[|rs| - 1].key == "")
  }

  /** Deleting the disabled keys when every key is auto-disabled. */
  predicate WipesOut(rs: seq<KeyRecord>, a: Action)
  {
    a.DeleteDisabled? && rs != [] && WithoutAuto(rs) == []
  }

  /** No deletion leaves a blank end, and nothing is appended to a text of nothing but newlines. */
  predicate Safe(rs: seq<KeyRecord>, a: Action)
  {
    match a
    case DeleteKey(i) => 0 <= i < |rs| && |rs| > 1 ==> !BlankEnd(Without(rs, i))
    case DeleteDisabled => |WithoutAuto(rs)| < |rs| ==> !BlankEnd(WithoutAuto(rs))
    case Append(text) => KeysOf(rs) == [""] ==> NewKeys([""], Split(text, '\n')) == []
    case _ => true
  }

  // ----- Key text round trip -----

  /** Newline-free keys survive being joined and read back exactly when neither end of the list is blank. */
  lemma KeysRoundTrip(keys: seq<string>)
    requires |keys| > 0 && Lines(keys)
    ensures GetKeys(Join(keys, '\n')) == keys <==> keys[0] != "" && keys[|keys| - 1] != ""
  {
    var text := Join(keys, '\n');
    if keys[0] != "" && keys[|keys| - 1] != "" {
      JoinEnds(keys, '\n');
      TrimFixed(text, IsNewline);
      SplitJoin(keys, '\n');
    } else if GetKeys(text) == keys {
      ReadBackEnds(text);
    }
  }

  /** Text read back never starts or ends with a blank key, unless all of it is newlines. */
  lemma ReadBackEnds(text: string)
    requires text != ""
    ensures var keys := GetKeys(text);
            (keys[0] != "" && keys[|keys| - 1] != "") || keys == [""]
  {
    TrimIsTrimmed(text, IsNewline);
    var t := Trim(text, IsNewline);
    JoinSplit(t, '\n');
    if t != "" { SplitEnds(t); }
  }

  lemma {:induction false} SplitEnds(t: string)
    requires t != ""
    ensures t[0] != '\n' ==> Split(t, '\n')[0] != ""
    ensures t[|t| - 1] != '\n' ==> Split(t, '\n')[|Split(t, '\n')| - 1] != ""
  {
    if |t| > 1 { SplitEnds(t[1..]); }
  }

  // ----- Rebuilding the maps -----

  function Filtered<K, V>(m: map<K, V>, keep: K -> bool): map<K, V>
  {
    map k | k in m && keep(k) :: m[k]
  }

  lemma FilteredAll<K, V>(m: map<K, V>, keep: K -> bool)
    requires forall k :: k in m ==> keep(k)
    ensures Filtered(m, keep) == m
  {
  }

  function Below(size: int): int -> bool
  {
    i => i < size
  }

  /** What carries over to index `to` from the entries at index `i`. */
  function Carried(info: Info, from_: Info, i: int, to: int): Info
  {
    Info(if i in from_.status then info.status[to := from_.status[i]] else info.status,
         if i in from_.time then info.time[to := from_.time[i]] else info.time,
         if i in from_.reason then info.reason[to := from_.reason[i]] else info.reason)
  }

  /** Appending a key together with its entries appends its record and nothing else. */
  lemma CarryOver(keys: seq<string>, info: Info, key: string, from_: Info, i: int, size: int)
    requires Sparse(info, |keys|) && Sparse(from_, size)
    ensures Sparse(Carried(info, from_, i, |keys|), |keys| + 1)
    ensures RecordsOf(keys + [key], Carried(info, from_, i, |keys|)) ==
            RecordsOf(keys, info) + [RecordAt(key, from_, i)]
  {
    var out := Carried(info, from_, i, |keys|);
    assert RecordAt(key, out, |keys|) == RecordAt(key, from_, i);
    forall j | 0 <= j < |keys|
      ensures RecordAt(keys[j], out, j) == RecordAt(keys[j], info, j)
    {
    }
  }

  /** Appending a key without entries appends a fresh record. */
  lemma CarryNothing(keys: seq<string>, info: Info, key: string)
    requires Sparse(info, |keys|)
    ensures Sparse(info, |keys| + 1)
    ensures RecordsOf(keys + [key], info) == RecordsOf(keys, info) + [Fresh(key)]
  {
  }

  /** Writing all three entries of one index changes that record and nothing else. */
  lemma MarkOne(keys: seq<string>, info: Info, i: int, reason: string, now: int)
    requires 0 <= i < |keys| && Sparse(info, |keys|)
    ensures var out := Info(info.status[i := AUTO_DISABLED], info.time[i := now], info.reason[i := reason]);
            && Sparse(out, |keys|)
            && RecordsOf(keys, out) ==
               RecordsOf(keys, info)[i := KeyRecord(keys[i], AUTO_DISABLED, Some(now), Some(reason))]
  {
    var out := Info(info.status[i := AUTO_DISABLED], info.time[i := now], info.reason[i := reason]);
    forall j | 0 <= j < |keys| && j != i
      ensures RecordAt(keys[j], out, j) == RecordAt(keys[j], info, j)
    {
    }
  }

  lemma DisableOne(keys: seq<string>, info: Info, i: int)
    requires 0 <= i < |keys| && Sparse(info, |keys|)
    ensures var out, rs := info.(status := info.status[i := MANUALLY_DISABLED]), RecordsOf(keys, info);
            Sparse(out, |keys|) && RecordsOf(keys, out) == rs[i := rs[i].(status := MANUALLY_DISABLED)]
  {
    var out := info.(status := info.status[i := MANUALLY_DISABLED]);
    forall j | 0 <= j < |keys| && j != i
      ensures RecordAt(keys[j], out, j) == RecordAt(keys[j], info, j)
    {
    }
  }

  lemma EnableOne(keys: seq<string>, info: Info, i: int)
    requires 0 <= i < |keys| && Sparse(info, |keys|)
    ensures var out := Info(info.status - {i}, info.time - {i}, info.reason - {i});
            Sparse(out, |keys|) && RecordsOf(keys, out) == RecordsOf(keys, info)[i := Fresh(keys[i])]
  {
    var out := Info(info.status - {i}, info.time - {i}, info.reason - {i});
    forall j | 0 <= j < |keys| && j != i
      ensures RecordAt(keys[j], out, j) == RecordAt(keys[j], info, j)
    {
    }
  }

  lemma UnmarkOne(keys: seq<string>, info: Info, i: int)
    requires 0 <= i < |keys| && Sparse(info, |keys|)
    ensures var out, rs := info.(status := info.status - {i}), RecordsOf(keys, info);
            Sparse(out, |keys|) && RecordsOf(keys, out) == rs[i := rs[i].(status := ENABLED)]
  {
    var out := info.(status := info.status - {i});
    forall j | 0 <= j < |keys| && j != i
      ensures RecordAt(keys[j], out, j) == RecordAt(keys[j], info, j)
    {
    }
  }

  /** The text an update stores for a key list: an empty text leaves the old one in place. */
  function TextFor(keys: seq<string>, text: string): string
  {
    if Join(keys, '\n') != "" then Join(keys, '\n') else text
  }

  /** The maps an update stores beside a text. */
  function InfoFor(info: Info, text: string): Info
  {
    info.(status := Filtered(info.status, Below(|GetKeys(text)|)))
  }

  /** Storing a rebuilt list in the row of `text` is rereading its records. */
  lemma RowRereads(keys: seq<string>, info: Info, text: string, rs: seq<KeyRecord>)
    requires Sparse(info, |keys|) && KeysOf(rs) == GetKeys(text)
    ensures RecordsOf(GetKeys(TextFor(keys, text)), InfoFor(info, TextFor(keys, text))) ==
            Reread(RecordsOf(keys, info), rs)
    ensures GetKeys(TextFor(keys, text)) == keys ==> Sparse(InfoFor(info, TextFor(keys, text)), |keys|)
    ensures keys == [] ==> Sparse(InfoFor(info, TextFor(keys, text)), |GetKeys(TextFor(keys, text))|)
  {
    var text', left := TextFor(keys, text), RecordsOf(keys, info);
    assert KeysOf(left) == keys;
    EntriesStay(keys, info, GetKeys(text'), left);
  }

  lemma EntriesStay(keys: seq<string>, info: Info, keys': seq<string>, left: seq<KeyRecord>)
    requires Sparse(info, |keys|) && left == RecordsOf(keys, info)
    ensures var info' := info.(status := Filtered(info.status, Below(|keys'|)));
            forall i :: 0 <= i < |keys'| ==>
              RecordAt(keys'[i], info', i) == if i < |left| then left[i].(key := keys'[i]) else Fresh(keys'[i])
  {
  }

  /** A reread list is the one that was stored exactly when its keys are. */
  lemma RereadIsIt(left: seq<KeyRecord>, rs: seq<KeyRecord>)
    ensures Reread(left, rs) == left <==> KeysRead(KeysOf(left), KeysOf(rs)) == KeysOf(left)
  {
    var keys, again := KeysRead(KeysOf(left), KeysOf(rs)), Reread(left, rs);
    if again == left {
      assert forall i :: 0 <= i < |left| ==> again[i].key == keys[i] && KeysOf(left)[i] == left[i].key;
    }
  }

  /** Some of the keys of a list read back as they are exactly when neither end is blank. */
  lemma Rewritten(keys: seq<string>, before: seq<string>)
    requires 0 < |keys| < |before| && Lines(keys)
    ensures KeysRead(keys, before) == keys <==> keys[0] != "" && keys[|keys| - 1] != ""
  {
    KeysRoundTrip(keys);
    TextIsBlank(keys);
  }

  /** What a deletion leaves is shown as it should be exactly when neither end of it is blank. */
  lemma SurvivesIff(left: seq<KeyRecord>, rs: seq<KeyRecord>)
    requires 0 < |left| < |rs| && Lines(KeysOf(left))
    ensures Reread(left, rs) == left <==> !BlankEnd(left)
    ensures KeysRead(KeysOf(left), KeysOf(rs)) == KeysOf(left) <==> !BlankEnd(left)
  {
    RereadIsIt(left, rs);
    Rewritten(KeysOf(left), KeysOf(rs));
  }

  /** A deletion that would leave nothing leaves every key, enabled. */
  lemma WipedOutComesBack(rs: seq<KeyRecord>)
    ensures Reread([], rs) == AllNew(KeysOf(rs))
  {
    assert KeysOf([]) == [];
  }

  ghost predicate Lines(keys: seq<string>)
  {
    forall i :: 0 <= i < |keys| ==> '\n' !in keys[i]
  }

  /** What can be read from a key text: no blank end, unless the text is nothing but newlines. */
  ghost predicate Readable(keys: seq<string>)
  {
    Lines(keys) && (keys == [] || keys == [""] || (keys[0] != "" && keys[|keys| - 1] != ""))
  }

  lemma TextsAreReadable(text: string)
    ensures Readable(GetKeys(text))
  {
    if text != "" { ReadBackEnds(text); }
  }

  /** Everything a deletion needs to know about storing the list it rebuilt. */
  lemma Rebuilt(keys: seq<string>, info: Info, text: string, rs: seq<KeyRecord>)
    requires Sparse(info, |keys|) && |keys| < |GetKeys(text)| && RecordsFrom(rs, text)
    requires forall k :: k in keys ==> k in GetKeys(text)
    ensures var left, text' := RecordsOf(keys, info), TextFor(keys, text);
            && RecordsOf(GetKeys(text'), InfoFor(info, text')) == Reread(left, rs)
            && (Reread(left, rs) == left <==> left != [] && !BlankEnd(left))
            && (!BlankEnd(left) ==> Sparse(InfoFor(info, text'), |GetKeys(text')|))
  {
    var left := RecordsOf(keys, info);
    assert KeysOf(rs) == GetKeys(text) && KeysOf(left) == keys;
    RowRereads(keys, info, text, rs);
    forall i | 0 <= i < |keys|
      ensures '\n' !in keys[i]
    {
      assert keys[i] in GetKeys(text);
    }
    if keys != [] { SurvivesIff(left, rs); }
  }

  ghost predicate RecordsFrom(rs: seq<KeyRecord>, text: string)
  {
    |rs| == |GetKeys(text)| && forall i :: 0 <= i < |rs| ==> rs[i].key == GetKeys(text)[i]
  }

  // ----- The channel row -----

  class Channel {
    var key: string
    var size: int
    var statusList: map<int, int>
    var disabledTime: map<int, int>
    var disabledReason: map<int, string>

    ghost function Stored(): Info
      reads this
    {
      Info(statusList, disabledTime, disabledReason)
    }

    ghost predicate Valid()
      reads this
    {
      size == |GetKeys(key)| && Sparse(Stored(), size)
    }

    ghost function Records(): seq<KeyRecord>
      reads this
    {
      RecordsOf(GetKeys(key), Stored())
    }

    constructor (text: string, size: int)
      ensures key == text && this.size == size
      ensures statusList == map[] && disabledTime == map[] && disabledReason == map[]
      ensures Valid() <==> size == |GetKeys(text)|
      ensures Records() == AllNew(GetKeys(text))
    {
      key, this.size := text, size;
      statusList, disabledTime, disabledReason := map[], map[], map[];
    }

    /**
     `Channel.Update`: the key column is only written when the new text is not
     empty, the size follows the text that stays, and statuses past it go.
     */
    method Update(newKey: string, newStatus: map<int, int>, newTime: map<int, int>, newReason: map<int, string>)
      modifies this
      ensures key == if newKey != "" then newKey else old(key)
      ensures size == |GetKeys(key)|
      ensures statusList == Filtered(newStatus, Below(size))
      ensures disabledTime == newTime && disabledReason == newReason
      ensures Sparse(Info(newStatus, newTime, newReason), size) ==> Stored() == Info(newStatus, newTime, newReason)
    {
      var keyStr := if newKey != "" then newKey else key;
      size := |GetKeys(keyStr)|;
      key, disabledTime, disabledReason := keyStr, newTime, newReason;
      statusList := Filtered(newStatus, Below(size));
      if Sparse(Info(newStatus, newTime, newReason), size) { FilteredAll(newStatus, Below(size)); }
    }

    method DisableKey(index: Option<int>) returns (ok: bool)
      requires Valid()
      modifies this
      ensures Valid() && key == old(key)
      ensures ok <==> index.Some? && 0 <= index.value < |old(Records())|
      ensures Records() == if ok then Expected(old(Records()), Action.DisableKey(index.value)) else old(Records())
    {
      if index.None? || index.value < 0 || index.value >= size { return false; }
      DisableOne(GetKeys(key), Stored(), index.value);
      Update(key, statusList[index.value := MANUALLY_DISABLED], disabledTime, disabledReason);
      return true;
    }

    method EnableKey(index: Option<int>) returns (ok: bool)
      requires Valid()
      modifies this
      ensures Valid() && key == old(key)
      ensures ok <==> index.Some? && 0 <= index.value < |old(Records())|
      ensures Records() == if ok then Expected(old(Records()), Action.EnableKey(index.value)) else old(Records())
    {
      if index.None? || index.value < 0 || index.value >= size { return false; }
      EnableOne(GetKeys(key), Stored(), index.value);
      Update(key, statusList - {index.value}, disabledTime - {index.value}, disabledReason - {index.value});
      return true;
    }

    method EnableAllKeys() returns (enabledCount: nat)
      requires Valid()
      modifies this
      ensures Valid() && key == old(key)
      ensures Records() == Expected(old(Records()), EnableAll)
      ensures enabledCount == |set i | 0 <= i < |old(Records())| && old(Records())[i].status != ENABLED|
    {
      enabledCount := |statusList|;
      assert (set i | 0 <= i < |Records()| && Records()[i].status != ENABLED) == statusList.Keys;
      Update(key, map[], map[], map[]);
    }

    method DisableAllKeys() returns (ok: bool)
      requires Valid()
      modifies this
      ensures Valid() && key == old(key)
      ensures ok <==> HasEnabled(old(Records()))
      ensures Records() == Expected(old(Records()), DisableAll)
    {
      var status, disabledCount := DisableEnabled(GetKeys(key), Info(statusList, disabledTime, disabledReason));
      if disabledCount == 0 { return false; }
      Update(key, status, disabledTime, disabledReason);
      return true;
    }

    /** The survivors keep their records exactly when the list that is left has no blank end. */
    method DeleteKey(index: Option<int>) returns (ok: bool)
      requires Valid()
      modifies this
      ensures ok <==> index.Some? && 0 <= index.value < |old(Records())| && |old(Records())| > 1
      ensures !ok ==> Valid() && Records() == old(Records()) && key == old(key)
      ensures ok ==> var left := Without(old(Records()), index.value);
                     && Records() == Reread(left, old(Records()))
                     && (Records() == left <==> !BlankEnd(left)) && (!BlankEnd(left) ==> Valid())
    {
      if index.None? || index.value < 0 || index.value >= size { return false; }
      ghost var was := Records();
      var remaining, info := ReindexWithout(GetKeys(key), Info(statusList, disabledTime, disabledReason), index.value);
      if |remaining| == 0 { return false; }
      Rebuilt(remaining, info, key, was);
      Update(Join(remaining, '\n'), info.status, info.time, info.reason);
      assert key == TextFor(remaining, old(key)) && Stored() == InfoFor(info, key);
      return true;
    }

    /**
     Returns how many keys were reported deleted; nothing is done when there is
     none to delete. Otherwise the survivors keep their records exactly when there
     are some and neither end of them is blank.
     */
    method DeleteDisabledKeys() returns (deletedCount: nat)
      requires Valid()
      modifies this
      ensures deletedCount == |old(Records())| - |WithoutAuto(old(Records()))|
      ensures deletedCount == 0 ==> Valid() && Records() == old(Records()) && key == old(key)
      ensures deletedCount > 0 ==> var left := WithoutAuto(old(Records()));
                                   && Records() == Reread(left, old(Records()))
                                   && (Records() == left <==> left != [] && !BlankEnd(left))
                                   && (!BlankEnd(left) ==> Valid())
    {
      ghost var was := Records();
      var remaining, info, count := ReindexWithoutAuto(GetKeys(key), Info(statusList, disabledTime, disabledReason));
      deletedCount := count;
      if deletedCount == 0 { return; }
      Rebuilt(remaining, info, key, was);
      Update(Join(remaining, '\n'), info.status, info.time, info.reason);
      assert key == TextFor(remaining, old(key)) && Stored() == InfoFor(info, key);
    }

    /** `handlerMultiKeyUpdate` for a key that just failed: the first key with this text is marked. */
    method AutoDisable(usingKey: string, reason: string, now: int) returns (found: bool)
      requires Valid()
      modifies this
      ensures Valid() && key == old(key)
      ensures found <==> exists i :: 0 <= i < |old(Records())| && old(Records())[i].key == usingKey
      ensures Records() == Expected(old(Records()), Action.AutoDisable(usingKey, reason, now))
    {
      ghost var was := Records();
      var keyIndex := FindKey(GetKeys(key), usingKey);
      FindIs(was, usingKey, keyIndex);
      if keyIndex == |GetKeys(key)| { return false; }
      assert was[keyIndex].key == usingKey;
      MarkOne(GetKeys(key), Stored(), keyIndex, reason, now);
      statusList := statusList[keyIndex := AUTO_DISABLED];
      disabledReason := disabledReason[keyIndex := reason];
      disabledTime := disabledTime[keyIndex := now];
      return true;
    }

    /** `handlerMultiKeyUpdate` for a key that works again: the status entry goes, the time and the reason stay. */
    method AutoEnable(usingKey: string) returns (found: bool)
      requires Valid()
      modifies this
      ensures Valid() && key == old(key)
      ensures found <==> exists i :: 0 <= i < |old(Records())| && old(Records())[i].key == usingKey
      ensures Records() == Expected(old(Records()), Action.AutoEnable(usingKey))
    {
      ghost var was := Records();
      var keyIndex := FindKey(GetKeys(key), usingKey);
      FindIs(was, usingKey, keyIndex);
      if keyIndex == |GetKeys(key)| { return false; }
      assert was[keyIndex].key == usingKey;
      UnmarkOne(GetKeys(key), Stored(), keyIndex);
      statusList := statusList - {keyIndex};
      return true;
    }

    /**
     The append branch of the channel update; without existing keys the new text
     is taken as it is. Every existing key stays at its index, exactly unless
     the old text was nothing but newlines and something is added.
     */
    method AppendKeys(newText: string)
      requires Valid()
      modifies this
      ensures old(key) == "" ==> Valid() && key == newText && Records() == AllNew(GetKeys(newText))
      ensures old(key) != "" ==> var keys := GetKeys(old(key)); var added := NewKeys(keys, Split(newText, '\n'));
                                 var wished, lost := old(Records()) + AllNew(added), keys == [""] && added != [];
                                 && Records() == Reread(wished, old(Records()))
                                 && (Records() == wished <==> !lost) && (!lost ==> Valid())
    {
      ghost var was := Records();
      if key == "" {
        NoEntries(GetKeys(newText), Stored());
        Update(newText, statusList, disabledTime, disabledReason);
        return;
      }
      var existing := Split(Trim(key, IsNewline), '\n');
      var added := Deduplicate(existing, Split(newText, '\n'));
      Appended(key, Split(newText, '\n'), Stored(), was);
      Update(Join(existing + added, '\n'), statusList, disabledTime, disabledReason);
      assert key == TextFor(existing + added, old(key)) && Stored() == InfoFor(old(Stored()), key);
    }

    method GetKeyStatus(page: int, pageSize: int, filter: Option<int>) returns (r: StatusPage)
      requires Valid()
      ensures r.pageSize == if pageSize <= 0 then 50 else pageSize
      ensures r.total == |Listing(Records(), filter)| && r.totalPages == PageCount(r.total, r.pageSize)
      ensures 1 <= r.page <= r.totalPages && (1 <= page <= r.totalPages ==> r.page == page)
      ensures r.keys == PageOf(Listing(Records(), filter), r.page, r.pageSize)
      ensures r.enabled == Tally(Records(), ENABLED)
      ensures r.manuallyDisabled == Tally(Records(), MANUALLY_DISABLED)
      ensures r.autoDisabled == Tally(Records(), AUTO_DISABLED)
    {
      var keys := GetKeys(key);
      ghost var was := Records();
      var listed: seq<KeyStatus> := [];
      var enabled, manual, auto := 0, 0, 0;
      for i := 0 to |keys|
        invariant listed == Listing(was[..i], None)
        invariant enabled == Tally(was[..i], ENABLED) && manual == Tally(was[..i], MANUALLY_DISABLED) &&
                  auto == Tally(was[..i], AUTO_DISABLED)
      {
        assert was[..i + 1][..i] == was[..i];
        var status, time, reason := ENABLED, 0, "";
        if i in statusList { status := statusList[i]; }
        if status == ENABLED { enabled := enabled + 1; }
        else if status == MANUALLY_DISABLED { manual := manual + 1; }
        else if status == AUTO_DISABLED { auto := auto + 1; }
        if status != ENABLED {
          if i in disabledTime { time := disabledTime[i]; }
          if i in disabledReason { reason := disabledReason[i]; }
        }
        assert Show(was[i]) == Shown(status, time, reason);
        listed := listed + [KeyStatus(i, Shown(status, time, reason), Preview(keys[i]))];
      }
      assert was[..|keys|] == was;
      var filtered := FilterStatus(listed, filter, was);
      r := Paginate(filtered, page, pageSize);
      r := r.(enabled := enabled, manuallyDisabled := manual, autoDisabled := auto);
    }
  }

  /** The loop of the disable-all action, over the first `MultiKeySize` indices. */
  method DisableEnabled(keys: seq<string>, info: Info) returns (status: map<int, int>, disabledCount: nat)
    requires Sparse(info, |keys|)
    ensures Sparse(info.(status := status), |keys|)
    ensures RecordsOf(keys, info.(status := status)) == MapDisabled(RecordsOf(keys, info))
    ensures disabledCount > 0 <==> HasEnabled(RecordsOf(keys, info))
    ensures disabledCount == 0 ==> MapDisabled(RecordsOf(keys, info)) == RecordsOf(keys, info)
  {
    status, disabledCount := info.status, 0;
    for i := 0 to |keys|
      invariant forall j :: j in status <==> j in info.status || 0 <= j < i
      invariant forall j :: j in status ==> status[j] == if j in info.status then info.status[j] else MANUALLY_DISABLED
      invariant disabledCount > 0 <==> exists j :: 0 <= j < i && RecordsOf(keys, info)[j].status == ENABLED
    {
      assert RecordsOf(keys, info)[i].status == StatusAt(info, i);
      var s := if i in status then status[i] else ENABLED;
      if s == ENABLED {
        status := status[i := MANUALLY_DISABLED];
        disabledCount := disabledCount + 1;
      }
    }
  }

  /** The loop of the delete-key action: copy every other key and move its entries to its new index. */
  method ReindexWithout(keys: seq<string>, info: Info, index: int) returns (remaining: seq<string>, out: Info)
    requires Sparse(info, |keys|)
    ensures Sparse(out, |remaining|)
    ensures forall k :: k in remaining ==> k in keys
    ensures RecordsOf(remaining, out) == Without(RecordsOf(keys, info), index)
  {
    ghost var was := RecordsOf(keys, info);
    remaining := [];
    var newStatus, newTime, newReason := map[], map[], map[];
    var newIndex := 0;
    for i := 0 to |keys|
      invariant newIndex == |remaining|
      invariant forall k :: k in remaining ==> k in keys
      invariant Sparse(Info(newStatus, newTime, newReason), |remaining|)
      invariant RecordsOf(remaining, Info(newStatus, newTime, newReason)) == Without(was[..i], index)
    {
      WithoutNext(was, i, index);
      if i == index { continue; }
      ghost var before := Info(newStatus, newTime, newReason);
      CarryOver(remaining, before, keys[i], info, i, |keys|);
      if i in info.status && info.status[i] != ENABLED { newStatus := newStatus[newIndex := info.status[i]]; }
      if i in info.time { newTime := newTime[newIndex := info.time[i]]; }
      if i in info.reason { newReason := newReason[newIndex := info.reason[i]]; }
      assert Info(newStatus, newTime, newReason) == Carried(before, info, i, |remaining|);
      remaining := remaining + [keys[i]];
      newIndex := newIndex + 1;
    }
    assert was[..|keys|] == was;
    out := Info(newStatus, newTime, newReason);
  }

  /** The loop of the delete-disabled action, which only looks at the entries of keys that are not enabled. */
  method ReindexWithoutAuto(keys: seq<string>, info: Info)
      returns (remaining: seq<string>, out: Info, deletedCount: nat)
    requires Sparse(info, |keys|)
    ensures Sparse(out, |remaining|)
    ensures forall k :: k in remaining ==> k in keys
    ensures RecordsOf(remaining, out) == WithoutAuto(RecordsOf(keys, info))
    ensures deletedCount == |keys| - |remaining|
  {
    ghost var was := RecordsOf(keys, info);
    remaining, deletedCount := [], 0;
    var newStatus, newTime, newReason := map[], map[], map[];
    var newIndex := 0;
    for i := 0 to |keys|
      invariant newIndex == |remaining| && deletedCount == i - |remaining|
      invariant forall k :: k in remaining ==> k in keys
      invariant Sparse(Info(newStatus, newTime, newReason), |remaining|)
      invariant RecordsOf(remaining, Info(newStatus, newTime, newReason)) == WithoutAuto(was[..i])
    {
      WithoutAutoNext(was, i);
      var status := if i in info.status then info.status[i] else ENABLED;
      assert was[i].status == status;
      if status == AUTO_DISABLED {
        deletedCount := deletedCount + 1;
      } else {
        CarryOver(remaining, Info(newStatus, newTime, newReason), keys[i], info, i, |keys|);
        CarryNothing(remaining, Info(newStatus, newTime, newReason), keys[i]);
        remaining := remaining + [keys[i]];
        if status != ENABLED {
          newStatus := newStatus[newIndex := status];
          if i in info.time { newTime := newTime[newIndex := info.time[i]]; }
          if i in info.reason { newReason := newReason[newIndex := info.reason[i]]; }
        }
        newIndex := newIndex + 1;
      }
    }
    assert was[..|keys|] == was;
    out := Info(newStatus, newTime, newReason);
  }

  method FindKey(keys: seq<string>, usingKey: string) returns (keyIndex: nat)
    ensures keyIndex <= |keys| && (keyIndex < |keys| ==> keys[keyIndex] == usingKey)
    ensures forall j :: 0 <= j < keyIndex ==> keys[j] != usingKey
  {
    keyIndex := 0;
    while keyIndex < |keys| && keys[keyIndex] != usingKey
      invariant keyIndex <= |keys|
      invariant forall j :: 0 <= j < keyIndex ==> keys[j] != usingKey
    {
      keyIndex := keyIndex + 1;
    }
  }

  // ----- Appending keys -----

  predicate Listed(lines: seq<string>, key: string)
  {
    exists i :: 0 <= i < |lines| && TrimSpace(lines[i]) == key
  }

  /** The trimmed, non-blank lines that no existing key and no earlier line equals after trimming. */
  function NewKeys(existing: seq<string>, lines: seq<string>): (added: seq<string>)
  {
    if lines == [] then []
    else
      var before := NewKeys(existing, lines[..|lines| - 1]);
      var key := TrimSpace(lines[|lines| - 1]);
      if key == "" || key in before || Listed(existing, key) then before else before + [key]
  }

  method Deduplicate(existing: seq<string>, lines: seq<string>) returns (added: seq<string>)
    ensures added == NewKeys(existing, lines)
  {
    var seen: set<string> := {};
    for i := 0 to |existing|
      invariant forall k :: k in seen <==> k != "" && Listed(existing[..i], k)
    {
      ListedPush(existing[..i], existing[i]);
      assert existing[..i + 1] == existing[..i] + [existing[i]];
      var normalized := TrimSpace(existing[i]);
      if normalized == "" { continue; }
      seen := seen + {normalized};
    }
    assert existing[..|existing|] == existing;
    ghost var known := seen;
    added := [];
    for i := 0 to |lines|
      invariant added == NewKeys(existing, lines[..i])
      invariant forall k :: k in seen <==> k in known || k in added
    {
      assert lines[..i + 1][..i] == lines[..i];
      var normalized := TrimSpace(lines[i]);
      if normalized == "" || normalized in seen { continue; }
      seen := seen + {normalized};
      added := added + [normalized];
    }
    assert lines[..|lines|] == lines;
  }

  lemma AppendFresh(keys: seq<string>, added: seq<string>, info: Info)
    requires Sparse(info, |keys|)
    ensures Sparse(info, |keys| + |added|)
    ensures RecordsOf(keys + added, info) == RecordsOf(keys, info) + AllNew(added)
  {
  }

  /**
   Appended keys read back after the old ones, exactly unless the old text was only
   newlines and something is added.
   */
  lemma AppendedReads(keys: seq<string>, added: seq<string>)
    requires Readable(keys) && keys != [] && Solid(added)
    ensures KeysRead(keys + added, keys) == keys + added <==> !(keys == [""] && added != [])
  {
    var all := keys + added;
    KeysRoundTrip(all);
    TextIsBlank(all);
    assert all[0] == keys[0];
    assert all[|all| - 1] == if added == [] then keys[|keys| - 1] else added[|added| - 1];
    if added == [] { assert all == keys; } else { assert |all| > 1; }
  }

  lemma Appended(text: string, lines: seq<string>, info: Info, rs: seq<KeyRecord>)
    requires text != "" && Sparse(info, |GetKeys(text)|) && Lines(lines) && rs == RecordsOf(GetKeys(text), info)
    ensures var keys, added := GetKeys(text), NewKeys(GetKeys(text), lines);
            var text', wished, lost := TextFor(keys + added, text), rs + AllNew(added), keys == [""] && added != [];
            && RecordsOf(GetKeys(text'), InfoFor(info, text')) == Reread(wished, rs)
            && (Reread(wished, rs) == wished <==> !lost)
            && (!lost ==> Sparse(InfoFor(info, text'), |GetKeys(text')|))
  {
    var keys, added := GetKeys(text), NewKeys(GetKeys(text), lines);
    assert KeysOf(rs) == keys;
    TextsAreReadable(text);
    NewKeysAreKeys(keys, lines);
    AppendFresh(keys, added, info);
    RowRereads(keys + added, info, text, rs);
    AppendingIsSafeIff(rs, added);
  }

  lemma AppendingIsSafeIff(rs: seq<KeyRecord>, added: seq<string>)
    requires rs != [] && Readable(KeysOf(rs)) && Solid(added)
    ensures Reread(rs + AllNew(added), rs) == rs + AllNew(added) <==> !(KeysOf(rs) == [""] && added != [])
    ensures KeysRead(KeysOf(rs) + added, KeysOf(rs)) == KeysOf(rs) + added <==> !(KeysOf(rs) == [""] && added != [])
  {
    AppendedReads(KeysOf(rs), added);
    RereadIsIt(rs + AllNew(added), rs);
    KeysAppended(rs, added);
  }

  lemma KeysAppended(rs: seq<KeyRecord>, added: seq<string>)
    ensures KeysOf(rs + AllNew(added)) == KeysOf(rs) + added
  {
  }

  lemma NewKeysAreKeys(existing: seq<string>, lines: seq<string>)
    requires Lines(lines)
    ensures Solid(NewKeys(existing, lines))
  {
    var added := NewKeys(existing, lines);
    NewKeysShape(existing, lines);
    NewKeysAreTrimmed(existing, lines);
    assert forall i :: 0 <= i < |added| ==> added[i] in added;
  }

  ghost predicate Solid(keys: seq<string>)
  {
    forall i :: 0 <= i < |keys| ==> keys[i] != "" && '\n' !in keys[i]
  }

  /** A joined list is empty text only when it is a single blank key. */
  lemma TextIsBlank(keys: seq<string>)
    requires |keys| > 0
    ensures Join(keys, '\n') == "" <==> keys == [""]
  {
    if |keys| > 1 { assert '\n' in Join(keys, '\n'); }
  }

  lemma ListedPush(lines: seq<string>, line: string)
    ensures forall k :: Listed(lines + [line], k) <==> Listed(lines, k) || TrimSpace(line) == k
  {
    var more := lines + [line];
    forall k
      ensures Listed(more, k) <==> Listed(lines, k) || TrimSpace(line) == k
    {
      if Listed(lines, k) {
        var i :| 0 <= i < |lines| && TrimSpace(lines[i]) == k;
        assert TrimSpace(more[i]) == k;
      }
      if TrimSpace(line) == k { assert TrimSpace(more[|lines|]) == k; }
    }
  }

  ghost predicate Distinct(keys: seq<string>)
  {
    forall i, j :: 0 <= i < j < |keys| ==> keys[i] != keys[j]
  }

  /** Each added key is a non-blank line, new, and there once; every new line is there. */
  lemma {:induction false} NewKeysShape(existing: seq<string>, lines: seq<string>)
    ensures Distinct(NewKeys(existing, lines))
    ensures forall k :: k in NewKeys(existing, lines) <==> k != "" && Listed(lines, k) && !Listed(existing, k)
  {
    if lines != [] {
      var init, last := lines[..|lines| - 1], lines[|lines| - 1];
      NewKeysShape(existing, init);
      ListedPush(init, last);
      assert lines == init + [last];
    }
  }

  lemma {:induction false} NewKeysAreTrimmed(existing: seq<string>, lines: seq<string>)
    ensures forall k :: k in NewKeys(existing, lines) ==> TrimSpace(k) == k
    ensures Lines(lines) ==> forall k :: k in NewKeys(existing, lines) ==> '\n' !in k
  {
    if lines != [] {
      NewKeysAreTrimmed(existing, lines[..|lines| - 1]);
      TrimIsTrimmed(lines[|lines| - 1], IsSpace);
      TrimFixed(TrimSpace(lines[|lines| - 1]), IsSpace);
    }
  }

  /** Appending the same text again adds nothing. */
  lemma AppendIsIdempotent(existing: seq<string>, lines: seq<string>)
    ensures NewKeys(existing + NewKeys(existing, lines), lines) == []
  {
    var added := NewKeys(existing, lines);
    var again := NewKeys(existing + added, lines);
    assert again == [] || again[0] in again;
    NewKeysShape(existing, lines);
    NewKeysAreTrimmed(existing, lines);
    NewKeysShape(existing + added, lines);
    forall k | k != "" && Listed(lines, k)
      ensures Listed(existing + added, k)
    {
      ListedEither(existing, added, k);
    }
  }

  lemma ListedEither(existing: seq<string>, added: seq<string>, key: string)
    requires Listed(existing, key) || (key in added && TrimSpace(key) == key)
    ensures Listed(existing + added, key)
  {
    var all := existing + added;
    if Listed(existing, key) {
      var i :| 0 <= i < |existing| && TrimSpace(existing[i]) == key;
      assert TrimSpace(all[i]) == key;
    } else {
      var j :| 0 <= j < |added| && added[j] == key;
      assert TrimSpace(all[|existing| + j]) == key;
    }
  }

  // ----- The status listing -----

  datatype KeyStatus = KeyStatus(index: int, shown: Shown, preview: string)

  datatype StatusPage = StatusPage(keys: seq<KeyStatus>, total: int, page: int, pageSize: int, totalPages: int,
                                   enabled: int, manuallyDisabled: int, autoDisabled: int)

  function Preview(key: string): string
  {
    if |key| > 10 then key[..10] + "..." else key
  }

  predicate Wanted(status: int, filter: Option<int>)
  {
    filter.None? || filter.value == status
  }

  /** The records whose status is asked for, each with its index in the key list. */
  function Listing(rs: seq<KeyRecord>, filter: Option<int>): seq<KeyStatus>
  {
    if rs == [] then []
    else
      var r := rs[|rs| - 1];
      Listing(rs[..|rs| - 1], filter) +
      if Wanted(r.status, filter) then [KeyStatus(|rs| - 1, Show(r), Preview(r.key))] else []
  }

  function Tally(rs: seq<KeyRecord>, status: int): nat
  {
    if rs == [] then 0 else Tally(rs[..|rs| - 1], status) + if rs[|rs| - 1].status == status then 1 else 0
  }

  method FilterStatus(listed: seq<KeyStatus>, filter: Option<int>, ghost rs: seq<KeyRecord>)
      returns (filtered: seq<KeyStatus>)
    requires listed == Listing(rs, None)
    ensures filtered == Listing(rs, filter)
  {
    if filter.None? { return listed; }
    ListingAll(rs);
    filtered := [];
    for i := 0 to |listed|
      invariant filtered == Listing(rs[..i], filter)
    {
      assert rs[..i + 1][..i] == rs[..i];
      if listed[i].shown.status == filter.value { filtered := filtered + [listed[i]]; }
    }
    assert rs[..|listed|] == rs;
  }

  lemma {:induction false} ListingAll(rs: seq<KeyRecord>)
    ensures var l := Listing(rs, None);
            |l| == |rs| && forall i :: 0 <= i < |rs| ==> l[i] == KeyStatus(i, Show(rs[i]), Preview(rs[i].key))
  {
    if rs != [] { ListingAll(rs[..|rs| - 1]); }
  }

  function PageCount(total: int, pageSize: int): int
    requires total >= 0 && pageSize > 0
  {
    if total == 0 then 1 else (total + pageSize - 1) / pageSize
  }

  function PageOf(list: seq<KeyStatus>, page: int, pageSize: int): seq<KeyStatus>
    requires page >= 1 && pageSize > 0
  {
    StartsInside(page, pageSize);
    var start := (page - 1) * pageSize;
    var end := if start + pageSize > |list| then |list| else start + pageSize;
    if start < |list| then list[start..end] else []
  }

  method Paginate(filtered: seq<KeyStatus>, page: int, pageSize: int) returns (r: StatusPage)
    ensures r.pageSize == if pageSize <= 0 then 50 else pageSize
    ensures r.total == |filtered| && r.totalPages == PageCount(r.total, r.pageSize)
    ensures 1 <= r.page <= r.totalPages && (1 <= page <= r.totalPages ==> r.page == page)
    ensures r.keys == PageOf(filtered, r.page, r.pageSize)
  {
    var page', pageSize' := page, pageSize;
    if page' <= 0 { page' := 1; }
    if pageSize' <= 0 { pageSize' := 50; }
    var total := |filtered|;
    PageCountBounds(total, pageSize');
    var totalPages := (total + pageSize' - 1) / pageSize';
    if totalPages == 0 { totalPages := 1; }
    if page' > totalPages { page' := totalPages; }
    var start := (page' - 1) * pageSize';
    assert start >= 0 by { StartsInside(page', pageSize'); }
    var end := start + pageSize';
    if end > total { end := total; }
    var keys := [];
    if start < total { keys := filtered[start..end]; }
    assert keys == PageOf(filtered, page', pageSize');
    r := StatusPage(keys, total, page', pageSize', totalPages, 0, 0, 0);
  }

  lemma StartsInside(page: int, pageSize: int)
    requires page >= 1 && pageSize > 0
    ensures (page - 1) * pageSize >= 0
  {
  }

  lemma PageCountBounds(total: int, pageSize: int)
    requires total >= 0 && pageSize > 0
    ensures PageCount(total, pageSize) >= 1 && PageCount(total, pageSize) * pageSize >= total
    ensures total > 0 ==> (PageCount(total, pageSize) - 1) * pageSize < total
    ensures total == 0 ==> (total + pageSize - 1) / pageSize == 0
  {
    var n := (total + pageSize - 1) / pageSize;
    assert (total + pageSize - 1) == n * pageSize + (total + pageSize - 1) % pageSize;
    assert n <= 0 ==> n * pageSize <= 0;
    assert n >= 1 ==> n * pageSize >= pageSize;
  }

  function Pages(list: seq<KeyStatus>, pageSize: int, n: nat): seq<KeyStatus>
    requires pageSize > 0
  {
    if n == 0 then [] else Pages(list, pageSize, n - 1) + PageOf(list, n, pageSize)
  }

  /** Reading the pages one after the other gives the whole listing, nothing twice and nothing missing. */
  lemma PagesCoverTheListing(list: seq<KeyStatus>, pageSize: int)
    requires pageSize > 0
    ensures Pages(list, pageSize, PageCount(|list|, pageSize)) == list
  {
    PageCountBounds(|list|, pageSize);
    PagesTo(list, pageSize, PageCount(|list|, pageSize));
  }

  function UpTo(list: seq<KeyStatus>, n: nat): seq<KeyStatus>
  {
    if n <= |list| then list[..n] else list
  }

  lemma {:induction false} PagesTo(list: seq<KeyStatus>, pageSize: int, n: nat)
    requires pageSize > 0
    ensures n * pageSize >= 0 && Pages(list, pageSize, n) == UpTo(list, n * pageSize)
  {
    if n > 0 {
      PagesTo(list, pageSize, n - 1);
      assert n * pageSize == (n - 1) * pageSize + pageSize;
      OnePageMore(list, (n - 1) * pageSize, pageSize, PageOf(list, n, pageSize));
    }
  }

  lemma OnePageMore(list: seq<KeyStatus>, start: nat, pageSize: nat, page: seq<KeyStatus>)
    requires start < |list| ==>
               page == list[start..if start + pageSize > |list| then |list| else start + pageSize]
    requires start >= |list| ==> page == []
    ensures UpTo(list, start) + page == UpTo(list, start + pageSize)
  {
  }

  lemma NoEntries(keys: seq<string>, info: Info)
    requires Sparse(info, 0)
    ensures Sparse(info, |keys|) && RecordsOf(keys, info) == AllNew(keys)
  {
    forall i | 0 <= i < |keys|
      ensures RecordAt(keys[i], info, i) == Fresh(keys[i])
    {
    }
  }

  lemma WithoutNext(rs: seq<KeyRecord>, i: nat, index: int)
    requires i < |rs|
    ensures Without(rs[..i + 1], index) == Without(rs[..i], index) + if i == index then [] else [rs[i]]
  {
    assert rs[..i + 1] == rs[..i] + [rs[i]];
    if 0 <= index < i {
      assert rs[..i + 1][index + 1..] == rs[..i][index + 1..] + [rs[i]];
    }
  }

  lemma WithoutAutoNext(rs: seq<KeyRecord>, i: nat)
    requires i < |rs|
    ensures WithoutAuto(rs[..i + 1]) ==
            WithoutAuto(rs[..i]) + if rs[i].status == AUTO_DISABLED then [] else [Kept(rs[i])]
  {
    assert rs[..i + 1][..i] == rs[..i];
  }

  lemma {:induction false} FindIs(rs: seq<KeyRecord>, key: string, i: nat)
    requires i <= |rs| && (i < |rs| ==> rs[i].key == key)
    requires forall j :: 0 <= j < i ==> rs[j].key != key
    ensures Find(rs, key) == i
  {
  }
}
