/**
 What the actions on a multi-key channel mean to those who look at it
 (controller/channel.go, model/channel.go): the operator, who sees a status from 1
 to 3 with a time and a reason, and the requests, which are given enabled keys.
 */
module KeyViews {
  import opened Basics
  import opened Text
  import opened MultiKey
  import KeyPolling
  import MultiKeyRuns

  ghost predicate SameKeys(rs: seq<KeyRecord>, out: seq<KeyRecord>)
  {
    |out| == |rs| && forall i :: 0 <= i < |rs| ==> out[i].key == rs[i].key
  }

  // ----- One key -----

  /** A manual disable of one key is status 2, whatever it was, and touches no other key. */
  lemma DisablesOne(rs: seq<KeyRecord>, i: nat)
    requires i < |rs|
    ensures var out := Actual(rs, DisableKey(i));
            && SameKeys(rs, out) && Show(out[i]).status == 2
            && out[i].time == rs[i].time && out[i].reason == rs[i].reason
            && (forall j :: 0 <= j < |rs| && j != i ==> out[j] == rs[j])
  {
  }

  /** Enabling a key shows it as enabled and forgets its past: disabled again by hand, it shows no time or reason. */
  lemma EnablesOne(rs: seq<KeyRecord>, i: nat)
    requires i < |rs|
    ensures var out := Actual(rs, EnableKey(i));
            && SameKeys(rs, out) && Show(out[i]) == Shown(1, 0, "")
            && Show(Actual(out, DisableKey(i))[i]) == Shown(2, 0, "")
            && (forall j :: 0 <= j < |rs| && j != i ==> out[j] == rs[j])
  {
  }

  /** An automatic disable marks one key of that text, the first, with its time and reason; without one, nothing. */
  lemma MarksOne(rs: seq<KeyRecord>, key: string, reason: string, now: int, i: nat)
    requires i <= |rs| && (i < |rs| ==> rs[i].key == key) && forall j :: 0 <= j < i ==> rs[j].key != key
    ensures var out := Actual(rs, AutoDisable(key, reason, now));
            && SameKeys(rs, out) && (i < |rs| ==> Show(out[i]) == Shown(3, now, reason))
            && (forall j :: 0 <= j < |rs| && j != i ==> out[j] == rs[j])
  {
    FindIs(rs, key, i);
  }

  /** An automatic enable shows that key as enabled, without a time or reason although it carries them. */
  lemma UnmarksOne(rs: seq<KeyRecord>, key: string, i: nat)
    requires i <= |rs| && (i < |rs| ==> rs[i].key == key) && forall j :: 0 <= j < i ==> rs[j].key != key
    ensures var out := Actual(rs, AutoEnable(key));
            && SameKeys(rs, out)
            && (i < |rs| ==> Show(out[i]) == Shown(1, 0, "") && out[i] == rs[i].(status := 1))
            && (forall j :: 0 <= j < |rs| && j != i ==> out[j] == rs[j])
  {
    FindIs(rs, key, i);
  }

  // ----- All keys -----

  /** After disable-all no key is enabled; the enabled ones are at status 2, and the others are as they were. */
  lemma DisablesAll(rs: seq<KeyRecord>, i: nat)
    requires i < |rs|
    ensures var out := Actual(rs, DisableAll);
            && SameKeys(rs, out) && out[i].status != 1
            && (out[i].status == 3 <==> rs[i].status == 3)
            && out[i].status == (if rs[i].status == 1 then 2 else rs[i].status)
            && out[i].time == rs[i].time && out[i].reason == rs[i].reason
  {
  }

  /** After enable-all every key is enabled and forgotten about. */
  lemma EnablesAll(rs: seq<KeyRecord>, i: nat)
    requires i < |rs|
    ensures var out := Actual(rs, EnableAll);
            && SameKeys(rs, out) && Show(out[i]) == Shown(1, 0, "")
            && Show(Actual(out, DisableKey(i))[i]) == Shown(2, 0, "")
  {
  }

  /** Delete-disabled deletes the keys at status 3 and no others, in order. */
  function KeysWithout(rs: seq<KeyRecord>, status: int): seq<string>
  {
    if rs == [] then []
    else KeysWithout(rs[..|rs| - 1], status) + if rs[|rs| - 1].status == status then [] else [rs[|rs| - 1].key]
  }

  lemma {:induction false} DeletesStatusThree(rs: seq<KeyRecord>)
    ensures KeysOf(WithoutAuto(rs)) == KeysWithout(rs, 3)
  {
    if rs != [] {
      var init, last := rs[..|rs| - 1], rs[|rs| - 1];
      DeletesStatusThree(init);
      KeysOfConcat(WithoutAuto(init), if last.status == AUTO_DISABLED then [] else [Kept(last)]);
    }
  }

  lemma KeysOfConcat(a: seq<KeyRecord>, b: seq<KeyRecord>)
    ensures KeysOf(a + b) == KeysOf(a) + KeysOf(b)
  {
  }

  lemma {:induction false} SameWithout(rs: seq<KeyRecord>, out: seq<KeyRecord>, status: int)
    requires SameKeys(rs, out)
    requires forall i :: 0 <= i < |rs| ==> (out[i].status == status <==> rs[i].status == status)
    ensures KeysWithout(rs, status) == KeysWithout(out, status)
  {
    if rs != [] { SameWithout(rs[..|rs| - 1], out[..|rs| - 1], status); }
  }

  /** Disabling all keys first changes nothing about which keys delete-disabled deletes. */
  lemma DisableAllSparesKeys(rs: seq<KeyRecord>)
    ensures var out := Actual(rs, DisableAll);
            && KeysOf(WithoutAuto(out)) == KeysOf(WithoutAuto(rs))
            && KeysOf(Actual(out, DeleteDisabled)) == KeysOf(Actual(rs, DeleteDisabled))
  {
    var out := Actual(rs, DisableAll);
    SameWithout(rs, out, 3);
    DeletesStatusThree(rs);
    DeletesStatusThree(out);
    SameLength(WithoutAuto(out), WithoutAuto(rs));
    assert KeysOf(out) == KeysOf(rs);
    RereadKeys(WithoutAuto(rs), rs);
    RereadKeys(WithoutAuto(out), out);
  }

  lemma SameLength(a: seq<KeyRecord>, b: seq<KeyRecord>)
    requires KeysOf(a) == KeysOf(b)
    ensures |a| == |b|
  {
    assert |KeysOf(a)| == |KeysOf(b)|;
  }

  lemma RereadKeys(left: seq<KeyRecord>, before: seq<KeyRecord>)
    ensures KeysOf(Reread(left, before)) == KeysRead(KeysOf(left), KeysOf(before))
  {
  }

  /** When a deletion takes place, an enabled survivor is forgotten about, and a disabled one keeps its record. */
  lemma {:induction false} SurvivorsAreKept(rs: seq<KeyRecord>, r: KeyRecord)
    ensures r in WithoutAuto(rs) <==>
            exists i :: 0 <= i < |rs| && rs[i].status != 3 &&
              r == if rs[i].status == 1 then KeyRecord(rs[i].key, 1, None, None) else rs[i]
  {
    if rs != [] {
      var init := rs[..|rs| - 1];
      SurvivorsAreKept(init, r);
      assert forall i :: 0 <= i < |init| ==> init[i] == rs[i];
      if r in WithoutAuto(rs) && r !in WithoutAuto(init) {
        assert rs[|rs| - 1].status != 3;
      }
    }
  }

  // ----- What requests are given -----

  /** A key is in turn for requests exactly when the operator sees it enabled. */
  lemma InTurnIffEnabled(keys: seq<string>, info: Info, i: nat)
    requires i < |keys|
    ensures i in KeyPolling.EnabledIn(info.status, 0, |keys|) <==> Show(RecordsOf(keys, info)[i]).status == 1
  {
    KeyPolling.EnabledInIs(info.status, 0, |keys|);
  }

  lemma NoneEnabledNoneInTurn(keys: seq<string>, info: Info)
    requires forall i :: 0 <= i < |keys| ==> RecordsOf(keys, info)[i].status != 1
    ensures KeyPolling.EnabledIn(info.status, 0, |keys|) == []
  {
    forall i | 0 <= i < |keys|
      ensures !KeyPolling.On(info.status, i)
    {
      assert RecordsOf(keys, info)[i].status == StatusAt(info, i);
    }
    KeyPolling.NoneIn(info.status, 0, |keys|);
  }

  /** After disable-all no request is given a key. */
  lemma NobodyInTurn(keys: seq<string>, info: Info, rs: seq<KeyRecord>)
    requires RecordsOf(keys, info) == Actual(rs, DisableAll)
    ensures KeyPolling.EnabledIn(info.status, 0, |keys|) == []
  {
    assert |rs| == |keys| by { assert |Actual(rs, DisableAll)| == |rs|; }
    forall i | 0 <= i < |keys|
      ensures RecordsOf(keys, info)[i].status != 1
    {
      DisablesAll(rs, i);
    }
    NoneEnabledNoneInTurn(keys, info);
  }

  /** After enable-all every key has its turn. */
  lemma EverybodyInTurn(keys: seq<string>, info: Info, info': Info, i: nat)
    requires RecordsOf(keys, info') == Actual(RecordsOf(keys, info), EnableAll) && i < |keys|
    ensures i in KeyPolling.EnabledIn(info'.status, 0, |keys|)
  {
    EnablesAll(RecordsOf(keys, info), i);
    InTurnIffEnabled(keys, info', i);
  }

  // ----- The listing -----

  /** The listing holds an entry for a key exactly when its status is asked for, with its index and what it shows. */
  lemma {:induction false} ListedIff(rs: seq<KeyRecord>, filter: Option<int>, e: KeyStatus)
    ensures e in Listing(rs, filter) <==>
            && 0 <= e.index < |rs| && e == KeyStatus(e.index, Show(rs[e.index]), Preview(rs[e.index].key))
            && (filter == None || filter == Some(rs[e.index].status))
  {
    if rs != [] {
      ListedIff(rs[..|rs| - 1], filter, e);
    }
  }

  /** The total of a status is the number of keys a listing of it holds. */
  lemma {:induction false} TotalIsListed(rs: seq<KeyRecord>, status: int)
    ensures Tally(rs, status) == |Listing(rs, Some(status))|
  {
    if rs != [] { TotalIsListed(rs[..|rs| - 1], status); }
  }

  /** A preview is the key itself up to ten characters, and tells longer keys apart only by their first ten. */
  lemma PreviewHides(a: string, b: string)
    requires |a| > 10 && |b| > 10
    ensures Preview(a) == Preview(b) <==> a[..10] == b[..10]
    ensures |Preview(a)| == 13 && Preview(a[..10]) == a[..10]
  {
    assert Preview(a)[..10] == a[..10] && Preview(b)[..10] == b[..10];
  }

  // ----- Lines that become keys -----

  /** A line of blanks, tabs and carriage returns is never appended as a key. */
  lemma {:induction false} BlankLinesAddNothing(existing: seq<string>, lines: seq<string>)
    requires forall i :: 0 <= i < |lines| ==> forall c :: c in lines[i] ==> c in {' ', '\t', '\r'}
    ensures NewKeys(existing, lines) == []
  {
    if lines != [] {
      var last := lines[|lines| - 1];
      BlankLinesAddNothing(existing, lines[..|lines| - 1]);
      assert Over(last, IsSpace) by { assert forall i :: 0 <= i < |last| ==> last[i] in last; }
      TrimPadded(last, "", "", IsSpace);
      assert last + "" + "" == last;
    }
  }

  /** New lines that are clean and distinct are appended as they are, in order. */
  lemma {:induction false} CleanLinesAreAppended(lines: seq<string>)
    requires forall i :: 0 <= i < |lines| ==> lines[i] != "" && Trimmed(lines[i], IsSpace)
    requires forall i, j :: 0 <= i < j < |lines| ==> lines[i] != lines[j]
    ensures NewKeys([], lines) == lines
  {
    if lines != [] {
      var init, last := lines[..|lines| - 1], lines[|lines| - 1];
      CleanLinesAreAppended(init);
      TrimFixed(last, IsSpace);
      assert lines == init + [last];
      assert last !in init;
    }
  }

  /** The keys of a new channel are the non-empty lines, trimmed. */
  lemma {:induction false} CreatedKeys(lines: seq<string>, key: string)
    ensures key in MultiKeyRuns.CleanKeys(lines) <==>
            exists i :: 0 <= i < |lines| && lines[i] != "" && TrimSpace(lines[i]) == key
  {
    if lines != [] {
      CreatedKeys(lines[..|lines| - 1], key);
      assert forall i :: 0 <= i < |lines| - 1 ==> lines[..|lines| - 1][i] == lines[i];
    }
  }

  /** Each of them counts. */
  lemma {:induction false} CreatedCount(lines: seq<string>)
    ensures |MultiKeyRuns.CleanKeys(lines)| == |lines| - Empties(lines)
  {
    if lines != [] { CreatedCount(lines[..|lines| - 1]); }
  }

  function Empties(lines: seq<string>): nat
  {
    if lines == [] then 0 else Empties(lines[..|lines| - 1]) + if lines[|lines| - 1] == "" then 1 else 0
  }

  /** Lines that are clean already are the keys, in order. */
  lemma {:induction false} CleanLinesAreKeys(lines: seq<string>)
    requires forall i :: 0 <= i < |lines| ==> lines[i] != "" && Trimmed(lines[i], IsSpace)
    ensures MultiKeyRuns.CleanKeys(lines) == lines
  {
    if lines != [] {
      CleanLinesAreKeys(lines[..|lines| - 1]);
      TrimFixed(lines[|lines| - 1], IsSpace);
      assert lines == lines[..|lines| - 1] + [lines[|lines| - 1]];
    }
  }
}
