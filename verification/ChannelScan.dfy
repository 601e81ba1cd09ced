/**
 The batched scan over enabled channels (controller/channel_upstream_update.go):
 each query returns the next channels by id after the last one seen. `ids` is
 what a query finds in id order: the ids of the enabled channels.
 */
module ChannelScan {

  ghost predicate Keys(ids: seq<int>)
  {
    && (forall i :: 0 <= i < |ids| ==> ids[i] > 0)
    && (forall i, j :: 0 <= i < j < |ids| ==> ids[i] < ids[j])
  }

  /** The rows past `lastID`; the filter is only there once a batch has been seen. */
  function Past(ids: seq<int>, lastID: int): seq<int>
  {
    if lastID > 0 && ids != [] && ids[0] <= lastID then Past(ids[1..], lastID) else ids
  }

  function FindAfter(ids: seq<int>, lastID: int, batchSize: nat): seq<int>
  {
    var rows := Past(ids, lastID);
    if |rows| <= batchSize then rows else rows[..batchSize]
  }

  lemma {:induction false} PastIs(ids: seq<int>, n: nat)
    requires Keys(ids) && 0 < n <= |ids|
    ensures Past(ids, ids[n - 1]) == ids[n..]
  {
    if n > 1 {
      PastIs(ids[1..], n - 1);
    } else {
      assert ids[1..] == [] || ids[1..][0] > ids[0];
    }
  }

  /**
   On a table that does not change, visits every enabled channel exactly once in
   id order, whatever the batch size and whether or not it divides the number of
   channels. A cancelled scan
   stops after `budget` channels having visited a prefix.
   */
  method Scan(ids: seq<int>, batchSize: nat, budget: nat) returns (visited: seq<int>)
    requires Keys(ids) && batchSize > 0
    ensures visited == if budget < |ids| then ids[..budget] else ids
  {
    assert ids[..|ids|] == ids;
    visited := [];
    var lastID := 0;
    while true
      invariant |visited| <= |ids| && visited == ids[..|visited|] && |visited| <= budget
      invariant lastID == if visited == [] then 0 else visited[|visited| - 1]
      decreases |ids| - |visited|
    {
      if |visited| == budget { break; }
      ghost var n := |visited|;
      if n > 0 { PastIs(ids, n); }
      var channels := FindAfter(ids, lastID, batchSize);
      assert n + |channels| <= |ids| && channels == ids[n..n + |channels|] &&
             (|channels| < batchSize ==> n + |channels| == |ids|);
      if |channels| == 0 { break; }
      lastID := channels[|channels| - 1];
      for k := 0 to |channels|
        invariant visited == ids[..n + k] && n + k <= budget
      {
        if |visited| == budget { return; }
        assert channels[k] == ids[n + k];
        visited := visited + [channels[k]];
      }
      if |channels| < batchSize { break; }
    }
  }

  // ----- A table that changes during the scan -----

  ghost predicate Everywhere(tables: seq<seq<int>>, id: int)
  {
    forall k :: 0 <= k < |tables| ==> id in tables[k]
  }

  ghost predicate Somewhere(tables: seq<seq<int>>, id: int)
  {
    exists k :: 0 <= k < |tables| && id in tables[k]
  }

  /** Ascending ids, each in some table, that leave out no id up to `last` which is in all of them. */
  ghost predicate Swept(tables: seq<seq<int>>, visited: seq<int>, last: int)
  {
    && Keys(visited) && (forall i :: 0 <= i < |visited| ==> Somewhere(tables, visited[i]) && visited[i] <= last)
    && (forall id :: Everywhere(tables, id) && id <= last ==> id in visited)
  }

  lemma {:induction false} PastHas(ids: seq<int>, lastID: nat)
    requires Keys(ids)
    ensures var rows := Past(ids, lastID);
            && Keys(rows) && (forall id :: id in rows ==> id in ids && id > lastID)
            && (forall id :: id in ids && id > lastID ==> id in rows)
  {
    if ids != [] && ids[0] <= lastID {
      assert Keys(ids[1..]);
      PastHas(ids[1..], lastID);
    }
  }

  /** A batch is the next ids after the last one: none between it and them is left out. */
  lemma BatchHas(ids: seq<int>, lastID: nat, batchSize: nat)
    requires Keys(ids) && batchSize > 0
    ensures var batch := FindAfter(ids, lastID, batchSize);
            && |batch| <= batchSize && Keys(batch) && (forall id :: id in batch ==> id in ids && id > lastID)
            && (forall id :: id in ids && id > lastID && (|batch| < batchSize || id <= batch[|batch| - 1]) ==>
                  id in batch)
  {
    PastHas(ids, lastID);
    var rows, batch := Past(ids, lastID), FindAfter(ids, lastID, batchSize);
    assert |batch| <= |rows| && forall j :: 0 <= j < |batch| ==> batch[j] == rows[j];
    assert forall id :: id in batch ==> id in rows;
    forall id | id in ids && id > lastID && (|batch| < batchSize || id <= batch[|batch| - 1])
      ensures id in batch
    {
      var i :| 0 <= i < |rows| && rows[i] == id;
      assert i < |batch| && batch[i] == id;
    }
  }

  lemma Extends(tables: seq<seq<int>>, k: nat, visited: seq<int>, last: nat, batch: seq<int>, n: nat)
    requires Swept(tables, visited, last) && k < |tables| && 0 < n <= |batch| && Keys(batch)
    requires forall id :: id in batch ==> id in tables[k] && id > last
    requires forall id :: id in tables[k] && last < id <= batch[|batch| - 1] ==> id in batch
    ensures Swept(tables, visited + batch[..n], batch[n - 1])
  {
    var out := visited + batch[..n];
    forall i | 0 <= i < |out|
      ensures Somewhere(tables, out[i]) && out[i] <= batch[n - 1]
    {
      if i >= |visited| {
        assert out[i] == batch[i - |visited|] && batch[i - |visited|] in tables[k];
      } else {
        assert batch[n - 1] in batch;
      }
    }
    forall id | Everywhere(tables, id) && id <= batch[n - 1]
      ensures id in out
    {
      if id > last {
        assert id in tables[k] && id in batch;
        var j :| 0 <= j < |batch| && batch[j] == id;
        assert out[|visited| + j] == id;
      }
    }
    assert forall j :: 0 <= j < n ==> batch[j] in batch;
  }

  /** The last id seen, from which the next query goes on. */
  function Last(visited: seq<int>): int
  {
    if visited == [] then 0 else visited[|visited| - 1]
  }

  /**
   The k-th query sees `tables[k]`. Ids are visited in strictly ascending order,
   so none twice, and every channel that is enabled throughout is visited by the
   time the scan passes its id, hence by the end if the scan ends.
   */
  method ScanChanging(tables: seq<seq<int>>, batchSize: nat, budget: nat) returns (visited: seq<int>, done: bool)
    requires batchSize > 0 && tables != [] && forall k :: 0 <= k < |tables| ==> Keys(tables[k])
    ensures Keys(visited) && forall i :: 0 <= i < |visited| ==> Somewhere(tables, visited[i])
    ensures forall id :: Everywhere(tables, id) && (done || id <= Last(visited)) ==> id in visited
  {
    visited, done := [], false;
    NothingYet(tables);
    for k := 0 to |tables|
      invariant Swept(tables, visited, Last(visited)) && Last(visited) >= 0
    {
      var lastID := Last(visited);
      var channels := FindAfter(tables[k], lastID, batchSize);
      BatchHas(tables[k], lastID, batchSize);
      if |channels| == 0 { return visited, true; }
      ghost var before := visited;
      var cancelled;
      visited, cancelled := VisitBatch(tables, k, visited, channels, budget);
      if cancelled { return; }
      if |channels| < batchSize {
        AllSeen(tables, k, before, channels, visited);
        return visited, true;
      }
    }
  }

  lemma NothingYet(tables: seq<seq<int>>)
    requires tables != [] && Keys(tables[0])
    ensures Swept(tables, [], 0)
  {
    forall id | Everywhere(tables, id)
      ensures id > 0
    {
      assert id in tables[0];
    }
  }

  /** Visits a batch, one channel after the other, until the scan is cancelled. */
  method VisitBatch(ghost tables: seq<seq<int>>, ghost k: nat, before: seq<int>, batch: seq<int>, budget: nat)
      returns (visited: seq<int>, cancelled: bool)
    requires k < |tables| && Swept(tables, before, Last(before)) && Last(before) >= 0 && Keys(batch) && batch != []
    requires forall id :: id in batch ==> id in tables[k] && id > Last(before)
    requires forall id :: id in tables[k] && Last(before) < id <= batch[|batch| - 1] ==> id in batch
    ensures Swept(tables, visited, Last(visited)) && Last(visited) >= 0
    ensures !cancelled ==> visited == before + batch
  {
    visited := before;
    for j := 0 to |batch|
      invariant visited == before + batch[..j] && Swept(tables, visited, Last(visited)) && Last(visited) >= 0
    {
      if |visited| >= budget { return visited, true; }
      Extends(tables, k, before, Last(before), batch, j + 1);
      assert before + batch[..j + 1] == visited + [batch[j]];
      visited := visited + [batch[j]];
    }
    assert batch[..|batch|] == batch;
    cancelled := false;
  }

  lemma AllSeen(tables: seq<seq<int>>, k: nat, before: seq<int>, batch: seq<int>, visited: seq<int>)
    requires k < |tables| && visited == before + batch && Swept(tables, before, Last(before))
    requires forall id :: id in tables[k] && id > Last(before) ==> id in batch
    ensures forall id :: Everywhere(tables, id) ==> id in visited
  {
  }
}
