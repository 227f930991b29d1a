// The sorted in-memory Paxos log (paxos/memory.go). Messages are kept as
// their msgpack encoding; whether marshalling succeeds is an input, and
// decoding failures and the callback's errors are given as functions.
module PaxosMemory {
  import opened Bytes
  import opened Outcomes
  import opened PaxosStore

  /** `Record`'s update of the two parallel lists, given the encoded message. */
  function Recorded(ids: seq<u64>, msgs: seq<seq<byte>>, id: u64, data: seq<byte>): (r: (seq<u64>, seq<seq<byte>>))
    requires |ids| == |msgs|
    ensures |r.0| == |r.1|
  {
    var idx := SearchIds(ids, id);
    if idx == |ids| then (ids + [id], msgs + [data])
    else if ids[idx] == id then (ids, msgs)
    else (ids[..idx] + [id] + ids[idx..], msgs[..idx] + [data] + msgs[idx..])
  }

  /**
   * Recording keeps the IDs strictly ascending, and the first write wins:
   * the log gains the pair (id, data) exactly when `id` was not yet
   * recorded, and loses nothing.
   */
  lemma RecordedEntries(ids: seq<u64>, msgs: seq<seq<byte>>, id: u64, data: seq<byte>)
    requires |ids| == |msgs| && Ascending(ids)
    ensures var r := Recorded(ids, msgs, id, data);
      && Ascending(r.0)
      && (id in ids ==> r == (ids, msgs))
      && (forall e :: e in Zip(r.0, r.1) <==> e in Zip(ids, msgs) || (e == (id, data) && id !in ids))
  {
    var idx := SearchIds(ids, id);
    SearchIdsAscending(ids, id);
    var r := Recorded(ids, msgs, id, data);
    if idx == |ids| {
      assert Zip(r.0, r.1) == Zip(ids, msgs) + [(id, data)];
      SpliceAscending(ids, idx, id);
      assert ids[..idx] + [id] + ids[idx..] == r.0;
    } else if ids[idx] != id {
      assert forall k :: idx <= k < |ids| ==> id < ids[k];
      SpliceAscending(ids, idx, id);
      SpliceZip(ids, msgs, idx, id, data);
      var z := Zip(ids, msgs);
      assert z == z[..idx] + z[idx..];
    }
  }

  /** Inserting an ID between the smaller and the larger ones keeps the list strictly ascending. */
  lemma SpliceAscending(ids: seq<u64>, idx: nat, id: u64)
    requires Ascending(ids) && idx <= |ids|
    requires forall k :: 0 <= k < idx ==> ids[k] < id
    requires forall k :: idx <= k < |ids| ==> id < ids[k]
    ensures Ascending(ids[..idx] + [id] + ids[idx..])
  {
    var r := ids[..idx] + [id] + ids[idx..];
    forall i, j | 0 <= i < j < |r|
      ensures r[i] < r[j]
    {
      if i < idx && j > idx {
        assert r[i] == ids[i] && r[j] == ids[j - 1];
      }
    }
  }

  lemma SpliceZip(ids: seq<u64>, msgs: seq<seq<byte>>, idx: nat, id: u64, data: seq<byte>)
    requires |ids| == |msgs| && idx <= |ids|
    ensures Zip(ids[..idx] + [id] + ids[idx..], msgs[..idx] + [data] + msgs[idx..])
      == Zip(ids, msgs)[..idx] + [(id, data)] + Zip(ids, msgs)[idx..]
  {
  }

  /** `Last`: the message of the greatest ID, nothing on an empty log, or the decoding error. */
  function Latest(msgs: seq<seq<byte>>, decodeErr: seq<byte> -> Option<string>): (r: Result<Option<seq<byte>>>)
    ensures |msgs| == 0 ==> r == Ok(None)
    ensures |msgs| > 0 && decodeErr(msgs[|msgs| - 1]).None? ==> r == Ok(Some(msgs[|msgs| - 1]))
    ensures |msgs| > 0 && decodeErr(msgs[|msgs| - 1]).Some? ==> r == Err(decodeErr(msgs[|msgs| - 1]).value)
  {
    if |msgs| == 0 then Ok(None)
    else match decodeErr(msgs[|msgs| - 1])
      case Some(e) => Err(e)
      case None => Ok(Some(msgs[|msgs| - 1]))
  }

  /** On an ascending log the last entry carries the greatest ID. */
  lemma LatestIsGreatest(ids: seq<u64>, msgs: seq<seq<byte>>, decodeErr: seq<byte> -> Option<string>)
    requires |ids| == |msgs| && Ascending(ids)
    ensures Latest(msgs, decodeErr) == Ok(None) <==> ids == []
    ensures Latest(msgs, decodeErr).Ok? && Latest(msgs, decodeErr).value.Some? ==>
      && |ids| > 0
      && Zip(ids, msgs)[|ids| - 1] == (ids[|ids| - 1], Latest(msgs, decodeErr).value.value)
      && forall j :: 0 <= j < |ids| ==> ids[j] <= ids[|ids| - 1]
  {
    if ids != [] {
      var k := |ids| - 1;
      assert forall j :: 0 <= j < |ids| ==> ids[j] <= ids[k] by {
        forall j | 0 <= j < |ids|
          ensures ids[j] <= ids[k]
        {
          if j < k {
            assert ids[j] < ids[k];
          }
        }
      }
    }
  }

  /** `Range` as written: nothing when `start` exceeds every ID, else the entries at startIdx..endIdx inclusive. */
  function Visited(ids: seq<u64>, msgs: seq<seq<byte>>, start: u64, end: u64,
                   decodeErr: seq<byte> -> Option<string>, fnErr: seq<byte> -> Option<string>): (r: (seq<seq<byte>>, Status))
    requires |ids| == |msgs|
  {
    var startIdx := SearchIds(ids, start);
    var endIdx := SearchIds(ids, end);
    if startIdx == |ids| then ([], Nil)
    else Visit(msgs, startIdx, endIdx, decodeErr, fnErr, true)
  }

  /** When `start` exceeds every recorded ID, `Range` visits nothing and returns nil. */
  lemma VisitedNothingAboveAll(ids: seq<u64>, msgs: seq<seq<byte>>, start: u64, end: u64,
                               decodeErr: seq<byte> -> Option<string>, fnErr: seq<byte> -> Option<string>)
    requires |ids| == |msgs| && Ascending(ids)
    requires forall k :: 0 <= k < |ids| ==> ids[k] < start
    ensures Visited(ids, msgs, start, end, decodeErr, fnErr) == ([], Nil)
  {
    GoSort.SearchBoundary(AtLeast(ids, start));
    assert SearchIds(ids, start) == |ids|;
  }

  /**
   * When `end` is itself a recorded ID and nothing fails, `Range` visits
   * exactly the messages whose IDs lie in [start, end], in ascending order.
   */
  lemma VisitedRecordedEnd(ids: seq<u64>, msgs: seq<seq<byte>>, start: u64, end: u64,
                           decodeErr: seq<byte> -> Option<string>, fnErr: seq<byte> -> Option<string>)
    requires |ids| == |msgs| && Ascending(ids)
    requires start <= end && end in ids
    requires forall k :: 0 <= k < |msgs| ==> decodeErr(msgs[k]).None? && fnErr(msgs[k]).None?
    ensures Visited(ids, msgs, start, end, decodeErr, fnErr) == (Within(ids, msgs, start, end), Nil)
  {
    RecordedEndBounds(ids, start, end);
    VisitedBracketed(ids, msgs, start, end, SearchIds(ids, start), SearchIds(ids, end), decodeErr, fnErr);
  }

  /** When the two searches bracket exactly the IDs in [start, end] and nothing fails, `Range` visits those. */
  lemma VisitedBracketed(ids: seq<u64>, msgs: seq<seq<byte>>, start: u64, end: u64, lo: nat, last: nat,
                         decodeErr: seq<byte> -> Option<string>, fnErr: seq<byte> -> Option<string>)
    requires |ids| == |msgs| && lo == SearchIds(ids, start) && last == SearchIds(ids, end)
    requires lo <= last < |ids|
    requires forall k :: 0 <= k < |ids| ==> (lo <= k <= last <==> start <= ids[k] <= end)
    requires forall k :: 0 <= k < |msgs| ==> decodeErr(msgs[k]).None? && fnErr(msgs[k]).None?
    ensures Visited(ids, msgs, start, end, decodeErr, fnErr) == (Within(ids, msgs, start, end), Nil)
  {
    assert Visited(ids, msgs, start, end, decodeErr, fnErr) == Visit(msgs, lo, last, decodeErr, fnErr, true);
    VisitBracketed(ids, msgs, start, end, lo, last + 1, decodeErr, fnErr, true);
  }

  /**
   * As written, `Range` also visits the first entry past `end` when `end`
   * is not recorded, and panics when `end` exceeds every ID: over IDs 1
   * and 5, Range(1, 3) hands both messages to the callback and Range(1, 9)
   * reads past the log.
   */
  lemma RangePastEnd()
    ensures var ids, msgs: seq<seq<byte>> := [1, 5], [[1], [5]];
      && Within(ids, msgs, 1, 3) == [[1]]
      && Visited(ids, msgs, 1, 3, NoError, NoError) == ([[1], [5]], Nil)
      && Visited(ids, msgs, 1, 9, NoError, NoError) == ([[1], [5]], IndexOutOfRange)
  {
    var ids, msgs: seq<seq<byte>> := [1, 5], [[1], [5]];
    assert AtLeast(ids, 1) == [true, true];
    assert AtLeast(ids, 3) == [false, true];
    assert AtLeast(ids, 9) == [false, false];
    assert SearchIds(ids, 1) == 0;
    assert SearchIds(ids, 3) == 1;
    assert SearchIds(ids, 9) == 2;
    assert Within(ids[1..], msgs[1..], 1, 3) == [];
    assert Visit(msgs, 2, 1, NoError, NoError, true) == ([], Nil);
    assert NoError(msgs[1]) == None && NoError(msgs[0]) == None;
    assert [msgs[1]] + [] == [[5]];
    assert [msgs[0]] + [[5]] == [[1], [5]];
    assert Visit(msgs, 0, 1, NoError, NoError, true) == ([[1], [5]], Nil);
    assert Visit(msgs, 1, 1, NoError, NoError, true) == ([[5]], Nil);
    assert Visit(msgs, 2, 2, NoError, NoError, true) == ([], IndexOutOfRange);
    assert Visit(msgs, 1, 2, NoError, NoError, true) == ([[5]], IndexOutOfRange);
  }

  /** The answers of `end < idLog[i]`: the search for the first ID past `end`. */
  function Above(ids: seq<u64>, end: u64): (flags: seq<bool>)
    ensures |flags| == |ids| && forall i :: 0 <= i < |ids| ==> flags[i] == (end < ids[i])
  {
    seq(|ids|, i requires 0 <= i < |ids| => end < ids[i])
  }

  /** The range query evidently intended: stop before the first ID past `end`. */
  function VisitedWithin(ids: seq<u64>, msgs: seq<seq<byte>>, start: u64, end: u64,
                         decodeErr: seq<byte> -> Option<string>, fnErr: seq<byte> -> Option<string>): (r: (seq<seq<byte>>, Status))
    requires |ids| == |msgs|
  {
    var startIdx := SearchIds(ids, start);
    var stopIdx := GoSort.Search(Above(ids, end));
    Visit(msgs, startIdx, stopIdx - 1, decodeErr, fnErr, true)
  }

  /** The corrected query never reads past the log, and without errors it visits exactly [start, end]. */
  lemma VisitedWithinExact(ids: seq<u64>, msgs: seq<seq<byte>>, start: u64, end: u64,
                           decodeErr: seq<byte> -> Option<string>, fnErr: seq<byte> -> Option<string>)
    requires |ids| == |msgs| && Ascending(ids)
    requires forall k :: 0 <= k < |msgs| ==> decodeErr(msgs[k]).None? && fnErr(msgs[k]).None?
    ensures VisitedWithin(ids, msgs, start, end, decodeErr, fnErr) == (Within(ids, msgs, start, end), Nil)
  {
    WithinBounds(ids, start, end);
    VisitedWithinBracketed(ids, msgs, start, end, SearchIds(ids, start), GoSort.Search(Above(ids, end)), decodeErr, fnErr);
  }

  /** When the corrected searches bracket exactly the IDs in [start, end] and nothing fails, the query visits those. */
  lemma VisitedWithinBracketed(ids: seq<u64>, msgs: seq<seq<byte>>, start: u64, end: u64, lo: nat, hi: nat,
                               decodeErr: seq<byte> -> Option<string>, fnErr: seq<byte> -> Option<string>)
    requires |ids| == |msgs| && lo == SearchIds(ids, start) && hi == GoSort.Search(Above(ids, end))
    requires lo <= |ids| && hi <= |ids|
    requires forall k :: 0 <= k < |ids| ==> (lo <= k < hi <==> start <= ids[k] <= end)
    requires forall k :: 0 <= k < |msgs| ==> decodeErr(msgs[k]).None? && fnErr(msgs[k]).None?
    ensures VisitedWithin(ids, msgs, start, end, decodeErr, fnErr) == (Within(ids, msgs, start, end), Nil)
  {
    assert VisitedWithin(ids, msgs, start, end, decodeErr, fnErr) == Visit(msgs, lo, hi - 1, decodeErr, fnErr, true);
    if lo <= hi {
      VisitBracketed(ids, msgs, start, end, lo, hi, decodeErr, fnErr, true);
    } else {
      WithinSlice(ids, msgs, start, end, lo, lo);
    }
  }

  /** On ascending IDs the corrected searches bracket exactly the IDs in [start, end]. */
  lemma WithinBounds(ids: seq<u64>, start: u64, end: u64)
    requires Ascending(ids)
    ensures SearchIds(ids, start) <= |ids| && GoSort.Search(Above(ids, end)) <= |ids|
    ensures forall k :: 0 <= k < |ids| ==>
      (SearchIds(ids, start) <= k < GoSort.Search(Above(ids, end)) <==> start <= ids[k] <= end)
  {
    SearchIdsAscending(ids, start);
    var flags := Above(ids, end);
    assert GoSort.Monotone(flags);
    GoSort.SearchFirstTrue(flags);
  }

  /** The sorted log, guarded by a lock in the source. */
  class Memory {
    var ids: seq<u64>
    var msgs: seq<seq<byte>>

    ghost predicate Valid()
      reads this
    {
      |ids| == |msgs| && Ascending(ids)
    }

    constructor()
      ensures Valid() && ids == [] && msgs == []
    {
      ids := [];
      msgs := [];
    }

    /** `WithPrefix` ignores the prefix and returns a new, empty log. */
    method WithPrefix(prefix: string) returns (log: Memory)
      ensures fresh(log) && log.Valid() && log.ids == [] && log.msgs == []
    {
      log := new Memory();
    }

    /** `Record`: a marshalling error is returned; otherwise the entry is inserted in ID order unless present. */
    method Record(id: u64, data: Result<seq<byte>>) returns (err: Option<string>)
      requires Valid()
      modifies this
      ensures Valid()
      ensures data.Err? ==> err == Some(data.error) && ids == old(ids) && msgs == old(msgs)
      ensures data.Ok? ==> err == None && (ids, msgs) == Recorded(old(ids), old(msgs), id, data.value)
    {
      if data.Err? {
        return Some(data.error);
      }
      RecordedEntries(ids, msgs, id, data.value);
      var idx := SearchIds(ids, id);
      if idx == |ids| {
        ids := ids + [id];
        msgs := msgs + [data.value];
      } else if ids[idx] == id {
        return None;
      } else {
        ids := ids[..idx] + [id] + ids[idx..];
        msgs := msgs[..idx] + [data.value] + msgs[idx..];
      }
      return None;
    }

    function Last(decodeErr: seq<byte> -> Option<string>): (r: Result<Option<seq<byte>>>)
      reads this
      ensures r == Latest(msgs, decodeErr)
    {
      Latest(msgs, decodeErr)
    }

    /** `Range`: the two searches, then the visiting loop, ending at the first error. */
    method Range(start: u64, end: u64, decodeErr: seq<byte> -> Option<string>, fnErr: seq<byte> -> Option<string>)
      returns (visited: seq<seq<byte>>, status: Status)
      requires Valid()
      ensures (visited, status) == Visited(ids, msgs, start, end, decodeErr, fnErr)
    {
      var startIdx := SearchIds(ids, start);
      var endIdx := SearchIds(ids, end);
      if startIdx == |ids| {
        return [], Nil;
      }
      visited := [];
      var i := startIdx;
      assert visited + Visit(msgs, i, endIdx, decodeErr, fnErr, true).0 == Visit(msgs, i, endIdx, decodeErr, fnErr, true).0;
      while i <= endIdx
        invariant startIdx <= i
        invariant i <= endIdx + 1 || i == startIdx
        invariant Visit(msgs, startIdx, endIdx, decodeErr, fnErr, true)
          == (visited + Visit(msgs, i, endIdx, decodeErr, fnErr, true).0, Visit(msgs, i, endIdx, decodeErr, fnErr, true).1)
        decreases endIdx + 1 - i
      {
        if i >= |msgs| {
          assert visited + [] == visited;
          return visited, IndexOutOfRange;
        }
        var decoded := decodeErr(msgs[i]);
        if decoded.Some? {
          assert visited + [] == visited;
          return visited, Failed(decoded.value);
        }
        var rest := Visit(msgs, i + 1, endIdx, decodeErr, fnErr, true);
        assert visited + ([msgs[i]] + rest.0) == (visited + [msgs[i]]) + rest.0;
        visited := visited + [msgs[i]];
        var err := fnErr(msgs[i]);
        if err.Some? {
          return visited, Failed(err.value);
        }
        i := i + 1;
      }
      assert visited + [] == visited;
      return visited, Nil;
    }
  }
}
