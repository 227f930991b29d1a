// The append-only in-memory Paxos log (paxos/log.go).
module PaxosMemoryLog {
  import opened Bytes
  import opened Outcomes
  import opened PaxosStore
  import PaxosMemory

  /**
   * `Range` as written: both searches treat the log as sorted, the loop
   * runs from startIdx to endIdx inclusive without checking startIdx
   * against the length, and callback errors are dropped.
   */
  function Visited(ids: seq<u64>, msgs: seq<seq<byte>>, start: u64, end: u64,
                   decodeErr: seq<byte> -> Option<string>, fnErr: seq<byte> -> Option<string>): (r: (seq<seq<byte>>, Status))
    requires |ids| == |msgs|
  {
    Visit(msgs, SearchIds(ids, start), SearchIds(ids, end), decodeErr, fnErr, false)
  }

  /** Only a decoding error ends `Range` with an error; a failing callback never does. */
  lemma VisitedIgnoresCallback(ids: seq<u64>, msgs: seq<seq<byte>>, start: u64, end: u64,
                               decodeErr: seq<byte> -> Option<string>, fnErr: seq<byte> -> Option<string>)
    requires |ids| == |msgs|
    requires forall k :: 0 <= k < |msgs| ==> decodeErr(msgs[k]).None?
    ensures !Visited(ids, msgs, start, end, decodeErr, fnErr).1.Failed?
  {
    VisitIgnoresCallback(msgs, SearchIds(ids, start), SearchIds(ids, end), decodeErr, fnErr);
  }

  /**
   * On a log recorded in ascending ID order, with `end` recorded and no
   * decoding error, `Range` hands the callback exactly the messages in
   * [start, end], whatever the callback answers.
   */
  lemma VisitedAscending(ids: seq<u64>, msgs: seq<seq<byte>>, start: u64, end: u64,
                         decodeErr: seq<byte> -> Option<string>, fnErr: seq<byte> -> Option<string>)
    requires |ids| == |msgs| && Ascending(ids)
    requires start <= end && end in ids
    requires forall k :: 0 <= k < |msgs| ==> decodeErr(msgs[k]).None?
    ensures Visited(ids, msgs, start, end, decodeErr, fnErr) == (Within(ids, msgs, start, end), Nil)
  {
    RecordedEndBounds(ids, start, end);
    VisitedSlice(ids, msgs, start, end, decodeErr, fnErr);
  }

  /** When the two searches bracket exactly the IDs in [start, end] and everything decodes, `Range` visits those. */
  lemma VisitedSlice(ids: seq<u64>, msgs: seq<seq<byte>>, start: u64, end: u64,
                     decodeErr: seq<byte> -> Option<string>, fnErr: seq<byte> -> Option<string>)
    requires |ids| == |msgs|
    requires SearchIds(ids, start) <= SearchIds(ids, end) < |ids|
    requires forall k :: 0 <= k < |ids| ==> (SearchIds(ids, start) <= k < SearchIds(ids, end) + 1 <==> start <= ids[k] <= end)
    requires forall k :: 0 <= k < |msgs| ==> decodeErr(msgs[k]).None?
    ensures Visited(ids, msgs, start, end, decodeErr, fnErr) == (Within(ids, msgs, start, end), Nil)
  {
    VisitBracketed(ids, msgs, start, end, SearchIds(ids, start), SearchIds(ids, end) + 1, decodeErr, fnErr, false);
  }

  /** `Range` on an empty log reads index 0 and panics, where the sorted log returns nil. */
  lemma EmptyRangePanics(start: u64, end: u64, decodeErr: seq<byte> -> Option<string>, fnErr: seq<byte> -> Option<string>)
    ensures Visited([], [], start, end, decodeErr, fnErr) == ([], IndexOutOfRange)
    ensures PaxosMemory.Visited([], [], start, end, decodeErr, fnErr) == ([], Nil)
  {
    assert SearchIds([], start) == 0 && SearchIds([], end) == 0;
  }

  /**
   * Because the log is not sorted, the binary search can miss entries:
   * after recording ID 5 and then ID 1, Range(1, 1) hands the callback the
   * message of ID 5 and never the message of ID 1.
   */
  lemma UnsortedRangeMisses()
    ensures var ids, msgs: seq<seq<byte>> := [5, 1], [[5], [1]];
      && Within(ids, msgs, 1, 1) == [[1]]
      && Visited(ids, msgs, 1, 1, NoError, NoError) == ([[5]], Nil)
  {
    var ids, msgs: seq<seq<byte>> := [5, 1], [[5], [1]];
    assert AtLeast(ids, 1) == [true, true];
    assert SearchIds(ids, 1) == 0;
    assert Within(ids[1..], msgs[1..], 1, 1) == [[1]];
    assert Within(ids, msgs, 1, 1) == [] + [[1]];
    assert Visit(msgs, 1, 0, NoError, NoError, false) == ([], Nil);
    assert NoError(msgs[0]) == None;
    assert [msgs[0]] + [] == [[5]];
  }

  /** The unsorted log, guarded by a lock in the source. */
  class MemoryLog {
    var ids: seq<u64>
    var msgs: seq<seq<byte>>

    ghost predicate Valid()
      reads this
    {
      |ids| == |msgs|
    }

    constructor()
      ensures Valid() && ids == [] && msgs == []
    {
      ids := [];
      msgs := [];
    }

    /** `Record` appends, with no ordering or duplicate check; a marshalling error changes nothing. */
    method Record(id: u64, data: Result<seq<byte>>) returns (err: Option<string>)
      requires Valid()
      modifies this
      ensures Valid()
      ensures data.Err? ==> err == Some(data.error) && ids == old(ids) && msgs == old(msgs)
      ensures data.Ok? ==> err == None && ids == old(ids) + [id] && msgs == old(msgs) + [data.value]
    {
      if data.Err? {
        return Some(data.error);
      }
      ids := ids + [id];
      msgs := msgs + [data.value];
      return None;
    }

    /** `Last`: the most recently recorded message, whatever its ID. */
    function Last(decodeErr: seq<byte> -> Option<string>): (r: Result<Option<seq<byte>>>)
      reads this
      ensures r == PaxosMemory.Latest(msgs, decodeErr)
    {
      PaxosMemory.Latest(msgs, decodeErr)
    }

    method Range(start: u64, end: u64, decodeErr: seq<byte> -> Option<string>, fnErr: seq<byte> -> Option<string>)
      returns (visited: seq<seq<byte>>, status: Status)
      requires Valid()
      ensures (visited, status) == Visited(ids, msgs, start, end, decodeErr, fnErr)
    {
      var startIdx := SearchIds(ids, start);
      var endIdx := SearchIds(ids, end);
      visited := [];
      var i := startIdx;
      assert visited + Visit(msgs, i, endIdx, decodeErr, fnErr, false).0 == Visit(msgs, i, endIdx, decodeErr, fnErr, false).0;
      while i <= endIdx
        invariant startIdx <= i
        invariant Visit(msgs, startIdx, endIdx, decodeErr, fnErr, false)
          == (visited + Visit(msgs, i, endIdx, decodeErr, fnErr, false).0, Visit(msgs, i, endIdx, decodeErr, fnErr, false).1)
        decreases endIdx + 1 - i
      {
        if i >= |msgs| {
          assert visited + [] == visited;
          return visited, IndexOutOfRange;
        }
        var decoded := decodeErr(msgs[i]);
        if decoded.Some? {
          assert visited + [] == visited;
          return visited, Failed(decoded.value);
        }
        var rest := Visit(msgs, i + 1, endIdx, decodeErr, fnErr, false);
        assert visited + ([msgs[i]] + rest.0) == (visited + [msgs[i]]) + rest.0;
        visited := visited + [msgs[i]];
        var ignored := fnErr(msgs[i]);
        i := i + 1;
      }
      assert visited + [] == visited;
      return visited, Nil;
    }

    method Close() returns (err: Option<string>)
      ensures err == None
    {
      return None;
    }
  }

  /** The message just recorded is what `Last` returns next. */
  lemma LastAfterRecord(msgs: seq<seq<byte>>, data: seq<byte>, decodeErr: seq<byte> -> Option<string>)
    requires decodeErr(data).None?
    ensures PaxosMemory.Latest(msgs + [data], decodeErr) == Ok(Some(data))
  {
  }
}
