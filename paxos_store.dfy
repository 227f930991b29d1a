// Pieces shared by the in-memory Paxos logs (paxos/memory.go, paxos/log.go):
// the ID searches, the visiting loop of `Range`, and the reference meaning
// of a range query.
module PaxosStore {
  import opened Bytes
  import opened Outcomes
  import GoSort

  /** How a `Range` call ends: nil, an error, or a Go index-out-of-range panic. */
  datatype Status = Nil | Failed(error: string) | IndexOutOfRange

  /** Strictly ascending IDs: sorted, without duplicates. */
  predicate Ascending(ids: seq<u64>)
  {
    forall i, j :: 0 <= i < j < |ids| ==> ids[i] < ids[j]
  }

  /** The answers of `x <= idLog[i]` for every index. */
  function AtLeast(ids: seq<u64>, x: u64): (flags: seq<bool>)
    ensures |flags| == |ids|
    ensures forall i :: 0 <= i < |ids| ==> flags[i] == (x <= ids[i])
  {
    seq(|ids|, i requires 0 <= i < |ids| => x <= ids[i])
  }

  /** `sort.Search(len(idLog), func(i int) bool { return x <= idLog[i] })`. */
  function SearchIds(ids: seq<u64>, x: u64): nat
  {
    GoSort.Search(AtLeast(ids, x))
  }

  /** On ascending IDs the search splits the IDs below `x` from the others. */
  lemma SearchIdsAscending(ids: seq<u64>, x: u64)
    requires Ascending(ids)
    ensures SearchIds(ids, x) <= |ids|
    ensures forall k :: 0 <= k < SearchIds(ids, x) ==> ids[k] < x
    ensures forall k :: SearchIds(ids, x) <= k < |ids| ==> x <= ids[k]
  {
    var flags := AtLeast(ids, x);
    assert GoSort.Monotone(flags);
    GoSort.SearchFirstTrue(flags);
  }

  /** With `end` recorded, the two searches bound exactly the IDs in [start, end]. */
  lemma RecordedEndBounds(ids: seq<u64>, start: u64, end: u64)
    requires Ascending(ids) && start <= end && end in ids
    ensures SearchIds(ids, start) <= SearchIds(ids, end) < |ids|
    ensures forall k :: 0 <= k < |ids| ==> (SearchIds(ids, start) <= k < SearchIds(ids, end) + 1 <==> start <= ids[k] <= end)
  {
    SearchIdsAscending(ids, start);
    SearchIdsAscending(ids, end);
    var lo, e := SearchIds(ids, start), SearchIds(ids, end);
    var i :| 0 <= i < |ids| && ids[i] == end;
    assert e <= i;
    assert end <= ids[e];
    assert lo <= e;
    assert ids[e] == end;
    forall k | 0 <= k < |ids|
      ensures lo <= k < e + 1 <==> start <= ids[k] <= end
    {
      if k > e {
        assert ids[e] < ids[k];
      }
    }
  }

  /**
   * The loop `for i := from; i <= last; i++` of `Range`: decode entry i
   * (a decode error ends the loop), hand it to the callback, and end on a
   * callback error only when `stopOnError`. Reading past the log panics.
   * The first component lists what the callback was handed.
   */
  function Visit(msgs: seq<seq<byte>>, from: nat, last: int,
                 decodeErr: seq<byte> -> Option<string>, fnErr: seq<byte> -> Option<string>,
                 stopOnError: bool): (r: (seq<seq<byte>>, Status))
    ensures last < from ==> r == ([], Nil)
    decreases last + 1 - from
  {
    if last < from then ([], Nil)
    else if from >= |msgs| then ([], IndexOutOfRange)
    else if decodeErr(msgs[from]).Some? then ([], Failed(decodeErr(msgs[from]).value))
    else if stopOnError && fnErr(msgs[from]).Some? then ([msgs[from]], Failed(fnErr(msgs[from]).value))
    else
      var rest := Visit(msgs, from + 1, last, decodeErr, fnErr, stopOnError);
      ([msgs[from]] + rest.0, rest.1)
  }

  /** No entry in msgs[from..last] fails to decode, and (when it matters) no callback fails. */
  predicate Clean(msgs: seq<seq<byte>>, from: nat, last: int,
                  decodeErr: seq<byte> -> Option<string>, fnErr: seq<byte> -> Option<string>, stopOnError: bool)
  {
    forall k :: from <= k <= last && k < |msgs| ==> decodeErr(msgs[k]).None? && (stopOnError ==> fnErr(msgs[k]).None?)
  }

  /**
   * When [lo, hi) holds exactly the entries whose IDs lie in [start, end]
   * and nothing fails, the loop over lo..hi-1 hands the callback exactly
   * those messages and ends nil.
   */
  lemma VisitBracketed(ids: seq<u64>, msgs: seq<seq<byte>>, start: u64, end: u64, lo: nat, hi: nat,
                       decodeErr: seq<byte> -> Option<string>, fnErr: seq<byte> -> Option<string>, stopOnError: bool)
    requires |ids| == |msgs| && lo <= hi <= |ids|
    requires forall k :: 0 <= k < |ids| ==> (lo <= k < hi <==> start <= ids[k] <= end)
    requires forall k :: 0 <= k < |msgs| ==> decodeErr(msgs[k]).None? && (stopOnError ==> fnErr(msgs[k]).None?)
    ensures Visit(msgs, lo, hi - 1, decodeErr, fnErr, stopOnError) == (Within(ids, msgs, start, end), Nil)
  {
    VisitClean(msgs, lo, hi - 1, decodeErr, fnErr, stopOnError);
    WithinSlice(ids, msgs, start, end, lo, hi);
  }

  /** Without errors the loop hands the callback every entry from..last, in order, and ends nil. */
  lemma {:induction false} VisitClean(msgs: seq<seq<byte>>, from: nat, last: int,
                                      decodeErr: seq<byte> -> Option<string>, fnErr: seq<byte> -> Option<string>,
                                      stopOnError: bool)
    requires from <= last + 1 <= |msgs|
    requires Clean(msgs, from, last, decodeErr, fnErr, stopOnError)
    ensures Visit(msgs, from, last, decodeErr, fnErr, stopOnError) == (msgs[from..last + 1], Nil)
    decreases last + 1 - from
  {
    if from <= last {
      VisitClean(msgs, from + 1, last, decodeErr, fnErr, stopOnError);
      assert msgs[from..last + 1] == [msgs[from]] + msgs[from + 1..last + 1];
    }
  }

  /** Without decode errors, a loop that ignores callback errors never ends with an error. */
  lemma {:induction false} VisitIgnoresCallback(msgs: seq<seq<byte>>, from: nat, last: int,
                                                decodeErr: seq<byte> -> Option<string>, fnErr: seq<byte> -> Option<string>)
    requires Clean(msgs, from, last, decodeErr, fnErr, false)
    ensures !Visit(msgs, from, last, decodeErr, fnErr, false).1.Failed?
    decreases last + 1 - from
  {
    if from <= last && from < |msgs| {
      VisitIgnoresCallback(msgs, from + 1, last, decodeErr, fnErr);
    }
  }

  /** Reference meaning of a range query: the messages whose IDs lie in [start, end], in log order. */
  function Within(ids: seq<u64>, msgs: seq<seq<byte>>, start: u64, end: u64): (r: seq<seq<byte>>)
    requires |ids| == |msgs|
    ensures |r| <= |msgs|
  {
    if ids == [] then []
    else (if start <= ids[0] <= end then [msgs[0]] else []) + Within(ids[1..], msgs[1..], start, end)
  }

  /** When the entries in [start, end] are exactly those at indices lo..hi-1, they form the slice. */
  lemma {:induction false} WithinSlice(ids: seq<u64>, msgs: seq<seq<byte>>, start: u64, end: u64, lo: nat, hi: nat)
    requires |ids| == |msgs| && lo <= hi <= |ids|
    requires forall k :: 0 <= k < |ids| ==> (lo <= k < hi <==> start <= ids[k] <= end)
    ensures Within(ids, msgs, start, end) == msgs[lo..hi]
    decreases |ids|
  {
    if ids != [] {
      var ids', msgs' := ids[1..], msgs[1..];
      var lo' := if lo == 0 then 0 else lo - 1;
      var hi' := if hi == 0 then 0 else hi - 1;
      BracketTail(ids, start, end, lo, hi, lo', hi');
      WithinSlice(ids', msgs', start, end, lo', hi');
      assert Within(ids, msgs, start, end) == (if start <= ids[0] <= end then [msgs[0]] else []) + msgs'[lo'..hi'];
      if lo == 0 && hi > 0 {
        assert msgs[lo..hi] == [msgs[0]] + msgs'[0..hi - 1];
      } else if lo > 0 {
        assert msgs[lo..hi] == msgs'[lo - 1..hi - 1];
      }
    }
  }

  /** Dropping the first entry shifts a bracket of indices down by one. */
  lemma BracketTail(ids: seq<u64>, start: u64, end: u64, lo: nat, hi: nat, lo': nat, hi': nat)
    requires ids != [] && lo <= hi
    requires forall k :: 0 <= k < |ids| ==> (lo <= k < hi <==> start <= ids[k] <= end)
    requires lo' == (if lo == 0 then 0 else lo - 1) && hi' == (if hi == 0 then 0 else hi - 1)
    ensures forall k :: 0 <= k < |ids[1..]| ==> (lo' <= k < hi' <==> start <= ids[1..][k] <= end)
  {
    forall k | 0 <= k < |ids[1..]|
      ensures lo' <= k < hi' <==> start <= ids[1..][k] <= end
    {
      assert ids[1..][k] == ids[k + 1];
    }
  }

  /** The pairs (ID, message) of a log kept as two parallel lists. */
  function Zip(ids: seq<u64>, msgs: seq<seq<byte>>): (r: seq<(u64, seq<byte>)>)
    requires |ids| == |msgs|
    ensures |r| == |ids|
    ensures forall k :: 0 <= k < |r| ==> r[k] == (ids[k], msgs[k])
  {
    seq(|ids|, k requires 0 <= k < |ids| => (ids[k], msgs[k]))
  }
}
