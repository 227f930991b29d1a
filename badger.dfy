// The Badger-backed Paxos log (paxos/badger.go): entries live in a shared
// ordered key-value store under the key prefix ++ big-endian(id).
module PaxosBadger {
  import opened Bytes
  import opened Outcomes
  import opened KvStore

  const Two64 := 0x1_0000_0000_0000_0000

  lemma Pow256Eight()
    ensures Pow256(8) == Two64
  {
  }

  /** `k` begins with `p`. */
  predicate IsPrefix(p: seq<byte>, k: seq<byte>)
  {
    |p| <= |k| && k[..|p|] == p
  }

  /** `key(id)`: the prefix followed by the ID as 8 big-endian bytes. */
  function Key(prefix: seq<byte>, id: u64): (k: seq<byte>)
    ensures |k| == |prefix| + 8 && IsPrefix(prefix, k)
    ensures KeyId(prefix, k) == id
  {
    Pow256Eight();
    FromToBigEndian(id, 8);
    assert (prefix + BigEndian(id, 8))[|prefix|..] == BigEndian(id, 8);
    prefix + BigEndian(id, 8)
  }

  /** The ID a key under `prefix` encodes. */
  function KeyId(prefix: seq<byte>, k: seq<byte>): nat
  {
    if |prefix| <= |k| then FromBigEndian(k[|prefix|..]) else 0
  }

  /** Within one prefix, bytewise key order is numeric ID order. */
  lemma KeyOrder(prefix: seq<byte>, a: u64, b: u64)
    ensures LexLess(Key(prefix, a), Key(prefix, b)) <==> a < b
  {
    Pow256Eight();
    LexLessCommonPrefix(prefix, BigEndian(a, 8), BigEndian(b, 8));
    BigEndianOrder(a, b, 8);
  }

  /** Distinct IDs give distinct keys. */
  lemma KeyInjective(prefix: seq<byte>, a: u64, b: u64)
    ensures Key(prefix, a) == Key(prefix, b) <==> a == b
  {
  }

  /**
   * A key of the prefix's own shape (the prefix and 8 more bytes) is the key
   * of the ID it encodes, and compares with any other key of the prefix as
   * the IDs compare.
   */
  lemma KeyCompare(prefix: seq<byte>, k: seq<byte>, id: u64)
    ensures IsPrefix(prefix, k) && |k| == |prefix| + 8 ==>
      && KeyId(prefix, k) < Two64
      && k == Key(prefix, KeyId(prefix, k))
      && (LexLess(k, Key(prefix, id)) <==> KeyId(prefix, k) < id)
      && (LexLess(Key(prefix, id), k) <==> id < KeyId(prefix, k))
  {
    if IsPrefix(prefix, k) && |k| == |prefix| + 8 {
      var tail := k[|prefix|..];
      FromBigEndianBound(tail);
      Pow256Eight();
      ToFromBigEndian(tail);
      assert k == prefix + tail;
      KeyOrder(prefix, KeyId(prefix, k), id);
      KeyOrder(prefix, id, KeyId(prefix, k));
    }
  }

  /** Every key that begins with `prefix` has the shape of the prefix's own keys. */
  predicate OwnKeys(entries: seq<Entry>, prefix: seq<byte>)
  {
    forall i :: 0 <= i < |entries| && IsPrefix(prefix, entries[i].key) ==> |entries[i].key| == |prefix| + 8
  }

  predicate LexLeq(a: seq<byte>, b: seq<byte>)
  {
    a == b || LexLess(a, b)
  }

  lemma LexLeqHead(a: seq<byte>, b: seq<byte>)
    requires LexLeq(a, b) && a != []
    ensures b != [] && a[0] <= b[0]
    ensures a[0] == b[0] ==> LexLeq(a[1..], b[1..])
  {
  }

  /** The key of one ID never begins with the key of another. */
  lemma KeyNotPrefix(prefix: seq<byte>, a: u64, b: u64)
    requires a != b
    ensures !IsPrefix(Key(prefix, a), Key(prefix, b))
  {
    var ka, kb := Key(prefix, a), Key(prefix, b);
    assert kb[..|ka|] == kb;
  }

  /** Any key between two keys that share a prefix shares it too. */
  lemma {:induction false} BetweenSharesPrefix(p: seq<byte>, a: seq<byte>, b: seq<byte>, k: seq<byte>)
    requires LexLeq(p + a, k) && LexLeq(k, p + b)
    ensures IsPrefix(p, k)
  {
    if p != [] {
      var x, y := p + a, p + b;
      assert x[0] == p[0] && y[0] == p[0];
      LexLeqHead(x, k);
      LexLeqHead(k, y);
      assert x[1..] == p[1..] + a && y[1..] == p[1..] + b;
      BetweenSharesPrefix(p[1..], a, b, k[1..]);
      assert k == [k[0]] + k[1..];
    }
  }

  // ----- Last -----

  /** The greatest number of `width` bytes is encoded as `width` bytes 0xFF. */
  lemma {:induction false} AllOnes(width: nat)
    ensures BigEndian(Pow256(width) - 1, width) == seq(width, _ => 0xff)
  {
    if width > 0 {
      var p := Pow256(width - 1);
      assert Pow256(width) - 1 == 256 * (p - 1) + 255;
      assert (Pow256(width) - 1) / 256 == p - 1 && (Pow256(width) - 1) % 256 == 255;
      AllOnes(width - 1);
      assert seq(width, _ => 0xff) == seq(width - 1, _ => 0xff) + [0xff];
    }
  }

  /** The key `Last` seeks backwards from: the prefix followed by eight 0xFF bytes. */
  function LastSeekKey(prefix: seq<byte>): (k: seq<byte>)
    ensures k == Key(prefix, Two64 - 1)
  {
    AllOnes(8);
    Pow256Eight();
    assert seq(8, _ => 0xff) == [0xff, 0xff, 0xff, 0xff, 0xff, 0xff, 0xff, 0xff];
    prefix + [0xff, 0xff, 0xff, 0xff, 0xff, 0xff, 0xff, 0xff]
  }

  /** `Last`: seek backwards from the greatest possible key; nil unless the entry found has the prefix. */
  function LastFound(entries: seq<Entry>, prefix: seq<byte>, decodeErr: seq<byte> -> Option<string>): (r: Result<Option<seq<byte>>>)
    ensures (forall j :: 0 <= j < |entries| ==> !IsPrefix(prefix, entries[j].key)) ==> r == Ok(None)
  {
    var i := ReverseSeek(entries, LastSeekKey(prefix));
    if i < 0 || !IsPrefix(prefix, entries[i].key) then Ok(None)
    else match decodeErr(entries[i].value)
      case Some(e) => Err(e)
      case None => Ok(Some(entries[i].value))
  }

  /**
   * When the prefix has any entry, `Last` lands on the entry of the
   * greatest ID recorded under it.
   */
  lemma LastIsGreatest(entries: seq<Entry>, prefix: seq<byte>, j: nat)
    requires Ordered(entries) && OwnKeys(entries, prefix)
    requires j < |entries| && IsPrefix(prefix, entries[j].key)
    ensures var i := ReverseSeek(entries, LastSeekKey(prefix));
      && 0 <= i && IsPrefix(prefix, entries[i].key)
      && KeyId(prefix, entries[j].key) <= KeyId(prefix, entries[i].key)
  {
    var seek := LastSeekKey(prefix);
    ReverseSeekBounds(entries, seek);
    var i := ReverseSeek(entries, seek);
    var kj := entries[j].key;
    KeyCompare(prefix, kj, Two64 - 1);
    assert !LexLess(seek, kj) by {
      LexLessIrreflexive(seek);
    }
    assert j <= i;
    var ki := entries[i].key;
    LexLessTotal(ki, seek);
    if j < i {
      assert LexLess(kj, ki);
      assert kj == prefix + kj[|prefix|..];
      BetweenSharesPrefix(prefix, kj[|prefix|..], BigEndian(Two64 - 1, 8), ki);
    }
    KeyCompare(prefix, ki, KeyId(prefix, kj) as u64);
    LexLessIrreflexive(ki);
  }

  // ----- Range -----

  /**
   * The loop of `Range` from position `i`: while the entry has the prefix,
   * decode it (an error ends the loop), hand it to the callback (an error
   * ends the loop), and stop after an entry whose key begins with the stop
   * key. The first component lists what the callback was handed.
   */
  function Scan(entries: seq<Entry>, prefix: seq<byte>, stopKey: seq<byte>, i: nat,
                decodeErr: seq<byte> -> Option<string>, fnErr: seq<byte> -> Option<string>): (r: (seq<seq<byte>>, Option<string>))
    decreases |entries| - i
  {
    if i >= |entries| || !IsPrefix(prefix, entries[i].key) then ([], None)
    else
      var v := entries[i].value;
      if decodeErr(v).Some? then ([], decodeErr(v))
      else if fnErr(v).Some? then ([v], fnErr(v))
      else if IsPrefix(stopKey, entries[i].key) then ([v], None)
      else
        var rest := Scan(entries, prefix, stopKey, i + 1, decodeErr, fnErr);
        ([v] + rest.0, rest.1)
  }

  /** `Range(start, stop)`: seek to the start key, then scan. */
  function Ranged(entries: seq<Entry>, prefix: seq<byte>, start: u64, stop: u64,
                  decodeErr: seq<byte> -> Option<string>, fnErr: seq<byte> -> Option<string>): (seq<seq<byte>>, Option<string>)
  {
    Scan(entries, prefix, Key(prefix, stop), Seek(entries, Key(prefix, start)), decodeErr, fnErr)
  }

  function Values(entries: seq<Entry>): (r: seq<seq<byte>>)
    ensures |r| == |entries| && forall i :: 0 <= i < |r| ==> r[i] == entries[i].value
  {
    seq(|entries|, i requires 0 <= i < |entries| => entries[i].value)
  }

  /** The key belongs to the prefix and encodes an ID in [start, stop]. */
  predicate InRange(prefix: seq<byte>, start: u64, stop: u64, k: seq<byte>)
  {
    IsPrefix(prefix, k) && |k| == |prefix| + 8 && start <= KeyId(prefix, k) <= stop
  }

  /** Reference meaning of a range query: the values of the prefix's IDs in [start, stop], in key order. */
  function Selected(entries: seq<Entry>, prefix: seq<byte>, start: u64, stop: u64): seq<seq<byte>>
  {
    if entries == [] then []
    else
      var head := if InRange(prefix, start, stop, entries[0].key) then [entries[0].value] else [];
      head + Selected(entries[1..], prefix, start, stop)
  }

  lemma {:induction false} SelectedSlice(entries: seq<Entry>, prefix: seq<byte>, start: u64, stop: u64, lo: nat, hi: nat)
    requires lo <= hi <= |entries|
    requires forall j :: 0 <= j < |entries| ==> (lo <= j < hi <==> InRange(prefix, start, stop, entries[j].key))
    ensures Selected(entries, prefix, start, stop) == Values(entries[lo..hi])
    decreases |entries|
  {
    if entries != [] {
      var rest := entries[1..];
      var lo', hi' := if lo == 0 then 0 else lo - 1, if hi == 0 then 0 else hi - 1;
      forall j | 0 <= j < |rest|
        ensures lo' <= j < hi' <==> InRange(prefix, start, stop, rest[j].key)
      {
        assert rest[j] == entries[j + 1];
      }
      SelectedSlice(rest, prefix, start, stop, lo', hi');
      if lo == 0 && hi > 0 {
        assert Values(entries[lo..hi]) == [entries[0].value] + Values(rest[0..hi - 1]);
      } else if lo > 0 {
        assert forall k :: 0 <= k < hi - lo ==> Values(entries[lo..hi])[k] == Values(rest[lo - 1..hi - 1])[k];
        assert Values(entries[lo..hi]) == Values(rest[lo - 1..hi - 1]);
      }
    }
  }

  /** Without errors, a scan through prefixed entries that reaches the stop key at `s` hands over entries i..s. */
  lemma {:induction false} ScanClean(entries: seq<Entry>, prefix: seq<byte>, stopKey: seq<byte>, i: nat, s: nat,
                                     decodeErr: seq<byte> -> Option<string>, fnErr: seq<byte> -> Option<string>)
    requires i <= s < |entries|
    requires forall j :: i <= j <= s ==>
      && IsPrefix(prefix, entries[j].key)
      && decodeErr(entries[j].value).None? && fnErr(entries[j].value).None?
      && (IsPrefix(stopKey, entries[j].key) <==> j == s)
    ensures Scan(entries, prefix, stopKey, i, decodeErr, fnErr) == (Values(entries[i..s + 1]), None)
    decreases s - i
  {
    if i < s {
      ScanClean(entries, prefix, stopKey, i + 1, s, decodeErr, fnErr);
      assert Values(entries[i..s + 1]) == [entries[i].value] + Values(entries[i + 1..s + 1]);
    } else {
      assert Values(entries[i..s + 1]) == [entries[i].value];
    }
  }

  /** The positions from the start key's seek to the stop key hold exactly the prefix's IDs in [start, stop]. */
  lemma RangeBlock(entries: seq<Entry>, prefix: seq<byte>, start: u64, stop: u64, s: nat)
    requires Ordered(entries) && OwnKeys(entries, prefix) && start <= stop
    requires s < |entries| && entries[s].key == Key(prefix, stop)
    ensures Seek(entries, Key(prefix, start)) <= s
    ensures forall j :: 0 <= j < |entries| ==>
      (Seek(entries, Key(prefix, start)) <= j <= s <==> InRange(prefix, start, stop, entries[j].key))
    ensures forall j :: Seek(entries, Key(prefix, start)) <= j <= s ==>
      IsPrefix(prefix, entries[j].key) && (IsPrefix(Key(prefix, stop), entries[j].key) <==> j == s)
  {
    var startKey, stopKey := Key(prefix, start), Key(prefix, stop);
    var lo := Seek(entries, startKey);
    SeekBounds(entries, startKey);
    KeyOrder(prefix, stop, start);
    assert lo <= s;
    forall j | 0 <= j < |entries|
      ensures lo <= j <= s <==> InRange(prefix, start, stop, entries[j].key)
      ensures lo <= j <= s ==> IsPrefix(prefix, entries[j].key) && (IsPrefix(stopKey, entries[j].key) <==> j == s)
    {
      RangeAt(entries, prefix, start, stop, s, j);
    }
  }

  /** One position of `RangeBlock`. */
  lemma RangeAt(entries: seq<Entry>, prefix: seq<byte>, start: u64, stop: u64, s: nat, j: nat)
    requires Ordered(entries) && OwnKeys(entries, prefix) && start <= stop
    requires s < |entries| && entries[s].key == Key(prefix, stop)
    requires j < |entries| && Seek(entries, Key(prefix, start)) <= s
    ensures var lo := Seek(entries, Key(prefix, start));
      (lo <= j <= s <==> InRange(prefix, start, stop, entries[j].key))
      && (lo <= j <= s ==> IsPrefix(prefix, entries[j].key) && (IsPrefix(Key(prefix, stop), entries[j].key) <==> j == s))
  {
    SeekBounds(entries, Key(prefix, start));
    if Seek(entries, Key(prefix, start)) <= j <= s {
      RangeInside(entries, prefix, start, stop, s, j);
    } else {
      RangeOutside(entries, prefix, start, stop, s, j);
    }
  }

  /** A position from the seek to the stop key holds an ID in [start, stop], and only the last the stop key. */
  lemma RangeInside(entries: seq<Entry>, prefix: seq<byte>, start: u64, stop: u64, s: nat, j: nat)
    requires Ordered(entries) && OwnKeys(entries, prefix)
    requires s < |entries| && entries[s].key == Key(prefix, stop)
    requires j <= s && !LexLess(entries[j].key, Key(prefix, start))
    ensures InRange(prefix, start, stop, entries[j].key)
    ensures IsPrefix(prefix, entries[j].key) && (IsPrefix(Key(prefix, stop), entries[j].key) <==> j == s)
  {
    var startKey, stopKey := Key(prefix, start), Key(prefix, stop);
    var k := entries[j].key;
    LexLessTotal(startKey, k);
    assert LexLeq(startKey, k);
    assert LexLeq(k, stopKey);
    assert startKey == prefix + BigEndian(start, 8) && stopKey == prefix + BigEndian(stop, 8);
    BetweenSharesPrefix(prefix, BigEndian(start, 8), BigEndian(stop, 8), k);
    KeyCompare(prefix, k, start);
    KeyCompare(prefix, k, stop);
    LexLessIrreflexive(k);
    if IsPrefix(stopKey, k) {
      assert k == stopKey;
    }
  }

  /** A position before the seek or after the stop key holds no ID in [start, stop]. */
  lemma RangeOutside(entries: seq<Entry>, prefix: seq<byte>, start: u64, stop: u64, s: nat, j: nat)
    requires Ordered(entries)
    requires s < |entries| && entries[s].key == Key(prefix, stop)
    requires j < |entries| && (s < j || LexLess(entries[j].key, Key(prefix, start)))
    ensures !InRange(prefix, start, stop, entries[j].key)
  {
    var k := entries[j].key;
    KeyCompare(prefix, k, start);
    KeyCompare(prefix, k, stop);
    if s < j {
      assert LexLess(Key(prefix, stop), k);
    }
  }

  /**
   * `Range` with a recorded stop ID and no errors hands the callback
   * exactly the values of the prefix's IDs in [start, stop], in ascending
   * ID order, and returns nil.
   */
  lemma RangedRecordedStop(entries: seq<Entry>, prefix: seq<byte>, start: u64, stop: u64,
                           decodeErr: seq<byte> -> Option<string>, fnErr: seq<byte> -> Option<string>)
    requires Ordered(entries) && OwnKeys(entries, prefix) && start <= stop
    requires Lookup(entries, Key(prefix, stop)).Some?
    requires forall j :: 0 <= j < |entries| ==> decodeErr(entries[j].value).None? && fnErr(entries[j].value).None?
    ensures Ranged(entries, prefix, start, stop, decodeErr, fnErr) == (Selected(entries, prefix, start, stop), None)
  {
    var stopKey := Key(prefix, stop);
    var s :| 0 <= s < |entries| && entries[s] == Entry(stopKey, Lookup(entries, stopKey).value);
    RangeBlock(entries, prefix, start, stop, s);
    var lo := Seek(entries, Key(prefix, start));
    ScanClean(entries, prefix, stopKey, lo, s, decodeErr, fnErr);
    SelectedSlice(entries, prefix, start, stop, lo, s + 1);
  }

  /**
   * The stop test only matches a recorded stop key: with IDs a and b
   * recorded and a < stop < b, Range(a, stop) runs on to the end of the
   * prefix and hands over the value of b as well.
   */
  lemma RangeRunsPastUnrecordedStop(prefix: seq<byte>, a: u64, b: u64, stop: u64, va: seq<byte>, vb: seq<byte>)
    requires a < stop < b
    ensures var entries := [Entry(Key(prefix, a), va), Entry(Key(prefix, b), vb)];
      Ranged(entries, prefix, a, stop, NoError, NoError) == ([va, vb], None)
  {
    var ka, kb, stopKey := Key(prefix, a), Key(prefix, b), Key(prefix, stop);
    var entries := [Entry(ka, va), Entry(kb, vb)];
    LexLessIrreflexive(ka);
    assert Seek(entries, ka) == 0;
    KeyNotPrefix(prefix, stop, a);
    KeyNotPrefix(prefix, stop, b);
    var none: Option<string> := None;
    var s2 := Scan(entries, prefix, stopKey, 2, NoError, NoError);
    assert s2 == ([], none);
    var s1 := Scan(entries, prefix, stopKey, 1, NoError, NoError);
    assert s1 == ([vb] + s2.0, s2.1);
    assert s2.0 == [] && [vb] + s2.0 == [vb];
    assert s1 == ([vb], none);
    var s0 := Scan(entries, prefix, stopKey, 0, NoError, NoError);
    assert s0 == ([va] + s1.0, s1.1);
    assert [va] + s1.0 == [va, vb];
    assert s0 == ([va, vb], none);
  }

  /** The loop of `Range`, shared by both Badger logs. */
  method RangeScan(db: Db, prefix: seq<byte>, start: u64, stop: u64,
                   decodeErr: seq<byte> -> Option<string>, fnErr: seq<byte> -> Option<string>)
    returns (visited: seq<seq<byte>>, err: Option<string>)
    ensures (visited, err) == Ranged(db.entries, prefix, start, stop, decodeErr, fnErr)
  {
    var entries := db.entries;
    var stopKey := Key(prefix, stop);
    var i := Seek(entries, Key(prefix, start));
    visited := [];
    assert visited + Scan(entries, prefix, stopKey, i, decodeErr, fnErr).0 == Scan(entries, prefix, stopKey, i, decodeErr, fnErr).0;
    while i < |entries| && IsPrefix(prefix, entries[i].key)
      invariant Ranged(entries, prefix, start, stop, decodeErr, fnErr)
        == (visited + Scan(entries, prefix, stopKey, i, decodeErr, fnErr).0, Scan(entries, prefix, stopKey, i, decodeErr, fnErr).1)
      decreases |entries| - i
    {
      var v := entries[i].value;
      var decoded := decodeErr(v);
      if decoded.Some? {
        assert visited + [] == visited;
        return visited, decoded;
      }
      var rest := Scan(entries, prefix, stopKey, i + 1, decodeErr, fnErr);
      assert visited + ([v] + rest.0) == (visited + [v]) + rest.0;
      visited := visited + [v];
      var failed := fnErr(v);
      if failed.Some? {
        return visited, failed;
      }
      if IsPrefix(stopKey, entries[i].key) {
        return visited, None;
      }
      i := i + 1;
    }
    assert visited + [] == visited;
    return visited, None;
  }

  /** Record only when the key is absent: the first write wins. */
  function RecordedIfAbsent(entries: seq<Entry>, key: seq<byte>, value: seq<byte>): seq<Entry>
  {
    if Lookup(entries, key).Some? then entries else Put(entries, key, value)
  }

  lemma FirstWriteWins(entries: seq<Entry>, key: seq<byte>, value: seq<byte>, k: seq<byte>)
    ensures Lookup(RecordedIfAbsent(entries, key, value), k)
      == if k == key && Lookup(entries, key).None? then Some(value) else Lookup(entries, k)
  {
    PutLookup(entries, key, value, k);
  }

  /** A log over a shared database under a key prefix. */
  class Badger {
    const db: Db
    const prefix: seq<byte>

    constructor(db: Db, prefix: seq<byte>)
      ensures this.db == db && this.prefix == prefix
    {
      this.db := db;
      this.prefix := prefix;
    }

    /** `WithPrefix`: the same database, under this log's prefix extended by `p`. */
    method WithPrefix(p: seq<byte>) returns (log: Badger)
      ensures fresh(log) && log.db == db && log.prefix == prefix + p
    {
      log := new Badger(db, prefix + p);
    }

    /**
     * `Record`: the marshalling error first, then a write only if the key is
     * absent. `updateErr` is the error of the update transaction (a failed
     * read other than a missing key, a failed write, or a failed commit); the
     * transaction then leaves the database as it was.
     */
    method Record(id: u64, data: Result<seq<byte>>, updateErr: Option<string>) returns (err: Option<string>)
      requires db.Valid()
      modifies db
      ensures db.Valid()
      ensures data.Err? ==> err == Some(data.error) && db.entries == old(db.entries)
      ensures data.Ok? && updateErr.Some? ==> err == updateErr && db.entries == old(db.entries)
      ensures data.Ok? && updateErr.None? ==> err == None && db.entries == RecordedIfAbsent(old(db.entries), Key(prefix, id), data.value)
    {
      var key := Key(prefix, id);
      if data.Err? {
        return Some(data.error);
      }
      if updateErr.Some? {
        return updateErr;
      }
      if Lookup(db.entries, key).None? {
        db.Set(key, data.value);
      }
      return None;
    }

    function Last(decodeErr: seq<byte> -> Option<string>): (r: Result<Option<seq<byte>>>)
      reads db
      ensures r == LastFound(db.entries, prefix, decodeErr)
    {
      LastFound(db.entries, prefix, decodeErr)
    }

    method Range(start: u64, stop: u64, decodeErr: seq<byte> -> Option<string>, fnErr: seq<byte> -> Option<string>)
      returns (visited: seq<seq<byte>>, err: Option<string>)
      ensures (visited, err) == Ranged(db.entries, prefix, start, stop, decodeErr, fnErr)
    {
      visited, err := RangeScan(db, prefix, start, stop, decodeErr, fnErr);
    }
  }
}
