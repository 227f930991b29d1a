// An ordered key-value store standing in for the Badger database the
// Paxos logs write to: entries kept in ascending bytewise key order, with
// point lookups, writes, and forward and reverse seeks.
module KvStore {
  import opened Bytes
  import opened Outcomes

  datatype Entry = Entry(key: seq<byte>, value: seq<byte>)

  /** Keys strictly ascending, so each key appears once. */
  predicate Ordered(entries: seq<Entry>)
  {
    forall i, j :: 0 <= i < j < |entries| ==> LexLess(entries[i].key, entries[j].key)
  }

  /** Every key is above `low`. */
  predicate Above(entries: seq<Entry>, low: seq<byte>)
  {
    forall i :: 0 <= i < |entries| ==> LexLess(low, entries[i].key)
  }

  /** The value stored under `key`, if any. */
  function Lookup(entries: seq<Entry>, key: seq<byte>): (r: Option<seq<byte>>)
    ensures r.Some? ==> Entry(key, r.value) in entries
    ensures r.None? ==> forall i :: 0 <= i < |entries| ==> entries[i].key != key
  {
    if entries == [] then None
    else if entries[0].key == key then Some(entries[0].value)
    else
      var r := Lookup(entries[1..], key);
      assert r.None? ==> forall i :: 1 <= i < |entries| ==> entries[i].key != key by {
        if r.None? {
          forall i | 1 <= i < |entries|
            ensures entries[i].key != key
          {
            assert entries[i] == entries[1..][i - 1];
          }
        }
      }
      r
  }

  /** A transaction's `Set`: replace the value under `key`, or insert the entry in key order. */
  function Put(entries: seq<Entry>, key: seq<byte>, value: seq<byte>): (r: seq<Entry>)
  {
    if entries == [] then [Entry(key, value)]
    else if entries[0].key == key then [Entry(key, value)] + entries[1..]
    else if LexLess(key, entries[0].key) then [Entry(key, value)] + entries
    else [entries[0]] + Put(entries[1..], key, value)
  }

  /** Writing keeps the keys ordered, and a lower bound of every key and of the new key stays one. */
  lemma {:induction false} PutOrdered(entries: seq<Entry>, key: seq<byte>, value: seq<byte>)
    requires Ordered(entries)
    ensures Ordered(Put(entries, key, value))
    ensures forall low :: Above(entries, low) && LexLess(low, key) ==> Above(Put(entries, key, value), low)
  {
    if entries == [] {
    } else if entries[0].key == key {
      PutReplaceOrdered(entries, key, value);
    } else if LexLess(key, entries[0].key) {
      PutFrontOrdered(entries, key, value);
    } else {
      var e := entries[0];
      LexLessTotal(key, e.key);
      OrderedTail(entries);
      PutOrdered(entries[1..], key, value);
      var rest := Put(entries[1..], key, value);
      assert Put(entries, key, value) == [e] + rest;
      ConsOrdered(e, rest);
      forall low | Above(entries, low) && LexLess(low, key)
        ensures Above(Put(entries, key, value), low)
      {
        AboveCons(low, e, rest);
      }
    }
  }

  /** The tail of an ordered list is ordered and lies above its head's key. */
  lemma OrderedTail(entries: seq<Entry>)
    requires Ordered(entries) && entries != []
    ensures Ordered(entries[1..]) && Above(entries[1..], entries[0].key)
  {
    forall i | 0 <= i < |entries[1..]|
      ensures LexLess(entries[0].key, entries[1..][i].key)
    {
      assert entries[1..][i] == entries[i + 1];
    }
  }

  lemma ConsOrdered(e: Entry, rest: seq<Entry>)
    requires Ordered(rest) && Above(rest, e.key)
    ensures Ordered([e] + rest)
  {
  }

  /** A bound below the head's key, which lies below the rest, is below every key. */
  lemma AboveCons(low: seq<byte>, e: Entry, rest: seq<Entry>)
    requires LexLess(low, e.key) && Above(rest, e.key)
    ensures Above([e] + rest, low)
  {
    forall i | 0 <= i < |rest|
      ensures LexLess(low, rest[i].key)
    {
      LexLessTransitive(low, e.key, rest[i].key);
    }
  }

  /** Replacing the value of the first entry keeps its key and so the order. */
  lemma PutReplaceOrdered(entries: seq<Entry>, key: seq<byte>, value: seq<byte>)
    requires Ordered(entries) && entries != [] && entries[0].key == key
    ensures Ordered(Put(entries, key, value))
    ensures forall low :: Above(entries, low) && LexLess(low, key) ==> Above(Put(entries, key, value), low)
  {
    var r := Put(entries, key, value);
    assert r == [Entry(key, value)] + entries[1..];
    assert forall i :: 0 <= i < |r| ==> r[i].key == entries[i].key;
  }

  /** A key below the first one goes in front, below every key. */
  lemma PutFrontOrdered(entries: seq<Entry>, key: seq<byte>, value: seq<byte>)
    requires Ordered(entries) && entries != [] && entries[0].key != key && LexLess(key, entries[0].key)
    ensures Ordered(Put(entries, key, value))
    ensures forall low :: Above(entries, low) && LexLess(low, key) ==> Above(Put(entries, key, value), low)
  {
    forall i | 0 <= i < |entries|
      ensures LexLess(key, entries[i].key)
    {
      if i > 0 {
        LexLessTransitive(key, entries[0].key, entries[i].key);
      }
    }
    assert Put(entries, key, value) == [Entry(key, value)] + entries;
  }

  /** After a write, the written key holds the new value and every other key keeps its own. */
  lemma {:induction false} PutLookup(entries: seq<Entry>, key: seq<byte>, value: seq<byte>, k: seq<byte>)
    ensures Lookup(Put(entries, key, value), k) == if k == key then Some(value) else Lookup(entries, k)
  {
    if entries != [] && entries[0].key != key && !LexLess(key, entries[0].key) {
      PutLookup(entries[1..], key, value, k);
      assert ([entries[0]] + Put(entries[1..], key, value))[1..] == Put(entries[1..], key, value);
    } else if entries != [] && entries[0].key == key {
      assert ([Entry(key, value)] + entries[1..])[1..] == entries[1..];
    } else if entries != [] {
      assert ([Entry(key, value)] + entries)[1..] == entries;
    }
  }

  /** A forward `Seek`: the first position whose key is not below `key`. */
  function Seek(entries: seq<Entry>, key: seq<byte>): (i: nat)
    ensures i <= |entries|
  {
    if entries == [] then 0
    else if LexLess(entries[0].key, key) then 1 + Seek(entries[1..], key)
    else 0
  }

  lemma {:induction false} SeekBounds(entries: seq<Entry>, key: seq<byte>)
    requires Ordered(entries)
    ensures forall j :: 0 <= j < Seek(entries, key) ==> LexLess(entries[j].key, key)
    ensures forall j :: Seek(entries, key) <= j < |entries| ==> !LexLess(entries[j].key, key)
  {
    if entries != [] && LexLess(entries[0].key, key) {
      SeekBounds(entries[1..], key);
      forall j | 1 <= j < |entries|
        ensures entries[j] == entries[1..][j - 1]
      {
      }
    } else if entries != [] {
      forall j | 0 <= j < |entries|
        ensures !LexLess(entries[j].key, key)
      {
        LexLessTotal(entries[0].key, key);
        if j > 0 && entries[0].key == key {
          LexLessAsymmetric(key, entries[j].key);
        } else if j > 0 {
          LexLessTransitive(key, entries[0].key, entries[j].key);
          LexLessAsymmetric(key, entries[j].key);
        }
      }
    }
  }

  /** A reverse `Seek`: the last position whose key is not above `key`, or -1. */
  function ReverseSeek(entries: seq<Entry>, key: seq<byte>): (i: int)
    ensures -1 <= i < |entries|
  {
    if entries == [] then -1
    else if !LexLess(key, entries[|entries| - 1].key) then |entries| - 1
    else ReverseSeek(entries[..|entries| - 1], key)
  }

  lemma {:induction false} ReverseSeekBounds(entries: seq<Entry>, key: seq<byte>)
    requires Ordered(entries)
    ensures forall j :: 0 <= j <= ReverseSeek(entries, key) ==> !LexLess(key, entries[j].key)
    ensures forall j :: ReverseSeek(entries, key) < j < |entries| ==> LexLess(key, entries[j].key)
  {
    if entries != [] {
      var n := |entries| - 1;
      if LexLess(key, entries[n].key) {
        ReverseSeekBounds(entries[..n], key);
      } else {
        forall j | 0 <= j <= n
          ensures !LexLess(key, entries[j].key)
        {
          LexLessTotal(key, entries[n].key);
          if j < n && entries[n].key == key {
            LexLessAsymmetric(entries[j].key, key);
          } else if j < n {
            LexLessTransitive(entries[j].key, entries[n].key, key);
            LexLessAsymmetric(entries[j].key, key);
          }
        }
      }
    }
  }

  /** The database: one ordered list of entries, updated in place by write transactions. */
  class Db {
    var entries: seq<Entry>

    ghost predicate Valid()
      reads this
    {
      Ordered(entries)
    }

    constructor()
      ensures Valid() && entries == []
    {
      entries := [];
    }

    /** `txn.Set` inside `DB.Update`. */
    method Set(key: seq<byte>, value: seq<byte>)
      requires Valid()
      modifies this
      ensures Valid() && entries == Put(old(entries), key, value)
    {
      PutOrdered(entries, key, value);
      entries := Put(entries, key, value);
    }
  }
}
