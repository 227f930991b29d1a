// The second Badger-backed Paxos log (paxos/badgerdb/log.go). It shares the
// key layout and the `Range` loop with paxos/badger.go, but `Record`
// overwrites.
module BadgerDbLog {
  import opened Bytes
  import opened Outcomes
  import opened KvStore
  import opened PaxosBadger

  class Log {
    const db: Db
    const prefix: seq<byte>

    constructor(db: Db, prefix: seq<byte>)
      ensures this.db == db && this.prefix == prefix
    {
      this.db := db;
      this.prefix := prefix;
    }

    /**
     * `Record`: the marshalling error first, without touching the database;
     * then an unconditional write. `updateErr` is the error of the update
     * transaction (a failed write or commit), which leaves the database as it was.
     */
    method Record(id: u64, data: Result<seq<byte>>, updateErr: Option<string>) returns (err: Option<string>)
      requires db.Valid()
      modifies db
      ensures db.Valid()
      ensures data.Err? ==> err == Some(data.error) && db.entries == old(db.entries)
      ensures data.Ok? && updateErr.Some? ==> err == updateErr && db.entries == old(db.entries)
      ensures data.Ok? && updateErr.None? ==> err == None && db.entries == Put(old(db.entries), Key(prefix, id), data.value)
    {
      var key := Key(prefix, id);
      if data.Err? {
        return Some(data.error);
      }
      if updateErr.Some? {
        return updateErr;
      }
      db.Set(key, data.value);
      return None;
    }

    method Range(start: u64, stop: u64, decodeErr: seq<byte> -> Option<string>, fnErr: seq<byte> -> Option<string>)
      returns (visited: seq<seq<byte>>, err: Option<string>)
      ensures (visited, err) == Ranged(db.entries, prefix, start, stop, decodeErr, fnErr)
    {
      visited, err := RangeScan(db, prefix, start, stop, decodeErr, fnErr);
    }
  }

  /** Recording an ID again replaces its message: the last write wins, and nothing else changes. */
  lemma LastWriteWins(entries: seq<Entry>, prefix: seq<byte>, id: u64, value: seq<byte>, other: u64)
    ensures Lookup(Put(entries, Key(prefix, id), value), Key(prefix, id)) == Some(value)
    ensures other != id ==> Lookup(Put(entries, Key(prefix, id), value), Key(prefix, other)) == Lookup(entries, Key(prefix, other))
  {
    PutLookup(entries, Key(prefix, id), value, Key(prefix, id));
    PutLookup(entries, Key(prefix, id), value, Key(prefix, other));
    KeyInjective(prefix, id, other);
  }
}
