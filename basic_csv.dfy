// Loading a credential store from a CSV file (auth/basic/store_csv.go).
// Each record is `f0, f1, user id, groups` and is indexed under its second
// column; the groups column is a comma-separated list. Opening the file and
// the CSV reader are inputs: the records the reader yields, and the error,
// if any, it reports instead of the next record.
module BasicCsv {
  import opened Outcomes
  import opened Text
  import opened BasicStore

  datatype Opened = Opened(store: Store) | OpenFailed(error: string) | IndexPanic

  /** The groups column: empty, or split on ',' with each element trimmed. */
  function GroupsOf(column: string): (groups: seq<string>)
    ensures column == [] ==> groups == []
    ensures column != [] ==> |groups| == |Split(column, ',')|
    ensures column != [] ==> forall i :: 0 <= i < |groups| ==> groups[i] == TrimSpace(Split(column, ',')[i])
  {
    if column == [] then []
    else
      var parts := Split(column, ',');
      seq(|parts|, i requires 0 <= i < |parts| => TrimSpace(parts[i]))
  }

  predicate WellFormed(records: seq<seq<string>>)
  {
    forall j :: 0 <= j < |records| ==> |records[j]| >= 4
  }

  function EntryOf(record: seq<string>): Entry
    requires |record| >= 4
  {
    Entry(record[0], record[1], record[2], GroupsOf(record[3]))
  }

  /** The index after the records, each entry replacing any earlier one with the same key. */
  function Index(records: seq<seq<string>>): map<string, Entry>
    requires WellFormed(records)
  {
    if records == [] then map[]
    else
      var last := records[|records| - 1];
      Index(records[..|records| - 1])[last[1] := EntryOf(last)]
  }

  /** `OpenCSV` as a function of its inputs. */
  function Load(openError: Option<string>, records: seq<seq<string>>, readError: Option<string>): Opened
  {
    if openError.Some? then OpenFailed(openError.value)
    else if !WellFormed(records) then IndexPanic
    else if readError.Some? then OpenFailed(readError.value)
    else Opened(Indexed(Index(records)))
  }

  /** The position of the last record whose second column is `key`, or -1. */
  function LastWith(records: seq<seq<string>>, key: string): (j: int)
    requires WellFormed(records)
    ensures -1 <= j < |records|
    ensures j >= 0 ==> records[j][1] == key
    ensures forall l :: j < l < |records| ==> records[l][1] != key
  {
    if records == [] then -1
    else if records[|records| - 1][1] == key then |records| - 1
    else LastWith(records[..|records| - 1], key)
  }

  /**
   * The keys are exactly the second columns, and each maps to the entry of
   * the last record with that key.
   */
  lemma {:induction false} LastRecordWins(records: seq<seq<string>>, key: string)
    requires WellFormed(records)
    ensures key in Index(records) <==> LastWith(records, key) >= 0
    ensures key in Index(records) ==> Index(records)[key] == EntryOf(records[LastWith(records, key)])
    decreases |records|
  {
    if records != [] {
      var n := |records| - 1;
      var init := records[..n];
      assert WellFormed(init) by {
        forall j | 0 <= j < |init| ensures |init[j]| >= 4 {
          assert init[j] == records[j];
        }
      }
      LastRecordWins(init, key);
      if records[n][1] != key {
        var j := LastWith(init, key);
        if j >= 0 {
          assert records[j] == init[j];
        }
      }
    }
  }

  /** A key is in the index exactly when some record carries it in its second column. */
  lemma KeysAreSecondColumns(records: seq<seq<string>>, key: string)
    requires WellFormed(records)
    ensures key in Index(records) <==> exists j :: 0 <= j < |records| && records[j][1] == key
  {
    LastRecordWins(records, key);
  }

  /** Looking a user up in a loaded password file finds the password of that user's last record. */
  lemma PasswordFileLookup(records: seq<seq<string>>, user: string)
    requires WellFormed(records) && user != []
    ensures var r := IndexLookup(Index(records), LookupRequest(user, ""));
      && (r.Found? <==> LastWith(records, user) >= 0)
      && (r.Found? ==> (r.response.password == records[LastWith(records, user)][0]
                     && r.response.userID == records[LastWith(records, user)][2]))
  {
    LastRecordWins(records, user);
  }

  lemma IndexStep(records: seq<seq<string>>, k: nat)
    requires k < |records| && WellFormed(records[..k]) && |records[k]| >= 4
    ensures WellFormed(records[..k + 1])
    ensures Index(records[..k + 1]) == Index(records[..k])[records[k][1] := EntryOf(records[k])]
  {
    var front := records[..k + 1];
    assert front[..k] == records[..k];
    assert front[k] == records[k];
  }

  /** `OpenCSV`: the read loop, filling the index in place and trimming each group list. */
  method OpenCsv(openError: Option<string>, records: seq<seq<string>>, readError: Option<string>) returns (r: Opened)
    ensures r == Load(openError, records, readError)
  {
    if openError.Some? {
      return OpenFailed(openError.value);
    }
    var idx: map<string, Entry> := map[];
    var k := 0;
    while k < |records|
      invariant 0 <= k <= |records|
      invariant WellFormed(records[..k])
      invariant idx == Index(records[..k])
    {
      var record := records[k];
      if |record| < 4 {
        return IndexPanic;
      }
      var groups := TrimmedGroups(record[3]);
      IndexStep(records, k);
      idx := idx[record[1] := Entry(record[0], record[1], record[2], groups)];
      k := k + 1;
    }
    assert records[..k] == records;
    if readError.Some? {
      return OpenFailed(readError.value);
    }
    return Opened(Indexed(idx));
  }

  /** The group list of one record: split, then each element trimmed in place. */
  method TrimmedGroups(column: string) returns (groups: seq<string>)
    ensures groups == GroupsOf(column)
  {
    groups := [];
    if |column| > 0 {
      groups := Split(column, ',');
      var i := 0;
      while i < |groups|
        invariant 0 <= i <= |groups| == |Split(column, ',')|
        invariant forall m :: 0 <= m < i ==> groups[m] == TrimSpace(Split(column, ',')[m])
        invariant forall m :: i <= m < |groups| ==> groups[m] == Split(column, ',')[m]
      {
        groups := groups[i := TrimSpace(groups[i])];
        i := i + 1;
      }
    }
  }
}
