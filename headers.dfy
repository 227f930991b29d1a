// A case-insensitive header map (headers/headers.go): keys are stored
// lower-cased, so setting and reading ignore the case of the key. Lower
// casing is ASCII case mapping.
module Headers {
  import opened Text

  /** The contents of a header map: lower-cased keys to their values. */
  type Entries = map<string, seq<string>>

  /** `GetAll` on the contents: the values under the lower-cased key, or none. */
  function Find(m: Entries, key: string): (r: seq<string>)
    ensures ToLower(key) in m ==> r == m[ToLower(key)]
    ensures ToLower(key) !in m ==> r == []
  {
    if ToLower(key) in m then m[ToLower(key)] else []
  }

  /** `Get` on the contents: the first value, or "" when there is none. */
  function First(m: Entries, key: string): (r: string)
  {
    var all := Find(m, key);
    if |all| > 0 then all[0] else ""
  }

  /** `SetAll` on the contents. */
  function Assign(m: Entries, key: string, values: seq<string>): Entries
  {
    m[ToLower(key) := values]
  }

  lemma ToLowerIdempotent(s: string)
    ensures ToLower(ToLower(s)) == ToLower(s)
  {
  }

  /** Keys that differ only in case read the same values. */
  lemma FindIgnoresCase(m: Entries, a: string, b: string)
    requires EqualFold(a, b)
    ensures Find(m, a) == Find(m, b) && First(m, a) == First(m, b)
  {
  }

  /**
   * Reading after `SetAll`: every spelling of the key gives the new values,
   * and every other key keeps its values.
   */
  lemma FindAfterAssign(m: Entries, key: string, values: seq<string>, probe: string)
    ensures EqualFold(key, probe) ==> Find(Assign(m, key, values), probe) == values
    ensures !EqualFold(key, probe) ==> Find(Assign(m, key, values), probe) == Find(m, probe)
  {
  }

  /** `Get` is "" exactly when the key has no values or its first value is "". */
  lemma FirstEmpty(m: Entries, key: string)
    ensures First(m, key) == "" <==> Find(m, key) == [] || Find(m, key)[0] == ""
    ensures Find(m, key) != [] ==> First(m, key) == Find(m, key)[0]
  {
  }

  /** After `Set`, `Get` with any spelling of the key returns the value. */
  lemma FirstAfterSet(m: Entries, key: string, value: string, probe: string)
    requires EqualFold(key, probe)
    ensures First(Assign(m, key, [value]), probe) == value
  {
    FindAfterAssign(m, key, [value], probe);
  }

  /** `Header`: Go's map type, whose methods update the shared map in place. */
  class Header {
    var entries: Entries

    /** `New`. */
    constructor ()
      ensures Valid() && entries == map[]
    {
      entries := map[];
    }

    /** Every stored key is lower case. */
    predicate Valid()
      reads this
    {
      forall k :: k in entries ==> ToLower(k) == k
    }

    method SetAll(key: string, values: seq<string>)
      modifies this
      requires Valid()
      ensures Valid()
      ensures entries == Assign(old(entries), key, values)
    {
      ToLowerIdempotent(key);
      entries := entries[ToLower(key) := values];
    }

    method Set(key: string, value: string)
      modifies this
      requires Valid()
      ensures Valid()
      ensures entries == Assign(old(entries), key, [value])
    {
      SetAll(key, [value]);
    }

    function GetAll(key: string): seq<string>
      reads this
    {
      Find(entries, key)
    }

    function Get(key: string): string
      reads this
    {
      First(entries, key)
    }
  }
}
