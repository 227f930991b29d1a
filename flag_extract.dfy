// Naming of flags extracted from struct fields (flagset/extract.go): a
// flag's name is its field's JSON name after the extractor's prefix,
// joined by '_', and its first environment variable is the same under the
// environment prefix, upper-cased. Struct tags are a map from tag key to
// text; upper casing is ASCII case mapping.
module FlagExtract {
  import opened Outcomes
  import opened Text
  import FlagSlice

  /** `format(prefix, name)`: the prefix elements and the name, joined by '_'. */
  function Formatted(prefix: seq<string>, name: string): string
  {
    Join(prefix + [name], "_")
  }

  /** `format`: the loop that prepends the prefix elements from the last to the first. */
  method Format(prefix: seq<string>, name: string) returns (val: string)
    ensures val == Formatted(prefix, name)
  {
    val := name;
    var i := 1;
    while i <= |prefix|
      invariant 1 <= i <= |prefix| + 1
      invariant val == Formatted(prefix[|prefix| - (i - 1)..], name)
    {
      var j := |prefix| - i;
      assert prefix[j..] == [prefix[j]] + prefix[j + 1..];
      assert prefix[j..] + [name] == [prefix[j]] + (prefix[j + 1..] + [name]);
      val := prefix[j] + "_" + val;
      i := i + 1;
    }
    assert prefix[0..] == prefix;
  }

  /** `Extractor`: the name prefix and the environment-variable prefix. */
  datatype Extractor = Extractor(prefix: seq<string>, envPrefix: seq<string>)

  /** `Clone`: a copy with both prefix lists copied. */
  function Clone(f: Extractor): (r: Extractor)
    ensures r == f
  {
    Extractor([] + f.prefix, [] + f.envPrefix)
  }

  /** `Child`: a copy with `name` added to both prefix lists; the receiver is a value and stays as it was. */
  function Child(f: Extractor, name: string): (r: Extractor)
    ensures r.prefix == f.prefix + [name] && r.envPrefix == f.envPrefix + [name]
  {
    var nf := Clone(f);
    Extractor(nf.prefix + [name], nf.envPrefix + [name])
  }

  /** A name under a child extractor is the parent's name for `child_name`. */
  lemma {:induction false} ChildFormat(prefix: seq<string>, child: string, name: string)
    ensures Formatted(prefix + [child], name) == Formatted(prefix, child + "_" + name)
    decreases |prefix|
  {
    if prefix == [] {
      assert [] + [child] + [name] == [child, name];
      assert [child, name][1..] == [name];
      assert Join([name], "_") == name;
      assert Join([child, name], "_") == child + "_" + name;
      assert [] + [child + "_" + name] == [child + "_" + name];
      assert Join([child + "_" + name], "_") == child + "_" + name;
    } else {
      ChildFormat(prefix[1..], child, name);
      assert prefix + [child] + [name] == [prefix[0]] + (prefix[1..] + [child] + [name]);
      assert prefix + [child + "_" + name] == [prefix[0]] + (prefix[1..] + [child + "_" + name]);
    }
  }

  /** The metadata `common` derives from a field. */
  datatype Common = Common(
    name: string, flagName: string, aliases: seq<string>, usage: string,
    envVars: seq<string>, default: string, hidden: bool, required: bool)

  /** `StructTag.Get`: the tag's text, or "" when the field has none. */
  function Tag(tags: map<string, string>, key: string): string
  {
    if key in tags then tags[key] else ""
  }

  /** `strconv.ParseBool` with its error ignored. */
  predicate TagBool(text: string)
  {
    var b := FlagSlice.ParseBool(text);
    b.Ok? && b.value
  }

  /** The field's name: the JSON tag up to its first ','. */
  function FieldName(tags: map<string, string>): string
  {
    Split(Tag(tags, "json"), ',')[0]
  }

  /**
   * `common`: nothing for a field named "-"; otherwise the flag name, the
   * derived environment variable followed by the "env" tag's entries, and
   * the aliases of the "aliases" tag or else the "alias" tag.
   */
  function CommonOf(f: Extractor, tags: map<string, string>): (r: Option<Common>)
    ensures r.None? <==> FieldName(tags) == "-"
    ensures r.Some? ==> (r.value.name == FieldName(tags)
      && r.value.flagName == Formatted(f.prefix, FieldName(tags))
      && |r.value.envVars| >= 1
      && r.value.envVars[0] == ToUpper(Formatted(f.envPrefix, FieldName(tags))))
    ensures r.Some? ==> r.value.envVars[1..] == (if Tag(tags, "env") != "" then Split(Tag(tags, "env"), ',') else [])
    ensures r.Some? ==> (r.value.aliases ==
      if Tag(tags, "aliases") != "" then Split(Tag(tags, "aliases"), ',')
      else if Tag(tags, "alias") != "" then Split(Tag(tags, "alias"), ',')
      else [])
  {
    var name := FieldName(tags);
    if name == "-" then None
    else
      var envVars := [ToUpper(Formatted(f.envPrefix, name))];
      var aliases :=
        if Tag(tags, "aliases") != "" then Split(Tag(tags, "aliases"), ',')
        else if Tag(tags, "alias") != "" then Split(Tag(tags, "alias"), ',')
        else [];
      var env := if Tag(tags, "env") != "" then envVars + Split(Tag(tags, "env"), ',') else envVars;
      assert env[1..] == (if Tag(tags, "env") != "" then Split(Tag(tags, "env"), ',') else []);
      Some(Common(name, Formatted(f.prefix, name), aliases, Tag(tags, "usage"), env,
                  Tag(tags, "default"), TagBool(Tag(tags, "hidden")), TagBool(Tag(tags, "required"))))
  }

  /** Options after the JSON name do not change the name. */
  lemma NameIgnoresOptions(name: string, options: string)
    requires ',' !in name
    ensures Split(name + "," + options, ',')[0] == name
  {
    SplitAt(name, ',', options);
  }

  /** `ExtractPrefix(prefix, v)`: an extractor whose environment prefix is `prefix` alone. */
  function ExtractPrefix(prefix: string): (f: Extractor)
    ensures f.prefix == [] && f.envPrefix == [prefix]
  {
    Extractor([], [prefix])
  }

  /**
   * A field named `name` inside a struct field named `group`, under
   * `ExtractPrefix(prefix)`: the flag is `group_name` and its variable
   * `PREFIX_GROUP_NAME`.
   */
  lemma NestedNames(prefix: string, group: string, name: string)
    ensures var f := Child(ExtractPrefix(prefix), group);
      && Formatted(f.prefix, name) == group + "_" + name
      && ToUpper(Formatted(f.envPrefix, name)) == ToUpper(prefix + "_" + group + "_" + name)
  {
    var f := Child(ExtractPrefix(prefix), group);
    assert f.prefix + [name] == [group, name];
    assert f.envPrefix + [name] == [prefix, group, name];
    JoinPair(group, name);
    JoinTriple(prefix, group, name);
  }

  lemma JoinPair(a: string, b: string)
    ensures Join([a, b], "_") == a + "_" + b
  {
    assert [a, b][1..] == [b];
  }

  lemma JoinTriple(a: string, b: string, c: string)
    ensures Join([a, b, c], "_") == a + "_" + b + "_" + c
  {
    assert [a, b, c][1..] == [b, c];
    JoinPair(b, c);
  }
}
