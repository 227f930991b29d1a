// Build information of a binary (build/info.go): the settings the Go
// toolchain embeds, read in order, and the linker's `-X` assignments, which
// fill the version, commit and date only where the settings left them
// empty. The runtime's platform strings, the embedded settings, time
// parsing and formatting, and the linker-flag parser are inputs.
module BuildInfo {
  import opened Outcomes
  import opened Text

  /** One `-X key=value` assignment. */
  datatype KV = KV(key: string, value: string)

  /** The error `KVSlice.Set` reports for a value without '='. */
  const PartsError := "unexpected  number of parts"

  /** `key=value`. */
  function Piece(kv: KV): string
  {
    kv.key + "=" + kv.value
  }

  function Pieces(entries: seq<KV>): (r: seq<string>)
    ensures |r| == |entries|
    ensures forall i :: 0 <= i < |entries| ==> r[i] == Piece(entries[i])
  {
    seq(|entries|, i requires 0 <= i < |entries| => Piece(entries[i]))
  }

  /** `KVSlice.String`: the entries as `key=value`, separated by ", ". */
  function Render(entries: seq<KV>): (s: string)
  {
    Join(Pieces(entries), ", ")
  }

  /** The entry `Set` appends: `SplitN(value, "=", 2)` cuts at the first '='. */
  function Assignment(value: string): (r: Result<KV>)
    ensures r.Ok? <==> '=' in value
    ensures r.Ok? ==> '=' !in r.value.key && Piece(r.value) == value
  {
    var i := IndexOf(value, '=');
    if i == |value| then Err(PartsError)
    else
      Around(value, i);
      Ok(KV(value[..i], value[i + 1..]))
  }

  /** Everything after the first '=' is the value, further '=' included. */
  lemma AssignmentKeepsEquals(key: string, value: string)
    requires '=' !in key
    ensures Assignment(key + "=" + value) == Ok(KV(key, value))
  {
    SplitAt(key, '=', value);
  }

  /** The rendering is empty exactly when there are no entries. */
  lemma RenderEmpty(entries: seq<KV>)
    ensures Render(entries) == "" <==> entries == []
  {
    if entries != [] {
      JoinStarts(Pieces(entries), ", ");
    }
  }

  /** Rendering one more entry appends ", key=value", or just `key=value` to an empty list. */
  lemma RenderAppend(entries: seq<KV>, kv: KV)
    ensures Render(entries + [kv]) == if entries == [] then Piece(kv) else Render(entries) + ", " + Piece(kv)
  {
    assert Pieces(entries + [kv]) == Pieces(entries) + [Piece(kv)];
    if entries != [] {
      JoinSnoc(Pieces(entries), ", ", Piece(kv));
    }
  }

  /** `KVSlice`: the `-X` values collected while the linker flags are parsed. */
  class KVSlice {
    var entries: seq<KV>

    constructor ()
      ensures entries == []
    {
      entries := [];
    }

    /** `Set`: "" is ignored, a value without '=' is an error, anything else is appended. */
    method Set(value: string) returns (err: Option<string>)
      modifies this
      ensures value == "" ==> err == None && entries == old(entries)
      ensures value != "" && '=' !in value ==> err == Some(PartsError) && entries == old(entries)
      ensures value != "" && '=' in value ==> err == None && entries == old(entries) + [Assignment(value).value]
    {
      if value == "" {
        return None;
      }
      var parts := Assignment(value);
      if parts.Err? {
        return Some(parts.error);
      }
      entries := entries + [parts.value];
      return None;
    }

    /** `String`: the loop that joins the entries. */
    method String() returns (str: string)
      ensures str == Render(entries)
    {
      str := "";
      var i := 0;
      while i < |entries|
        invariant 0 <= i <= |entries|
        invariant str == Render(entries[..i])
      {
        RenderEmpty(entries[..i]);
        RenderAppend(entries[..i], entries[i]);
        assert entries[..i + 1] == entries[..i] + [entries[i]];
        if str != "" {
          str := str + ", ";
        }
        str := str + Piece(entries[i]);
        i := i + 1;
      }
      assert entries[..i] == entries;
    }
  }

  /** A `Set` that succeeds renders back the value it was given, after the earlier entries. */
  lemma SetRenders(entries: seq<KV>, value: string)
    requires '=' in value
    ensures Render(entries + [Assignment(value).value])
      == if entries == [] then value else Render(entries) + ", " + value
  {
    RenderAppend(entries, Assignment(value).value);
  }

  /**
   * The entries the flag parser leaves after the `-X` values in order. The
   * flag set's error handling, `flag.ErrorHandling(-1)`, is none of the
   * three Go names, so `Parse` carries on past a value `Set` rejects.
   */
  function Collect(values: seq<string>): (kvs: seq<KV>)
    ensures |kvs| <= |values|
    ensures forall k :: 0 <= k < |kvs| ==> '=' !in kvs[k].key
  {
    if values == [] then []
    else if values[0] == "" then Collect(values[1..])
    else match Assignment(values[0])
      case Err(_) => Collect(values[1..])
      case Ok(kv) => [kv] + Collect(values[1..])
  }

  /** The values that hold '=', in order: the ones `Set` accepts. */
  function Assignable(values: seq<string>): (r: seq<string>)
    ensures |r| <= |values|
  {
    if values == [] then []
    else if '=' in values[0] then [values[0]] + Assignable(values[1..])
    else Assignable(values[1..])
  }

  /**
   * The entries render back exactly the values that hold '=', in order:
   * a rejected value is skipped and the ones after it are still kept.
   */
  lemma {:induction false} CollectKeepsAssignable(values: seq<string>)
    ensures Pieces(Collect(values)) == Assignable(values)
  {
    if values != [] {
      CollectKeepsAssignable(values[1..]);
      if values[0] != "" && '=' in values[0] {
        var kv := Assignment(values[0]).value;
        assert Pieces([kv] + Collect(values[1..])) == [Piece(kv)] + Pieces(Collect(values[1..]));
      }
    }
  }

  /**
   * A value without '=' ahead of a version assignment does not stop it from
   * filling an empty version: `-X bad -X main.version=1.2` sets "1.2".
   */
  lemma RejectedValueSkipped(info: Info, bad: string, version: string, parseTime: string -> Time)
    requires info.version == "" && '=' !in bad
    ensures Fill(info, Collect([bad, "main.version=" + version]), parseTime).version == version
  {
    var key := "main.version";
    assert '=' !in key;
    assert key + "=" + version == "main.version=" + version;
    CollectSkips(bad, [key + "=" + version]);
    CollectSingle(key, version);
    assert [bad, key + "=" + version] == [bad] + [key + "=" + version];
    var kv := KV(key, version);
    assert Fill(info, [kv], parseTime) == Fill(info.(version := version), [], parseTime);
  }

  /** A value `Set` rejects leaves the entries of the rest. */
  lemma CollectSkips(v: string, rest: seq<string>)
    requires '=' !in v
    ensures Collect([v] + rest) == Collect(rest)
  {
    assert ([v] + rest)[1..] == rest;
  }

  lemma CollectSingle(key: string, value: string)
    requires '=' !in key
    ensures Collect([key + "=" + value]) == [KV(key, value)]
  {
    AssignmentKeepsEquals(key, value);
    assert [key + "=" + value][1..] == [];
  }

  lemma NoEquals(s: string)
    requires forall k :: 0 <= k < |s| ==> s[k] != '='
    ensures '=' !in s
  {
  }

  /** Go's zero time, or a parsed instant. */
  datatype Time = Zero | At(instant: int)

  datatype Info = Info(
    os: string, architecture: string, goVersion: string, cgoEnabled: bool,
    version: string, vcs: string, revision: string, compiled: Time, modified: bool)

  datatype Setting = Setting(key: string, value: string)

  /** What `debug.ReadBuildInfo` returns: the main module's version and the build settings. */
  datatype Build = Build(mainVersion: string, settings: seq<Setting>)

  /** `strconv.ParseBool` with its error ignored: false for anything it rejects. */
  predicate ParseBool(s: string)
  {
    s in {"1", "t", "T", "TRUE", "true", "True"}
  }

  /** The `-X` assignments fill version, commit and date, each only while it is still empty. */
  function Fill(info: Info, kvs: seq<KV>, parseTime: string -> Time): (r: Info)
    ensures r.(version := info.version, revision := info.revision, compiled := info.compiled) == info
    decreases |kvs|
  {
    if kvs == [] then info
    else
      var kv := kvs[0];
      var next :=
        if kv.key == "main.version" && info.version == "" then info.(version := kv.value)
        else if kv.key == "main.commit" && info.revision == "" then info.(revision := kv.value)
        else if kv.key == "main.date" && info.compiled == Zero then info.(compiled := parseTime(kv.value))
        else info;
      Fill(next, kvs[1..], parseTime)
  }

  /** The first non-empty value assigned to `key`, or "". */
  function FirstValue(kvs: seq<KV>, key: string): (v: string)
    ensures v != "" ==> exists k :: 0 <= k < |kvs| && kvs[k] == KV(key, v)
  {
    if kvs == [] then ""
    else if kvs[0].key == key && kvs[0].value != "" then kvs[0].value
    else
      var v := FirstValue(kvs[1..], key);
      if v != "" then
        var k :| 0 <= k < |kvs[1..]| && kvs[1..][k] == KV(key, v);
        assert kvs[k + 1] == KV(key, v);
        v
      else v
  }

  /** The first date assigned that parses to a non-zero time, or the zero time. */
  function FirstTime(kvs: seq<KV>, parseTime: string -> Time): Time
  {
    if kvs == [] then Zero
    else if kvs[0].key == "main.date" && parseTime(kvs[0].value) != Zero then parseTime(kvs[0].value)
    else FirstTime(kvs[1..], parseTime)
  }

  /**
   * A field the settings filled is kept; an empty one takes the first
   * non-empty assignment to it.
   */
  lemma {:induction false} FillOnlyEmpty(info: Info, kvs: seq<KV>, parseTime: string -> Time)
    ensures Fill(info, kvs, parseTime).version
      == if info.version != "" then info.version else FirstValue(kvs, "main.version")
    ensures Fill(info, kvs, parseTime).revision
      == if info.revision != "" then info.revision else FirstValue(kvs, "main.commit")
    ensures Fill(info, kvs, parseTime).compiled
      == if info.compiled != Zero then info.compiled else FirstTime(kvs, parseTime)
    decreases |kvs|
  {
    if kvs != [] {
      var kv := kvs[0];
      var next :=
        if kv.key == "main.version" && info.version == "" then info.(version := kv.value)
        else if kv.key == "main.commit" && info.revision == "" then info.(revision := kv.value)
        else if kv.key == "main.date" && info.compiled == Zero then info.(compiled := parseTime(kv.value))
        else info;
      FillOnlyEmpty(next, kvs[1..], parseTime);
    }
  }

  /** One build setting applied to the information gathered so far. */
  function Apply(info: Info, s: Setting, parseTime: string -> Time, xValues: string -> seq<string>): Info
  {
    match s.key
    case "CGO_ENABLED" => info.(cgoEnabled := ParseBool(s.value))
    case "vcs" => info.(vcs := s.value)
    case "vcs.revision" => info.(revision := s.value)
    case "vcs.time" => info.(compiled := parseTime(s.value))
    case "vcs.modified" => info.(modified := ParseBool(s.value))
    case "-ldflags" => Fill(info, Collect(xValues(s.value)), parseTime)
    case _ => info
  }

  /** The settings applied in order. */
  function Settle(info: Info, settings: seq<Setting>, parseTime: string -> Time, xValues: string -> seq<string>): (r: Info)
    ensures r.os == info.os && r.architecture == info.architecture && r.goVersion == info.goVersion
    decreases |settings|
  {
    if settings == [] then info
    else Settle(Apply(info, settings[0], parseTime, xValues), settings[1..], parseTime, xValues)
  }

  /** The value of the last "vcs" setting, or `fallback` when there is none. */
  function LastVcs(settings: seq<Setting>, fallback: string): string
  {
    if settings == [] then fallback
    else if settings[|settings| - 1].key == "vcs" then settings[|settings| - 1].value
    else LastVcs(settings[..|settings| - 1], fallback)
  }

  lemma {:induction false} SettleSnoc(info: Info, settings: seq<Setting>, s: Setting,
                                      parseTime: string -> Time, xValues: string -> seq<string>)
    ensures Settle(info, settings + [s], parseTime, xValues)
      == Apply(Settle(info, settings, parseTime, xValues), s, parseTime, xValues)
    decreases |settings|
  {
    if settings != [] {
      assert (settings + [s])[1..] == settings[1..] + [s];
      SettleSnoc(Apply(info, settings[0], parseTime, xValues), settings[1..], s, parseTime, xValues);
    } else {
      assert (settings + [s])[1..] == [];
    }
  }

  /** The last "vcs" setting decides the VCS name. */
  lemma {:induction false} LastVcsWins(info: Info, settings: seq<Setting>, parseTime: string -> Time,
                                       xValues: string -> seq<string>)
    ensures Settle(info, settings, parseTime, xValues).vcs == LastVcs(settings, info.vcs)
    decreases |settings|
  {
    if settings != [] {
      var n := |settings| - 1;
      assert settings == settings[..n] + [settings[n]];
      SettleSnoc(info, settings[..n], settings[n], parseTime, xValues);
      LastVcsWins(info, settings[..n], parseTime, xValues);
    }
  }

  /** `ParseInfo` as a function of what it reads. */
  function Parse(goos: string, goarch: string, runtimeVersion: string, build: Option<Build>,
                 parseTime: string -> Time, xValues: string -> seq<string>): Info
  {
    var info := Info(goos, goarch, TrimPrefix(runtimeVersion, "go"), false, "", "", "", Zero, false);
    if build.None? then info
    else Settle(info.(version := build.value.mainVersion), build.value.settings, parseTime, xValues)
  }

  /** `ParseInfo`: the loop over the build settings and, for "-ldflags", the loop over the `-X` entries. */
  method ParseInfo(goos: string, goarch: string, runtimeVersion: string, build: Option<Build>,
                   parseTime: string -> Time, xValues: string -> seq<string>) returns (info: Info)
    ensures info == Parse(goos, goarch, runtimeVersion, build, parseTime, xValues)
    ensures info.os == goos && info.architecture == goarch && info.goVersion == TrimPrefix(runtimeVersion, "go")
  {
    info := Info(goos, goarch, TrimPrefix(runtimeVersion, "go"), false, "", "", "", Zero, false);
    if build.None? {
      return;
    }
    info := info.(version := build.value.mainVersion);
    var settings := build.value.settings;
    ghost var goal := Settle(info, settings, parseTime, xValues);
    var i := 0;
    while i < |settings|
      invariant 0 <= i <= |settings|
      invariant Settle(info, settings[i..], parseTime, xValues) == goal
    {
      assert settings[i..][1..] == settings[i + 1..];
      info := ApplySetting(info, settings[i], parseTime, xValues);
      i := i + 1;
    }
  }

  /** The switch on one setting's key. */
  method ApplySetting(info0: Info, setting: Setting, parseTime: string -> Time, xValues: string -> seq<string>)
    returns (info: Info)
    ensures info == Apply(info0, setting, parseTime, xValues)
  {
    info := info0;
    if setting.key == "CGO_ENABLED" {
      info := info.(cgoEnabled := ParseBool(setting.value));
    } else if setting.key == "vcs" {
      info := info.(vcs := setting.value);
    } else if setting.key == "vcs.revision" {
      info := info.(revision := setting.value);
    } else if setting.key == "vcs.time" {
      info := info.(compiled := parseTime(setting.value));
    } else if setting.key == "vcs.modified" {
      info := info.(modified := ParseBool(setting.value));
    } else if setting.key == "-ldflags" {
      var kvs := LinkerAssignments(xValues(setting.value));
      info := FillEmpty(info, kvs, parseTime);
    }
  }

  /** The `-X` values handed to a fresh `KVSlice` in order; a rejected one is passed over. */
  method LinkerAssignments(values: seq<string>) returns (kvs: seq<KV>)
    ensures kvs == Collect(values)
  {
    var stringValues := new KVSlice();
    var j := 0;
    while j < |values|
      invariant 0 <= j <= |values|
      invariant stringValues.entries + Collect(values[j..]) == Collect(values)
      modifies stringValues
    {
      ghost var before := stringValues.entries;
      var err := stringValues.Set(values[j]);
      CollectStep(values[j..], before, stringValues.entries, err);
      assert values[j..][1..] == values[j + 1..];
      j := j + 1;
    }
    assert values[j..] == [];
    assert stringValues.entries + [] == stringValues.entries;
    kvs := stringValues.entries;
  }

  /** One `Set` in `LinkerAssignments`' loop consumes the first of the remaining values as `Collect` does. */
  lemma CollectStep(rest: seq<string>, before: seq<KV>, after: seq<KV>, err: Option<string>)
    requires rest != []
    requires rest[0] == "" ==> err == None && after == before
    requires rest[0] != "" && '=' !in rest[0] ==> err == Some(PartsError) && after == before
    requires rest[0] != "" && '=' in rest[0] ==> err == None && after == before + [Assignment(rest[0]).value]
    ensures after + Collect(rest[1..]) == before + Collect(rest)
  {
    if rest[0] == "" || Assignment(rest[0]).Err? {
      assert Collect(rest) == Collect(rest[1..]);
    } else {
      CollectTakes(rest, before, after);
    }
  }

  lemma CollectTakes(rest: seq<string>, before: seq<KV>, after: seq<KV>)
    requires rest != [] && rest[0] != "" && Assignment(rest[0]).Ok?
    requires after == before + [Assignment(rest[0]).value]
    ensures after + Collect(rest[1..]) == before + Collect(rest)
  {
    CollectTakesFirst(rest);
    Regrouped(before, Assignment(rest[0]).value, Collect(rest[1..]));
  }

  lemma CollectTakesFirst(rest: seq<string>)
    requires rest != [] && rest[0] != "" && Assignment(rest[0]).Ok?
    ensures Collect(rest) == [Assignment(rest[0]).value] + Collect(rest[1..])
  {
  }

  lemma Regrouped(before: seq<KV>, kv: KV, tail: seq<KV>)
    ensures (before + [kv]) + tail == before + ([kv] + tail)
  {
  }

  /** The loop over the `-X` entries, filling the fields still empty. */
  method FillEmpty(info0: Info, kvs: seq<KV>, parseTime: string -> Time) returns (info: Info)
    ensures info == Fill(info0, kvs, parseTime)
  {
    info := info0;
    var k := 0;
    while k < |kvs|
      invariant 0 <= k <= |kvs|
      invariant Fill(info, kvs[k..], parseTime) == Fill(info0, kvs, parseTime)
    {
      assert kvs[k..][1..] == kvs[k + 1..];
      var kv := kvs[k];
      if kv.key == "main.version" {
        if info.version == "" {
          info := info.(version := kv.value);
        }
      } else if kv.key == "main.commit" {
        if info.revision == "" {
          info := info.(revision := kv.value);
        }
      } else if kv.key == "main.date" {
        if info.compiled == Zero {
          info := info.(compiled := parseTime(kv.value));
        }
      }
      k := k + 1;
    }
  }

  /** `strconv.FormatBool`. */
  function FormatBool(b: bool): string
  {
    if b then "true" else "false"
  }

  /** `Metadata`: the information as a key-value map, the time in the given format. */
  function Metadata(info: Info, format: Time -> string): (m: map<string, string>)
    ensures m.Keys == {"os", "arch", "go", "cgo", "vcs", "rev", "time", "mod"}
    ensures m["cgo"] in {"true", "false"} && (m["cgo"] == "true" <==> info.cgoEnabled)
    ensures m["mod"] in {"true", "false"} && (m["mod"] == "true" <==> info.modified)
  {
    map["os" := info.os, "arch" := info.architecture, "go" := info.goVersion,
        "cgo" := FormatBool(info.cgoEnabled), "vcs" := info.vcs, "rev" := info.revision,
        "time" := format(info.compiled), "mod" := FormatBool(info.modified)]
  }
}
