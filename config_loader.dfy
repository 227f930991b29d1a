// Loading configuration files into one target (config/loader.go). A loader
// maps file extensions to formats; each path is checked for existence,
// then for an extension the loader knows, and decoded into the target.
// Missing files and unknown extensions are skipped; any other error stops
// loading. The file system and the decoders are parameters: the existence
// check may fail, `open` reports an error or none, and a decoder returns the target
// as it left it together with its error, if any.
module ConfigLoader {
  import opened Outcomes
  import opened Text

  datatype Format = Json | ProtoText | Toml | Yaml | Xml

  type Loader = map<string, Format>

  /** `DefaultLoader`. */
  const DefaultLoader: Loader := map[
    ".json" := Json, ".prototxt" := ProtoText, ".ptxt" := ProtoText, ".toml" := Toml,
    ".yaml" := Yaml, ".yml" := Yaml, ".xml" := Xml]

  lemma DefaultLoaderTable()
    ensures DefaultLoader.Keys == {".json", ".prototxt", ".ptxt", ".toml", ".yaml", ".yml", ".xml"}
    ensures DefaultLoader[".ptxt"] == DefaultLoader[".prototxt"] == ProtoText
    ensures DefaultLoader[".yml"] == DefaultLoader[".yaml"] == Yaml
  {
  }

  /** `filepath.Ext`: the suffix from the last '.' of the last path element, or "". */
  function Ext(path: string): (e: string)
    ensures e == "" || (e[0] == '.' && HasSuffix(path, e) && '/' !in e && '.' !in e[1..])
  {
    if path == [] then ""
    else
      var last := path[|path| - 1];
      if last == '/' then ""
      else if last == '.' then
        assert path[|path| - 1..] == ".";
        "."
      else
        var e := Ext(path[..|path| - 1]);
        if e == "" then ""
        else
          assert path[..|path| - 1][|path| - 1 - |e|..] == e;
          assert path[|path| - |e| - 1..] == path[..|path| - 1][|path| - 1 - |e|..] + [last];
          e + [last]
  }

  /** A file name ending in an extension without further dots or slashes has that extension. */
  lemma {:induction false} ExtOf(stem: string, ext: string)
    requires ext != [] && ext[0] == '.' && '/' !in ext && '.' !in ext[1..]
    ensures Ext(stem + ext) == ext
    decreases |ext|
  {
    var path := stem + ext;
    if |ext| == 1 {
      assert path[|path| - 1] == '.';
    } else {
      var front := ext[..|ext| - 1];
      assert path[..|path| - 1] == stem + front;
      assert path[|path| - 1] == ext[|ext| - 1];
      assert ext[|ext| - 1] == ext[1..][|ext| - 2];
      assert front[1..] == ext[1..][..|ext| - 2];
      ExtOf(stem, front);
      assert front + [ext[|ext| - 1]] == ext;
    }
  }

  /** The file system as `load` sees it. */
  datatype FileSystem = FileSystem(present: string -> Result<bool>, open: string -> Option<string>)

  /** How loading one path ended. */
  datatype Outcome = Loaded | Missing | NoExtension | Unsupported | Failed(message: string)

  /** The three outcomes `Load` skips over. */
  predicate Skipped(o: Outcome)
  {
    o.Missing? || o.NoExtension? || o.Unsupported?
  }

  /**
   * `load`: existence first, then the extension, then opening and decoding;
   * the target changes only when the file is decoded.
   */
  function LoadOne<V>(l: Loader, fs: FileSystem, decode: (Format, string, V) -> (V, Option<string>),
                      v: V, path: string): (r: (V, Outcome))
    ensures fs.present(path).Err? ==> r == (v, Failed("encountered unexpected error: " + fs.present(path).error))
    ensures fs.present(path) == Ok(false) ==> r == (v, Missing)
    ensures fs.present(path) == Ok(true) && Ext(path) == "" ==> r == (v, NoExtension)
    ensures fs.present(path) == Ok(true) && Ext(path) != "" && Ext(path) !in l ==> r == (v, Unsupported)
    ensures r.1.Loaded? ==> (Ext(path) in l && r == (decode(l[Ext(path)], path, v).0, Loaded))
  {
    var ext := Ext(path);
    match fs.present(path)
    case Err(e) => (v, Failed("encountered unexpected error: " + e))
    case Ok(found) =>
      if !found then (v, Missing)
      else if ext == "" then (v, NoExtension)
      else if ext !in l then (v, Unsupported)
      else if fs.open(path).Some? then (v, Failed("failed to open file: " + fs.open(path).value))
      else
        var (next, err) := decode(l[ext], path, v);
        if err.Some? then (next, Failed(err.value)) else (next, Loaded)
  }

  /** `Load` as a function: the target after the paths, and the error that stopped it, if any. */
  function LoadAll<V>(l: Loader, fs: FileSystem, decode: (Format, string, V) -> (V, Option<string>),
                      v: V, paths: seq<string>): (r: (V, Option<string>))
    ensures paths == [] ==> r == (v, None)
    decreases |paths|
  {
    if paths == [] then (v, None)
    else
      var (next, o) := LoadOne(l, fs, decode, v, paths[0]);
      if o.Failed? then (next, Some("failed to load " + paths[0] + ": " + o.message))
      else LoadAll(l, fs, decode, next, paths[1..])
  }

  /** A skipped path leaves the target as it was and loading goes on with the next one. */
  lemma SkipContinues<V>(l: Loader, fs: FileSystem, decode: (Format, string, V) -> (V, Option<string>),
                         v: V, paths: seq<string>)
    requires paths != [] && Skipped(LoadOne(l, fs, decode, v, paths[0]).1)
    ensures LoadAll(l, fs, decode, v, paths) == LoadAll(l, fs, decode, v, paths[1..])
  {
  }

  /** When every path is missing or has an unknown extension, loading changes nothing and succeeds. */
  lemma {:induction false} AllSkipped<V>(l: Loader, fs: FileSystem, decode: (Format, string, V) -> (V, Option<string>),
                                         v: V, paths: seq<string>)
    requires forall k :: 0 <= k < |paths| ==> fs.present(paths[k]) == Ok(false) || Ext(paths[k]) !in l
    requires forall k :: 0 <= k < |paths| ==> fs.present(paths[k]).Ok?
    ensures LoadAll(l, fs, decode, v, paths) == (v, None)
    decreases |paths|
  {
    if paths != [] {
      var p := paths[0];
      if fs.present(p) == Ok(true) && Ext(p) != "" {
        assert Ext(p) !in l;
      }
      AllSkipped(l, fs, decode, v, paths[1..]);
    }
  }

  /** The first path whose check or decoding fails stops loading, naming that path. */
  lemma {:induction false} FirstFailureStops<V>(l: Loader, fs: FileSystem, decode: (Format, string, V) -> (V, Option<string>),
                                                v: V, done: seq<string>, path: string, rest: seq<string>)
    requires LoadAll(l, fs, decode, v, done).1.None?
    requires LoadOne(l, fs, decode, LoadAll(l, fs, decode, v, done).0, path).1.Failed?
    ensures var at := LoadOne(l, fs, decode, LoadAll(l, fs, decode, v, done).0, path);
      LoadAll(l, fs, decode, v, done + [path] + rest) == (at.0, Some("failed to load " + path + ": " + at.1.message))
    decreases |done|
  {
    if done == [] {
      assert done + [path] + rest == [path] + rest;
    } else {
      var (next, o) := LoadOne(l, fs, decode, v, done[0]);
      assert (done + [path] + rest)[1..] == done[1..] + [path] + rest;
      FirstFailureStops(l, fs, decode, next, done[1..], path, rest);
    }
  }

  /** `Loader.Load`: the loop over the paths. */
  method Load<V>(l: Loader, fs: FileSystem, decode: (Format, string, V) -> (V, Option<string>),
                 v0: V, paths: seq<string>) returns (v: V, err: Option<string>)
    ensures (v, err) == LoadAll(l, fs, decode, v0, paths)
  {
    v := v0;
    var i := 0;
    while i < |paths|
      invariant 0 <= i <= |paths|
      invariant LoadAll(l, fs, decode, v, paths[i..]) == LoadAll(l, fs, decode, v0, paths)
    {
      assert paths[i..][1..] == paths[i + 1..];
      var (next, o) := LoadOne(l, fs, decode, v, paths[i]);
      v := next;
      if o.Failed? {
        return v, Some("failed to load " + paths[i] + ": " + o.message);
      }
      i := i + 1;
    }
    return v, None;
  }
}
