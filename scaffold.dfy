// Project scaffolding (cmd/em/internal/scaffold/template.go): requested
// feature names are resolved through the alias table until only feature
// names remain, and each feature's template files are rendered once, in
// order. The template file system, template execution and logging are
// parameters or left out; file contents are strings.
module Scaffold {
  import opened Outcomes
  import opened Text

  /** `FilesByFeature`. */
  const Files: map<string, seq<string>> := map[
    "Authors" := ["AUTHORS.tmpl"],
    "Docker" := ["cmd/{{ .Name }}/docker-compose.yaml.tmpl", "cmd/{{ .Name }}/Dockerfile.tmpl"],
    "GoBinary" := ["internal/commands/version.go.tmpl", "cmd/{{ .Name }}/main.go.tmpl"],
    "GoReleaser" := ["scripts/dist-go.sh.tmpl", ".goreleaser.yaml.tmpl"],
    "Go" := ["go.mod.tmpl"],
    "Version" := ["package.json.tmpl"],
    "Legal" := ["legal/header.txt.tmpl", "LICENSE.tmpl"],
    "Git" := [".gitignore.tmpl", ".git/HEAD", ".git/config"],
    "Make" := ["Makefile.tmpl"]]

  /**
   * `FeatureAliases` after `init` has added, for every feature, its name in
   * lower case as an alias for the feature alone.
   */
  const Aliases: map<string, seq<string>> := map[
    "init" := ["make", "git", "legal", "authors"],
    "bin" := ["gobinary", "go", "version"],
    "authors" := ["Authors"], "docker" := ["Docker"], "gobinary" := ["GoBinary"],
    "goreleaser" := ["GoReleaser"], "go" := ["Go"], "version" := ["Version"],
    "legal" := ["Legal"], "git" := ["Git"], "make" := ["Make"]]

  /** No feature name is itself an alias. */
  lemma FeaturesAreNotAliases()
    ensures forall f :: f in Files ==> f !in Aliases
  {
  }

  /** How many alias expansions a name is from feature names: "init" and "bin" two, the lower-case names one. */
  function Depth(f: string): nat
  {
    if f == "init" || f == "bin" then 2 else if f in Aliases then 1 else 0
  }

  /**
   * What one pass over the alias table `aliases` and the feature table
   * `files` makes of one name: an alias's expansion, a feature itself, or
   * nothing for an unknown name.
   */
  function Step(aliases: map<string, seq<string>>, files: map<string, seq<string>>, f: string): seq<string>
  {
    if f in aliases then aliases[f] else if f in files then [f] else []
  }

  /** One pass over the list: every name replaced in place by its `Step`. */
  function Expand(aliases: map<string, seq<string>>, files: map<string, seq<string>>, fs: seq<string>): seq<string>
  {
    if fs == [] then [] else Expand(aliases, files, fs[..|fs| - 1]) + Step(aliases, files, fs[|fs| - 1])
  }

  /** Whether the pass over `fs` expanded an alias. */
  predicate HasAlias(aliases: map<string, seq<string>>, fs: seq<string>)
  {
    exists k :: 0 <= k < |fs| && fs[k] in aliases
  }

  function MaxDepth(fs: seq<string>): (d: nat)
    ensures forall k :: 0 <= k < |fs| ==> Depth(fs[k]) <= d
  {
    if fs == [] then 0
    else
      var front := MaxDepth(fs[..|fs| - 1]);
      var last := Depth(fs[|fs| - 1]);
      assert forall k :: 0 <= k < |fs| - 1 ==> fs[k] == fs[..|fs| - 1][k];
      if front < last then last else front
  }

  /** An expansion is one step closer to feature names than the alias it replaces. */
  lemma StepLowers(f: string)
    ensures forall x :: x in Step(Aliases, Files, f) ==> Depth(x) == 0 || Depth(x) < Depth(f)
  {
    if f in Aliases {
      FeaturesAreNotAliases();
    }
  }

  lemma {:induction false} ExpandDepth(fs: seq<string>)
    ensures forall x :: x in Expand(Aliases, Files, fs) ==> Depth(x) == 0 || Depth(x) < MaxDepth(fs)
  {
    if fs != [] {
      var front := fs[..|fs| - 1];
      ExpandDepth(front);
      StepLowers(fs[|fs| - 1]);
      assert MaxDepth(front) <= MaxDepth(fs);
    }
  }

  lemma {:induction false} MaxDepthBound(xs: seq<string>, d: nat)
    requires forall x :: x in xs ==> Depth(x) <= d
    ensures MaxDepth(xs) <= d
  {
    if xs != [] {
      var front := xs[..|xs| - 1];
      assert forall x :: x in front ==> x in xs;
      MaxDepthBound(front, d);
    }
  }

  /** A pass that expands an alias lowers the greatest depth in the list. */
  lemma ExpandLowers(fs: seq<string>)
    requires HasAlias(Aliases, fs)
    ensures MaxDepth(Expand(Aliases, Files, fs)) < MaxDepth(fs)
  {
    var k :| 0 <= k < |fs| && fs[k] in Aliases;
    assert Depth(fs[k]) >= 1;
    ExpandDepth(fs);
    MaxDepthBound(Expand(Aliases, Files, fs), MaxDepth(fs) - 1);
  }

  /** `resolveFeatures` as a function: passes repeat until one expands no alias. */
  function Resolve(fs: seq<string>): seq<string>
    decreases MaxDepth(fs)
  {
    if HasAlias(Aliases, fs) then
      ExpandLowers(fs);
      Resolve(Expand(Aliases, Files, fs))
    else Expand(Aliases, Files, fs)
  }

  /** A pass over a list without aliases keeps exactly its feature names, in order. */
  lemma {:induction false} ExpandNoAlias(aliases: map<string, seq<string>>, files: map<string, seq<string>>, fs: seq<string>)
    requires !HasAlias(aliases, fs)
    ensures forall x :: x in Expand(aliases, files, fs) <==> x in fs && x in files
  {
    if fs != [] {
      var front := fs[..|fs| - 1];
      assert forall k :: 0 <= k < |front| ==> front[k] == fs[k];
      ExpandNoAlias(aliases, files, front);
      assert fs == front + [fs[|fs| - 1]];
    }
  }

  /** Resolution yields only feature names, so every resolved name renders files and none is an alias. */
  lemma {:induction false} ResolveValid(fs: seq<string>)
    ensures forall x :: x in Resolve(fs) ==> x in Files && x !in Aliases
    decreases MaxDepth(fs)
  {
    FeaturesAreNotAliases();
    if HasAlias(Aliases, fs) {
      ExpandLowers(fs);
      ResolveValid(Expand(Aliases, Files, fs));
    } else {
      ExpandNoAlias(Aliases, Files, fs);
    }
  }

  /** A pass is applied name by name: each name's expansion stays where the name was. */
  lemma {:induction false} ExpandAppend(aliases: map<string, seq<string>>, files: map<string, seq<string>>, a: seq<string>, b: seq<string>)
    ensures Expand(aliases, files, a + b) == Expand(aliases, files, a) + Expand(aliases, files, b)
    decreases |b|
  {
    if b == [] {
      assert a + b == a;
    } else {
      var front := b[..|b| - 1];
      assert (a + b)[..|a + b| - 1] == a + front;
      ExpandAppend(aliases, files, a, front);
    }
  }

  /** A list of feature names passes through a pass unchanged. */
  lemma {:induction false} ExpandFeatures(aliases: map<string, seq<string>>, files: map<string, seq<string>>, fs: seq<string>)
    requires forall x :: x in fs ==> x in files && x !in aliases
    ensures Expand(aliases, files, fs) == fs
  {
    if fs != [] {
      var front := fs[..|fs| - 1];
      assert forall x :: x in front ==> x in fs;
      ExpandFeatures(aliases, files, front);
      assert fs == front + [fs[|fs| - 1]];
    }
  }

  /** Resolving resolved features changes nothing. */
  lemma ResolveIdempotent(fs: seq<string>)
    ensures Resolve(Resolve(fs)) == Resolve(fs)
  {
    var rs := Resolve(fs);
    ResolveValid(fs);
    assert !HasAlias(Aliases, rs);
    ExpandFeatures(Aliases, Files, rs);
  }

  /** A pass over one name is that name's `Step`. */
  lemma ExpandOne(aliases: map<string, seq<string>>, files: map<string, seq<string>>, f: string)
    ensures Expand(aliases, files, [f]) == Step(aliases, files, f)
  {
    assert [f][..0] == [];
  }

  /** A pass over four names is their four steps, in order. */
  lemma ExpandFour(aliases: map<string, seq<string>>, files: map<string, seq<string>>, a: string, b: string, c: string, d: string)
    ensures Expand(aliases, files, [a, b, c, d])
      == Step(aliases, files, a) + Step(aliases, files, b) + Step(aliases, files, c) + Step(aliases, files, d)
  {
    ExpandAppend(aliases, files, [a, b, c], [d]);
    ExpandAppend(aliases, files, [a, b], [c]);
    ExpandAppend(aliases, files, [a], [b]);
    assert [a, b, c, d] == [a, b, c] + [d];
    assert [a, b, c] == [a, b] + [c];
    assert [a, b] == [a] + [b];
    ExpandOne(aliases, files, a);
    ExpandOne(aliases, files, b);
    ExpandOne(aliases, files, c);
    ExpandOne(aliases, files, d);
  }

  /** The second pass after "init": each lower-case name becomes its feature. */
  lemma ExpandInitNames()
    ensures Expand(Aliases, Files, ["make", "git", "legal", "authors"]) == ["Make", "Git", "Legal", "Authors"]
  {
    ExpandFour(Aliases, Files, "make", "git", "legal", "authors");
    LowerNameSteps();
  }

  /** Each lower-case name "init" expands to is an alias for its feature alone. */
  lemma LowerNameSteps()
    ensures Step(Aliases, Files, "make") == ["Make"] && Step(Aliases, Files, "git") == ["Git"]
    ensures Step(Aliases, Files, "legal") == ["Legal"] && Step(Aliases, Files, "authors") == ["Authors"]
  {
  }

  /** Resolution of a list that expands an alias goes on with the expanded list. */
  lemma ResolveStep(fs: seq<string>, k: nat)
    requires k < |fs| && fs[k] in Aliases
    ensures Resolve(fs) == Resolve(Expand(Aliases, Files, fs))
  {
    assert HasAlias(Aliases, fs);
  }

  /** Resolution of feature names alone is those names. */
  lemma ResolveFeatureNames(fs: seq<string>)
    requires forall x :: x in fs ==> x in Files && x !in Aliases
    ensures Resolve(fs) == fs
  {
    ExpandFeatures(Aliases, Files, fs);
  }

  /** "init" resolves through the lower-case names to Make, Git, Legal and Authors. */
  lemma ResolveInit()
    ensures Resolve(["init"]) == ["Make", "Git", "Legal", "Authors"]
  {
    ExpandOne(Aliases, Files, "init");
    ResolveStep(["init"], 0);
    ExpandInitNames();
    ResolveStep(["make", "git", "legal", "authors"], 0);
    FeaturesAreNotAliases();
    ResolveFeatureNames(["Make", "Git", "Legal", "Authors"]);
  }

  /**
   * One pass of `resolveFeatures` over the alias table `aliases` and the
   * feature table `files`: the loop building `next` and noting whether an
   * alias was expanded.
   */
  method Pass(aliases: map<string, seq<string>>, files: map<string, seq<string>>, resolved: seq<string>)
    returns (next: seq<string>, resolvedAFeature: bool)
    ensures next == Expand(aliases, files, resolved)
    ensures resolvedAFeature <==> HasAlias(aliases, resolved)
  {
    resolvedAFeature := false;
    next := [];
    var i := 0;
    while i < |resolved|
      invariant 0 <= i <= |resolved|
      invariant next == Expand(aliases, files, resolved[..i])
      invariant resolvedAFeature <==> HasAlias(aliases, resolved[..i])
    {
      var feature := resolved[i];
      PassStep(aliases, files, resolved, i);
      if feature in aliases {
        next := next + aliases[feature];
        resolvedAFeature := true;
      } else if feature !in files {
      } else {
        next := next + [feature];
      }
      i := i + 1;
    }
    assert resolved[..i] == resolved;
  }

  /** One more name: the pass gains that name's `Step`, and has expanded an alias if that name is one. */
  lemma PassStep(aliases: map<string, seq<string>>, files: map<string, seq<string>>, resolved: seq<string>, i: nat)
    requires i < |resolved|
    ensures Expand(aliases, files, resolved[..i + 1]) == Expand(aliases, files, resolved[..i]) + Step(aliases, files, resolved[i])
    ensures HasAlias(aliases, resolved[..i + 1]) <==> HasAlias(aliases, resolved[..i]) || resolved[i] in aliases
  {
    assert resolved[..i + 1][..i] == resolved[..i];
    assert forall k :: 0 <= k < i ==> resolved[..i + 1][k] == resolved[..i][k];
  }

  /** `resolveFeatures`: passes over a fresh list until one expands no alias. */
  method ResolveFeatures(features: seq<string>) returns (resolved: seq<string>)
    ensures resolved == Resolve(features)
  {
    resolved := [] + features;
    assert resolved == features;
    var resolvedAFeature := true;
    while resolvedAFeature
      invariant resolvedAFeature ==> Resolve(resolved) == Resolve(features)
      invariant !resolvedAFeature ==> resolved == Resolve(features)
      decreases MaxDepth(resolved) + (if resolvedAFeature then 1 else 0)
    {
      var next;
      next, resolvedAFeature := Pass(Aliases, Files, resolved);
      if resolvedAFeature {
        ExpandLowers(resolved);
      } else {
        MaxDepthBound(resolved, 0);
        ExpandDepth(resolved);
        MaxDepthBound(next, 0);
      }
      resolved := next;
    }
  }

  /** `includes`: membership under ASCII case folding. */
  predicate Included(features: seq<string>, feature: string)
  {
    exists k :: 0 <= k < |features| && EqualFold(features[k], feature)
  }

  /** The `includes` template function's loop. */
  method Includes(features: seq<string>, feature: string) returns (found: bool)
    ensures found <==> Included(features, feature)
  {
    var i := 0;
    while i < |features|
      invariant 0 <= i <= |features|
      invariant forall k :: 0 <= k < i ==> !EqualFold(features[k], feature)
    {
      if EqualFold(features[i], feature) {
        return true;
      }
      i := i + 1;
    }
    return false;
  }

  lemma {:induction false} ToLowerIdempotent(s: string)
    ensures ToLower(ToLower(s)) == ToLower(s)
  {
  }

  /** Templates may name a resolved feature in lower case: `includes` still finds it. */
  lemma IncludesLowerCase(features: seq<string>, k: nat)
    requires k < |features|
    ensures Included(features, ToLower(features[k]))
  {
    ToLowerIdempotent(features[k]);
  }

  /** A rendered file. */
  datatype File = File(name: string, contents: string)

  const GitHead := "ref: refs/heads/main"

  /** The git configuration, with its surrounding white space already trimmed. */
  const GitConfig := "[core]\n    repositoryformatversion = 0\n    filemode = true\n    bare = false\n    logallrefupdates = true"

  /**
   * The template file system and the template engine: opening and reading a
   * template (none when either fails), executing a template name (none on
   * error), and executing template contents.
   */
  datatype Templates = Templates(
    open: string -> Option<string>, executeName: string -> Option<string>, execute: string -> string)

  /** The names a feature renders; an unknown feature renders none. */
  function FilesFor(feature: string): seq<string>
  {
    if feature in Files then Files[feature] else []
  }

  /** The template names of the features, feature by feature. */
  function FilesToRender(features: seq<string>): seq<string>
  {
    if features == [] then []
    else FilesToRender(features[..|features| - 1]) + FilesFor(features[|features| - 1])
  }

  /** The list with each name's later repetitions dropped; first occurrences keep their order. */
  function Dedup(names: seq<string>): (r: seq<string>)
    ensures forall x :: x in r <==> x in names
  {
    if names == [] then []
    else
      var front := names[..|names| - 1];
      var last := names[|names| - 1];
      assert names == front + [last];
      if last in front then Dedup(front) else Dedup(front) + [last]
  }

  /** No name occurs twice in `Dedup(names)`. */
  lemma {:induction false} DedupDistinct(names: seq<string>)
    ensures forall i, j :: 0 <= i < j < |Dedup(names)| ==> Dedup(names)[i] != Dedup(names)[j]
  {
    if names != [] {
      DedupDistinct(names[..|names| - 1]);
    }
  }

  /** A list without repetitions is its own `Dedup`. */
  lemma {:induction false} DedupDistinctNames(names: seq<string>)
    requires forall i, j :: 0 <= i < j < |names| ==> names[i] != names[j]
    ensures Dedup(names) == names
  {
    if names != [] {
      var front := names[..|names| - 1];
      DedupDistinctNames(front);
      assert names == front + [names[|names| - 1]];
    }
  }

  /**
   * What `Render` produces for one template name: fixed contents for the
   * git HEAD and config files, nothing when the template cannot be opened
   * or its name cannot be executed, otherwise the executed name without a
   * trailing ".tmpl" and the executed contents.
   */
  function Produce(name: string, t: Templates): seq<File>
  {
    if HasPrefix(name, ".git/") && name == ".git/HEAD" then [File(name, GitHead)]
    else if HasPrefix(name, ".git/") && name == ".git/config" then [File(name, GitConfig)]
    else if t.open(name).None? || t.executeName(name).None? then []
    else [File(TrimSuffix(t.executeName(name).value, ".tmpl"), t.execute(t.open(name).value))]
  }

  /** The files produced for a list of template names, in order. */
  function Outputs(names: seq<string>, t: Templates): seq<File>
  {
    if names == [] then [] else Outputs(names[..|names| - 1], t) + Produce(names[|names| - 1], t)
  }

  /** One more name adds its files to the output at its first occurrence only. */
  lemma OutputsSnoc(names: seq<string>, x: string, t: Templates)
    ensures x in names ==> Outputs(Dedup(names + [x]), t) == Outputs(Dedup(names), t)
    ensures x !in names ==> Outputs(Dedup(names + [x]), t) == Outputs(Dedup(names), t) + Produce(x, t)
  {
    assert (names + [x])[..|names|] == names;
    var d := Dedup(names);
    assert (d + [x])[..|d|] == d;
  }

  /** The git files never depend on the templates. */
  lemma GitFilesFixed(t: Templates)
    ensures Produce(".git/HEAD", t) == [File(".git/HEAD", GitHead)]
    ensures Produce(".git/config", t) == [File(".git/config", GitConfig)]
  {
    assert HasPrefix(".git/HEAD", ".git/");
    assert HasPrefix(".git/config", ".git/");
  }

  /** A template whose name executes to `stem + ".tmpl"` is written as `stem`. */
  lemma TemplateSuffixTrimmed(name: string, t: Templates, stem: string)
    requires name != ".git/HEAD" && name != ".git/config"
    requires t.open(name).Some? && t.executeName(name) == Some(stem + ".tmpl")
    ensures Produce(name, t) == [File(stem, t.execute(t.open(name).value))]
  {
    assert HasSuffix(stem + ".tmpl", ".tmpl");
  }

  /** A template name that cannot be opened is skipped. */
  lemma MissingTemplateSkipped(name: string, t: Templates)
    requires name != ".git/HEAD" && name != ".git/config" && t.open(name).None?
    ensures Produce(name, t) == []
  {
  }

  /** `Data`; `Template` keeps it with its features resolved. */
  datatype Data = Data(name: string, license: string, features: seq<string>)

  /** `Template`: the renderer's data, with the features resolved. */
  method Template(data: Data) returns (r: Data)
    ensures r.name == data.name && r.license == data.license
    ensures r.features == Resolve(data.features)
    ensures forall x :: x in r.features ==> x in Files
  {
    var features := ResolveFeatures(data.features);
    ResolveValid(data.features);
    r := data.(features := features);
  }

  /** The loop collecting every feature's template names. */
  method CollectFiles(features: seq<string>) returns (names: seq<string>)
    ensures names == FilesToRender(features)
  {
    names := [];
    var i := 0;
    while i < |features|
      invariant 0 <= i <= |features|
      invariant names == FilesToRender(features[..i])
    {
      assert features[..i + 1][..i] == features[..i];
      names := names + FilesFor(features[i]);
      i := i + 1;
    }
    assert features[..i] == features;
  }

  /**
   * One iteration of `Render`'s loop: a name already rendered is skipped;
   * otherwise the name's file, if any, is appended and the name recorded.
   * A ".git/" name is recorded before its template is opened.
   */
  method RenderOne(templateName: string, renderedFiles: map<string, nat>, results: seq<File>, t: Templates)
    returns (rendered: map<string, nat>, out: seq<File>)
    ensures templateName in renderedFiles ==> rendered == renderedFiles && out == results
    ensures templateName !in renderedFiles ==> out == results + Produce(templateName, t)
    ensures forall n :: n in rendered ==> n in renderedFiles || n == templateName
    ensures forall n :: n in renderedFiles ==> n in rendered
    ensures templateName !in rendered ==> Produce(templateName, t) == []
  {
    rendered, out := renderedFiles, results;
    if templateName in rendered {
      return;
    }
    if HasPrefix(templateName, ".git/") {
      rendered := rendered[templateName := |out|];
      if templateName == ".git/HEAD" {
        rendered := rendered[templateName := |out|];
        out := out + [File(templateName, GitHead)];
        return;
      } else if templateName == ".git/config" {
        rendered := rendered[templateName := |out|];
        out := out + [File(templateName, GitConfig)];
        return;
      }
    }
    var file := t.open(templateName);
    if file.None? {
      return;
    }
    var renderedName := t.executeName(templateName);
    if renderedName.None? {
      return;
    }
    var renderedContents := t.execute(file.value);
    rendered := rendered[templateName := |out|];
    out := out + [File(TrimSuffix(renderedName.value, ".tmpl"), renderedContents)];
  }

  /**
   * `Render`'s loop invariant after the names `seen`: the output is what
   * their de-duplicated list produces, every recorded name was seen, and a
   * name seen but not recorded produced nothing.
   */
  predicate RenderedSoFar(seen: seq<string>, renderedFiles: map<string, nat>, results: seq<File>, t: Templates)
  {
    && results == Outputs(Dedup(seen), t)
    && (forall n :: n in renderedFiles ==> n in seen)
    && (forall n :: n in seen && n !in renderedFiles ==> Produce(n, t) == [])
  }

  /** One iteration of `Render`'s loop keeps its invariant. */
  lemma RenderedStep(seen: seq<string>, x: string, renderedFiles: map<string, nat>, results: seq<File>,
                     rendered: map<string, nat>, out: seq<File>, t: Templates)
    requires RenderedSoFar(seen, renderedFiles, results, t)
    requires x in renderedFiles ==> rendered == renderedFiles && out == results
    requires x !in renderedFiles ==> out == results + Produce(x, t)
    requires forall n :: n in rendered ==> n in renderedFiles || n == x
    requires forall n :: n in renderedFiles ==> n in rendered
    requires x !in rendered ==> Produce(x, t) == []
    ensures RenderedSoFar(seen + [x], rendered, out, t)
  {
    OutputsSnoc(seen, x, t);
    if x in seen && x !in renderedFiles {
      assert out == results + [];
    }
  }

  /**
   * `Renderer.Render`: each template name is rendered at its first
   * occurrence only, so the output is what the de-duplicated list of names
   * produces, in order.
   */
  method Render(data: Data, t: Templates) returns (results: seq<File>)
    ensures results == Outputs(Dedup(FilesToRender(data.features)), t)
  {
    var filesToRender := CollectFiles(data.features);
    results := RenderNames(filesToRender, t);
  }

  /** The loop of `Render` over the collected template names. */
  method RenderNames(filesToRender: seq<string>, t: Templates) returns (results: seq<File>)
    ensures results == Outputs(Dedup(filesToRender), t)
  {
    results := [];
    var renderedFiles: map<string, nat> := map[];
    var i := 0;
    while i < |filesToRender|
      invariant 0 <= i <= |filesToRender|
      invariant RenderedSoFar(filesToRender[..i], renderedFiles, results, t)
    {
      var templateName := filesToRender[i];
      assert filesToRender[..i + 1] == filesToRender[..i] + [templateName];
      var rendered, out := RenderOne(templateName, renderedFiles, results, t);
      RenderedStep(filesToRender[..i], templateName, renderedFiles, results, rendered, out, t);
      renderedFiles, results := rendered, out;
      i := i + 1;
    }
    assert filesToRender[..i] == filesToRender;
  }
}
