// The dependency audit (scripts/nogoogle.py): every go.mod in the tree is
// scanned for lines that mention "google"; for each such dependency the
// output of `go mod why` is parsed into import chains; a dependency that is
// used but missing from the allow table of its module is undocumented, and
// any undocumented dependency makes the run exit with status 1.
//
// The file search, the file contents and the `go mod why` subprocess are
// inputs: the manifests arrive as a sequence of (path, lines) in the order
// the search yields them, and `why(cwd, dependency)` is the command's standard
// output when run in directory `cwd`.
module NoGoogle {
  import opened Outcomes
  import opened Text

  const Marker := "google"
  const NotNeeded := "module does not need package"
  const Separator := " => "

  /** The characters of the argument to `rstrip("go.mod")`: a set, not a suffix. */
  const ManifestChars: set<char> := {'g', 'o', '.', 'm', 'd'}
  /** The characters of the argument to `rstrip(" => ")`. */
  const SeparatorChars: set<char> := {' ', '=', '>'}

  /** The allow table: for each module key, the dependencies it may use. */
  const AllowedGoogleLibraries: map<string, set<string>> := map[
    "" := {"github.com/google/btree", "google.golang.org/protobuf"},
    "cmd/myago" := {},
    "paxos" := {"github.com/google/flatbuffers", "github.com/google/btree", "google.golang.org/protobuf"}
  ]

  /** Python's `str.isspace` for one character. */
  predicate PyIsSpace(c: char)
  {
    var x := c as int;
    (0x09 <= x <= 0x0D) || (0x1C <= x <= 0x20) || x == 0x85 || x == 0xA0 || x == 0x1680
    || (0x2000 <= x <= 0x200A) || x == 0x2028 || x == 0x2029 || x == 0x202F
    || x == 0x205F || x == 0x3000
  }

  /** Python's `s.rstrip(chars)`: drop trailing characters that belong to `chars`. */
  function RStrip(s: string, chars: set<char>): (r: string)
    ensures HasPrefix(s, r)
    ensures r == [] || r[|r| - 1] !in chars
    ensures forall i :: |r| <= i < |s| ==> s[i] in chars
  {
    if s != [] && s[|s| - 1] in chars then RStrip(s[..|s| - 1], chars) else s
  }

  function LStripSpace(s: string): (r: string)
    ensures |r| <= |s| && r == s[|s| - |r|..]
    ensures r == [] || !PyIsSpace(r[0])
    ensures forall i :: 0 <= i < |s| - |r| ==> PyIsSpace(s[i])
  {
    if s != [] && PyIsSpace(s[0]) then LStripSpace(s[1..]) else s
  }

  function RStripSpace(s: string): (r: string)
    ensures HasPrefix(s, r)
    ensures r == [] || !PyIsSpace(r[|r| - 1])
    ensures forall i :: |r| <= i < |s| ==> PyIsSpace(s[i])
  {
    if s != [] && PyIsSpace(s[|s| - 1]) then RStripSpace(s[..|s| - 1]) else s
  }

  /** Python's `s.strip()`. */
  function Strip(s: string): (r: string)
    ensures r == [] || (!PyIsSpace(r[0]) && !PyIsSpace(r[|r| - 1]))
  {
    RStripSpace(LStripSpace(s))
  }

  /**
   * The module key of a manifest path: `rstrip("go.mod")` and then
   * `rstrip("/")`. The root manifest "go.mod" gives "".
   */
  function Key(path: string): (key: string)
    ensures HasPrefix(path, key)
    ensures key == [] || key[|key| - 1] != '/'
  {
    RStrip(RStrip(path, ManifestChars), {'/'})
  }

  /**
   * A manifest under a directory is keyed by the directory, and the root
   * one by "": the '/' stops the first `rstrip`, even when the directory
   * name itself ends in one of "go.mod"'s letters.
   */
  lemma KeyOfManifest(dir: string)
    requires dir == [] || dir[|dir| - 1] != '/'
    ensures Key(if dir == [] then "go.mod" else dir + "/go.mod") == dir
  {
    if dir == [] {
      StripAll("", "go.mod", ManifestChars);
      assert "" + "go.mod" == "go.mod";
    } else {
      StripAll(dir + "/", "go.mod", ManifestChars);
      assert dir + "/go.mod" == (dir + "/") + "go.mod";
      StripAll(dir, "/", {'/'});
    }
  }

  /** `rstrip` removes a tail made only of stripped characters, and stops at the first character that is not. */
  lemma {:induction false} StripAll(s: string, tail: string, chars: set<char>)
    requires forall i :: 0 <= i < |tail| ==> tail[i] in chars
    requires s == [] || s[|s| - 1] !in chars
    ensures RStrip(s + tail, chars) == s
    decreases |tail|
  {
    if tail == [] {
      assert s + tail == s;
    } else {
      var t := tail[..|tail| - 1];
      assert (s + tail)[..|s + tail| - 1] == s + t;
      StripAll(s, t, chars);
    }
  }

  /** `line.split(" ")[0]`: the text before the first space. */
  function FirstField(line: string): (r: string)
    ensures HasPrefix(line, r) && ' ' !in r
    ensures |r| < |line| ==> line[|r|] == ' '
  {
    line[..IndexOf(line, ' ')]
  }

  /** The dependency a manifest line names, when its stripped form mentions the marker. */
  function Candidate(line: string): (r: Option<string>)
  {
    var stripped := Strip(line);
    if Contains(stripped, Marker) then Some(FirstField(stripped)) else None
  }

  /** The dependencies named by a manifest's lines, in line order. */
  function Candidates(lines: seq<string>): (deps: seq<string>)
    ensures |deps| <= |lines|
  {
    if lines == [] then []
    else
      var last := lines[|lines| - 1];
      Candidates(lines[..|lines| - 1]) + (match Candidate(last) case Some(d) => [d] case None => [])
  }

  /** A manifest none of whose lines mention the marker names no candidate. */
  lemma {:induction false} NoMarkerNoCandidates(lines: seq<string>)
    requires forall i :: 0 <= i < |lines| ==> !Contains(Strip(lines[i]), Marker)
    ensures Candidates(lines) == []
  {
    if lines != [] {
      NoMarkerNoCandidates(lines[..|lines| - 1]);
    }
  }

  /** Every candidate is the first field of a stripped line that mentions the marker. */
  lemma {:induction false} CandidatesFromLines(lines: seq<string>, k: nat)
    requires k < |Candidates(lines)|
    ensures exists i :: (0 <= i < |lines| && Contains(Strip(lines[i]), Marker)
      && Candidates(lines)[k] == FirstField(Strip(lines[i])))
  {
    var init := lines[..|lines| - 1];
    if k < |Candidates(init)| {
      CandidatesFromLines(init, k);
      var i :| 0 <= i < |init| && Contains(Strip(init[i]), Marker) && Candidates(init)[k] == FirstField(Strip(init[i]));
      assert lines[i] == init[i];
    } else {
      assert Contains(Strip(lines[|lines| - 1]), Marker);
    }
  }

  /** One usage chain: the buffered lines joined with " => ", then `rstrip(" => ")`. */
  function Chain(current: seq<string>): (r: string)
    ensures r == [] || r[|r| - 1] !in SeparatorChars
  {
    RStrip(Join(current, Separator), SeparatorChars)
  }

  /** The usages after flushing a non-empty buffer. */
  function Flush(current: seq<string>, usages: seq<string>): seq<string>
  {
    if |current| > 0 then usages + [Chain(current)] else usages
  }

  /**
   * The parser's state machine over the remaining lines: the phrase ends
   * the input, a line with '#' flushes the buffer and is dropped, any other
   * non-empty line is buffered as it is, and the end of input flushes.
   */
  function Parse(links: seq<string>, current: seq<string>, usages: seq<string>): seq<string>
  {
    if links == [] || Contains(links[0], NotNeeded) then Flush(current, usages)
    else if '#' in links[0] then Parse(links[1..], [], Flush(current, usages))
    else if |links[0]| > 0 then Parse(links[1..], current + [links[0]], usages)
    else Parse(links[1..], current, usages)
  }

  /** The usage chains of `go mod why` output. */
  function Usages(output: string): seq<string>
  {
    Parse(Split(output, '\n'), [], [])
  }

  /** The parser loop over the output's lines, with its `break`. */
  method ParseUsages(output: string) returns (usages: seq<string>)
    ensures usages == Usages(output)
  {
    var links := Split(output, '\n');
    usages := [];
    var current: seq<string> := [];
    var i := 0;
    while i < |links|
      invariant 0 <= i <= |links|
      invariant Parse(links, [], []) == Parse(links[i..], current, usages)
    {
      var link := links[i];
      if Contains(link, NotNeeded) {
        break;
      } else if '#' in link {
        if |current| > 0 {
          usages := usages + [Chain(current)];
        }
        current := [];
      } else if |link| > 0 {
        current := current + [link];
      }
      assert links[i..][1..] == links[i + 1..];
      i := i + 1;
    }
    if |current| > 0 {
      usages := usages + [Chain(current)];
    }
  }

  /** Nothing after the phrase is read: whatever follows it, the result is the same. */
  lemma {:induction false} NothingAfterNotNeeded(links: seq<string>, k: nat, more: seq<string>, current: seq<string>, usages: seq<string>)
    requires k < |links| && Contains(links[k], NotNeeded)
    ensures Parse(links[..k + 1] + more, current, usages) == Parse(links[..k + 1], current, usages)
    decreases k
  {
    var a := links[..k + 1] + more;
    var b := links[..k + 1];
    assert a[0] == b[0] == links[0];
    if k > 0 {
      assert a[1..] == links[1..][..k] + more;
      assert b[1..] == links[1..][..k];
      var c := if '#' in links[0] then [] else if |links[0]| > 0 then current + [links[0]] else current;
      var u := if '#' in links[0] then Flush(current, usages) else usages;
      if !Contains(links[0], NotNeeded) {
        NothingAfterNotNeeded(links[1..], k - 1, more, c, u);
      }
    }
  }

  /**
   * Output whose lines before the phrase are all headers or empty yields no
   * chain: this is how `go mod why` reports a dependency the module does
   * not need.
   */
  lemma {:induction false} NotNeededBeforeChains(links: seq<string>, k: nat)
    requires k < |links| && Contains(links[k], NotNeeded)
    requires forall j :: 0 <= j < k ==> '#' in links[j] || links[j] == []
    ensures Parse(links, [], []) == []
    decreases k
  {
    if k > 0 && !Contains(links[0], NotNeeded) {
      NotNeededBeforeChains(links[1..], k - 1);
    }
  }

  function NonEmpty(links: seq<string>): (r: seq<string>)
    ensures forall i :: 0 <= i < |r| ==> r[i] != []
  {
    if links == [] then []
    else (if links[0] == [] then [] else [links[0]]) + NonEmpty(links[1..])
  }

  /** Output with neither headers nor the phrase becomes one chain of all its non-empty lines. */
  lemma {:induction false} WithoutHeaders(links: seq<string>, current: seq<string>, usages: seq<string>)
    requires forall j :: 0 <= j < |links| ==> '#' !in links[j] && !Contains(links[j], NotNeeded)
    ensures Parse(links, current, usages) == Flush(current + NonEmpty(links), usages)
  {
    if links != [] {
      var c := if links[0] == [] then current else current + [links[0]];
      WithoutHeaders(links[1..], c, usages);
      assert c + NonEmpty(links[1..]) == current + NonEmpty(links);
    } else {
      assert current + NonEmpty(links) == current;
    }
  }

  /** The number of chains is at most the number of header lines plus one. */
  function Headers(links: seq<string>): nat
  {
    if links == [] then 0 else (if '#' in links[0] then 1 else 0) + Headers(links[1..])
  }

  lemma {:induction false} ChainCount(links: seq<string>, current: seq<string>, usages: seq<string>)
    ensures |Parse(links, current, usages)| <= |usages| + Headers(links) + 1
  {
    if links != [] && !Contains(links[0], NotNeeded) {
      var c := if '#' in links[0] then [] else if |links[0]| > 0 then current + [links[0]] else current;
      var u := if '#' in links[0] then Flush(current, usages) else usages;
      ChainCount(links[1..], c, u);
    }
  }

  /**
   * The worked example: two headers, each followed by its chain, give the
   * two chains in order.
   */
  lemma TwoChains(a: string, b: string, c: string, h1: string, h2: string)
    requires '#' in h1 && '#' in h2 && !Contains(h1, NotNeeded) && !Contains(h2, NotNeeded)
    requires a != [] && b != [] && c != []
    requires '#' !in a && '#' !in b && '#' !in c
    requires !Contains(a, NotNeeded) && !Contains(b, NotNeeded) && !Contains(c, NotNeeded)
    ensures Parse([h1, a, b, h2, c, ""], [], []) == [Chain([a, b]), Chain([c])]
  {
    var u := [Chain([a, b])];
    assert [h1, a, b, h2, c, ""] == [h1] + [a, b, h2, c, ""];
    ParseHeader(h1, [a, b, h2, c, ""], [], []);
    assert Flush([], []) == [];
    assert [a, b, h2, c, ""] == [a] + [b, h2, c, ""];
    ParseLine(a, [b, h2, c, ""], [], []);
    assert [] + [a] == [a];
    assert [b, h2, c, ""] == [b] + [h2, c, ""];
    ParseLine(b, [h2, c, ""], [a], []);
    assert [a] + [b] == [a, b];
    SecondChain(c, h2, [a, b], u);
  }

  /** The second half of `TwoChains`: a header flushes the first chain, then one more line and the end. */
  lemma SecondChain(c: string, h2: string, first: seq<string>, u: seq<string>)
    requires '#' in h2 && !Contains(h2, NotNeeded)
    requires c != [] && '#' !in c && !Contains(c, NotNeeded)
    requires first != [] && u == [Chain(first)]
    ensures Parse([h2, c, ""], first, []) == u + [Chain([c])]
  {
    assert [h2, c, ""] == [h2] + [c, ""];
    ParseHeader(h2, [c, ""], first, []);
    assert Flush(first, []) == u;
    assert [c, ""] == [c] + [""];
    ParseLine(c, [""], [], u);
    assert [] + [c] == [c];
    ParseEnd([c], u);
  }

  lemma EmptyLacksPhrase()
    ensures !Contains("", NotNeeded)
  {
  }

  /** One step of the state machine on a line that is not the phrase. */
  lemma ParseStep(link: string, rest: seq<string>, current: seq<string>, usages: seq<string>)
    requires !Contains(link, NotNeeded)
    ensures Parse([link] + rest, current, usages) ==
      if '#' in link then Parse(rest, [], Flush(current, usages))
      else if |link| > 0 then Parse(rest, current + [link], usages)
      else Parse(rest, current, usages)
  {
    assert ([link] + rest)[0] == link && ([link] + rest)[1..] == rest;
  }

  /** A header line flushes the buffer. */
  lemma ParseHeader(link: string, rest: seq<string>, current: seq<string>, usages: seq<string>)
    requires !Contains(link, NotNeeded) && '#' in link
    ensures Parse([link] + rest, current, usages) == Parse(rest, [], Flush(current, usages))
  {
    ParseStep(link, rest, current, usages);
  }

  /** A non-empty line without '#' is buffered. */
  lemma ParseLine(link: string, rest: seq<string>, current: seq<string>, usages: seq<string>)
    requires !Contains(link, NotNeeded) && '#' !in link && link != []
    ensures Parse([link] + rest, current, usages) == Parse(rest, current + [link], usages)
  {
    ParseStep(link, rest, current, usages);
  }

  /** The final empty line ends the input with a flush. */
  lemma ParseEnd(current: seq<string>, usages: seq<string>)
    ensures Parse([""], current, usages) == Flush(current, usages)
  {
    EmptyLacksPhrase();
    assert [""] == [""] + [];
    ParseStep("", [], current, usages);
  }

  lemma ChainExample()
    ensures Chain(["path/a", "path/b"]) == "path/a => path/b"
    ensures Chain(["path/c"]) == "path/c"
  {
    assert Join(["path/a", "path/b"], Separator) == "path/a => path/b";
  }

  /** `rstrip(" => ")` strips characters, so a last segment ending in '>' or '=' loses those too. */
  lemma ChainStripsCharacters()
    ensures Chain(["a", "b=>"]) == "a => b"
  {
    assert Join(["a", "b=>"], Separator) == "a => b=>";
    assert "a => b=>"[..7] == "a => b=";
    assert "a => b="[..6] == "a => b";
  }

  /** The working directory of the `go mod why` call for a module key. */
  function WorkDir(root: string, key: string): string
  {
    if key != [] then root + "/" + key else root
  }

  /** A used candidate dependency, and whether its module's allow entry lists it. */
  datatype Finding = Finding(key: string, dependency: string, documented: bool, usages: seq<string>)

  datatype Manifest = Manifest(path: string, lines: seq<string>)

  /** How a run ends: a manifest key missing from the table raises `KeyError`, otherwise the report's exit status. */
  datatype Run = KeyError(key: string) | Finished(discovered: seq<Finding>, undocumented: seq<Finding>, status: int)

  /** The findings for one manifest's candidates: those with at least one chain. */
  function ManifestFindings(key: string, allowed: set<string>, deps: seq<string>, cwd: string, why: (string, string) -> string): seq<Finding>
  {
    if deps == [] then []
    else
      var init := ManifestFindings(key, allowed, deps[..|deps| - 1], cwd, why);
      var dep := deps[|deps| - 1];
      var usages := Usages(why(cwd, dep));
      init + (if |usages| > 0 then [Finding(key, dep, dep in allowed, usages)] else [])
  }

  /** Findings with chains, for `key`, of candidates in `deps`, documented exactly when `allowed` lists them. */
  predicate Belong(fs: seq<Finding>, key: string, allowed: set<string>, deps: seq<string>)
  {
    forall i :: 0 <= i < |fs| ==> (|fs[i].usages| > 0 && fs[i].key == key
      && fs[i].dependency in deps && (fs[i].documented <==> fs[i].dependency in allowed))
  }

  /**
   * Every finding of a manifest has chains, carries the manifest's key,
   * names one of its candidates, and is documented exactly when the allow
   * entry lists its dependency.
   */
  lemma {:induction false} ManifestFindingsFacts(key: string, allowed: set<string>, deps: seq<string>, cwd: string, why: (string, string) -> string)
    ensures Belong(ManifestFindings(key, allowed, deps, cwd, why), key, allowed, deps)
  {
    if deps != [] {
      var init := deps[..|deps| - 1];
      ManifestFindingsFacts(key, allowed, init, cwd, why);
      var fs := ManifestFindings(key, allowed, deps, cwd, why);
      var before := ManifestFindings(key, allowed, init, cwd, why);
      var dep := deps[|deps| - 1];
      var usages := Usages(why(cwd, dep));
      assert fs == before + (if |usages| > 0 then [Finding(key, dep, dep in allowed, usages)] else []);
      forall i | 0 <= i < |fs|
        ensures |fs[i].usages| > 0 && fs[i].key == key && fs[i].dependency in deps
          && (fs[i].documented <==> fs[i].dependency in allowed)
      {
        if i < |before| {
          assert fs[i] == before[i];
          assert fs[i].dependency in init;
        } else {
          assert fs[i] == Finding(key, dep, dep in allowed, usages);
        }
      }
    }
  }

  /** Findings with chains, under keys of the table, documented exactly when the key's allow entry lists them. */
  predicate Sound(fs: seq<Finding>, table: map<string, set<string>>)
  {
    forall i :: 0 <= i < |fs| ==>
      |fs[i].usages| > 0 && fs[i].key in table && (fs[i].documented <==> fs[i].dependency in table[fs[i].key])
  }

  lemma SoundAppend(fs: seq<Finding>, more: seq<Finding>, table: map<string, set<string>>)
    requires Sound(fs, table) && Sound(more, table)
    ensures Sound(fs + more, table)
  {
    forall i | 0 <= i < |fs + more|
      ensures var f := (fs + more)[i]; |f.usages| > 0 && f.key in table && (f.documented <==> f.dependency in table[f.key])
    {
      if i >= |fs| {
        assert (fs + more)[i] == more[i - |fs|];
      }
    }
  }

  lemma ManifestSound(key: string, table: map<string, set<string>>, deps: seq<string>, cwd: string, why: (string, string) -> string)
    requires key in table
    ensures Sound(ManifestFindings(key, table[key], deps, cwd, why), table)
  {
    ManifestFindingsFacts(key, table[key], deps, cwd, why);
  }

  /** The findings of all manifests, or the first key the table lacks. */
  function Findings(table: map<string, set<string>>, manifests: seq<Manifest>, root: string, why: (string, string) -> string): (r: Result<seq<Finding>>)
    ensures r.Ok? ==> Sound(r.value, table)
  {
    if manifests == [] then Ok([])
    else
      match Findings(table, manifests[..|manifests| - 1], root, why)
      case Err(e) => Err(e)
      case Ok(fs) =>
        var m := manifests[|manifests| - 1];
        var key := Key(m.path);
        if key !in table then Err(key)
        else
          ManifestSound(key, table, Candidates(m.lines), WorkDir(root, key), why);
          SoundAppend(fs, ManifestFindings(key, table[key], Candidates(m.lines), WorkDir(root, key), why), table);
          Ok(fs + ManifestFindings(key, table[key], Candidates(m.lines), WorkDir(root, key), why))
  }

  /** The findings whose dependency the allow entry does not list, in order. */
  function Undocumented(fs: seq<Finding>): seq<Finding>
  {
    if fs == [] then []
    else Undocumented(fs[..|fs| - 1]) + (if fs[|fs| - 1].documented then [] else [fs[|fs| - 1]])
  }

  /** The undocumented findings are exactly the findings not marked documented. */
  lemma {:induction false} UndocumentedMembers(fs: seq<Finding>)
    ensures forall f :: f in Undocumented(fs) <==> f in fs && !f.documented
  {
    if fs != [] {
      var init := fs[..|fs| - 1];
      UndocumentedMembers(init);
      assert fs == init + [fs[|fs| - 1]];
    }
  }

  /** The audit as a whole. */
  function Audit(table: map<string, set<string>>, manifests: seq<Manifest>, root: string, why: (string, string) -> string): (r: Run)
  {
    match Findings(table, manifests, root, why)
    case Err(key) => KeyError(key)
    case Ok(fs) => Finished(fs, Undocumented(fs), if Undocumented(fs) == [] then 0 else 1)
  }

  /** The exit status is 1 exactly when some used dependency is missing from its module's allow entry. */
  lemma ExitStatus(table: map<string, set<string>>, manifests: seq<Manifest>, root: string, why: (string, string) -> string)
    requires Audit(table, manifests, root, why).Finished?
    ensures var r := Audit(table, manifests, root, why);
      && (r.status == 1 <==> exists f :: f in r.discovered && f.dependency !in table[f.key])
      && (r.status == 0 <==> forall f :: f in r.discovered ==> f.dependency in table[f.key])
  {
    var r := Audit(table, manifests, root, why);
    var fs := r.discovered;
    UndocumentedMembers(fs);
    if r.status == 1 {
      var f := r.undocumented[0];
      assert f in r.undocumented;
      var i :| 0 <= i < |fs| && fs[i] == f;
    } else {
      forall f | f in fs ensures f.dependency in table[f.key] {
        var i :| 0 <= i < |fs| && fs[i] == f;
        assert f !in Undocumented(fs);
      }
    }
  }

  /** A manifest whose key the table lacks aborts the run, whatever the manifest holds. */
  lemma {:induction false} MissingKeyAborts(table: map<string, set<string>>, manifests: seq<Manifest>, root: string, why: (string, string) -> string, k: nat)
    requires k < |manifests| && Key(manifests[k].path) !in table
    ensures Audit(table, manifests, root, why).KeyError?
  {
    FindingsAbort(table, manifests, root, why, k);
  }

  lemma {:induction false} FindingsAbort(table: map<string, set<string>>, manifests: seq<Manifest>, root: string, why: (string, string) -> string, k: nat)
    requires k < |manifests| && Key(manifests[k].path) !in table
    ensures Findings(table, manifests, root, why).Err?
    decreases |manifests|
  {
    if k < |manifests| - 1 {
      var init := manifests[..|manifests| - 1];
      assert init[k] == manifests[k];
      FindingsAbort(table, init, root, why, k);
    }
  }

  /** The script's outer loop over the manifests, in the order the search yields them. */
  method RunAudit(table: map<string, set<string>>, manifests: seq<Manifest>, root: string, why: (string, string) -> string) returns (r: Run)
    ensures r == Audit(table, manifests, root, why)
  {
    var discovered: seq<Finding> := [];
    var undocumented: seq<Finding> := [];
    var n := 0;
    while n < |manifests|
      invariant 0 <= n <= |manifests|
      invariant Findings(table, manifests[..n], root, why) == Ok(discovered)
      invariant undocumented == Undocumented(discovered)
    {
      var file := manifests[n];
      var key := Key(file.path);
      assert manifests[..n + 1][..n] == manifests[..n];
      if key !in table {
        FindingsPrefixAbort(table, manifests, root, why, n);
        return KeyError(key);
      }
      var deps := ScanManifest(file.lines);
      var found, undoc := Probe(key, table[key], deps, root, why);
      UndocumentedAppend(discovered, found);
      discovered := discovered + found;
      undocumented := undocumented + undoc;
      n := n + 1;
    }
    assert manifests[..n] == manifests;
    r := Finished(discovered, undocumented, if |undocumented| > 0 then 1 else 0);
  }

  /** The inner loop: run `go mod why` for each candidate and keep the ones with chains. */
  method Probe(key: string, allowed: set<string>, deps: seq<string>, root: string, why: (string, string) -> string)
    returns (found: seq<Finding>, undocumented: seq<Finding>)
    ensures found == ManifestFindings(key, allowed, deps, WorkDir(root, key), why)
    ensures undocumented == Undocumented(found)
  {
    found, undocumented := [], [];
    var j := 0;
    while j < |deps|
      invariant 0 <= j <= |deps|
      invariant found == ManifestFindings(key, allowed, deps[..j], WorkDir(root, key), why)
      invariant undocumented == Undocumented(found)
    {
      var cwd := ModuleDir(root, key);
      var hit, undoc := Check(key, allowed, deps[j], cwd, why);
      FindingsStep(key, allowed, deps, j, cwd, why);
      UndocumentedAppend(found, hit);
      found := found + hit;
      undocumented := undocumented + undoc;
      j := j + 1;
    }
    assert deps[..j] == deps;
  }

  /** The directory `go mod why` runs in: the module's own, or the root for the root module. */
  method ModuleDir(root: string, key: string) returns (cwd: string)
    ensures cwd == WorkDir(root, key)
  {
    cwd := root;
    if key != [] {
      cwd := cwd + "/" + key;
    }
  }

  /** One iteration of the inner loop: the candidate's finding when `go mod why` shows chains, and whether it is undocumented. */
  method Check(key: string, allowed: set<string>, dependency: string, cwd: string, why: (string, string) -> string)
    returns (hit: seq<Finding>, undoc: seq<Finding>)
    ensures var u := Usages(why(cwd, dependency));
      hit == (if |u| > 0 then [Finding(key, dependency, dependency in allowed, u)] else [])
    ensures undoc == Undocumented(hit)
  {
    hit, undoc := [], [];
    var usages := ParseUsages(why(cwd, dependency));
    if |usages| > 0 {
      var documented := dependency in allowed;
      var finding := Finding(key, dependency, documented, usages);
      if !documented {
        undoc := [finding];
      }
      hit := [finding];
      assert hit == [] + [finding];
    }
  }

  /** One more candidate adds its finding, if it has usages, after the earlier ones. */
  lemma FindingsStep(key: string, allowed: set<string>, deps: seq<string>, j: nat, cwd: string, why: (string, string) -> string)
    requires j < |deps|
    ensures var u := Usages(why(cwd, deps[j]));
      ManifestFindings(key, allowed, deps[..j + 1], cwd, why)
        == ManifestFindings(key, allowed, deps[..j], cwd, why) + (if |u| > 0 then [Finding(key, deps[j], deps[j] in allowed, u)] else [])
  {
    assert deps[..j + 1][..j] == deps[..j];
  }

  lemma {:induction false} UndocumentedAppend(a: seq<Finding>, b: seq<Finding>)
    ensures Undocumented(a + b) == Undocumented(a) + Undocumented(b)
    decreases |b|
  {
    if b == [] {
      assert a + b == a;
    } else {
      var init := b[..|b| - 1];
      assert (a + b)[..|a + b| - 1] == a + init;
      UndocumentedAppend(a, init);
    }
  }

  /** When the loop reaches a manifest with an unknown key, the whole run aborts with that key. */
  lemma FindingsPrefixAbort(table: map<string, set<string>>, manifests: seq<Manifest>, root: string, why: (string, string) -> string, n: nat)
    requires n < |manifests| && Findings(table, manifests[..n], root, why).Ok?
    requires Key(manifests[n].path) !in table
    ensures Findings(table, manifests, root, why) == Err(Key(manifests[n].path))
  {
    FindingsExtend(table, manifests, root, why, n + 1);
    assert manifests[..n + 1][..n] == manifests[..n];
  }

  /** Once a prefix of the manifests aborts, so does every longer prefix, with the same key. */
  lemma {:induction false} FindingsExtend(table: map<string, set<string>>, manifests: seq<Manifest>, root: string, why: (string, string) -> string, n: nat)
    requires n <= |manifests| && Findings(table, manifests[..n], root, why).Err?
    ensures Findings(table, manifests, root, why) == Findings(table, manifests[..n], root, why)
    decreases |manifests| - n
  {
    if n < |manifests| {
      assert manifests[..n + 1][..n] == manifests[..n];
      FindingsExtend(table, manifests, root, why, n + 1);
    } else {
      assert manifests[..n] == manifests;
    }
  }

  /** One more line adds its candidate, if it names one. */
  lemma CandidatesStep(lines: seq<string>, i: nat)
    requires i < |lines|
    ensures var line := Strip(lines[i]);
      Candidates(lines[..i + 1]) == Candidates(lines[..i]) + (if Contains(line, Marker) then [FirstField(line)] else [])
  {
    assert lines[..i + 1][..i] == lines[..i];
  }

  /** The candidate scan over one manifest's lines. */
  method ScanManifest(lines: seq<string>) returns (deps: seq<string>)
    ensures deps == Candidates(lines)
  {
    deps := [];
    var i := 0;
    while i < |lines|
      invariant 0 <= i <= |lines|
      invariant deps == Candidates(lines[..i])
    {
      var line := Strip(lines[i]);
      CandidatesStep(lines, i);
      if Contains(line, Marker) {
        deps := deps + [FirstField(line)];
      }
      i := i + 1;
    }
    assert lines[..i] == lines;
  }

  /** `go mod why` output with one header and one path line, as the command prints it for a direct use. */
  lemma OneChainOutput(h: string, x: string)
    requires '\n' !in h && '\n' !in x && '#' in h && '#' !in x && x != []
    requires !Contains(h, NotNeeded) && !Contains(x, NotNeeded)
    requires x[|x| - 1] !in SeparatorChars
    ensures Usages(h + "\n" + x + "\n") == [x]
  {
    OneChainLines(h, x);
    SplitJoin([h, x, ""], '\n');
    OneChainParse(h, x);
    StripAll(x, "", SeparatorChars);
    assert x + "" == x;
  }

  /** The output is the join of its two lines and a final empty line. */
  lemma OneChainLines(h: string, x: string)
    ensures Join([h, x, ""], "\n") == h + "\n" + x + "\n"
  {
    assert Join([""], "\n") == "";
    assert [h, x, ""][1..] == [x, ""] && [x, ""][1..] == [""];
  }

  lemma OneChainParse(h: string, x: string)
    requires '#' in h && '#' !in x && x != []
    requires !Contains(h, NotNeeded) && !Contains(x, NotNeeded)
    ensures Parse([h, x, ""], [], []) == [Chain([x])]
  {
    assert [h, x, ""] == [h] + [x, ""];
    ParseHeader(h, [x, ""], [], []);
    assert Flush([], []) == [];
    assert [x, ""] == [x] + [""];
    ParseLine(x, [""], [], []);
    assert [] + [x] == [x];
    ParseEnd([x], []);
  }

  /**
   * A single root manifest with one candidate whose `go mod why` output
   * shows a chain gives one finding; the run exits with 1 exactly when the
   * root entry of the table does not list the dependency.
   */
  lemma SingleRootFinding(table: map<string, set<string>>, line: string, root: string, why: (string, string) -> string)
    requires "" in table && Candidate(line).Some?
    requires Usages(why(root, Candidate(line).value)) != []
    ensures var dep := Candidate(line).value;
      Audit(table, [Manifest("go.mod", [line])], root, why)
      == Finished([Finding("", dep, dep in table[""], Usages(why(root, dep)))],
                  if dep in table[""] then [] else [Finding("", dep, false, Usages(why(root, dep)))],
                  if dep in table[""] then 0 else 1)
  {
    KeyOfManifest("");
    var dep := Candidate(line).value;
    var ms := [Manifest("go.mod", [line])];
    var f := Finding("", dep, dep in table[""], Usages(why(root, dep)));
    calc {
      Findings(table, ms, root, why);
      { OneManifest(table, ms[0], root, why); }
      Ok(ManifestFindings("", table[""], Candidates([line]), WorkDir(root, ""), why));
      { assert [line][..0] == []; assert Candidates([line]) == [dep]; }
      Ok(ManifestFindings("", table[""], [dep], root, why));
      { assert [dep][..0] == []; assert [] + [f] == [f]; }
      Ok([f]);
    }
    assert [f][..0] == [];
    assert Undocumented([f]) == if f.documented then [] else [f];
  }

  lemma OneManifest(table: map<string, set<string>>, m: Manifest, root: string, why: (string, string) -> string)
    requires Key(m.path) in table
    ensures Findings(table, [m], root, why)
      == Ok(ManifestFindings(Key(m.path), table[Key(m.path)], Candidates(m.lines), WorkDir(root, Key(m.path)), why))
  {
    assert [m][..0] == [];
    var key := Key(m.path);
    var fs := ManifestFindings(key, table[key], Candidates(m.lines), WorkDir(root, key), why);
    assert [] + fs == fs;
  }
}
