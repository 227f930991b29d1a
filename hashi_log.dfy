// The adapter that turns lines in the HashiCorp log format,
// "[LEVEL] system: message", into structured log entries
// (zaputil/hashistdlogger.go). The structured logger is a sink that
// records the entries it receives; its own level filtering and encoding
// are not modelled.
module HashiLog {
  import opened Bytes
  import opened ByteText
  import opened Outcomes
  import opened Text

  datatype Level = Debug | Info | Warn | Error

  /** An entry: its level, its message and its "name" field. */
  datatype Entry = Entry(level: Level, message: string, name: string)

  /** The level names the adapter recognises: upper or lower case, nothing else. */
  function LevelOf(text: string): (l: Option<Level>)
    ensures l.Some? <==> text in {"DEBUG", "debug", "INFO", "info", "WARN", "warn", "ERROR", "error"}
  {
    if text == "DEBUG" || text == "debug" then Some(Debug)
    else if text == "INFO" || text == "info" then Some(Info)
    else if text == "WARN" || text == "warn" then Some(Warn)
    else if text == "ERROR" || text == "error" then Some(Error)
    else None
  }

  /** `parts` padded with empty strings to three. */
  function Padded(parts: seq<string>): (r: seq<string>)
    requires |parts| <= 3
    ensures |r| == 3 && r[..|parts|] == parts
    ensures forall k :: |parts| <= k < 3 ==> r[k] == ""
    decreases 3 - |parts|
  {
    if |parts| == 3 then parts
    else
      var r := Padded(parts + [""]);
      assert r[..|parts|] == (r[..|parts| + 1])[..|parts|];
      r
  }

  /** The padding loop. */
  method Pad(parts: seq<string>) returns (padded: seq<string>)
    requires |parts| <= 3
    ensures padded == Padded(parts)
  {
    padded := parts;
    while |padded| < 3
      invariant |padded| <= 3
      invariant Padded(padded) == Padded(parts)
      decreases 3 - |padded|
    {
      padded := padded + [""];
    }
  }

  /** The level text: the first part without one leading '[' and one trailing ']'. */
  function LevelText(first: string): string
  {
    TrimSuffix(TrimPrefix(first, "["), "]")
  }

  /** The system name: the second part without one trailing ':'. */
  function NameText(second: string): string
  {
    TrimSuffix(second, ":")
  }

  /** The entry a line produces, if its level is one the adapter recognises. */
  function Emitted(line: string): (r: Option<Entry>)
    ensures var parts := Padded(SplitN(line, ' ', 3));
      && (r.Some? <==> LevelOf(LevelText(parts[0])).Some?)
      && (r.Some? ==> r.value == Entry(LevelOf(LevelText(parts[0])).value, TrimSpaceUtf8(parts[2]), NameText(parts[1])))
  {
    var parts := Padded(SplitN(line, ' ', 3));
    match LevelOf(LevelText(parts[0]))
    case None => None
    case Some(level) => Some(Entry(level, TrimSpaceUtf8(parts[2]), NameText(parts[1])))
  }

  /** A non-empty message that neither starts nor ends with white space. */
  predicate Trimmed(s: string)
  {
    s != [] && TrimmedUtf8(s)
  }

  /** `TrimSpace` removes the newline `log.Logger` ends a line with, and nothing of a trimmed message. */
  lemma TrimNewline(msg: string)
    requires Trimmed(msg)
    ensures TrimSpaceUtf8(msg + "\n") == msg
  {
    var s := msg + "\n";
    LeadAfter(msg, "\n");
    assert TrimLeftUtf8(s) == s;
    assert s[..|s| - 1] == msg;
    assert TrailingSpace(s) == 1;
    TrimSpaceUtf8Trimmed(msg);
  }

  /** The three parts of a line whose level and name hold no space. */
  lemma SplitLine(level: string, name: string, rest: string)
    requires ' ' !in level && ' ' !in name
    ensures SplitN("[" + level + "] " + name + ": " + rest, ' ', 3) == ["[" + level + "]", name + ":", rest]
  {
    var first := "[" + level + "]";
    var second := name + ":";
    assert ' ' !in first;
    assert ' ' !in second;
    SplitAt(first, ' ', second + " " + rest);
    assert "[" + level + "] " + name + ": " + rest == first + [' '] + (second + " " + rest);
    SplitAt(second, ' ', rest);
    assert second + " " + rest == second + [' '] + rest;
  }

  /** The brackets around a level and the colon after a name are removed again. */
  lemma Unwrapped(level: string, name: string)
    ensures LevelText("[" + level + "]") == level
    ensures NameText(name + ":") == name
  {
    assert TrimPrefix("[" + level + "]", "[") == level + "]";
    assert TrimSuffix(level + "]", "]") == level;
    assert TrimSuffix(name + ":", ":") == name;
  }

  /**
   * A line written by `log.Logger` in the HashiCorp format with a recognised
   * level becomes an entry with that level, the system as its name and the
   * message without the newline.
   */
  lemma FormatRecognised(level: string, name: string, msg: string)
    requires LevelOf(level).Some? && ' ' !in level && ' ' !in name && Trimmed(msg)
    ensures Emitted("[" + level + "] " + name + ": " + msg + "\n") == Some(Entry(LevelOf(level).value, msg, name))
  {
    var rest := msg + "\n";
    var line := "[" + level + "] " + name + ": " + msg + "\n";
    assert line == "[" + level + "] " + name + ": " + rest;
    SplitLine(level, name, rest);
    var parts := ["[" + level + "]", name + ":", rest];
    assert Padded(parts) == parts;
    Unwrapped(level, name);
    TrimNewline(msg);
  }

  /** A line whose level is not one of the recognised spellings, such as "Info", is dropped. */
  lemma UnknownLevelDropped(line: string)
    requires LevelText(Padded(SplitN(line, ' ', 3))[0]) !in {"DEBUG", "debug", "INFO", "info", "WARN", "warn", "ERROR", "error"}
    ensures Emitted(line) == None
  {
  }

  /** A line holding only a level still produces an entry: the missing parts are padded as empty. */
  lemma LevelOnly(level: string)
    requires LevelOf(level).Some? && ' ' !in level
    ensures Emitted("[" + level + "]") == Some(Entry(LevelOf(level).value, "", ""))
  {
    var line := "[" + level + "]";
    assert ' ' !in line;
    assert IndexOf(line, ' ') == |line|;
    assert SplitN(line, ' ', 3) == [line];
    var parts := Padded([line]);
    assert parts[0] == line && parts[1] == "" && parts[2] == "";
    Unwrapped(level, "");
    assert NameText("") == "";
    assert TrimSpaceUtf8("") == "";
  }

  /** The structured logger: the entries it has received. */
  class Logger {
    var entries: seq<Entry>

    constructor ()
      ensures entries == []
    {
      entries := [];
    }
  }

  /** `hashiWriter`. */
  class HashiWriter {
    const logger: Logger

    constructor (logger: Logger)
      ensures this.logger == logger
    {
      this.logger := logger;
    }

    /**
     * `Write`: parse the line and pass a recognised entry to the logger; the
     * whole input is always reported written, without error.
     */
    method Write(p: seq<byte>) returns (n: nat, err: Option<string>)
      modifies logger
      ensures n == |p| && err == None
      ensures var e := Emitted(BytesText(p));
        logger.entries == old(logger.entries) + (if e.Some? then [e.value] else [])
    {
      var line := BytesText(p);
      var parts := Pad(SplitN(line, ' ', 3));
      var level := LevelText(parts[0]);
      var name := NameText(parts[1]);
      var msg := TrimSpaceUtf8(parts[2]);
      var recognised := LevelOf(level);
      if recognised.Some? {
        logger.entries := logger.entries + [Entry(recognised.value, msg, name)];
      }
      return |p|, None;
    }
  }
}
