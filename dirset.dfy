// The per-application directories of the local system (dirset/local.go):
// under /var on Linux and other systems, under the user's Library on
// macOS, and under the user's roaming AppData on Windows. The operating
// system name and the current user's home directory are inputs.
module DirSet {
  import opened Outcomes
  import opened Text

  datatype DirectorySet = DirectorySet(
    cacheDir: string, stateDir: string, localStateDir: string, lockDir: string, logDir: string)

  /** The five directories as a list, in field order. */
  function Dirs(d: DirectorySet): seq<string>
  {
    [d.cacheDir, d.stateDir, d.localStateDir, d.lockDir, d.logDir]
  }

  /** No two of the five directories are the same path. */
  predicate Distinct(d: DirectorySet)
  {
    forall i, j :: 0 <= i < j < 5 ==> Dirs(d)[i] != Dirs(d)[j]
  }

  /** `/var/<part>/<app>`. */
  function VarPath(part: string, app: string): (p: string)
    ensures p == Join(["/var", part, app], "/")
  {
    assert ["/var", part, app][1..] == [part, app];
    assert [part, app][1..] == [app];
    assert Join([app], "/") == app;
    assert Join([part, app], "/") == part + "/" + app;
    "/var" + "/" + (part + "/" + app)
  }

  /** `linux`: /var/{cache,lib,local,locks,logs}/<app>, the application name lower-cased. */
  function Linux(appName: string): (d: DirectorySet)
  {
    var app := ToLower(appName);
    DirectorySet(VarPath("cache", app), VarPath("lib", app), VarPath("local", app),
                 VarPath("locks", app), VarPath("logs", app))
  }

  /** `<base><sep><part>`, the last element of a joined path. */
  function Under(base: string, sep: string, part: string): string
  {
    base + sep + part
  }

  /** The directories under `base`, joined with `sep`: Cache, State, Local, Locks and Logs. */
  function Beneath(base: string, sep: string): DirectorySet
  {
    DirectorySet(Under(base, sep, "Cache"), Under(base, sep, "State"), Under(base, sep, "Local"),
                 Under(base, sep, "Locks"), Under(base, sep, "Logs"))
  }

  /** `osx`: home/Library/Application Support/<app>/…, joined with '/', the name kept as given. */
  function Osx(home: string, appName: string): (d: DirectorySet)
    ensures d == Beneath(Join([home, "Library", "Application Support", appName], "/"), "/")
  {
    var base := Join([home, "Library", "Application Support", appName], "/");
    JoinSnoc([home, "Library", "Application Support", appName], "/", "Cache");
    JoinSnoc([home, "Library", "Application Support", appName], "/", "State");
    JoinSnoc([home, "Library", "Application Support", appName], "/", "Local");
    JoinSnoc([home, "Library", "Application Support", appName], "/", "Locks");
    JoinSnoc([home, "Library", "Application Support", appName], "/", "Logs");
    DirectorySet(
      Join([home, "Library", "Application Support", appName] + ["Cache"], "/"),
      Join([home, "Library", "Application Support", appName] + ["State"], "/"),
      Join([home, "Library", "Application Support", appName] + ["Local"], "/"),
      Join([home, "Library", "Application Support", appName] + ["Locks"], "/"),
      Join([home, "Library", "Application Support", appName] + ["Logs"], "/"))
  }

  /** `windows`: home\AppData\Roaming\<app>\…, joined with '\'. */
  function Windows(home: string, appName: string): (d: DirectorySet)
    ensures d == Beneath(Join([home, "AppData", "Roaming", appName], "\\"), "\\")
  {
    JoinSnoc([home, "AppData", "Roaming", appName], "\\", "Cache");
    JoinSnoc([home, "AppData", "Roaming", appName], "\\", "State");
    JoinSnoc([home, "AppData", "Roaming", appName], "\\", "Local");
    JoinSnoc([home, "AppData", "Roaming", appName], "\\", "Locks");
    JoinSnoc([home, "AppData", "Roaming", appName], "\\", "Logs");
    DirectorySet(
      Join([home, "AppData", "Roaming", appName] + ["Cache"], "\\"),
      Join([home, "AppData", "Roaming", appName] + ["State"], "\\"),
      Join([home, "AppData", "Roaming", appName] + ["Local"], "\\"),
      Join([home, "AppData", "Roaming", appName] + ["Locks"], "\\"),
      Join([home, "AppData", "Roaming", appName] + ["Logs"], "\\"))
  }

  /** `Local`: Windows and macOS need the current user's home directory; every other system uses /var. */
  function Local(goos: string, home: Result<string>, appName: string): (r: Result<DirectorySet>)
    ensures goos !in {"windows", "darwin"} ==> r == Ok(Linux(appName))
    ensures goos in {"windows", "darwin"} && home.Err? ==> r == Err(home.error)
    ensures goos == "windows" && home.Ok? ==> r == Ok(Windows(home.value, appName))
    ensures goos == "darwin" && home.Ok? ==> r == Ok(Osx(home.value, appName))
  {
    if goos == "windows" then
      (match home case Err(e) => Err(e) case Ok(h) => Ok(Windows(h, appName)))
    else if goos == "darwin" then
      (match home case Err(e) => Err(e) case Ok(h) => Ok(Osx(h, appName)))
    else Ok(Linux(appName))
  }

  /** The middle element of a /var path can be read back, so different parts give different paths. */
  lemma VarPathPart(part: string, app: string)
    requires '/' !in part
    ensures var p := VarPath(part, app); p[5..][..IndexOf(p[5..], '/')] == part
  {
    var p := VarPath(part, app);
    assert p[5..] == part + "/" + app;
    SplitAt(part, '/', app);
  }

  /** Paths that differ in their last element differ. */
  lemma UnderDiffers(base: string, sep: string, a: string, b: string)
    requires a != b
    ensures Under(base, sep, a) != Under(base, sep, b)
  {
    var x := Under(base, sep, a);
    var y := Under(base, sep, b);
    assert x[|base + sep|..] == a;
    assert y[|base + sep|..] == b;
  }

  /** The Linux directories are the application's own, under /var. */
  lemma LinuxPaths(appName: string)
    ensures Linux(appName).cacheDir == "/var/cache/" + ToLower(appName)
    ensures Linux(appName).logDir == "/var/logs/" + ToLower(appName)
  {
    var app := ToLower(appName);
    VarPathShape("cache", app);
    assert "/var/" + "cache" + "/" == "/var/cache/";
    VarPathShape("logs", app);
    assert "/var/" + "logs" + "/" == "/var/logs/";
  }

  /** A /var path is "/var/", the part, a slash and the application. */
  lemma VarPathShape(part: string, app: string)
    ensures VarPath(part, app) == ("/var/" + part + "/") + app
  {
    assert "/var" + "/" == "/var/";
  }

  /** Different parts of /var give different directories for the same application. */
  lemma VarPathsDiffer(p: string, q: string, app: string)
    requires '/' !in p && '/' !in q && p != q
    ensures VarPath(p, app) != VarPath(q, app)
  {
    VarPathPart(p, app);
    VarPathPart(q, app);
  }

  /** The five Linux directories are under five different parts of /var. */
  lemma LinuxDistinct(appName: string)
    ensures Distinct(Linux(appName))
  {
    var app := ToLower(appName);
    var parts := ["cache", "lib", "local", "locks", "logs"];
    assert forall k :: 0 <= k < 5 ==> '/' !in parts[k];
    assert forall i, j :: 0 <= i < j < 5 ==> parts[i] != parts[j];
    var d := Linux(appName);
    assert forall k :: 0 <= k < 5 ==> Dirs(d)[k] == VarPath(parts[k], app);
    forall i, j | 0 <= i < j < 5 ensures Dirs(d)[i] != Dirs(d)[j] {
      VarPathsDiffer(parts[i], parts[j], app);
    }
  }

  /** Directories under one base with the five different last elements are pairwise distinct. */
  lemma BeneathDistinct(base: string, sep: string)
    ensures Distinct(Beneath(base, sep))
  {
    var parts := ["Cache", "State", "Local", "Locks", "Logs"];
    forall i, j | 0 <= i < j < 5 ensures Dirs(Beneath(base, sep))[i] != Dirs(Beneath(base, sep))[j] {
      assert Dirs(Beneath(base, sep))[i] == Under(base, sep, parts[i]);
      assert Dirs(Beneath(base, sep))[j] == Under(base, sep, parts[j]);
      UnderDiffers(base, sep, parts[i], parts[j]);
    }
  }

  /** On every system the five directories are different paths. */
  lemma LocalDistinct(goos: string, home: Result<string>, appName: string)
    requires Local(goos, home, appName).Ok?
    ensures Distinct(Local(goos, home, appName).value)
  {
    if goos == "windows" {
      BeneathDistinct(Join([home.value, "AppData", "Roaming", appName], "\\"), "\\");
    } else if goos == "darwin" {
      BeneathDistinct(Join([home.value, "Library", "Application Support", appName], "/"), "/");
    } else {
      LinuxDistinct(appName);
    }
  }
}
