// The file system wrapper that serves single-page applications
// (vue/fs.go): a path the delegate has no file for is answered with the
// application's "/index.html", so the front end can route it, except for
// "/favicon.ico", which browsers fetch on their own. Files are of any type
// `F`; the delegate returns a file or none, and an error or none.
module VueFs {
  import opened Outcomes

  /** What a file system's `Open` returns. */
  datatype Opened<F> = Opened(file: Option<F>, err: Option<string>)

  const Index := "/index.html"
  const Favicon := "/favicon.ico"

  /** `fs.Open`. */
  function Open<F>(delegate: string -> Opened<F>, name: string): (r: Opened<F>)
    ensures delegate(name).file.Some? ==> r == delegate(name)
    ensures delegate(name).file.None? && name != Favicon ==> r == delegate(Index)
    ensures name == Favicon ==> r == delegate(name)
  {
    var first := delegate(name);
    if name != Favicon && first.file.None? then delegate(Index) else first
  }

  /** `Wrap(delegate)`, as the file system it opens. */
  function Wrap<F>(delegate: string -> Opened<F>): string -> Opened<F>
  {
    name => Open(delegate, name)
  }

  /** While the application's index exists, every path but the favicon opens a file. */
  lemma EveryPathServed<F>(delegate: string -> Opened<F>, name: string)
    requires delegate(Index).file.Some? && name != Favicon
    ensures Open(delegate, name).file.Some?
  {
  }

  /** A missing path is served exactly as the index itself is, and the delegate's first error is dropped. */
  lemma MissingServesIndex<F>(delegate: string -> Opened<F>, name: string)
    requires delegate(name).file.None? && name != Favicon
    ensures Open(delegate, name) == Open(delegate, Index)
  {
    assert Index != Favicon;
  }

  /** Wrapping a wrapped file system changes nothing. */
  lemma WrapIdempotent<F>(delegate: string -> Opened<F>, name: string)
    ensures Open(Wrap(delegate), name) == Open(delegate, name)
  {
    assert Index != Favicon;
    if delegate(name).file.None? && name != Favicon {
      assert Wrap(delegate)(name) == delegate(Index);
      if delegate(Index).file.None? {
        assert Wrap(delegate)(Index) == delegate(Index);
      }
    }
  }
}
