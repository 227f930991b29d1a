// Authentication plumbing (auth/header.go, auth/handler.go): reading the
// credential of an expected scheme from the Authorization header (the
// `credentials = auth-scheme [ 1*SP token68 ]` form of section 2.1 of RFC
// 7235), and handler functions that thread a request context. The context
// is the request's header map and the user information attached to it.
module Auth {
  import opened Outcomes
  import opened Text
  import Headers

  /** `ErrUnauthorized`. */
  const Unauthorized := "unauthorized"

  /** The header key `Get` reads. */
  const Authorization := "authorization"

  datatype UserInfo = UserInfo(subject: string, profile: string, email: string, emailVerified: bool, groups: seq<string>)

  /** A request context: what `headers.Extract` and `auth.Extract` read from it. */
  datatype Context = Context(header: Headers.Entries, user: Option<UserInfo>)

  /** `ToContext`: attaches user information to the context. */
  function WithUser(ctx: Context, info: UserInfo): (r: Context)
    ensures r.header == ctx.header && r.user == Some(info)
  {
    ctx.(user := Some(info))
  }

  /**
   * `Get`: the credential after the first space of the Authorization value,
   * when the part before it is the expected scheme up to case.
   */
  function Get(header: Headers.Entries, expectedScheme: string): (r: Result<string>)
    ensures r.Err? ==> r.error == Unauthorized
  {
    Credentials(Headers.First(header, Authorization), expectedScheme)
  }

  /**
   * The checks `Get` makes on the header value: `SplitN(value, " ", 2)`
   * must give two parts (see `SplitTwo`), the first equal to the scheme up
   * to case.
   */
  function Credentials(value: string, expectedScheme: string): (r: Result<string>)
    ensures r.Err? ==> r.error == Unauthorized
  {
    var i := IndexOf(value, ' ');
    if value == "" || i == |value| then Err(Unauthorized)
    else if !EqualFold(value[..i], expectedScheme) then Err(Unauthorized)
    else Ok(value[i + 1..])
  }

  /** `SplitN(s, " ", 2)` is the text before the first space and the text after it. */
  lemma SplitTwo(s: string)
    ensures var i := IndexOf(s, ' '); var parts := SplitN(s, ' ', 2);
      if i == |s| then parts == [s]
      else |parts| == 2 && parts[0] == s[..i] && parts[1] == s[i + 1..]
  {
    var i := IndexOf(s, ' ');
    if i < |s| {
      var rest := s[i + 1..];
      assert SplitN(rest, ' ', 1) == [rest];
    }
  }

  /**
   * What `Get` accepts: a value made of a space-free scheme equal to the
   * expected one up to case, one space, and the credential (which may hold
   * further spaces).
   */
  lemma GetSound(header: Headers.Entries, expectedScheme: string)
    requires Get(header, expectedScheme).Ok?
    ensures var value := Headers.First(header, Authorization);
      var i := IndexOf(value, ' ');
      && i < |value|
      && EqualFold(value[..i], expectedScheme)
      && value == value[..i] + " " + Get(header, expectedScheme).value
  {
    var value := Headers.First(header, Authorization);
    Rejoin(value, expectedScheme);
  }

  lemma Rejoin(value: string, expectedScheme: string)
    requires Credentials(value, expectedScheme).Ok?
    ensures var i := IndexOf(value, ' ');
      && i < |value|
      && EqualFold(value[..i], expectedScheme)
      && value == value[..i] + " " + Credentials(value, expectedScheme).value
  {
    Around(value, IndexOf(value, ' '));
  }


  /** Every value of that shape is accepted, and its credential returned. */
  lemma GetComplete(header: Headers.Entries, expectedScheme: string, scheme: string, credential: string)
    requires ' ' !in scheme && EqualFold(scheme, expectedScheme)
    requires Headers.First(header, Authorization) == scheme + " " + credential
    ensures Get(header, expectedScheme) == Ok(credential)
  {
    Accepted(scheme, expectedScheme, credential);
  }

  lemma Accepted(scheme: string, expectedScheme: string, credential: string)
    requires ' ' !in scheme && EqualFold(scheme, expectedScheme)
    ensures Credentials(scheme + " " + credential, expectedScheme) == Ok(credential)
  {
    SplitAt(scheme, ' ', credential);
  }

  /** A value without a space, or an absent header, is unauthorized. */
  lemma GetNeedsSpace(header: Headers.Entries, expectedScheme: string)
    requires ' ' !in Headers.First(header, Authorization)
    ensures Get(header, expectedScheme) == Err(Unauthorized)
  {
    var value := Headers.First(header, Authorization);
    assert IndexOf(value, ' ') == |value|;
  }

  /** `HandlerFunc`: the next context, or the error that rejects the request. */
  type Handler = Context -> Result<Context>

  /** The handlers applied in order, each to the context the previous one returned. */
  function Chain(handlers: seq<Handler>, ctx: Context): Result<Context>
    decreases |handlers|
  {
    if handlers == [] then Ok(ctx)
    else match handlers[0](ctx)
      case Err(e) => Err(e)
      case Ok(next) => Chain(handlers[1..], next)
  }

  /** Chaining a concatenation chains the second list after the first. */
  lemma {:induction false} ChainAppend(first: seq<Handler>, second: seq<Handler>, ctx: Context)
    ensures Chain(first + second, ctx) ==
      match Chain(first, ctx)
      case Err(e) => Err(e)
      case Ok(next) => Chain(second, next)
    decreases |first|
  {
    if first == [] {
      assert first + second == second;
    } else {
      assert (first + second)[1..] == first[1..] + second;
      match first[0](ctx)
      case Err(e) =>
      case Ok(next) => ChainAppend(first[1..], second, next);
    }
  }

  /** The first handler that fails decides the error; the handlers after it do not matter. */
  lemma FirstErrorStops(handlers: seq<Handler>, k: nat, ctx: Context)
    requires k < |handlers| && Chain(handlers[..k], ctx).Ok?
    requires handlers[k](Chain(handlers[..k], ctx).value).Err?
    ensures Chain(handlers, ctx) == Err(handlers[k](Chain(handlers[..k], ctx).value).error)
  {
    assert handlers == handlers[..k] + handlers[k..];
    ChainAppend(handlers[..k], handlers[k..], ctx);
    assert handlers[k..][0] == handlers[k];
  }

  /** `Composite`: the loop over the handlers with its early return. */
  method Composite(handlers: seq<Handler>, ctx: Context) returns (r: Result<Context>)
    ensures r == Chain(handlers, ctx)
    ensures handlers == [] ==> r == Ok(ctx)
  {
    var current := ctx;
    var i := 0;
    while i < |handlers|
      invariant 0 <= i <= |handlers|
      invariant Chain(handlers[..i], ctx) == Ok(current)
    {
      ChainAppend(handlers[..i], [handlers[i]], ctx);
      assert handlers[..i + 1] == handlers[..i] + [handlers[i]];
      var next := handlers[i](current);
      if next.Err? {
        FirstErrorStops(handlers, i, ctx);
        return Err(next.error);
      }
      current := next.value;
      i := i + 1;
    }
    assert handlers[..i] == handlers;
    return Ok(current);
  }

  /** `Required`: rejects a context without user information and passes the others through. */
  function Required(ctx: Context): (r: Result<Context>)
    ensures r.Err? <==> ctx.user.None?
    ensures r.Err? ==> r.error == Unauthorized
    ensures r.Ok? ==> r.value == ctx
  {
    if ctx.user.None? then Err(Unauthorized) else Ok(ctx)
  }
}
