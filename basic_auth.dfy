// The HTTP authentication handlers of auth/basic (basic.go, bearer.go,
// static.go, config.go): the Basic scheme of section 2 of RFC 7617 and the
// Bearer scheme of section 2.1 of RFC 6750 over a credential store, the
// client-side token of a client configuration, and the choice of handler
// from a server configuration. A handler never rejects a request: when a
// check fails it passes the context on without user information.
module BasicAuth {
  import opened Bytes
  import opened ByteText
  import opened Outcomes
  import opened Text
  import opened BasicStore
  import Auth
  import Headers
  import Radix

  /** `base64.StdEncoding`. */
  const Base64 := Radix.Encoding(Radix.Base64Std, true)

  /** The user information a successful lookup attaches. */
  function InfoOf(subject: string, profile: string, resp: LookupResponse): Auth.UserInfo
  {
    Auth.UserInfo(subject, profile, resp.email, resp.emailVerified, resp.groups)
  }

  /**
   * `Basic`: decode the credential of the "basic" scheme, split it at every
   * ':', look the first part up as a user, and compare the second part with
   * the stored password.
   */
  function Basic(lookup: LookupRequest -> Lookup, ctx: Auth.Context): (r: Result<Auth.Context>)
    ensures r.Ok?
    ensures r.value == ctx || (r.value.header == ctx.header && r.value.user.Some?)
  {
    match Auth.Get(ctx.header, "basic")
    case Err(_) => Ok(ctx)
    case Ok(authentication) => BasicCredential(lookup, ctx, authentication)
  }

  /** The steps of `Basic` after the scheme is checked. */
  function BasicCredential(lookup: LookupRequest -> Lookup, ctx: Auth.Context, authentication: string): Result<Auth.Context>
  {
    match Radix.Decode(Base64, authentication)
    case None => Ok(ctx)
    case Some(decoded) => Authenticate(lookup, ctx, Split(BytesText(decoded), ':'))
  }

  /** The steps of `Basic` after the credential is split. */
  function Authenticate(lookup: LookupRequest -> Lookup, ctx: Auth.Context, parts: seq<string>): Result<Auth.Context>
  {
    if |parts| < 2 then Ok(ctx)
    else Compare(lookup, ctx, parts[0], parts[1])
  }

  /** Look `username` up and attach the user when `provided` is the stored password. */
  function Compare(lookup: LookupRequest -> Lookup, ctx: Auth.Context, username: string, provided: string): Result<Auth.Context>
  {
    match lookup(LookupRequest(username, ""))
    case Failed(_) => Ok(ctx)
    case Found(resp) =>
      if provided != resp.password then Ok(ctx)
      else Ok(Auth.WithUser(ctx, InfoOf(resp.userID, username, resp)))
  }

  /**
   * `Bearer`: look the credential of the "bearer" scheme up as a token and
   * attach the user it belongs to.
   */
  function Bearer(lookup: LookupRequest -> Lookup, ctx: Auth.Context): (r: Result<Auth.Context>)
    ensures r.Ok?
    ensures r.value == ctx || (r.value.header == ctx.header && r.value.user.Some?)
  {
    match Auth.Get(ctx.header, "bearer")
    case Err(_) => Ok(ctx)
    case Ok(token) =>
      match lookup(LookupRequest("", token))
      case Failed(_) => Ok(ctx)
      case Found(resp) => Ok(Auth.WithUser(ctx, InfoOf(resp.userID, resp.user, resp)))
  }

  /** `Static`: `Basic` over a store holding the one configured user. */
  function Static(sha256: seq<byte> -> seq<byte>, username: string, password: string, groups: seq<string>,
                  ctx: Auth.Context): Result<Auth.Context>
  {
    Basic(StaticStore(sha256, username, password, groups), ctx)
  }

  /** The static store as a lookup function. */
  function StaticStore(sha256: seq<byte> -> seq<byte>, username: string, password: string, groups: seq<string>):
    LookupRequest -> Lookup
  {
    req => StaticLookup(sha256, username, password, groups, req)
  }

  /** An Authorization value: the scheme, one space and the credential. */
  function Value(scheme: string, credential: string): string
  {
    scheme + " " + credential
  }

  /** The header of a request that carries `value` as its Authorization header. */
  function Presenting(value: string): Headers.Entries
  {
    map[ToLower(Auth.Authorization) := [value]]
  }

  /** A token found in the store attaches its user, with the stored user ID as subject. */
  lemma BearerAccepts(lookup: LookupRequest -> Lookup, token: string, ctx: Auth.Context)
    requires ctx.header == Presenting(Value("Bearer", token))
    requires lookup(LookupRequest("", token)).Found?
    ensures var resp := lookup(LookupRequest("", token)).response;
      Bearer(lookup, ctx) == Ok(Auth.WithUser(ctx, InfoOf(resp.userID, resp.user, resp)))
  {
    SchemeSpelling("Bearer", "bearer");
    Presented("Bearer", "bearer", token);
  }

  /** A header presenting `scheme credential` passes `Get` for any spelling of the scheme. */
  lemma Presented(scheme: string, expectedScheme: string, credential: string)
    requires ' ' !in scheme && EqualFold(scheme, expectedScheme)
    ensures Auth.Get(Presenting(Value(scheme, credential)), expectedScheme) == Ok(credential)
  {
    PresentedValue(scheme + " " + credential);
    Auth.Accepted(scheme, expectedScheme, credential);
  }

  /** The two schemes as a client spells them. */
  lemma SchemeSpelling(scheme: string, expectedScheme: string)
    requires (scheme, expectedScheme) in {("Basic", "basic"), ("Bearer", "bearer")}
    ensures ' ' !in scheme && EqualFold(scheme, expectedScheme)
  {
  }

  lemma PresentedValue(value: string)
    ensures Headers.First(Presenting(value), Auth.Authorization) == value
  {
  }

  /** An unknown token, or a request without a bearer credential, changes nothing. */
  lemma BearerUnknownToken(lookup: LookupRequest -> Lookup, ctx: Auth.Context)
    requires Auth.Get(ctx.header, "bearer").Ok? ==> lookup(LookupRequest("", Auth.Get(ctx.header, "bearer").value)).Failed?
    ensures Bearer(lookup, ctx) == Ok(ctx)
  {
  }

  /** The client-side token: type and value. */
  datatype Token = Token(tokenType: string, accessToken: string)

  /** `ClientConfig`: user name and password, or an access token. */
  datatype ClientConfig = ClientConfig(username: string, password: string, accessToken: string)

  /**
   * `ClientConfig.Token`: a non-empty access token gives a bearer token;
   * otherwise a non-empty user name gives a basic token holding the base64
   * of `username:password`; otherwise there is none.
   */
  function ClientToken(c: ClientConfig): (r: Option<Token>)
    ensures c.accessToken != "" ==> r == Some(Token("bearer", c.accessToken))
    ensures c.accessToken == "" && c.username == "" ==> r == None
    ensures c.accessToken == "" && c.username != "" ==> (r.Some? && r.value.tokenType == "basic"
      && Radix.Decode(Base64, r.value.accessToken) == Some(StringBytes(c.username + ":" + c.password)))
  {
    if c.accessToken != "" then Some(Token("bearer", c.accessToken))
    else if c.username != "" then
      var accessToken := Radix.Encode(Base64, StringBytes(c.username + ":" + c.password));
      Radix.RoundTrip(Base64, StringBytes(c.username + ":" + c.password));
      Some(Token("basic", accessToken))
    else None
  }

  /** Every character fits in one byte. */
  predicate Latin1(s: string)
  {
    forall i :: 0 <= i < |s| ==> s[i] as int < 256
  }

  /** The request a configured client sends, as `Basic` receives it. */
  predicate Sends(c: ClientConfig, ctx: Auth.Context)
  {
    && c.accessToken == "" && c.username != ""
    && Latin1(c.username) && Latin1(c.password) && ':' !in c.username
    && ctx.header == Presenting(Value("Basic", ClientToken(c).value.accessToken))
  }

  /** The text the handler decodes from a client's request is `username:password`. */
  lemma Received(c: ClientConfig, ctx: Auth.Context)
    requires Sends(c, ctx)
    ensures Auth.Get(ctx.header, "basic") == Ok(ClientToken(c).value.accessToken)
    ensures var decoded := Radix.Decode(Base64, ClientToken(c).value.accessToken);
      decoded.Some? && BytesText(decoded.value) == c.username + ":" + c.password
  {
    SchemeSpelling("Basic", "basic");
    Presented("Basic", "basic", ClientToken(c).value.accessToken);
    var joined := c.username + ":" + c.password;
    LatinJoin(c.username, c.password);
    TextOfBytes(joined);
  }

  lemma LatinJoin(a: string, b: string)
    requires Latin1(a) && Latin1(b)
    ensures Latin1(a + ":" + b)
  {
    var joined := a + ":" + b;
    forall i | 0 <= i < |joined| ensures joined[i] as int < 256 {
      if i < |a| {
        assert joined[i] == a[i];
      } else if i > |a| {
        assert joined[i] == b[i - |a| - 1];
      }
    }
  }

  /** Reading back the bytes of a one-byte-per-character string gives the string. */
  lemma TextOfBytes(s: string)
    requires Latin1(s)
    ensures BytesText(StringBytes(s)) == s
  {
    forall i | 0 <= i < |s| ensures BytesText(StringBytes(s))[i] == s[i] {
      assert StringBytes(s)[i] == s[i] as int;
    }
  }

  /**
   * A client configured with a user name and a colon-free password
   * authenticates against a `Basic` handler whose store holds that password.
   */
  lemma ClientTokenAccepted(lookup: LookupRequest -> Lookup, c: ClientConfig, ctx: Auth.Context)
    requires Sends(c, ctx) && ':' !in c.password
    requires lookup(LookupRequest(c.username, "")).Found?
    requires lookup(LookupRequest(c.username, "")).response.password == c.password
    ensures var resp := lookup(LookupRequest(c.username, "")).response;
      Basic(lookup, ctx) == Ok(Auth.WithUser(ctx, InfoOf(resp.userID, c.username, resp)))
  {
    Received(c, ctx);
    var parts := Split(c.username + ":" + c.password, ':');
    ColonSplit(c.username, c.password);
    assert Authenticate(lookup, ctx, parts) == Compare(lookup, ctx, c.username, c.password);
  }

  /**
   * A client configured with the static user's name and password is
   * authenticated as that user, whose subject is the hash-derived user ID.
   */
  lemma StaticAccepts(sha256: seq<byte> -> seq<byte>, username: string, password: string, groups: seq<string>,
                      c: ClientConfig, ctx: Auth.Context)
    requires Sends(c, ctx) && c.username == username && c.password == password && ':' !in password
    ensures Static(sha256, username, password, groups, ctx)
      == Ok(Auth.WithUser(ctx, Auth.UserInfo(StaticUserID(sha256, username), username,
                                             if '@' in username then username else "", false, groups)))
  {
    var lookup := StaticStore(sha256, username, password, groups);
    var found := StaticLookup(sha256, username, password, groups, LookupRequest(username, ""));
    assert lookup(LookupRequest(username, "")) == found;
    ClientTokenAccepted(lookup, c, ctx);
  }

  /** Splitting `user:password` at ':' gives the two back when neither holds a ':'. */
  lemma ColonSplit(user: string, password: string)
    requires ':' !in user && ':' !in password
    ensures var parts := Split(user + ":" + password, ':');
      |parts| == 2 && parts[0] == user && parts[1] == password
  {
    SplitAt(user, ':', password);
    assert IndexOf(password, ':') == |password|;
  }

  /** Splitting `user:password` at every ':' keeps only the password's text before its first ':'. */
  lemma ColonSplitCut(user: string, password: string)
    requires ':' !in user && ':' in password
    ensures var parts := Split(user + ":" + password, ':');
      |parts| > 2 && parts[0] == user && parts[1] == password[..IndexOf(password, ':')]
  {
    SplitAt(user, ':', password);
  }

  /**
   * As written, a password that contains ':' never authenticates, although
   * `ClientToken` encodes it and RFC 7617 allows it: only the text up to the
   * password's first ':' is compared with the stored password.
   */
  lemma ColonPasswordRejected(lookup: LookupRequest -> Lookup, c: ClientConfig, ctx: Auth.Context)
    requires Sends(c, ctx) && ':' in c.password
    requires lookup(LookupRequest(c.username, "")).Found?
    requires lookup(LookupRequest(c.username, "")).response.password == c.password
    ensures Basic(lookup, ctx) == Ok(ctx)
  {
    Received(c, ctx);
    var parts := Split(c.username + ":" + c.password, ':');
    ColonSplitCut(c.username, c.password);
    assert parts[1] != c.password by {
      assert |parts[1]| < |c.password|;
    }
  }

  /**
   * `Basic` as section 2 of RFC 7617 intends it: the user-id ends at the
   * first ':', and the whole remainder is the password.
   */
  function BasicIntended(lookup: LookupRequest -> Lookup, ctx: Auth.Context): (r: Result<Auth.Context>)
    ensures r.Ok?
    ensures r.value == ctx || (r.value.header == ctx.header && r.value.user.Some?)
  {
    match Auth.Get(ctx.header, "basic")
    case Err(_) => Ok(ctx)
    case Ok(authentication) => CredentialIntended(lookup, ctx, authentication)
  }

  /** The steps of `BasicIntended` after the scheme is checked. */
  function CredentialIntended(lookup: LookupRequest -> Lookup, ctx: Auth.Context, authentication: string): Result<Auth.Context>
  {
    match Radix.Decode(Base64, authentication)
    case None => Ok(ctx)
    case Some(decoded) => AuthenticateIntended(lookup, ctx, BytesText(decoded))
  }

  /** The steps of `BasicIntended` after the credential is decoded: split at the first ':'. */
  function AuthenticateIntended(lookup: LookupRequest -> Lookup, ctx: Auth.Context, text: string): Result<Auth.Context>
  {
    var i := IndexOf(text, ':');
    if i == |text| then Ok(ctx)
    else Compare(lookup, ctx, text[..i], text[i + 1..])
  }

  /** With the intended split every password, colons included, authenticates its client. */
  lemma IntendedAcceptsEveryPassword(lookup: LookupRequest -> Lookup, c: ClientConfig, ctx: Auth.Context)
    requires Sends(c, ctx)
    requires lookup(LookupRequest(c.username, "")).Found?
    requires lookup(LookupRequest(c.username, "")).response.password == c.password
    ensures var resp := lookup(LookupRequest(c.username, "")).response;
      BasicIntended(lookup, ctx) == Ok(Auth.WithUser(ctx, InfoOf(resp.userID, c.username, resp)))
  {
    Received(c, ctx);
    var text := c.username + ":" + c.password;
    assert BasicIntended(lookup, ctx) == CredentialIntended(lookup, ctx, ClientToken(c).value.accessToken);
    assert CredentialIntended(lookup, ctx, ClientToken(c).value.accessToken) == AuthenticateIntended(lookup, ctx, text);
    SplitAt(c.username, ':', c.password);
    assert AuthenticateIntended(lookup, ctx, text) == Compare(lookup, ctx, c.username, c.password);
  }

  /** The intended handler agrees with the written one whenever the password holds no ':'. */
  lemma IntendedAgrees(lookup: LookupRequest -> Lookup, c: ClientConfig, ctx: Auth.Context)
    requires Sends(c, ctx) && ':' !in c.password
    ensures BasicIntended(lookup, ctx) == Basic(lookup, ctx)
  {
    Received(c, ctx);
    SplitAt(c.username, ':', c.password);
    ColonSplit(c.username, c.password);
  }

  /** The handler a server configuration selects. */
  datatype Selected =
    | PasswordFile(path: string)
    | TokenFile(path: string)
    | StaticUser(username: string, password: string, groups: seq<string>)

  datatype Config = Config(passwordFile: string, tokenFile: string,
                           staticUsername: string, staticPassword: string, staticGroups: seq<string>)

  /**
   * `Handler`: a ".csv" password file first (Basic over the file loaded
   * lazily), then a ".csv" token file (Bearer likewise), then a static user
   * when both name and password are set; otherwise "invalid file".
   */
  function SelectHandler(cfg: Config): (r: Result<Selected>)
    ensures HasSuffix(cfg.passwordFile, ".csv") ==> r == Ok(PasswordFile(cfg.passwordFile))
    ensures !HasSuffix(cfg.passwordFile, ".csv") && HasSuffix(cfg.tokenFile, ".csv") ==> r == Ok(TokenFile(cfg.tokenFile))
    ensures r.Ok? && r.value.StaticUser? ==> r.value.username != "" && r.value.password != ""
    ensures r.Err? <==> (!HasSuffix(cfg.passwordFile, ".csv") && !HasSuffix(cfg.tokenFile, ".csv")
      && (cfg.staticUsername == "" || cfg.staticPassword == ""))
    ensures r.Err? ==> r.error == "invalid file"
  {
    if HasSuffix(cfg.passwordFile, ".csv") then Ok(PasswordFile(cfg.passwordFile))
    else if HasSuffix(cfg.tokenFile, ".csv") then Ok(TokenFile(cfg.tokenFile))
    else if cfg.staticUsername != "" && cfg.staticPassword != "" then
      Ok(StaticUser(cfg.staticUsername, cfg.staticPassword, cfg.staticGroups))
    else Err("invalid file")
  }
}
