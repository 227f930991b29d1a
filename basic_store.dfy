// Credential stores of HTTP basic and bearer authentication
// (auth/basic/store.go, auth/basic/static.go): an index of entries looked
// up by token or by user name, a single static user, and a store loaded
// lazily on first use. SHA-256 is a parameter of the model.
module BasicStore {
  import opened Bytes
  import opened Outcomes
  import opened Text
  import Radix

  datatype LookupRequest = LookupRequest(user: string, token: string)

  datatype LookupResponse = LookupResponse(
    userID: string, user: string, groups: seq<string>,
    email: string, emailVerified: bool,
    password: string, token: string)

  /** The response with every field at its zero value. */
  const Empty := LookupResponse("", "", [], "", false, "", "")

  /** `ErrNotFound`, `ErrBadRequest`, and an error from loading the store. */
  datatype LookupError = NotFound | BadRequest | LoadFailed(message: string)

  datatype Lookup = Found(response: LookupResponse) | Failed(error: LookupError)

  /**
   * An `entry`: for a token file `f0` is the user name and `f1` the token;
   * for a password file `f0` is the password and `f1` the user name.
   */
  datatype Entry = Entry(f0: string, f1: string, userID: string, groups: seq<string>)

  /** The stores that implement `Store`. */
  datatype Store =
    | Indexed(idx: map<string, Entry>)
    | Static(username: string, password: string, staticGroups: seq<string>)

  /** `store.Lookup`: a non-empty token wins over the user name; neither is a bad request. */
  function IndexLookup(idx: map<string, Entry>, req: LookupRequest): (r: Lookup)
    ensures req.token == [] && req.user == [] <==> r == Failed(BadRequest)
    ensures req.token != [] ==>
      (r.Failed? <==> req.token !in idx)
      && (r.Found? ==> r.response == Empty.(userID := idx[req.token].userID, user := idx[req.token].f0,
                                            groups := idx[req.token].groups, token := req.token))
    ensures req.token == [] && req.user != [] ==>
      (r.Failed? <==> req.user !in idx)
      && (r.Found? ==> r.response == Empty.(userID := idx[req.user].userID, password := idx[req.user].f0,
                                            groups := idx[req.user].groups, user := req.user))
    ensures r.Failed? ==> r.error in {NotFound, BadRequest}
  {
    if |req.token| > 0 then
      if req.token !in idx then Failed(NotFound)
      else
        var e := idx[req.token];
        Found(Empty.(userID := e.userID, user := e.f0, groups := e.groups, token := req.token))
    else if |req.user| > 0 then
      if req.user !in idx then Failed(NotFound)
      else
        var e := idx[req.user];
        Found(Empty.(userID := e.userID, password := e.f0, groups := e.groups, user := req.user))
    else Failed(BadRequest)
  }

  /** The user ID of the static user: unpadded standard base32 of the SHA-256 of the user name. */
  function StaticUserID(sha256: seq<byte> -> seq<byte>, username: string): string
  {
    Radix.Encode(Radix.Encoding(Radix.Base32Std, false), sha256(StringBytes(username)))
  }

  /** `static.Lookup`: only the configured user is found, with an e-mail address when the name holds '@'. */
  function StaticLookup(sha256: seq<byte> -> seq<byte>, username: string, password: string, groups: seq<string>,
                        req: LookupRequest): (r: Lookup)
    ensures r.Failed? <==> req.user != username
    ensures r.Failed? ==> r.error == NotFound
    ensures r.Found? ==> (r.response.user == username && r.response.password == password
      && r.response.groups == groups && r.response.userID == StaticUserID(sha256, username)
      && r.response.token == ""
      && r.response.email == (if '@' in username then username else ""))
  {
    if req.user != username then Failed(NotFound)
    else
      var resp := Empty.(userID := StaticUserID(sha256, username), user := username,
                         password := password, groups := groups);
      if '@' in username then Found(resp.(email := username)) else Found(resp)
  }

  /** `Store.Lookup`, dispatched on the kind of store. */
  function StoreLookup(sha256: seq<byte> -> seq<byte>, s: Store, req: LookupRequest): Lookup
  {
    match s
    case Indexed(idx) => IndexLookup(idx, req)
    case Static(u, p, g) => StaticLookup(sha256, u, p, g, req)
  }

  /** A token request is answered from the token's entry whatever the user name says. */
  lemma TokenWins(idx: map<string, Entry>, user: string, other: string, token: string)
    requires token != []
    ensures IndexLookup(idx, LookupRequest(user, token)) == IndexLookup(idx, LookupRequest(other, token))
  {
  }

  /**
   * `LazyStore`: asks its provider for a store on the first lookup and on
   * every lookup after a failed load, then keeps the store it got. The
   * provider's answer on a call is a parameter, since loading reads a file.
   */
  class LazyStore {
    var inst: Option<Store>
    /** How often the provider has been asked. */
    ghost var loads: nat

    constructor ()
      ensures inst == None && loads == 0
    {
      inst := None;
      loads := 0;
    }

    method Lookup(sha256: seq<byte> -> seq<byte>, provided: Result<Store>, req: LookupRequest) returns (r: Lookup)
      modifies this
      ensures old(inst).Some? ==> (inst == old(inst) && loads == old(loads)
        && r == StoreLookup(sha256, inst.value, req))
      ensures old(inst).None? ==> loads == old(loads) + 1
      ensures old(inst).None? && provided.Err? ==> inst == None && r == Failed(LoadFailed(provided.error))
      ensures old(inst).None? && provided.Ok? ==> (inst == Some(provided.value)
        && r == StoreLookup(sha256, provided.value, req))
    {
      if inst.None? {
        loads := loads + 1;
        if provided.Err? {
          return Failed(LoadFailed(provided.error));
        }
        inst := Some(provided.value);
      }
      r := StoreLookup(sha256, inst.value, req);
    }
  }
}
