/** Credential resolution of the mail client (cen/core/gmail.py): loading a
    token from the keyring, a file or the environment, saving it with the
    keyring-to-file fallback, the local-server login with its ordered port
    scan, and the in-memory cache. The OAuth library, the keyring and the
    file system are abstracted: credentials are three flags, stores are
    slots holding serialized credentials, and the token refresh and the
    local-server consent flow are oracles.

    Every lemma carries `{:induction false}`, including those that do no
    induction: Dafny's automatic induction would otherwise add induction
    hypotheses over the recursive functions they mention, which makes even
    short proofs expensive to check. */
module Gmail {
  import opened Wrappers

  /** The candidate callback ports of the local-server flow, in the order tried. */
  const LocalServerPorts: seq<int> := [8080, 8081, 8082, 8090, 9000, 9001, 9090, 9091]

  const NoFreePortMessage := "Could not start OAuth server on any available port. Use --console flag instead."

  /** The parts of a credential object the decision logic looks at. */
  datatype Credential = Credential(valid: bool, expired: bool, hasRefresh: bool)

  /** The condition under which every path refreshes a credential before use. */
  predicate NeedsRefresh(c: Credential)
  {
    c.expired && c.hasRefresh
  }

  /** The content of one store slot: nothing (absent or the empty string), the
      JSON of a credential, or text the library cannot turn into a credential. */
  datatype Blob = Unset | Json(cred: Credential) | Malformed

  /** The three environment variables read for an inline token, in the order consulted. */
  datatype Env = Env(cenGmailTokenJson: Blob, gmailAuthorizedUser: Blob, gmailTokenJson: Blob)

  /** Everything outside the process that the client reads or writes: whether
      the OS keyring works, its entry under service "cen-gmail" and user "cen-user", the
      token file (None when it does not exist) and the environment. */
  datatype Stores = Stores(keyringUp: bool, keyring: Blob, file: Option<Blob>, env: Env)

  /** The storage backend chosen on the command line. */
  datatype Backend = KeyringBackend | FileBackend

  /** The token refresh: the refreshed credential, or None when it raises. */
  type Refresher = Credential -> Option<Credential>

  /** `run_local_server` on one port: it raised an OSError (the port is taken,
      or any other I/O failure of the flow, such as a failed token exchange
      after consent), it granted a credential, or it raised anything else. */
  datatype ServerOutcome = RaisedOSError | Granted(cred: Credential) | FlowRaised

  type Server = int -> ServerOutcome

  /** The exceptions `login` lets escape. */
  datatype LoginError = Runtime(msg: string) | FlowError | RefreshError

  // ---------------------------------------------------------------------------
  // Loading
  // ---------------------------------------------------------------------------

  /** A freshly deserialized credential after the loaders' refresh step. */
  function Revive(c: Credential, refresh: Refresher): Option<Credential>
  {
    if NeedsRefresh(c) then refresh(c) else Some(c)
  }

  /** Deserialize a slot and refresh as the loaders do, turning every failure into None. */
  function Decode(b: Blob, refresh: Refresher): Option<Credential>
  {
    match b
    case Json(c) => Revive(c, refresh)
    case _ => None
  }

  function LoadFromKeyring(s: Stores, refresh: Refresher): (r: Option<Credential>)
    ensures r.Some? <==> s.keyringUp && s.keyring.Json? && Revive(s.keyring.cred, refresh).Some?
    ensures r.Some? ==> r == Revive(s.keyring.cred, refresh)
  {
    if !s.keyringUp then None else Decode(s.keyring, refresh)
  }

  function LoadFromFile(s: Stores, refresh: Refresher): (r: Option<Credential>)
    ensures r.Some? <==> s.file.Some? && s.file.value.Json? && Revive(s.file.value.cred, refresh).Some?
    ensures r.Some? ==> r == Revive(s.file.value.cred, refresh)
  {
    match s.file
    case None => None
    case Some(b) => Decode(b, refresh)
  }

  /** The first slot that holds anything, or Unset when none does. */
  function FirstSet(blobs: seq<Blob>): (b: Blob)
    ensures b == Unset <==> forall i :: 0 <= i < |blobs| ==> blobs[i] == Unset
    ensures b != Unset ==> exists i :: (0 <= i < |blobs| && blobs[i] == b &&
      forall j :: 0 <= j < i ==> blobs[j] == Unset)
    decreases |blobs|
  {
    if blobs == [] then Unset
    else if blobs[0] != Unset then blobs[0]
    else
      var b := FirstSet(blobs[1..]);
      assert forall i :: 1 <= i < |blobs| ==> blobs[i] == blobs[1..][i - 1];
      assert b != Unset ==> exists i :: (0 <= i < |blobs| && blobs[i] == b &&
        forall j :: 0 <= j < i ==> blobs[j] == Unset)
      by {
        if b != Unset {
          var i :| 0 <= i < |blobs[1..]| && blobs[1..][i] == b && forall j :: 0 <= j < i ==> blobs[1..][j] == Unset;
          assert blobs[i + 1] == b && forall j :: 0 <= j < i + 1 ==> blobs[j] == Unset;
        }
      }
      b
  }

  /** The raw token text the environment offers. */
  function EnvToken(env: Env): Blob
  {
    FirstSet([env.cenGmailTokenJson, env.gmailAuthorizedUser, env.gmailTokenJson])
  }

  function LoadFromEnv(s: Stores, refresh: Refresher): (r: Option<Credential>)
    ensures r.Some? <==> EnvToken(s.env).Json? && Revive(EnvToken(s.env).cred, refresh).Some?
    ensures r.Some? ==> r == Revive(EnvToken(s.env).cred, refresh)
  {
    Decode(EnvToken(s.env), refresh)
  }

  /** The environment uses the first variable that is set and non-empty; a
      later variable is consulted only when all earlier ones are unset. */
  lemma {:induction false} EnvTokenOrder(env: Env)
    ensures env.cenGmailTokenJson != Unset ==> EnvToken(env) == env.cenGmailTokenJson
    ensures env.cenGmailTokenJson == Unset && env.gmailAuthorizedUser != Unset ==>
      EnvToken(env) == env.gmailAuthorizedUser
    ensures env.cenGmailTokenJson == Unset && env.gmailAuthorizedUser == Unset ==>
      EnvToken(env) == env.gmailTokenJson
  {
    var blobs := [env.cenGmailTokenJson, env.gmailAuthorizedUser, env.gmailTokenJson];
    var b := EnvToken(env);
    assert blobs[0] == env.cenGmailTokenJson && blobs[1] == env.gmailAuthorizedUser && blobs[2] == env.gmailTokenJson;
    if b != Unset {
      var i :| 0 <= i < |blobs| && blobs[i] == b && forall j :: 0 <= j < i ==> blobs[j] == Unset;
      assert i == 0 || blobs[0] == Unset;
      assert i <= 1 || blobs[1] == Unset;
    }
  }

  /** A loaded credential went through the refresh exactly when it was expired
      and carried a refresh token; one that needed none is the stored one. */
  lemma {:induction false} LoadRefreshesIff(b: Blob, refresh: Refresher)
    requires b.Json?
    ensures NeedsRefresh(b.cred) ==> Decode(b, refresh) == refresh(b.cred)
    ensures !NeedsRefresh(b.cred) ==> Decode(b, refresh) == Some(b.cred)
  {
  }

  function LoadFrom(s: Stores, backend: Backend, refresh: Refresher): Option<Credential>
  {
    match backend
    case KeyringBackend => LoadFromKeyring(s, refresh)
    case FileBackend => LoadFromFile(s, refresh)
  }

  /** When every successful refresh yields an unexpired credential, no loader
      ever returns a credential that still needs a refresh. */
  lemma {:induction false} LoadedNeedsNoRefresh(s: Stores, backend: Backend, refresh: Refresher)
    requires forall c :: refresh(c).Some? ==> !refresh(c).value.expired
    ensures LoadFrom(s, backend, refresh).Some? ==> !NeedsRefresh(LoadFrom(s, backend, refresh).value)
    ensures LoadFromEnv(s, refresh).Some? ==> !NeedsRefresh(LoadFromEnv(s, refresh).value)
  {
  }

  // ---------------------------------------------------------------------------
  // Saving
  // ---------------------------------------------------------------------------

  /** The stores after saving `c` for `backend`: the keyring when it works,
      otherwise (and for the file backend) the token file. */
  function Saved(s: Stores, backend: Backend, c: Credential): Stores
  {
    if backend == KeyringBackend && s.keyringUp then s.(keyring := Json(c))
    else s.(file := Some(Json(c)))
  }

  /** The backend a save for `backend` actually wrote to. */
  function WrittenTo(s: Stores, backend: Backend): Backend
  {
    if backend == KeyringBackend && s.keyringUp then KeyringBackend else FileBackend
  }

  /** Loading from where a save wrote gives back the saved credential (after
      the loaders' refresh step), and a save touches exactly one slot. */
  lemma {:induction false} SaveLoadRoundTrip(s: Stores, backend: Backend, c: Credential, refresh: Refresher)
    ensures LoadFrom(Saved(s, backend, c), WrittenTo(s, backend), refresh) == Revive(c, refresh)
    ensures !NeedsRefresh(c) ==> LoadFrom(Saved(s, backend, c), WrittenTo(s, backend), refresh) == Some(c)
    ensures var t := Saved(s, backend, c);
      t.keyringUp == s.keyringUp && t.env == s.env &&
      (WrittenTo(s, backend) == KeyringBackend ==> t.file == s.file) &&
      (WrittenTo(s, backend) == FileBackend ==> t.keyring == s.keyring)
  {
  }

  /** With the keyring unavailable, a keyring save lands in the token file and
      a later file load finds it, but a later keyring load still finds nothing. */
  lemma {:induction false} KeyringFallback(s: Stores, c: Credential, refresh: Refresher)
    requires !s.keyringUp
    ensures Saved(s, KeyringBackend, c).file == Some(Json(c))
    ensures LoadFromFile(Saved(s, KeyringBackend, c), refresh) == Revive(c, refresh)
    ensures LoadFromKeyring(Saved(s, KeyringBackend, c), refresh) == None
  {
  }

  /** The external stores, updated in place by the save methods. */
  class Host {
    var keyringUp: bool
    var keyring: Blob
    var file: Option<Blob>
    const env: Env

    constructor (s: Stores)
      ensures Snapshot() == s
    {
      keyringUp := s.keyringUp;
      keyring := s.keyring;
      file := s.file;
      env := s.env;
    }

    function Snapshot(): Stores
      reads this
    {
      Stores(keyringUp, keyring, file, env)
    }
  }

  // ---------------------------------------------------------------------------
  // The local-server consent flow
  // ---------------------------------------------------------------------------

  /** The first port whose flow does not raise an OSError decides the outcome. */
  function ScanPorts(ports: seq<int>, serve: Server): Result<Credential, LoginError>
    decreases |ports|
  {
    if ports == [] then Err(Runtime(NoFreePortMessage))
    else match serve(ports[0])
      case RaisedOSError => ScanPorts(ports[1..], serve)
      case Granted(c) => Ok(c)
      case FlowRaised => Err(FlowError)
  }

  /** The scan fails with the "use --console" error exactly when the flow raised
      an OSError on every port. */
  lemma {:induction false} ScanPortsAllBusy(ports: seq<int>, serve: Server)
    ensures ScanPorts(ports, serve) == Err(Runtime(NoFreePortMessage)) <==>
      forall i :: 0 <= i < |ports| ==> serve(ports[i]) == RaisedOSError
    decreases |ports|
  {
    if ports != [] {
      ScanPortsAllBusy(ports[1..], serve);
      assert forall i :: 1 <= i < |ports| ==> ports[i] == ports[1..][i - 1];
    }
  }

  /** When port k is the first one whose flow did not raise an OSError, that
      flow decides the outcome. */
  lemma {:induction false} ScanPortsFirstFree(ports: seq<int>, serve: Server, k: int)
    requires 0 <= k < |ports| && serve(ports[k]) != RaisedOSError
    requires forall i :: 0 <= i < k ==> serve(ports[i]) == RaisedOSError
    ensures ScanPorts(ports, serve) ==
      if serve(ports[k]).Granted? then Ok(serve(ports[k]).cred) else Err(FlowError)
    decreases k
  {
    if k > 0 {
      assert serve(ports[0]) == RaisedOSError;
      ScanPortsFirstFree(ports[1..], serve, k - 1);
    }
  }

  /** The port loop of `login`: run the flow on each candidate port in order,
      moving on only when it raised an OSError. */
  method AuthorizeLocalServer(serve: Server) returns (r: Result<Credential, LoginError>)
    ensures r == ScanPorts(LocalServerPorts, serve)
    ensures r == Err(Runtime(NoFreePortMessage)) <==>
      forall i :: 0 <= i < |LocalServerPorts| ==> serve(LocalServerPorts[i]) == RaisedOSError
  {
    var ports := LocalServerPorts;
    var creds: Option<Credential> := None;
    var i := 0;
    while i < |ports|
      invariant 0 <= i <= |ports|
      invariant creds == None
      invariant forall j :: 0 <= j < i ==> serve(ports[j]) == RaisedOSError
      invariant ScanPorts(ports, serve) == ScanPorts(ports[i..], serve)
    {
      var outcome := serve(ports[i]);
      if outcome.FlowRaised? {
        return Err(FlowError);
      }
      if outcome.Granted? {
        creds := Some(outcome.cred);
        break;
      }
      assert ports[i..][1..] == ports[i + 1..];
      i := i + 1;
    }
    ScanPortsAllBusy(ports, serve);
    if creds.None? {
      return Err(Runtime(NoFreePortMessage));
    }
    r := Ok(creds.value);
  }

  // ---------------------------------------------------------------------------
  // login
  // ---------------------------------------------------------------------------

  /** What login does with the credential it starts from: hand back a valid
      one, replace one by a refresh or a consent flow, or raise. */
  datatype Obtained = Reused(cred: Credential) | Fresh(cred: Credential) | Failed(error: LoginError)

  /** The credential login starts from: none under `force`, else the backend's. */
  function Preloaded(s: Stores, force: bool, backend: Backend, refresh: Refresher): Option<Credential>
  {
    if force then None else LoadFrom(s, backend, refresh)
  }

  function Obtain(loaded: Option<Credential>, serve: Server, refresh: Refresher): Obtained
  {
    if loaded.Some? && loaded.value.valid then Reused(loaded.value)
    else if loaded.Some? && NeedsRefresh(loaded.value) then
      match refresh(loaded.value)
      case Some(c) => Fresh(c)
      case None => Failed(RefreshError)
    else
      match ScanPorts(LocalServerPorts, serve)
      case Ok(c) => Fresh(c)
      case Err(e) => Failed(e)
  }

  function LoginOutcome(s: Stores, force: bool, backend: Backend, serve: Server, refresh: Refresher): Obtained
  {
    Obtain(Preloaded(s, force, backend, refresh), serve, refresh)
  }

  function ObtainedResult(o: Obtained): Result<Credential, LoginError>
  {
    match o
    case Reused(c) => Ok(c)
    case Fresh(c) => Ok(c)
    case Failed(e) => Err(e)
  }

  /** The stores after login: only a freshly obtained or refreshed credential is saved. */
  function LoginStores(s: Stores, backend: Backend, o: Obtained): Stores
  {
    if o.Fresh? then Saved(s, backend, o.cred) else s
  }

  /** Under `force` login reads no store: its outcome is that of the consent
      flow, whatever the stores hold. */
  lemma {:induction false} LoginForceIgnoresStores(s1: Stores, s2: Stores, backend: Backend, serve: Server, refresh: Refresher)
    ensures LoginOutcome(s1, true, backend, serve, refresh) == LoginOutcome(s2, true, backend, serve, refresh)
    ensures LoginOutcome(s1, true, backend, serve, refresh) ==
      match ScanPorts(LocalServerPorts, serve)
      case Ok(c) => Fresh(c)
      case Err(e) => Failed(e)
  {
  }

  /** A valid loaded credential is handed back and nothing is saved; an
      invalid one that needs a refresh is refreshed and the result saved. */
  lemma {:induction false} LoginLoadedCases(s: Stores, backend: Backend, serve: Server, refresh: Refresher)
    ensures var loaded := LoadFrom(s, backend, refresh);
      var o := LoginOutcome(s, false, backend, serve, refresh);
      (loaded.Some? && loaded.value.valid ==> o == Reused(loaded.value) && LoginStores(s, backend, o) == s) &&
      (loaded.Some? && !loaded.value.valid && NeedsRefresh(loaded.value) && refresh(loaded.value).Some? ==>
        o == Fresh(refresh(loaded.value).value) &&
        LoginStores(s, backend, o) == Saved(s, backend, refresh(loaded.value).value)) &&
      (loaded.Some? && !loaded.value.valid && NeedsRefresh(loaded.value) && refresh(loaded.value).None? ==>
        o == Failed(RefreshError) && LoginStores(s, backend, o) == s)
  {
  }

  /** When successful refreshes give unexpired credentials, login's own refresh
      branch is never taken: the loader has already refreshed, so an invalid
      loaded credential always goes to the consent flow. */
  lemma {:induction false} LoginOwnRefreshUnreachable(s: Stores, force: bool, backend: Backend, serve: Server, refresh: Refresher)
    requires forall c :: refresh(c).Some? ==> !refresh(c).value.expired
    ensures var loaded := Preloaded(s, force, backend, refresh);
      !(loaded.Some? && loaded.value.valid) ==>
        LoginOutcome(s, force, backend, serve, refresh) ==
          match ScanPorts(LocalServerPorts, serve)
          case Ok(c) => Fresh(c)
          case Err(e) => Failed(e)
  {
    LoadedNeedsNoRefresh(s, backend, refresh);
  }

  // ---------------------------------------------------------------------------
  // ensure_logged_in
  // ---------------------------------------------------------------------------

  /** The outcome of ensure_logged_in: the returned credential or exception,
      the cache afterwards and the stores afterwards. */
  datatype Resolution = Resolution(result: Result<Credential, LoginError>, cached: Option<Credential>, stores: Stores)

  function Resolve(cached: Option<Credential>, s: Stores, backend: Backend, serve: Server, refresh: Refresher): Resolution
  {
    if cached.Some? && cached.value.valid then Resolution(Ok(cached.value), cached, s)
    else
      var fromEnv := LoadFromEnv(s, refresh);
      var loaded := if fromEnv.Some? then fromEnv else LoadFrom(s, backend, refresh);
      if loaded.Some? then Resolution(Ok(loaded.value), loaded, s)
      else
        var o := LoginOutcome(s, false, backend, serve, refresh);
        match o
        case Failed(e) => Resolution(Err(e), cached, s)
        case _ => Resolution(Ok(o.cred), Some(o.cred), LoginStores(s, backend, o))
  }

  /** The resolution order: a valid cache as it is; else the environment's
      credential; else the backend's; else a new login, whose result is the
      only one saved. Loaded credentials are used with no validity check, and
      a successful result is what the cache holds afterwards. */
  lemma {:induction false} ResolveOrder(cached: Option<Credential>, s: Stores, backend: Backend, serve: Server, refresh: Refresher)
    ensures var r := Resolve(cached, s, backend, serve, refresh);
      var env := LoadFromEnv(s, refresh);
      var stored := LoadFrom(s, backend, refresh);
      var flow := ScanPorts(LocalServerPorts, serve);
      (cached.Some? && cached.value.valid ==> r == Resolution(Ok(cached.value), cached, s)) &&
      (!(cached.Some? && cached.value.valid) && env.Some? ==> r == Resolution(Ok(env.value), env, s)) &&
      (!(cached.Some? && cached.value.valid) && env.None? && stored.Some? ==>
        r == Resolution(Ok(stored.value), stored, s)) &&
      (!(cached.Some? && cached.value.valid) && env.None? && stored.None? ==>
        r.result == flow &&
        (flow.Ok? ==> r.cached == Some(flow.value) && r.stores == Saved(s, backend, flow.value)) &&
        (flow.Err? ==> r.cached == cached && r.stores == s))
  {
  }

  /** Once a resolution has produced a valid credential, resolving again gives
      the same credential and changes nothing. */
  lemma {:induction false} ResolveIdempotent(cached: Option<Credential>, s: Stores, backend: Backend, serve: Server, refresh: Refresher)
    requires Resolve(cached, s, backend, serve, refresh).result.Ok?
    requires Resolve(cached, s, backend, serve, refresh).result.value.valid
    ensures var r := Resolve(cached, s, backend, serve, refresh);
      Resolve(r.cached, r.stores, backend, serve, refresh) == r
  {
    ResolveOrder(cached, s, backend, serve, refresh);
  }

  // ---------------------------------------------------------------------------
  // The client
  // ---------------------------------------------------------------------------

  /** The mail client: its in-memory credential cache and the stores it uses. */
  class GmailClient {
    const host: Host
    var cachedCreds: Option<Credential>

    constructor (host: Host)
      ensures this.host == host && cachedCreds == None
    {
      this.host := host;
      cachedCreds := None;
    }

    /** Saves to the keyring; when the keyring refuses, saves to the token file instead. */
    method SaveToKeyring(c: Credential)
      modifies host
      ensures host.Snapshot() == Saved(old(host.Snapshot()), KeyringBackend, c)
      ensures old(host.keyringUp) ==> host.keyring == Json(c) && host.file == old(host.file)
      ensures !old(host.keyringUp) ==> host.file == Some(Json(c)) && host.keyring == old(host.keyring)
    {
      if host.keyringUp {
        host.keyring := Json(c);
      } else {
        SaveToFile(c);
      }
    }

    method SaveToFile(c: Credential)
      modifies host
      ensures host.Snapshot() == Saved(old(host.Snapshot()), FileBackend, c)
      ensures host.file == Some(Json(c)) && host.keyring == old(host.keyring)
      ensures host.keyringUp == old(host.keyringUp)
    {
      host.file := Some(Json(c));
    }

    /** `login` without the console flow. */
    method Login(force: bool, backend: Backend, serve: Server, refresh: Refresher)
      returns (r: Result<Credential, LoginError>)
      modifies host
      ensures var o := LoginOutcome(old(host.Snapshot()), force, backend, serve, refresh);
        r == ObtainedResult(o) && host.Snapshot() == LoginStores(old(host.Snapshot()), backend, o)
    {
      var creds: Option<Credential> := None;
      if !force {
        if backend == KeyringBackend {
          creds := LoadFromKeyring(host.Snapshot(), refresh);
        } else {
          creds := LoadFromFile(host.Snapshot(), refresh);
        }
      }
      if creds.Some? && creds.value.valid {
        return Ok(creds.value);
      }
      var obtained: Credential;
      if creds.Some? && creds.value.expired && creds.value.hasRefresh {
        var refreshed := refresh(creds.value);
        if refreshed.None? {
          return Err(RefreshError);
        }
        obtained := refreshed.value;
      } else {
        var flow := AuthorizeLocalServer(serve);
        if flow.Err? {
          return Err(flow.error);
        }
        obtained := flow.value;
      }
      if backend == KeyringBackend {
        SaveToKeyring(obtained);
      } else {
        SaveToFile(obtained);
      }
      r := Ok(obtained);
    }

    method EnsureLoggedIn(backend: Backend, serve: Server, refresh: Refresher)
      returns (r: Result<Credential, LoginError>)
      modifies this, host
      ensures var res := Resolve(old(cachedCreds), old(host.Snapshot()), backend, serve, refresh);
        r == res.result && cachedCreds == res.cached && host.Snapshot() == res.stores
    {
      if cachedCreds.Some? && cachedCreds.value.valid {
        return Ok(cachedCreds.value);
      }
      var creds := LoadFromEnv(host.Snapshot(), refresh);
      if creds.None? {
        if backend == KeyringBackend {
          creds := LoadFromKeyring(host.Snapshot(), refresh);
        } else {
          creds := LoadFromFile(host.Snapshot(), refresh);
        }
      }
      if creds.None? {
        var login := Login(false, backend, serve, refresh);
        if login.Err? {
          return login;
        }
        creds := Some(login.value);
      }
      cachedCreds := creds;
      r := Ok(creds.value);
    }

    /** The credential `send_email` sends with: whatever the cache holds, valid
        or not, and only an empty cache triggers resolution (with the default
        keyring backend). */
    method CredentialForSend(serve: Server, refresh: Refresher) returns (r: Result<Credential, LoginError>)
      modifies this, host
      ensures old(cachedCreds).Some? ==>
        r == Ok(old(cachedCreds).value) && cachedCreds == old(cachedCreds) && host.Snapshot() == old(host.Snapshot())
      ensures old(cachedCreds).None? ==>
        var res := Resolve(None, old(host.Snapshot()), KeyringBackend, serve, refresh);
        r == res.result && cachedCreds == res.cached && host.Snapshot() == res.stores
    {
      if cachedCreds.Some? {
        return Ok(cachedCreds.value);
      }
      r := EnsureLoggedIn(KeyringBackend, serve, refresh);
    }
  }
}
