/** What each operation of the handler does to the secret store, as a function of the store and
    of everything it learns from outside. The methods of Handler.Plugin are proved against
    these functions, and the laws of the handler are lemmas about them. */
module CredentialStore {
  import opened Types
  import opened SecretKeys

  // ---------- Reading and writing one secret ----------

  function Load(s: Store, key: string, ok: bool): Result<Stored> {
    if !ok then Err(HostFailure)
    else if key !in s then Err(NotFound)
    else Ok(s[key].value)
  }

  function LoadMetadata(s: Store, n: Names, ok: bool): Result<Metadata> {
    match Load(s, n.metadata, ok)
    case Err(e) => Err(e)
    case Ok(v) =>
      match DecodeMetadata(v)
      case None => Err(Undecodable)
      case Some(m) => Ok(m)
  }

  function CacheGet(s: Store, key: string, ok: bool): Result<Option<Token>> {
    if !ok then Err(HostFailure)
    else if key !in s then Ok(None)
    else match DecodeEntry(s[key].value)
      case None => Err(Undecodable)
      case Some(t) => Ok(Some(t))
  }

  function Write(s: Store, key: string, v: Stored, io: IO): Store {
    s[key := Secret(v, io.step)]
  }

  // A best-effort write: the store is unchanged when the host refuses it.
  function TryWrite(s: Store, key: string, v: Stored, io: IO, ok: bool): Store {
    if ok then Write(s, key, v, io) else s
  }

  // ---------- storeCredentials ----------

  function ClaimsOf(cfg: Config, io: IO): Claims {
    match io.userClaims
    case Some(c) => c
    case None => Claims(cfg.hostname, "", "", "", "", "", ZERO_TIME)
  }

  function SessionOf(io: IO, sessionID: string): string {
    if sessionID == "" then io.freshID else sessionID
  }

  function LoginMetadata(cfg: Config, io: IO,
                         answer: TokenAnswer, scopes: seq<string>, sessionID: string, flow: Flow): Metadata {
    Metadata(
      Some(ClaimsOf(cfg, io)),
      if answer.refreshTokenExpiresIn > 0 then io.now(SessionExpiry) + answer.refreshTokenExpiresIn * SECOND
      else ZERO_TIME,
      io.now(LastRefresh),
      cfg.hostname,
      cfg.clientID,
      scopes,
      User,
      SessionOf(io, sessionID),
      flow)
  }

  function ScopeOf(answer: TokenAnswer, scopes: seq<string>): string {
    if answer.scope == "" then JoinScopes(scopes) else answer.scope
  }

  function LoginEntry(io: IO, answer: TokenAnswer, scopes: seq<string>, sessionID: string, flow: Flow): Token {
    var lifetime :=
      if answer.expiresIn > 0 then answer.expiresIn * SECOND
      else if answer.refreshToken != "" then SHORT_LIFETIME
      else FAR_FUTURE;
    Token(
      answer.accessToken,
      answer.tokenType,
      io.now(LoginExpiry) + lifetime,
      ScopeOf(answer, scopes),
      io.now(LoginCachedAt),
      flow,
      SessionOf(io, sessionID))
  }

  // Refresh secret, access secret, metadata, cache entry, in that order; the first three stop
  // at the first failure.
  function StoreCredentials(cfg: Config, n: Names, s: Store, io: IO,
                            answer: TokenAnswer, scopes: seq<string>, sessionID: string, flow: Flow)
    : (Store, Result<Claims>)
  {
    if answer.refreshToken != "" && !io.ok(Put(n.refresh)) then (s, Err(HostFailure))
    else
      var s1 := if answer.refreshToken != "" then Write(s, n.refresh, Raw(answer.refreshToken), io) else s;
      if answer.accessToken != "" && !io.ok(Put(n.access)) then (s1, Err(HostFailure))
      else
        var s2 := if answer.accessToken != "" then Write(s1, n.access, Raw(answer.accessToken), io) else s1;
        if !io.ok(Put(n.metadata)) then (s2, Err(HostFailure))
        else
          var s3 := Write(s2, n.metadata, MetadataJson(LoginMetadata(cfg, io, answer, scopes, sessionID, flow)), io);
          var entry := EntryJson(LoginEntry(io, answer, scopes, sessionID, flow));
          var cached := answer.accessToken != "" && io.ok(Put(n.defaultEntry));
          (TryWrite(s3, n.defaultEntry, entry, io, cached), Ok(ClaimsOf(cfg, io)))
  }

  // ---------- mintToken and GetToken ----------

  // The refresh request sent to the token endpoint.
  datatype Request = Request(refreshToken: string, clientID: string)

  datatype TokenResult<+T> = TokenResult(store: Store, request: Option<Request>, token: Result<T>)

  predicate Rotates(answer: TokenAnswer, refreshToken: string) {
    answer.refreshToken != "" && answer.refreshToken != refreshToken
  }

  // The token a refresh returns; flow, session and scopes come from the metadata, if it loaded.
  function RefreshedToken(io: IO, answer: TokenAnswer, metadata: Result<Metadata>): Token {
    var lifetime := if answer.expiresIn > 0 then answer.expiresIn * SECOND else SHORT_LIFETIME;
    Token(
      answer.accessToken,
      answer.tokenType,
      io.now(TokenExpiry) + lifetime,
      ScopeOf(answer, if metadata.Ok? then metadata.value.scopes else []),
      ZERO_TIME,
      if metadata.Ok? then metadata.value.flow else NoFlow,
      if metadata.Ok? then metadata.value.sessionID else "")
  }

  function RefreshAccessToken(cfg: Config, n: Names, s: Store, io: IO, refreshToken: string, clientID: string)
    : TokenResult<Token> {
    var metadata := LoadMetadata(s, n, io.ok(GetAgain(n.metadata)));
    var request := Some(Request(refreshToken, clientID));
    match io.refreshAnswer
    case None => TokenResult(s, request, Err(RefreshRequestFailed))
    case Some(answer) =>
      if answer.accessToken == "" then TokenResult(s, request, Err(RefreshRevoked))
      else
        var s' :=
          if Rotates(answer, refreshToken) && metadata.Ok? then
            StoreCredentials(cfg, n, s, io, answer, metadata.value.scopes,
                             metadata.value.sessionID, metadata.value.flow).0
          else s;
        TokenResult(s', request, Ok(RefreshedToken(io, answer, metadata)))
  }

  function MintToken(cfg: Config, n: Names, s: Store, io: IO): TokenResult<Token> {
    match Load(s, n.refresh, io.ok(Get(n.refresh)))
    case Err(_) => TokenResult(s, None, Err(NotAuthenticated))
    case Ok(refresh) =>
      match LoadMetadata(s, n, io.ok(Get(n.metadata)))
      case Err(e) => TokenResult(s, None, Err(e))
      case Ok(metadata) =>
        if metadata.clientID == "" then TokenResult(s, None, Err(MissingClientID))
        else RefreshAccessToken(cfg, n, s, io, Text(refresh), metadata.clientID)
  }

  // The write GetToken makes before it returns a token it did not find in the cache.
  function CacheToken(n: Names, s: Store, io: IO, token: Token): Store {
    TryWrite(s, n.defaultEntry, EntryJson(token.(cachedAt := io.now(TokenCachedAt))), io,
             io.ok(PutAgain(n.defaultEntry)))
  }

  function DirectToken(io: IO, accessToken: string): Token {
    Token(accessToken, "Bearer", io.now(TokenExpiry) + FAR_FUTURE, "", ZERO_TIME, NoFlow, "")
  }

  function GetStoredToken(cfg: Config, n: Names, s: Store, io: IO, force: bool): TokenResult<Issued> {
    var cached := CacheGet(s, n.defaultEntry, io.ok(Get(n.defaultEntry)));
    if !force && cached.Ok? && cached.value.Some? && io.valid(cached.value.value) then
      TokenResult(s, None, Ok(Issue(cached.value.value)))
    else
      var access := Load(s, n.access, io.ok(Get(n.access)));
      if access.Ok? && Text(access.value) != "" then
        var token := DirectToken(io, Text(access.value));
        TokenResult(CacheToken(n, s, io, token), None, Ok(Issue(token)))
      else
        var minted := MintToken(cfg, n, s, io);
        match minted.token
        case Err(e) => TokenResult(minted.store, minted.request, Err(e))
        case Ok(token) => TokenResult(CacheToken(n, minted.store, io, token), minted.request, Ok(Issue(token)))
  }

  function PATToken(io: IO): Token {
    Token(PATFromEnv(io.env), "Bearer", io.now(TokenExpiry) + FAR_FUTURE, "", ZERO_TIME, PATFlow, "")
  }

  function GetPATToken(n: Names, s: Store, io: IO, force: bool): TokenResult<Issued> {
    var cached := CacheGet(s, n.patEntry, io.ok(Get(n.patEntry)));
    if !HasPAT(io.env) then TokenResult(s, None, Err(MissingPAT))
    else if !force && cached.Ok? && cached.value.Some? && io.valid(cached.value.value) then
      TokenResult(s, None, Ok(Issue(cached.value.value)))
    else if io.userClaims.None? then TokenResult(s, None, Err(InvalidPAT))
    else
      var entry := EntryJson(PATToken(io).(cachedAt := io.now(TokenCachedAt)));
      TokenResult(TryWrite(s, n.patEntry, entry, io, io.ok(Put(n.patEntry))), None, Ok(Issue(PATToken(io))))
  }

  function GetToken(cfg: Config, n: Names, s: Store, io: IO, force: bool): TokenResult<Issued> {
    if HasPAT(io.env) then GetPATToken(n, s, io, force) else GetStoredToken(cfg, n, s, io, force)
  }

  // ---------- appLogin ----------

  datatype AppInfo = AppInfo(slug: string, id: string, name: string)

  function AppToken(token: string, expiresAt: int): Token {
    Token(token, "Bearer", expiresAt, "", ZERO_TIME, GitHubApp, "")
  }

  function AppMetadata(cfg: Config, io: IO, app: AppInfo): Metadata {
    var claims := Claims(cfg.hostname, "app/" + app.slug, app.id, app.name, app.slug, "", io.now(ClaimsIssued));
    Metadata(Some(claims), ZERO_TIME, io.now(LastRefresh), cfg.hostname, "", [], ServicePrincipal, "", NoFlow)
  }

  // The writes of appLogin, once GitHub has answered with an installation token.
  function AppLogin(cfg: Config, n: Names, s: Store, io: IO, token: string, expiresAt: int, app: AppInfo)
    : (Store, Result<Claims>) {
    var entry := EntryJson(AppToken(token, expiresAt).(cachedAt := io.now(LoginCachedAt)));
    var s1 := TryWrite(s, n.appEntry, entry, io, io.ok(Put(n.appEntry)));
    if !io.ok(Put(n.access)) then (s1, Err(HostFailure))
    else
      var s2 := Write(s1, n.access, Raw(token), io);
      if !io.ok(Put(n.metadata)) then (s2, Err(HostFailure))
      else (Write(s2, n.metadata, MetadataJson(AppMetadata(cfg, io, app)), io),
            Ok(AppMetadata(cfg, io, app).claims.value))
  }

  // ---------- GetStatus ----------

  datatype Status =
    | Unauthenticated
    | SessionExpired(claims: Option<Claims>)
    | Authenticated(claims: Option<Claims>, expiresAt: int, lastRefresh: int, identityType: IdentityType,
                    clientID: string,
                    scopes: seq<string>)

  // The zero time never expires.
  predicate Past(t: int, now: int) {
    t != ZERO_TIME && t < now
  }

  function GetStatus(cfg: Config, n: Names, s: Store, io: IO): Status {
    if HasPAT(io.env) then
      match io.userClaims
      case None => Unauthenticated
      case Some(c) => Authenticated(Some(c), ZERO_TIME, ZERO_TIME, User, "", cfg.defaultScopes)
    else if Load(s, n.refresh, io.ok(Get(n.refresh))).Err? && Load(s, n.access, io.ok(Get(n.access))).Err? then
      Unauthenticated
    else
      match LoadMetadata(s, n, io.ok(Get(n.metadata)))
      case Err(_) => Unauthenticated
      case Ok(m) =>
        if Past(m.refreshTokenExpiresAt, io.now(SessionCheck)) then SessionExpired(m.claims)
        else Authenticated(m.claims, m.refreshTokenExpiresAt, m.lastRefresh, User, m.clientID, m.scopes)
  }

  // ---------- ListCachedTokens ----------

  datatype Kind = RefreshKind | AccessKind

  datatype Row = Row(kind: Kind, tokenType: string, scope: string, flow: Flow, expiresAt: int, cachedAt: int,
                     isExpired: bool, sessionID: string)

  // A listing before the cached rows are put in the order the host lists their keys.
  datatype Listing = Listing(refresh: Option<Row>, cached: map<string, Row>, direct: Option<Row>)

  function RefreshRow(io: IO, metadata: Result<Metadata>): Row {
    match metadata
    case Err(_) => Row(RefreshKind, "", "", DeviceCode, ZERO_TIME, ZERO_TIME, false, "")
    case Ok(m) =>
      Row(RefreshKind, "", "", if m.flow.NoFlow? then DeviceCode else m.flow, m.refreshTokenExpiresAt, m.lastRefresh,
          Past(m.refreshTokenExpiresAt, io.now(SessionCheck)), m.sessionID)
  }

  function EntryRow(t: Token, now: int): Row {
    Row(AccessKind, t.tokenType, t.scope, t.flow, t.expiresAt, t.cachedAt, Past(t.expiresAt, now), t.sessionID)
  }

  function DirectRow(metadata: Result<Metadata>): Row {
    match metadata
    case Err(_) => Row(AccessKind, "Bearer", "", NoFlow, ZERO_TIME, ZERO_TIME, false, "")
    case Ok(m) => Row(AccessKind, "Bearer", "", m.flow, ZERO_TIME, m.lastRefresh, false, m.sessionID)
  }

  predicate Listable(n: Names, s: Store, io: IO, key: string) {
    key in s && n.tokenPrefix <= key && io.ok(Get(key)) && DecodeEntry(s[key].value).Some?
  }

  function CachedRows(n: Names, s: Store, io: IO): map<string, Row> {
    if !io.ok(List) then map[]
    else map key | key in s && Listable(n, s, io, key)
         :: EntryRow(DecodeEntry(s[key].value).value, io.now(EntryCheck(key)))
  }

  function ListTokens(n: Names, s: Store, io: IO): Listing {
    var cached := CacheGet(s, n.defaultEntry, io.ok(GetAgain(n.defaultEntry)));
    Listing(
      if Load(s, n.refresh, io.ok(Get(n.refresh))).Ok?
      then Some(RefreshRow(io, LoadMetadata(s, n, io.ok(Get(n.metadata))))) else None,
      CachedRows(n, s, io),
      if Load(s, n.access, io.ok(Get(n.access))).Ok? && (cached.Err? || cached.value.None?)
      then Some(DirectRow(LoadMetadata(s, n, io.ok(GetAgain(n.metadata))))) else None)
  }

  // ---------- PurgeExpiredTokens and Logout ----------

  predicate Purgeable(n: Names, s: Store, io: IO, key: string) {
    && Listable(n, s, io, key)
    && Past(DecodeEntry(s[key].value).value.expiresAt, io.now(EntryCheck(key)))
    && io.ok(Delete(key))
  }

  function PurgeKeys(n: Names, s: Store, io: IO): set<string> {
    if !io.ok(List) then {} else set key | key in s && Purgeable(n, s, io, key)
  }

  function Purge(n: Names, s: Store, io: IO): (Store, Result<nat>) {
    (s - PurgeKeys(n, s, io), if io.ok(List) then Ok(|PurgeKeys(n, s, io)|) else Err(HostFailure))
  }

  predicate Cleared(n: Names, io: IO, key: string) {
    io.ok(List) && n.tokenPrefix <= key && io.ok(Delete(key))
  }

  predicate Forgotten(n: Names, io: IO, key: string) {
    Cleared(n, io, key) || (key in {n.refresh, n.access, n.metadata} && io.ok(Delete(key)))
  }

  function Logout(n: Names, s: Store, io: IO): Store {
    map key | key in s && !Forgotten(n, io, key) :: s[key]
  }

  // ---------- Runs ----------

  // A login stands for the device code and the authorization code flow alike: both end in
  // storeCredentials with a fresh session, and neither gets there with an empty access token.
  datatype Op =
    | DoLogin(answer: TokenAnswer, scopes: seq<string>, flow: Flow)
    | DoAppLogin(token: string, expiresAt: int, app: AppInfo)
    | DoGetToken(force: bool)
    | DoStatus
    | DoList
    | DoPurge
    | DoLogout

  datatype Outcome =
    | Rejected
    | LoggedIn(claims: Result<Claims>)
    | GotToken(request: Option<Request>, issued: Result<Issued>)
    | GotStatus(status: Status)
    | GotListing(listing: Listing)
    | PurgedTokens(count: Result<nat>)
    | LoggedOut

  datatype Step = Step(profile: string, op: Op, io: IO)

  predicate Plausible(op: Op) {
    op.DoLogin? ==> op.answer.accessToken != ""
  }

  function Perform(cfg: Config, n: Names, s: Store, op: Op, io: IO): (Store, Outcome) {
    match op
    case DoLogin(answer, scopes, flow) =>
      var (s', claims) := StoreCredentials(cfg, n, s, io, answer, scopes, "", flow); (s', LoggedIn(claims))
    case DoAppLogin(token, expiresAt, app) =>
      var (s', claims) := AppLogin(cfg, n, s, io, token, expiresAt, app); (s', LoggedIn(claims))
    case DoGetToken(force) =>
      var r := GetToken(cfg, n, s, io, force); (r.store, GotToken(r.request, r.token))
    case DoStatus => (s, GotStatus(GetStatus(cfg, n, s, io)))
    case DoList => (s, GotListing(ListTokens(n, s, io)))
    case DoPurge => var (s', count) := Purge(n, s, io); (s', PurgedTokens(count))
    case DoLogout => (Logout(n, s, io), LoggedOut)
  }

  // Every operation rejects an invalid profile before it touches the store.
  function Take(cfg: Config, s: Store, step: Step): (Store, Outcome) {
    if ValidProfile(step.profile) then Perform(cfg, NamesOf(cfg, step.profile), s, step.op, step.io)
    else (s, Rejected)
  }

  function Run(cfg: Config, s: Store, steps: seq<Step>): Store
    decreases |steps|
  {
    if steps == [] then s else Run(cfg, Take(cfg, s, steps[0]).0, steps[1..])
  }

  function Outcomes(cfg: Config, s: Store, steps: seq<Step>): seq<(string, Outcome)>
    decreases |steps|
  {
    if steps == [] then []
    else [(steps[0].profile, Take(cfg, s, steps[0]).1)] + Outcomes(cfg, Take(cfg, s, steps[0]).0, steps[1..])
  }
}
