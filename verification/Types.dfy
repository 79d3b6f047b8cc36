/** Values shared by every part of the model: results, tokens, stored secrets, and the
    outside world (host outcomes, clock readings, HTTP answers) as explicit inputs. */
module Types {

  datatype Option<+T> = None | Some(value: T)

  datatype Error =
    | InvalidProfile
    | HostFailure
    | NotFound
    | NotAuthenticated
    | Undecodable
    | MissingClientID
    | RefreshRequestFailed
    | RefreshRevoked
    | InvalidPAT
    | MissingPAT

  datatype Result<+T> = Ok(value: T) | Err(error: Error)

  // ---------- Time ----------

  // Times and durations are nanosecond counts; zero is Go's zero time, which no reading of
  // the clock is required to avoid.
  const ZERO_TIME := 0
  const SECOND := 1_000_000_000
  const MINUTE := 60 * SECOND
  const HOUR := 60 * MINUTE

  // The fallback lifetime of a token issued without an explicit expiry.
  const SHORT_LIFETIME := 8 * HOUR
  // The lifetime given to a token with no defined expiry.
  const FAR_FUTURE := 365 * 24 * HOUR

  // ---------- Tokens and metadata ----------

  datatype Flow = NoFlow | DeviceCode | Interactive | PATFlow | GitHubApp | OtherFlow(name: string)

  // The seven fields auth.Token and its stored cache entry share.
  datatype Token = Token(
    accessToken: string,
    tokenType: string,
    expiresAt: int,
    scope: string,
    cachedAt: int,
    flow: Flow,
    sessionID: string)

  // What GetToken hands to its caller.
  datatype Issued = Issued(
    accessToken: string,
    tokenType: string,
    expiresAt: int,
    scope: string,
    flow: Flow,
    sessionID: string)

  function Issue(t: Token): Issued {
    Issued(t.accessToken, t.tokenType, t.expiresAt, t.scope, t.flow, t.sessionID)
  }

  // The decoded answer of the OAuth token endpoint.
  datatype TokenAnswer = TokenAnswer(
    accessToken: string,
    refreshToken: string,
    tokenType: string,
    scope: string,
    expiresIn: int,
    refreshTokenExpiresIn: int)

  datatype Claims = Claims(issuer: string, subject: string, objectID: string, name: string, username: string,
                           email: string, issuedAt: int)

  datatype IdentityType = NoIdentity | User | ServicePrincipal

  datatype Metadata = Metadata(
    claims: Option<Claims>,
    refreshTokenExpiresAt: int,
    lastRefresh: int,
    hostname: string,
    clientID: string,
    scopes: seq<string>,
    identityType: IdentityType,
    sessionID: string,
    flow: Flow)

  // strings.Join(scopes, " ")
  function JoinScopes(scopes: seq<string>): string {
    if scopes == [] then ""
    else if |scopes| == 1 then scopes[0]
    else scopes[0] + " " + JoinScopes(scopes[1..])
  }

  // ---------- Stored secrets ----------

  // A stored string, by what it decodes to. Raw text is not a JSON object.
  datatype Stored = Raw(text: string) | EntryJson(token: Token) | MetadataJson(metadata: Metadata)

  // Decoding takes whichever fields the two JSON shapes have in common, and leaves the rest zero.
  function DecodeEntry(v: Stored): Option<Token> {
    match v
    case Raw(_) => None
    case EntryJson(t) => Some(t)
    case MetadataJson(m) => Some(Token("", "", ZERO_TIME, "", ZERO_TIME, m.flow, m.sessionID))
  }

  function DecodeMetadata(v: Stored): Option<Metadata> {
    match v
    case Raw(_) => None
    case EntryJson(t) => Some(Metadata(None, ZERO_TIME, ZERO_TIME, "", "", [], NoIdentity, t.sessionID, t.flow))
    case MetadataJson(m) => Some(m)
  }

  // The string itself, where the handler reads it as a token. JSON text is not modelled; it
  // is never empty.
  function Text(v: Stored): string {
    match v
    case Raw(text) => text
    case _ => "{}"
  }

  // A secret and the step that last wrote it. No operation reads writtenBy: it is a history
  // variable for statements about which write came later.
  datatype Secret = Secret(value: Stored, writtenBy: nat)

  type Store = map<string, Secret>

  // ---------- The outside world ----------

  // The host calls of one operation. Every operation makes each of these at most once.
  datatype Site =
    | Get(key: string)
    | GetAgain(key: string)
    | Put(key: string)
    | PutAgain(key: string)
    | Delete(key: string)
    | List

  // The clock readings of one operation.
  datatype Reading =
    | SessionExpiry
    | LastRefresh
    | LoginExpiry
    | LoginCachedAt
    | TokenExpiry
    | TokenCachedAt
    | ClaimsIssued
    | SessionCheck
    | EntryCheck(key: string)

  datatype Environment = Environment(githubToken: string, ghToken: string)

  // Everything one operation learns from outside: which host calls succeed, what the clock
  // says, whether a token is valid for long enough, the HTTP answers, a fresh session id.
  datatype IO = IO(
    ok: Site -> bool,
    now: Reading -> int,
    valid: Token -> bool,
    userClaims: Option<Claims>,
    refreshAnswer: Option<TokenAnswer>,
    freshID: string,
    env: Environment,
    step: nat)

  ghost predicate HostOk(io: IO) {
    forall site :: io.ok(site)
  }

  ghost predicate ClockHeld(io: IO, t: int) {
    forall reading :: io.now(reading) == t
  }

  // The second variable counts only where the first is unset or empty.
  function PATFromEnv(env: Environment): string {
    if env.githubToken != "" then env.githubToken else env.ghToken
  }

  predicate HasPAT(env: Environment) {
    PATFromEnv(env) != ""
  }
}
