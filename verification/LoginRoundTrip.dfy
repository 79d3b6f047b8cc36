/** What a login stores is what the other operations read back, whatever was stored before. */
module LoginRoundTrip {
  import opened Types
  import opened SecretKeys
  import opened CredentialStore
  import opened Frames

  // The lifetime of a token just issued: its own, 8 hours beside a refresh token, else a year.
  ghost predicate ExpiresAsIssued(answer: TokenAnswer, issuedAt: int, expiresAt: int) {
    && (answer.expiresIn > 0 ==> expiresAt == issuedAt + answer.expiresIn * SECOND)
    && (answer.expiresIn <= 0 && answer.refreshToken != "" ==> expiresAt == issuedAt + 8 * HOUR)
    && (answer.expiresIn <= 0 && answer.refreshToken == "" ==> expiresAt == issuedAt + 365 * 24 * HOUR)
  }

  ghost predicate LoggedInBy(cfg: Config, n: Names, before: Store, io: IO,
                             answer: TokenAnswer, scopes: seq<string>, flow: Flow, s: Store) {
    && Distinct(n) && HostOk(io) && answer.accessToken != ""
    && s == StoreCredentials(cfg, n, before, io, answer, scopes, "", flow).0
  }

  // What a login leaves in the store, written by this very step.
  lemma StoredByLogin(cfg: Config, n: Names, before: Store, io: IO,
                      answer: TokenAnswer, scopes: seq<string>, flow: Flow, s: Store)
    requires LoggedInBy(cfg, n, before, io, answer, scopes, flow, s)
    ensures n.access in s && s[n.access] == Secret(Raw(answer.accessToken), io.step)
    ensures answer.refreshToken != "" ==> n.refresh in s && s[n.refresh] == Secret(Raw(answer.refreshToken), io.step)
    ensures answer.refreshToken == "" ==> SameAt(n.refresh, before, s)
    ensures n.metadata in s && s[n.metadata].writtenBy == io.step && s[n.metadata].value.MetadataJson?
    ensures var m := s[n.metadata].value.metadata;
            && m.hostname == cfg.hostname && m.clientID == cfg.clientID && m.identityType == User
            && m.scopes == scopes && m.sessionID == io.freshID && m.flow == flow && m.lastRefresh == io.now(LastRefresh)
            && m.claims.Some?
            && (io.userClaims.Some? ==> m.claims == io.userClaims)
            && (io.userClaims.None? ==> m.claims.value == Claims(cfg.hostname, "", "", "", "", "", ZERO_TIME))
  {
  }

  // Without its cache entry the login's token is listed by the direct row, from the metadata.
  lemma DirectRowAfterLogin(cfg: Config, n: Names, before: Store, io: IO,
                            answer: TokenAnswer, scopes: seq<string>, flow: Flow,
                            s: Store, later: IO)
    requires LoggedInBy(cfg, n, before, io, answer, scopes, flow, s)
    requires HostOk(later)
    ensures ListTokens(n, s - {n.defaultEntry}, later).direct
            == Some(Row(AccessKind, "Bearer", "", flow, ZERO_TIME, io.now(LastRefresh), false, io.freshID))
  {
  }

  // From the cache: the token as issued, with the login's flow and session. Forced: the same
  // token as a bearer token good for a year, whatever expiry it was issued with.
  lemma TokenAfterLogin(cfg: Config, n: Names, before: Store, io: IO,
                        answer: TokenAnswer, scopes: seq<string>, flow: Flow,
                        s: Store, later: IO, force: bool)
    requires LoggedInBy(cfg, n, before, io, answer, scopes, flow, s)
    requires HostOk(later) && !HasPAT(later.env)
    ensures var r, entry := GetToken(cfg, n, s, later, force), LoginEntry(io, answer, scopes, "", flow);
            && r.request == None && r.token.Ok? && r.token.value.accessToken == answer.accessToken
            && (!force && later.valid(entry) ==>
                  && r.store == s
                  && r.token.value.tokenType == answer.tokenType
                  && r.token.value.scope == (if answer.scope != "" then answer.scope else JoinScopes(scopes))
                  && r.token.value.flow == flow && r.token.value.sessionID == io.freshID
                  && ExpiresAsIssued(answer, io.now(LoginExpiry), r.token.value.expiresAt))
            && (force || !later.valid(entry) ==>
                  && r.store == s[n.defaultEntry := r.store[n.defaultEntry]]
                  && r.token.value
                      == Issued(answer.accessToken, "Bearer", later.now(TokenExpiry) + 365 * 24 * HOUR, "", NoFlow, ""))
  {
  }

  lemma StatusAfterLogin(cfg: Config, n: Names, before: Store, io: IO,
                         answer: TokenAnswer, scopes: seq<string>, flow: Flow,
                         s: Store, later: IO)
    requires LoggedInBy(cfg, n, before, io, answer, scopes, flow, s)
    requires HostOk(later) && !HasPAT(later.env)
    ensures var status := GetStatus(cfg, n, s, later);
            var expiry := io.now(SessionExpiry) + answer.refreshTokenExpiresIn * SECOND;
            var claims, refreshed := Some(ClaimsOf(cfg, io)), io.now(LastRefresh);
            && (answer.refreshTokenExpiresIn <= 0 ==>
                  status == Authenticated(claims, ZERO_TIME, refreshed, User, cfg.clientID, scopes))
            && (answer.refreshTokenExpiresIn > 0 && later.now(SessionCheck) <= expiry ==>
                  status == Authenticated(claims, expiry, refreshed, User, cfg.clientID, scopes))
            && (answer.refreshTokenExpiresIn > 0 && later.now(SessionCheck) > expiry && expiry != ZERO_TIME ==>
                  status == SessionExpired(claims))
  {
  }

  // The listing shows the login's token once, from the cache. It shows a refresh row also when
  // this login brought no refresh token but an earlier one did: the old secret stays.
  lemma ListingAfterLogin(cfg: Config, n: Names, before: Store, io: IO,
                          answer: TokenAnswer, scopes: seq<string>, flow: Flow,
                          s: Store, later: IO)
    requires LoggedInBy(cfg, n, before, io, answer, scopes, flow, s)
    requires HostOk(later)
    ensures var listing := ListTokens(n, s, later);
            && n.defaultEntry in listing.cached && listing.direct.None?
            && var row := listing.cached[n.defaultEntry];
            && row.kind.AccessKind? && row.tokenType == answer.tokenType
            && row.scope == (if answer.scope != "" then answer.scope else JoinScopes(scopes))
            && row.flow == flow && row.sessionID == io.freshID
            && row.cachedAt == io.now(LoginCachedAt) && ExpiresAsIssued(answer, io.now(LoginExpiry), row.expiresAt)
            && (listing.refresh.Some? <==> answer.refreshToken != "" || n.refresh in before)
            && (listing.refresh.Some? ==>
                  && listing.refresh.value.kind.RefreshKind? && listing.refresh.value.sessionID == row.sessionID
                  && listing.refresh.value.flow == (if flow == NoFlow then DeviceCode else flow)
                  && listing.refresh.value.cachedAt == io.now(LastRefresh))
  {
    assert Listable(n, s, later, n.defaultEntry);
  }

  // The session is reported expired exactly when the refresh row is marked so.
  lemma StatusMatchesListing(cfg: Config, n: Names, s: Store, io: IO)
    requires HostOk(io) && !HasPAT(io.env) && n.refresh in s
    ensures ListTokens(n, s, io).refresh.Some?
    ensures GetStatus(cfg, n, s, io).SessionExpired? <==> ListTokens(n, s, io).refresh.value.isExpired
    ensures GetStatus(cfg, n, s, io).Authenticated?
            ==> GetStatus(cfg, n, s, io).expiresAt == ListTokens(n, s, io).refresh.value.expiresAt
  {
  }

  // After an app login: the installation token when the cache is skipped, a status without
  // expiry that names a user although the metadata names a service principal, and a cached row
  // with the installation token's own expiry.
  lemma AfterAppLogin(cfg: Config, n: Names, before: Store, io: IO, token: string, expiresAt: int, app: AppInfo,
                      later: IO)
    requires Distinct(n) && HostOk(io) && token != "" && HostOk(later) && !HasPAT(later.env)
    ensures var s := AppLogin(cfg, n, before, io, token, expiresAt, app).0;
            && n.metadata in s && s[n.metadata].value.MetadataJson?
            && s[n.metadata].value.metadata.hostname == cfg.hostname
            && s[n.metadata].value.metadata.identityType == ServicePrincipal
            && GetToken(cfg, n, s, later, true).token
                 == Ok(Issued(token, "Bearer", later.now(TokenExpiry) + 365 * 24 * HOUR, "", NoFlow, ""))
            && GetStatus(cfg, n, s, later).Authenticated? && GetStatus(cfg, n, s, later).identityType == User
            && GetStatus(cfg, n, s, later).expiresAt == ZERO_TIME && GetStatus(cfg, n, s, later).clientID == ""
            && GetStatus(cfg, n, s, later).claims.Some? && GetStatus(cfg, n, s, later).claims.value.username == app.slug
            && n.appEntry in ListTokens(n, s, later).cached
            && ListTokens(n, s, later).cached[n.appEntry].expiresAt == expiresAt
            && ListTokens(n, s, later).cached[n.appEntry].flow == GitHubApp
  {
    assert Listable(n, AppLogin(cfg, n, before, io, token, expiresAt, app).0, later, n.appEntry);
  }

  // GetStatus reports a user whoever logged in, so what it reports is what the metadata records
  // exactly when that is a user.
  lemma IdentityExactly(cfg: Config, n: Names, s: Store, io: IO)
    requires !HasPAT(io.env) && GetStatus(cfg, n, s, io).Authenticated?
    ensures n.metadata in s && DecodeMetadata(s[n.metadata].value).Some?
    ensures var m := DecodeMetadata(s[n.metadata].value).value;
            GetStatus(cfg, n, s, io).identityType == m.identityType <==> m.identityType == User
  {
  }
}
