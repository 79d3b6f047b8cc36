/** What the two kinds of login write, secret by secret, and when they succeed, whatever the host
    refuses. */
module CredentialWrites {
  import opened Types
  import opened SecretKeys
  import opened CredentialStore
  import opened Frames
  import Scopes

  // The secret under the key is v, written by this step, where written holds; else it is as before.
  ghost predicate WrittenIf(written: bool, s: Store, s': Store, key: string, v: Stored, io: IO) {
    if written then key in s' && s'[key] == Secret(v, io.step) else SameAt(key, s, s')
  }

  // The first refused write among refresh, access and metadata secret stops storeCredentials;
  // what was written before stays. It succeeds when none of the three is refused, and only then
  // does it try to cache the token.
  lemma LoginWritesExactly(cfg: Config, n: Names, s: Store, io: IO,
                           answer: TokenAnswer, scopes: seq<string>, sessionID: string, flow: Flow)
    requires Distinct(n)
    ensures var (s', claims) := StoreCredentials(cfg, n, s, io, answer, scopes, sessionID, flow);
            var first := answer.refreshToken == "" || io.ok(Put(n.refresh));
            var second := first && (answer.accessToken == "" || io.ok(Put(n.access)));
            var third := second && io.ok(Put(n.metadata));
            && (claims.Ok? <==> third)
            && (claims.Err? ==> claims.error == HostFailure)
            && WrittenIf(first && answer.refreshToken != "", s, s', n.refresh, Raw(answer.refreshToken), io)
            && WrittenIf(second && answer.accessToken != "", s, s', n.access, Raw(answer.accessToken), io)
            && (third ==> n.metadata in s' && s'[n.metadata].writtenBy == io.step && s'[n.metadata].value.MetadataJson?)
            && (!third ==> SameAt(n.metadata, s, s'))
            && (third && answer.accessToken != "" && io.ok(Put(n.defaultEntry)) ==>
                  && n.defaultEntry in s' && s'[n.defaultEntry].writtenBy == io.step
                  && s'[n.defaultEntry].value.EntryJson?)
            && (!(third && answer.accessToken != "" && io.ok(Put(n.defaultEntry))) ==> SameAt(n.defaultEntry, s, s'))
            && forall key :: key !in {n.refresh, n.access, n.metadata, n.defaultEntry} ==> SameAt(key, s, s')
  {
  }

  // The metadata a login writes, and the claims it answers: GitHub's, or the bare host name when
  // GitHub does not say who the user is.
  lemma LoginRecords(cfg: Config, n: Names, s: Store, io: IO,
                     answer: TokenAnswer, scopes: seq<string>, sessionID: string, flow: Flow)
    requires Distinct(n) && StoreCredentials(cfg, n, s, io, answer, scopes, sessionID, flow).1.Ok?
    ensures var (s', claims) := StoreCredentials(cfg, n, s, io, answer, scopes, sessionID, flow);
            && n.metadata in s' && s'[n.metadata].value.MetadataJson?
            && var m := s'[n.metadata].value.metadata;
            && m.claims == Some(claims.value)
            && (io.userClaims.Some? ==> m.claims == io.userClaims)
            && (io.userClaims.None? ==> m.claims == Some(Claims(cfg.hostname, "", "", "", "", "", 0)))
            && (answer.refreshTokenExpiresIn > 0 ==>
                  m.refreshTokenExpiresAt == io.now(SessionExpiry) + answer.refreshTokenExpiresIn * 1_000_000_000)
            && (answer.refreshTokenExpiresIn <= 0 ==> m.refreshTokenExpiresAt == 0)
            && m.lastRefresh == io.now(LastRefresh) && m.hostname == cfg.hostname && m.clientID == cfg.clientID
            && m.scopes == scopes && m.identityType == User && m.flow == flow
            && (sessionID != "" ==> m.sessionID == sessionID) && (sessionID == "" ==> m.sessionID == io.freshID)
  {
  }

  // The cache entry a login writes: the answer's token, good for as long as the answer says, else
  // for 8 hours beside a refresh token and for a year without one; flow and session are those of
  // the metadata written with it.
  lemma LoginCaches(cfg: Config, n: Names, s: Store, io: IO,
                    answer: TokenAnswer, scopes: seq<string>, sessionID: string, flow: Flow)
    requires Distinct(n) && StoreCredentials(cfg, n, s, io, answer, scopes, sessionID, flow).1.Ok?
    requires answer.accessToken != "" && io.ok(Put(n.defaultEntry))
    ensures var s' := StoreCredentials(cfg, n, s, io, answer, scopes, sessionID, flow).0;
            && n.defaultEntry in s' && s'[n.defaultEntry].value.EntryJson?
            && n.metadata in s' && s'[n.metadata].value.MetadataJson?
            && var entry, m := s'[n.defaultEntry].value.token, s'[n.metadata].value.metadata;
            && entry.accessToken == answer.accessToken && entry.tokenType == answer.tokenType
            && (answer.expiresIn > 0 ==> entry.expiresAt == io.now(LoginExpiry) + answer.expiresIn * 1_000_000_000)
            && (answer.expiresIn <= 0 && answer.refreshToken != "" ==>
                  entry.expiresAt == io.now(LoginExpiry) + 28_800_000_000_000)
            && (answer.expiresIn <= 0 && answer.refreshToken == "" ==>
                  entry.expiresAt == io.now(LoginExpiry) + 31_536_000_000_000_000)
            && (answer.scope != "" ==> entry.scope == answer.scope)
            && (answer.scope == "" ==> Scopes.Joined(scopes, entry.scope))
            && entry.cachedAt == io.now(LoginCachedAt) && entry.flow == m.flow && entry.sessionID == m.sessionID
  {
    Scopes.JoinedExactly(scopes);
  }

  // An app login caches its token if it can, then needs both the access secret and the metadata
  // written. It answers the claims it records: those of the app, without a client id to refresh
  // with.
  lemma AppLoginWritesExactly(cfg: Config, n: Names, s: Store, io: IO, token: string, expiresAt: int, app: AppInfo)
    requires Distinct(n)
    ensures var (s', claims) := AppLogin(cfg, n, s, io, token, expiresAt, app);
            var entry := Token(token, "Bearer", expiresAt, "", io.now(LoginCachedAt), GitHubApp, "");
            var named := Claims(cfg.hostname, "app/" + app.slug, app.id, app.name, app.slug, "", io.now(ClaimsIssued));
            var m := Metadata(Some(named), 0, io.now(LastRefresh), cfg.hostname, "", [], ServicePrincipal, "", NoFlow);
            var done := io.ok(Put(n.access)) && io.ok(Put(n.metadata));
            && claims == (if done then Ok(named) else Err(HostFailure))
            && WrittenIf(io.ok(Put(n.appEntry)), s, s', n.appEntry, EntryJson(entry), io)
            && WrittenIf(io.ok(Put(n.access)), s, s', n.access, Raw(token), io)
            && WrittenIf(done, s, s', n.metadata, MetadataJson(m), io)
            && forall key :: key !in {n.appEntry, n.access, n.metadata} ==> SameAt(key, s, s')
  {
  }
}
