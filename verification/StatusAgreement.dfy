/** What GetStatus says and what GetToken does agree, in the states reached with a host that
    serves its calls, exactly while the stored access token is not empty. */
module StatusAgreement {
  import opened Types
  import opened SecretKeys
  import opened CredentialStore
  import opened Frames
  import opened Coherence
  import KeyEncoding
  import Isolation
  import Minting
  import PatCache

  // ---------- What GetStatus says ----------

  predicate Readable(s: Store, key: string, ok: bool) {
    ok && key in s
  }

  // In any store, whatever the host refuses: who is reported, and until when. The session is
  // expired once its expiry, if it has one, is in the past.
  lemma StatusExactly(cfg: Config, n: Names, s: Store, io: IO)
    requires !HasPAT(io.env)
    ensures var status := GetStatus(cfg, n, s, io);
            if !Readable(s, n.refresh, io.ok(Get(n.refresh))) && !Readable(s, n.access, io.ok(Get(n.access)))
            then status == Unauthenticated
            else if !Readable(s, n.metadata, io.ok(Get(n.metadata))) || s[n.metadata].value.Raw?
            then status == Unauthenticated
            else
              var m := DecodeMetadata(s[n.metadata].value).value;
              if m.refreshTokenExpiresAt != 0 && io.now(SessionCheck) > m.refreshTokenExpiresAt
              then status == SessionExpired(m.claims)
              else status == Authenticated(m.claims, m.refreshTokenExpiresAt, m.lastRefresh, User, m.clientID, m.scopes)
  {
  }

  // A cache entry where the metadata should be still decodes: a session without claims, client,
  // scopes or expiry, which no refresh can go out for.
  lemma EntryAsMetadata(cfg: Config, n: Names, s: Store, io: IO)
    requires HostOk(io) && !HasPAT(io.env) && n.refresh in s
    requires n.metadata in s && s[n.metadata].value.EntryJson?
    ensures GetStatus(cfg, n, s, io) == Authenticated(None, 0, 0, User, "", [])
    ensures GetToken(cfg, n, s, io, true).request == None
    ensures var entry := s[n.metadata].value.token;
            ListTokens(n, s, io).refresh
            == Some(Row(RefreshKind, "", "", if entry.flow == NoFlow then DeviceCode else entry.flow, 0, 0, false,
                        entry.sessionID))
  {
  }

  // With a personal access token the stored session does not count: the profile is authenticated
  // exactly when GitHub accepts the token, which is when a forced GetToken answers it.
  lemma PATStatusExactly(cfg: Config, n: Names, s: Store, t: Store, io: IO)
    requires io.env.githubToken != "" || io.env.ghToken != ""
    ensures var status := GetStatus(cfg, n, s, io);
            && (status.Authenticated? <==> io.userClaims.Some?)
            && (status.Authenticated? <==> GetToken(cfg, n, t, io, true).token.Ok?)
            && (status.Authenticated? ==> status == Authenticated(io.userClaims, 0, 0, User, "", cfg.defaultScopes))
            && (!status.Authenticated? ==> status == Unauthenticated)
  {
    PatCache.PATAnsweredExactly(cfg, n, t, io, true);
  }

  // ---------- Tokens and metadata ----------

  // Tokens come with an access secret, that with metadata, and an empty one with metadata that
  // names no client.
  ghost predicate Documented(n: Names, s: Store) {
    && Plain(n, s)
    && (n.refresh in s || n.defaultEntry in s ==> n.access in s)
    && (n.access in s ==> n.metadata in s)
    && (n.metadata in s ==> s[n.metadata].value.MetadataJson?)
    && (n.access in s && !Minting.HasAccess(n, s) ==> !Minting.HasClient(n, s))
  }

  // ---------- In one state ----------

  // GetToken succeeds, forced or not, exactly when GetStatus does not say unauthenticated.
  ghost predicate StatusMatchesToken(cfg: Config, n: Names, s: Store) {
    forall io: IO, io': IO, force: bool :: NoPAT(io) && NoPAT(io') ==> SameVerdict(cfg, n, s, io, io', force)
  }

  ghost predicate SameVerdict(cfg: Config, n: Names, s: Store, io: IO, io': IO, force: bool) {
    GetToken(cfg, n, s, io, force).token.Ok? <==> !GetStatus(cfg, n, s, io').Unauthenticated?
  }

  lemma FullAccessMatches(cfg: Config, n: Names, s: Store, io: IO, io': IO, force: bool)
    requires Documented(n, s) && (n.access in s ==> Minting.HasAccess(n, s)) && NoPAT(io) && NoPAT(io')
    ensures SameVerdict(cfg, n, s, io, io', force)
  {
  }

  // With an empty access secret the status is not unauthenticated, and a forced GetToken fails.
  lemma EmptyAccessDiffers(cfg: Config, n: Names, s: Store, io: IO)
    requires Documented(n, s) && n.access in s && !Minting.HasAccess(n, s) && NoPAT(io)
    ensures !GetStatus(cfg, n, s, io).Unauthenticated? && GetToken(cfg, n, s, io, true).token.Err?
  {
  }

  lemma DocumentedExactly(cfg: Config, n: Names, s: Store)
    requires Documented(n, s)
    ensures StatusMatchesToken(cfg, n, s) <==> (n.access in s ==> Minting.HasAccess(n, s))
  {
    if n.access in s && !Minting.HasAccess(n, s) {
      var io := Isolation.QuietIO();
      EmptyAccessDiffers(cfg, n, s, io);
      assert NoPAT(io) && !SameVerdict(cfg, n, s, io, io, true);
    } else {
      forall io: IO, io': IO, force: bool | NoPAT(io) && NoPAT(io')
        ensures SameVerdict(cfg, n, s, io, io', force)
      {
        FullAccessMatches(cfg, n, s, io, io', force);
      }
    }
  }

  // ---------- Steps ----------

  lemma LoginDocuments(cfg: Config, n: Names, s: Store, io: IO, answer: TokenAnswer, scopes: seq<string>, flow: Flow)
    requires Distinct(n) && Documented(n, s) && HostOk(io) && answer.accessToken != ""
    ensures var s' := StoreCredentials(cfg, n, s, io, answer, scopes, "", flow).0;
            Documented(n, s') && Minting.HasAccess(n, s')
  {
  }

  lemma AppLoginDocuments(cfg: Config, n: Names, s: Store, io: IO, token: string, expiresAt: int, app: AppInfo)
    requires Distinct(n) && Documented(n, s) && HostOk(io)
    ensures var s' := AppLogin(cfg, n, s, io, token, expiresAt, app).0;
            Documented(n, s') && n.access in s' && (Minting.HasAccess(n, s') <==> token != "")
  {
  }

  lemma GetTokenDocuments(cfg: Config, n: Names, s: Store, io: IO, force: bool)
    requires Distinct(n) && Documented(n, s) && HostOk(io)
    ensures var s' := GetToken(cfg, n, s, io, force).store;
            Documented(n, s') && SameAt(n.access, s, s')
  {
    Minting.RequestExactly(cfg, n, s, io, force);
  }

  lemma CleanUpDocuments(n: Names, s: Store, io: IO)
    requires Distinct(n) && Documented(n, s) && HostOk(io)
    ensures Documented(n, Purge(n, s, io).0) && SameAt(n.access, s, Purge(n, s, io).0)
    ensures Documented(n, Logout(n, s, io)) && n.access !in Logout(n, s, io)
  {
  }

  // Full says that an access secret, if there is one, is not empty.
  ghost predicate Full(n: Names, s: Store) {
    n.access in s ==> Minting.HasAccess(n, s)
  }

  lemma OwnStepDocuments(cfg: Config, n: Names, s: Store, op: Op, io: IO)
    requires Distinct(n) && Documented(n, s) && Minting.Served(op, io)
    ensures Documented(n, Perform(cfg, n, s, op, io).0)
    ensures Full(n, s) && Clean(op, io) ==> Full(n, Perform(cfg, n, s, op, io).0)
  {
    match op
    case DoLogin(answer, scopes, flow) => LoginDocuments(cfg, n, s, io, answer, scopes, flow);
    case DoAppLogin(token, expiresAt, app) => AppLoginDocuments(cfg, n, s, io, token, expiresAt, app);
    case DoGetToken(force) => GetTokenDocuments(cfg, n, s, io, force);
    case DoPurge => CleanUpDocuments(n, s, io);
    case DoLogout => CleanUpDocuments(n, s, io);
    case _ =>
  }

  lemma OtherStepDocuments(cfg: Config, n: Names, m: Names, s: Store, op: Op, io: IO)
    requires Distinct(n) && Distinct(m) && Apart(n, m) && HostOk(io) && Documented(m, s)
    ensures Documented(m, Perform(cfg, n, s, op, io).0)
    ensures Full(m, s) ==> Full(m, Perform(cfg, n, s, op, io).0)
  {
    assert m.refresh in KeyEncoding.NameSet(m) && m.access in KeyEncoding.NameSet(m);
    assert m.metadata in KeyEncoding.NameSet(m) && m.defaultEntry in KeyEncoding.NameSet(m);
    Untouched(cfg, n, s, op, io, m.refresh);
    Untouched(cfg, n, s, op, io, m.access);
    Untouched(cfg, n, s, op, io, m.defaultEntry);
    Untouched(cfg, n, s, op, io, m.metadata);
    if op.DoPurge? && m.metadata in s {
      MetadataNeverPurged(n, s, io, m.metadata);
    }
  }

  // Metadata decodes as an entry without expiry, so no purge removes it.
  lemma MetadataNeverPurged(n: Names, s: Store, io: IO, key: string)
    requires key in s && s[key].value.MetadataJson?
    ensures key in Purge(n, s, io).0
  {
  }

  // ---------- Runs ----------

  lemma StepDocuments(cfg: Config, s: Store, step: Step, q: string)
    requires ValidProfile(q) && Documented(NamesOf(cfg, q), s) && Minting.Served(step.op, step.io)
    ensures Documented(NamesOf(cfg, q), Take(cfg, s, step).0)
    ensures Full(NamesOf(cfg, q), s) && Clean(step.op, step.io) ==> Full(NamesOf(cfg, q), Take(cfg, s, step).0)
  {
    var p := step.profile;
    KeyEncoding.NamesDistinct(cfg, q);
    if p == q {
      OwnStepDocuments(cfg, NamesOf(cfg, q), s, step.op, step.io);
    } else if ValidProfile(p) {
      KeyEncoding.NamesDistinct(cfg, p);
      ProfilesAreApart(cfg, p, q);
      OtherStepDocuments(cfg, NamesOf(cfg, p), NamesOf(cfg, q), s, step.op, step.io);
    }
  }

  lemma {:induction false} RunDocuments(cfg: Config, s: Store, steps: seq<Step>, q: string)
    requires ValidProfile(q) && Documented(NamesOf(cfg, q), s)
    requires forall step <- steps :: Minting.Served(step.op, step.io)
    ensures Documented(NamesOf(cfg, q), Run(cfg, s, steps))
    ensures Full(NamesOf(cfg, q), s) && CleanSteps(steps) ==> Full(NamesOf(cfg, q), Run(cfg, s, steps))
    decreases |steps|
  {
    if steps != [] {
      StepDocuments(cfg, s, steps[0], q);
      RunDocuments(cfg, Take(cfg, s, steps[0]).0, steps[1..], q);
    }
  }

  // In every state reached from an empty store by any steps of any profiles, app logins with an
  // empty token included, with a host that does not fail, the two agree exactly when the access
  // secret, if there is one, is not empty. A session reported expired still yields a token.
  lemma StatusAgreesExactly(cfg: Config, steps: seq<Step>, p: string)
    requires ValidProfile(p) && forall step <- steps :: Minting.Served(step.op, step.io)
    ensures var n, s := NamesOf(cfg, p), Run(cfg, map[], steps);
            StatusMatchesToken(cfg, n, s) <==> (n.access in s ==> Text(s[n.access].value) != "")
  {
    RunDocuments(cfg, map[], steps, p);
    DocumentedExactly(cfg, NamesOf(cfg, p), Run(cfg, map[], steps));
  }

  // So where every installation token was non-empty they always agree.
  lemma StatusAgreesWithToken(cfg: Config, steps: seq<Step>, p: string, io: IO, io': IO, force: bool)
    requires ValidProfile(p) && CleanSteps(steps) && NoPAT(io) && NoPAT(io')
    ensures var n, s := NamesOf(cfg, p), Run(cfg, map[], steps);
            GetToken(cfg, n, s, io, force).token.Ok? <==> !GetStatus(cfg, n, s, io').Unauthenticated?
  {
    RunDocuments(cfg, map[], steps, p);
    FullAccessMatches(cfg, NamesOf(cfg, p), Run(cfg, map[], steps), io, io', force);
  }

  // Right after an app login they agree exactly when its token is not empty.
  lemma AppLoginMatchesExactly(cfg: Config, n: Names, s: Store, io: IO, token: string, expiresAt: int, app: AppInfo)
    requires Distinct(n) && Documented(n, s) && HostOk(io)
    ensures StatusMatchesToken(cfg, n, AppLogin(cfg, n, s, io, token, expiresAt, app).0) <==> token != ""
  {
    AppLoginDocuments(cfg, n, s, io, token, expiresAt, app);
    DocumentedExactly(cfg, n, AppLogin(cfg, n, s, io, token, expiresAt, app).0);
  }

  // The failing input: an app login with an empty token leaves the profile reported as
  // authenticated and without a token.
  lemma EmptyAppToken(cfg: Config, n: Names, login: IO, expiresAt: int, app: AppInfo, io: IO, force: bool)
    requires Distinct(n) && HostOk(login) && NoPAT(io)
    ensures var s := AppLogin(cfg, n, map[], login, "", expiresAt, app).0;
            GetStatus(cfg, n, s, io).Authenticated? && GetToken(cfg, n, s, io, force).token.Err?
  {
  }
}
