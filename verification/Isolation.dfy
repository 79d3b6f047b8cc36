/** Profiles do not interfere: what a profile observes over a run does not depend on the steps
    of other profiles, exactly when no profile pair is the default profile and "token". */
module Isolation {
  import opened Types
  import opened SecretKeys
  import opened CredentialStore
  import opened Frames
  import KeyEncoding

  // Two stores look the same to a profile.
  ghost predicate Agree(n: Names, s: Store, t: Store) {
    forall key :: Owns(n, key) ==> SameAt(key, s, t)
  }

  // An operation leaves every key its profile does not own as it was.
  lemma TouchesOnlyOwnKeys(cfg: Config, n: Names, s: Store, op: Op, io: IO, key: string)
    requires Distinct(n) && !Owns(n, key)
    ensures SameAt(key, s, Perform(cfg, n, s, op, io).0)
  {
    Untouched(cfg, n, s, op, io, key);
  }

  lemma SameLoads(n: Names, s: Store, t: Store)
    requires Distinct(n) && Agree(n, s, t)
    ensures SameAt(n.refresh, s, t) && SameAt(n.access, s, t) && SameAt(n.metadata, s, t)
    ensures SameAt(n.defaultEntry, s, t) && SameAt(n.patEntry, s, t)
  {
  }

  lemma SameWrite(n: Names, s: Store, t: Store, key: string, v: Stored, io: IO, ok: bool)
    requires Agree(n, s, t)
    ensures Agree(n, TryWrite(s, key, v, io, ok), TryWrite(t, key, v, io, ok))
  {
  }

  lemma SameStoreCredentials(cfg: Config, n: Names, s: Store, t: Store, io: IO,
                             answer: TokenAnswer, scopes: seq<string>, sessionID: string, flow: Flow)
    requires Agree(n, s, t)
    ensures var a, b := StoreCredentials(cfg, n, s, io, answer, scopes, sessionID, flow),
                        StoreCredentials(cfg, n, t, io, answer, scopes, sessionID, flow);
            a.1 == b.1 && Agree(n, a.0, b.0)
  {
    var refresh, access := answer.refreshToken != "", answer.accessToken != "";
    var metadata := MetadataJson(LoginMetadata(cfg, io, answer, scopes, sessionID, flow));
    var entry := EntryJson(LoginEntry(io, answer, scopes, sessionID, flow));
    var s1 := TryWrite(s, n.refresh, Raw(answer.refreshToken), io, refresh);
    var t1 := TryWrite(t, n.refresh, Raw(answer.refreshToken), io, refresh);
    SameWrite(n, s, t, n.refresh, Raw(answer.refreshToken), io, refresh);
    var s2 := TryWrite(s1, n.access, Raw(answer.accessToken), io, access);
    var t2 := TryWrite(t1, n.access, Raw(answer.accessToken), io, access);
    SameWrite(n, s1, t1, n.access, Raw(answer.accessToken), io, access);
    SameWrite(n, s2, t2, n.metadata, metadata, io, true);
    SameWrite(n, Write(s2, n.metadata, metadata, io), Write(t2, n.metadata, metadata, io), n.defaultEntry, entry, io,
              access && io.ok(Put(n.defaultEntry)));
  }

  lemma SameMintToken(cfg: Config, n: Names, s: Store, t: Store, io: IO)
    requires Distinct(n) && Agree(n, s, t)
    ensures var a, b := MintToken(cfg, n, s, io), MintToken(cfg, n, t, io);
            a.request == b.request && a.token == b.token && Agree(n, a.store, b.store)
  {
    SameLoads(n, s, t);
    var metadata := LoadMetadata(s, n, io.ok(GetAgain(n.metadata)));
    if metadata.Ok? && io.refreshAnswer.Some? {
      SameStoreCredentials(cfg, n, s, t, io, io.refreshAnswer.value, metadata.value.scopes,
                           metadata.value.sessionID, metadata.value.flow);
    }
  }

  lemma SamePATToken(n: Names, s: Store, t: Store, io: IO, force: bool)
    requires Distinct(n) && Agree(n, s, t)
    ensures var a, b := GetPATToken(n, s, io, force), GetPATToken(n, t, io, force);
            a.request == b.request && a.token == b.token && Agree(n, a.store, b.store)
  {
    SameLoads(n, s, t);
    SameWrite(n, s, t, n.patEntry, EntryJson(PATToken(io).(cachedAt := io.now(TokenCachedAt))), io,
              io.ok(Put(n.patEntry)));
  }

  lemma SameStoredToken(cfg: Config, n: Names, s: Store, t: Store, io: IO, force: bool)
    requires Distinct(n) && Agree(n, s, t)
    ensures var a, b := GetStoredToken(cfg, n, s, io, force), GetStoredToken(cfg, n, t, io, force);
            a.request == b.request && a.token == b.token && Agree(n, a.store, b.store)
  {
    SameLoads(n, s, t);
    var cached := CacheGet(s, n.defaultEntry, io.ok(Get(n.defaultEntry)));
    var access := Load(s, n.access, io.ok(Get(n.access)));
    assert cached == CacheGet(t, n.defaultEntry, io.ok(Get(n.defaultEntry)));
    assert access == Load(t, n.access, io.ok(Get(n.access)));
    if !force && cached.Ok? && cached.value.Some? && io.valid(cached.value.value) {
    } else if access.Ok? && Text(access.value) != "" {
      SameCacheToken(n, s, t, io, DirectToken(io, Text(access.value)));
    } else {
      SameMintToken(cfg, n, s, t, io);
      var a, b := MintToken(cfg, n, s, io), MintToken(cfg, n, t, io);
      if a.token.Ok? {
        SameCacheToken(n, a.store, b.store, io, a.token.value);
      }
    }
  }

  lemma SameGetToken(cfg: Config, n: Names, s: Store, t: Store, io: IO, force: bool)
    requires Distinct(n) && Agree(n, s, t)
    ensures var a, b := GetToken(cfg, n, s, io, force), GetToken(cfg, n, t, io, force);
            a.request == b.request && a.token == b.token && Agree(n, a.store, b.store)
  {
    if HasPAT(io.env) {
      SamePATToken(n, s, t, io, force);
    } else {
      SameStoredToken(cfg, n, s, t, io, force);
    }
  }

  lemma SameCacheToken(n: Names, s: Store, t: Store, io: IO, token: Token)
    requires Agree(n, s, t)
    ensures Agree(n, CacheToken(n, s, io, token), CacheToken(n, t, io, token))
  {
    SameWrite(n, s, t, n.defaultEntry, EntryJson(token.(cachedAt := io.now(TokenCachedAt))), io,
              io.ok(PutAgain(n.defaultEntry)));
  }

  lemma SameAppLogin(cfg: Config, n: Names, s: Store, t: Store, io: IO, token: string, expiresAt: int, app: AppInfo)
    requires Distinct(n) && Agree(n, s, t)
    ensures AppLogin(cfg, n, s, io, token, expiresAt, app).1 == AppLogin(cfg, n, t, io, token, expiresAt, app).1
    ensures Agree(n, AppLogin(cfg, n, s, io, token, expiresAt, app).0, AppLogin(cfg, n, t, io, token, expiresAt, app).0)
  {
  }

  lemma SameReports(cfg: Config, n: Names, s: Store, t: Store, io: IO)
    requires Distinct(n) && Agree(n, s, t)
    ensures GetStatus(cfg, n, s, io) == GetStatus(cfg, n, t, io)
    ensures ListTokens(n, s, io) == ListTokens(n, t, io)
    ensures Purge(n, s, io).1 == Purge(n, t, io).1
    ensures Agree(n, Purge(n, s, io).0, Purge(n, t, io).0)
    ensures Agree(n, Logout(n, s, io), Logout(n, t, io))
  {
    SameLoads(n, s, t);
    SameSets(n, s, t, io);
  }

  lemma SameSets(n: Names, s: Store, t: Store, io: IO)
    requires Distinct(n) && Agree(n, s, t)
    ensures PurgeKeys(n, s, io) == PurgeKeys(n, t, io)
    ensures CachedRows(n, s, io) == CachedRows(n, t, io)
  {
    forall key
      ensures Listable(n, s, io, key) <==> Listable(n, t, io, key)
      ensures Purgeable(n, s, io, key) <==> Purgeable(n, t, io, key)
      ensures Listable(n, s, io, key) ==> s[key] == t[key]
    {
      assert Owns(n, key) ==> SameAt(key, s, t);
    }
  }

  // What an operation answers, and what it leaves for its profile, depend on that profile's
  // keys alone.
  lemma DependsOnOwnKeys(cfg: Config, n: Names, s: Store, t: Store, op: Op, io: IO)
    requires Distinct(n) && Agree(n, s, t)
    ensures Perform(cfg, n, s, op, io).1 == Perform(cfg, n, t, op, io).1
    ensures Agree(n, Perform(cfg, n, s, op, io).0, Perform(cfg, n, t, op, io).0)
  {
    match op
    case DoLogin(answer, scopes, flow) => SameStoreCredentials(cfg, n, s, t, io, answer, scopes, "", flow);
    case DoAppLogin(token, expiresAt, app) => SameAppLogin(cfg, n, s, t, io, token, expiresAt, app);
    case DoGetToken(force) => SameGetToken(cfg, n, s, t, io, force);
    case _ => SameReports(cfg, n, s, t, io);
  }

  // ---------- Runs ----------

  function Only(q: string, steps: seq<Step>): seq<Step> {
    if steps == [] then []
    else (if steps[0].profile == q then [steps[0]] else []) + Only(q, steps[1..])
  }

  function Seen(q: string, outcomes: seq<(string, Outcome)>): seq<(string, Outcome)> {
    if outcomes == [] then []
    else (if outcomes[0].0 == q then [outcomes[0]] else []) + Seen(q, outcomes[1..])
  }

  // Deleting the steps of all other profiles changes nothing that q can observe.
  ghost predicate Unaffected(cfg: Config, q: string, s: Store, t: Store, steps: seq<Step>) {
    && Seen(q, Outcomes(cfg, s, steps)) == Outcomes(cfg, t, Only(q, steps))
    && Agree(NamesOf(cfg, q), Run(cfg, s, steps), Run(cfg, t, Only(q, steps)))
  }

  lemma OthersAreInvisible(cfg: Config, q: string, s: Store, step: Step)
    requires ValidProfile(q) && step.profile != q && !KeyEncoding.Overlapping(step.profile, q)
    ensures Agree(NamesOf(cfg, q), s, Take(cfg, s, step).0)
  {
    if ValidProfile(step.profile) {
      KeyEncoding.NamesDistinct(cfg, step.profile);
      KeyEncoding.OverlapExactly(cfg, step.profile, q);
      forall key | Owns(NamesOf(cfg, q), key)
        ensures SameAt(key, s, Take(cfg, s, step).0)
      {
        TouchesOnlyOwnKeys(cfg, NamesOf(cfg, step.profile), s, step.op, step.io, key);
      }
    }
  }

  lemma {:induction false} NonInterference(cfg: Config, q: string, s: Store, t: Store, steps: seq<Step>)
    requires ValidProfile(q) && Agree(NamesOf(cfg, q), s, t)
    requires forall step <- steps :: !KeyEncoding.Overlapping(step.profile, q)
    ensures Unaffected(cfg, q, s, t, steps)
    decreases |steps|
  {
    if steps != [] {
      var step, rest := steps[0], steps[1..];
      var s' := Take(cfg, s, step).0;
      if step.profile == q {
        KeyEncoding.NamesDistinct(cfg, q);
        DependsOnOwnKeys(cfg, NamesOf(cfg, q), s, t, step.op, step.io);
        NonInterference(cfg, q, s', Take(cfg, t, step).0, rest);
        assert Only(q, steps)[0] == step && Only(q, steps)[1..] == Only(q, rest);
      } else {
        OthersAreInvisible(cfg, q, s, step);
        NonInterference(cfg, q, s', t, rest);
        assert Only(q, steps) == Only(q, rest);
      }
      var outcomes := Outcomes(cfg, s, steps);
      assert outcomes[1..] == Outcomes(cfg, s', rest);
    }
  }

  // ---------- The pair that does interfere ----------

  ghost predicate Isolated(cfg: Config, p: string, q: string) {
    forall s: Store, steps: seq<Step> :: (forall step <- steps :: step.profile in {p, q})
      ==> Unaffected(cfg, q, s, s, steps)
  }

  // A quiet world: the host never fails, the clock stands still, nothing is fresh.
  function QuietIO(): IO {
    IO(_ => true, _ => 0, _ => true, None, None, "session", Environment("", ""), 0)
  }

  // Isolation holds exactly for the pairs of profiles that share no keys. The default
  // profile's logout deletes the secrets of "token"; a login of "token" shows up in the
  // default profile's listing.
  lemma IsolatedExactly(cfg: Config, p: string, q: string)
    requires ValidProfile(p) && ValidProfile(q) && p != q
    ensures Isolated(cfg, p, q) <==> !KeyEncoding.Overlapping(p, q)
  {
    if KeyEncoding.Overlapping(p, q) {
      var login := DoLogin(TokenAnswer("t", "", "bearer", "", 0, 0), [], DeviceCode);
      LoginShows(cfg, map[], Step("token", login, QuietIO()));
      LogoutReaches(cfg);
    } else {
      forall s: Store, steps: seq<Step> | forall step <- steps :: step.profile in {p, q}
        ensures Unaffected(cfg, q, s, s, steps)
      {
        NonInterference(cfg, q, s, s, steps);
      }
    }
  }

  lemma LoginStores(cfg: Config, n: Names, s: Store, io: IO, answer: TokenAnswer, scopes: seq<string>, flow: Flow)
    requires HostOk(io) && answer.accessToken != ""
    ensures n.access in StoreCredentials(cfg, n, s, io, answer, scopes, "", flow).0
  {
  }

  lemma LogoutForgets(n: Names, s: Store, io: IO, key: string)
    requires HostOk(io) && n.tokenPrefix <= key
    ensures key !in Logout(n, s, io)
  {
  }

  // The access secret of "token" lies under the default profile's prefix.
  lemma SharedKey(cfg: Config)
    ensures NamesOf(cfg, "").tokenPrefix <= NamesOf(cfg, "token").access
  {
    KeyEncoding.PrefixMeansOwner("", "token", KeyEncoding.AccessSlot);
  }

  // A login of "token" changes what the default profile can see.
  lemma LoginShows(cfg: Config, s: Store, login: Step)
    requires login.profile == "token" && login.op.DoLogin? && login.op.answer.accessToken != "" && HostOk(login.io)
    requires NamesOf(cfg, "token").access !in s
    ensures !Isolated(cfg, "token", "")
  {
    SharedKey(cfg);
    LoginStores(cfg, NamesOf(cfg, "token"), s, login.io, login.op.answer, login.op.scopes, login.op.flow);
    Undone(cfg, "", s, [login], NamesOf(cfg, "token").access);
  }

  // What it shows is the session itself: the metadata of "token" decodes as a cache entry
  // without token, and is listed as one that never expires and no purge removes.
  lemma ForeignMetadata(cfg: Config, q: string, s: Store, login: Step, io: IO)
    requires login.profile == q == "token" && login.op.DoLogin? && login.op.answer.accessToken != ""
    requires HostOk(login.io) && HostOk(io)
    ensures var n, key, s' := NamesOf(cfg, ""), NamesOf(cfg, q).metadata, Take(cfg, s, login).0;
            && key in ListTokens(n, s', io).cached
            && ListTokens(n, s', io).cached[key]
               == Row(AccessKind, "", "", login.op.flow, 0, 0, false, login.io.freshID)
            && key in Purge(n, s', io).0
  {
    KeyEncoding.NamesDistinct(cfg, q);
    KeyEncoding.PrefixMeansOwner("", q, KeyEncoding.MetadataSlot);
    KeyEncoding.NamesAreKeys(cfg, q);
    KeyEncoding.NamesAreKeys(cfg, "");
    MetadataListed(NamesOf(cfg, ""), NamesOf(cfg, q), cfg, s, login.io, login.op.answer, login.op.scopes,
                   login.op.flow, io);
  }

  lemma MetadataListed(n: Names, m: Names, cfg: Config, s: Store, login: IO,
                       answer: TokenAnswer, scopes: seq<string>, flow: Flow, io: IO)
    requires Distinct(m) && n.tokenPrefix <= m.metadata && HostOk(login) && HostOk(io)
    ensures var s' := StoreCredentials(cfg, m, s, login, answer, scopes, "", flow).0;
            && m.metadata in ListTokens(n, s', io).cached
            && ListTokens(n, s', io).cached[m.metadata]
               == Row(AccessKind, "", "", flow, 0, 0, false, login.freshID)
            && m.metadata in Purge(n, s', io).0
  {
    assert Listable(n, StoreCredentials(cfg, m, s, login, answer, scopes, "", flow).0, io, m.metadata);
  }

  // A logout of the default profile takes the secrets of "token" with it.
  lemma LogoutReaches(cfg: Config)
    ensures !Isolated(cfg, "", "token")
  {
    var key, io := NamesOf(cfg, "token").access, QuietIO();
    var s: Store := map[key := Secret(Raw("t"), 0)];
    SharedKey(cfg);
    LogoutForgets(NamesOf(cfg, ""), s, io, key);
    Undone(cfg, "token", s, [Step("", DoLogout, io)], key);
  }

  lemma Undone(cfg: Config, q: string, s: Store, steps: seq<Step>, key: string)
    requires |steps| == 1 && steps[0].profile != q && Owns(NamesOf(cfg, q), key)
    requires key in s <==> key !in Take(cfg, s, steps[0]).0
    ensures !Unaffected(cfg, q, s, s, steps)
  {
    assert Run(cfg, s, steps) == Take(cfg, s, steps[0]).0;
    assert Only(q, steps) == [];
    assert !SameAt(key, Run(cfg, s, steps), s);
  }
}
