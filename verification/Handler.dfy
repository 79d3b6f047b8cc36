/** The handler itself, in CLI mode: internal/github/cli_mode.go, token.go, cache.go, pat.go,
    app_flow.go and auth_handler.go. Its state is the host's secret map. */
module Handler {
  import opened Types
  import opened SecretKeys
  import opened CredentialStore
  import opened Inventory

  // What the first turns of the purge loop have removed.
  ghost function PurgedAmong(n: Names, s: Store, io: IO, keys: seq<string>): set<string> {
    set key | key in keys && key in s && Purgeable(n, s, io, key)
  }

  // One more turn removes the next key exactly when it is to be purged from what is left.
  lemma PurgeOneMore(n: Names, s: Store, io: IO, keys: seq<string>, i: nat)
    requires NoDuplicates(keys) && i < |keys| && keys[i] in s
    ensures keys[i] in s - PurgedAmong(n, s, io, keys[..i])
    ensures var before, after := PurgedAmong(n, s, io, keys[..i]), PurgedAmong(n, s, io, keys[..i + 1]);
            if Purgeable(n, s - before, io, keys[i])
            then s - after == (s - before) - {keys[i]} && |after| == |before| + 1
            else after == before
  {
    var key, before := keys[i], PurgedAmong(n, s, io, keys[..i]);
    assert keys[..i + 1] == keys[..i] + [key];
    assert key !in keys[..i];
    assert Purgeable(n, s - before, io, key) <==> Purgeable(n, s, io, key);
    if Purgeable(n, s, io, key) {
      assert PurgedAmong(n, s, io, keys[..i + 1]) == before + {key};
    } else {
      assert PurgedAmong(n, s, io, keys[..i + 1]) == before;
    }
  }

  // One turn: the store it leaves, and whether it removed the key.
  ghost function Turn(n: Names, s: Store, io: IO, key: string): (Store, bool)
    requires key in s
  {
    if Purgeable(n, s, io, key) then (s - {key}, true) else (s, false)
  }

  // The store and the count after a turn for each of these keys.
  ghost function PurgeTurns(n: Names, s: Store, io: IO, keys: seq<string>): (Store, nat) {
    if keys == [] then (s, 0)
    else
      var (rest, count) := PurgeTurns(n, s, io, keys[..|keys| - 1]);
      var key := keys[|keys| - 1];
      if key !in rest then (rest, count)
      else var (rest', done) := Turn(n, rest, io, key); (rest', if done then count + 1 else count)
  }

  lemma {:induction false} TurnsRemove(n: Names, s: Store, io: IO, keys: seq<string>)
    requires NoDuplicates(keys) && forall key <- keys :: key in s
    ensures PurgeTurns(n, s, io, keys) == (s - PurgedAmong(n, s, io, keys), |PurgedAmong(n, s, io, keys)|)
    decreases |keys|
  {
    if keys == [] {
      assert PurgedAmong(n, s, io, keys) == {} && s - {} == s;
    } else {
      var last := |keys| - 1;
      TurnsRemove(n, s, io, keys[..last]);
      PurgeOneMore(n, s, io, keys, last);
      assert keys[..last + 1] == keys;
    }
  }

  lemma NextTurn(n: Names, s: Store, io: IO, keys: seq<string>, i: nat)
    requires NoDuplicates(keys) && i < |keys| && forall key <- keys :: key in s
    ensures Turned(n, io, PurgeTurns(n, s, io, keys[..i]), keys[i], PurgeTurns(n, s, io, keys[..i + 1]))
  {
    TurnsRemove(n, s, io, keys[..i]);
    PurgeOneMore(n, s, io, keys, i);
    assert keys[..i + 1][..i] == keys[..i];
  }

  ghost predicate Turned(n: Names, io: IO, a: (Store, nat), key: string, b: (Store, nat)) {
    key in a.0 && var (s, done) := Turn(n, a.0, io, key); b == (s, if done then a.1 + 1 else a.1)
  }

  // The states the purge loop goes through: each follows from the one before it by one turn, and
  // the last is the purge.
  lemma PurgeStates(n: Names, s: Store, io: IO, keys: seq<string>) returns (states: seq<(Store, nat)>)
    requires NoDuplicates(keys) && io.ok(List) && forall key :: key in keys <==> key in s && n.tokenPrefix <= key
    ensures |states| == |keys| + 1 && states[0] == (s, 0)
    ensures forall i :: 0 <= i < |keys| ==> Turned(n, io, states[i], keys[i], states[i + 1])
    ensures Purge(n, s, io) == (states[|keys|].0, Ok(states[|keys|].1))
  {
    states := seq(|keys| + 1, i requires 0 <= i <= |keys| => PurgeTurns(n, s, io, keys[..i]));
    forall i | 0 <= i < |keys|
      ensures Turned(n, io, states[i], keys[i], states[i + 1])
    {
      NextTurn(n, s, io, keys, i);
    }
    TurnsRemove(n, s, io, keys);
    assert keys[..|keys|] == keys && PurgedAmong(n, s, io, keys) == PurgeKeys(n, s, io);
  }

  function Drop(s: Store, key: string, ok: bool): Store {
    if ok then s - {key} else s
  }

  // Clearing the cache and then deleting the three secrets is the logout.
  lemma DeletionsMakeLogout(n: Names, s: Store, cleared: Store, io: IO)
    requires cleared == map key | key in s && !Cleared(n, io, key) :: s[key]
    ensures Drop(Drop(Drop(cleared, n.refresh, io.ok(Delete(n.refresh))), n.access, io.ok(Delete(n.access))),
                 n.metadata, io.ok(Delete(n.metadata)))
            == Logout(n, s, io)
  {
  }

  // What one call of the plugin answers.
  datatype Reply =
    | Refused
    | ClaimsReply(claims: Result<Claims>)
    | TokenReply(request: Option<Request>, issued: Result<Issued>)
    | StatusReply(status: Status)
    | RowsReply(rows: seq<Row>)
    | CountReply(count: Result<nat>)
    | Done

  // A listing is answered in the order the host lists the keys; everything else as it is.
  ghost predicate Replies(outcome: Outcome, reply: Reply) {
    match outcome
    case Rejected => reply == Refused
    case LoggedIn(claims) => reply == ClaimsReply(claims)
    case GotToken(request, issued) => reply == TokenReply(request, issued)
    case GotStatus(status) => reply == StatusReply(status)
    case GotListing(listing) => reply.RowsReply? && Arranged(listing, reply.rows)
    case PurgedTokens(count) => reply == CountReply(count)
    case LoggedOut => reply == Done
  }

  class Plugin {
    const cfg: Config
    var secrets: Store

    constructor (cfg: Config)
      ensures this.cfg == cfg && secrets == map[]
    {
      this.cfg := cfg;
      secrets := map[];
    }

    // ---------- The host ----------

    method SetSecret(key: string, v: Stored, io: IO, ok: bool) returns (done: bool)
      modifies this
      ensures done == ok && secrets == TryWrite(old(secrets), key, v, io, ok)
    {
      if ok {
        secrets := secrets[key := Secret(v, io.step)];
      }
      return ok;
    }

    method DeleteSecret(key: string, ok: bool) returns (done: bool)
      modifies this
      ensures done == ok && secrets == Drop(old(secrets), key, ok)
    {
      if ok {
        secrets := secrets - {key};
      }
      return ok;
    }

    // The matching keys, in any order.
    method ListSecrets(prefix: string) returns (keys: seq<string>)
      ensures NoDuplicates(keys)
      ensures forall key :: key in keys <==> key in secrets && prefix <= key
    {
      keys := [];
      var rest := secrets.Keys;
      while rest != {}
        invariant rest <= secrets.Keys
        invariant NoDuplicates(keys)
        invariant forall key :: key in keys <==> key in secrets && key !in rest && prefix <= key
        decreases rest
      {
        var key :| key in rest;
        if prefix <= key {
          keys := keys + [key];
        }
        rest := rest - {key};
      }
    }

    // ---------- The token cache ----------

    method CacheSet(key: string, token: Token, cachedAt: int, io: IO, ok: bool) returns (done: bool)
      modifies this
      ensures done == ok && secrets == TryWrite(old(secrets), key, EntryJson(token.(cachedAt := cachedAt)), io, ok)
    {
      done := SetSecret(key, EntryJson(token.(cachedAt := cachedAt)), io, ok);
    }

    method CacheClear(n: Names, io: IO)
      modifies this
      ensures secrets == map key | key in old(secrets) && !Cleared(n, io, key) :: old(secrets)[key]
    {
      if !io.ok(List) {
        return;
      }
      var keys := ListSecrets(n.tokenPrefix);
      var i := 0;
      while i < |keys|
        invariant i <= |keys|
        invariant secrets == map key | key in old(secrets) && !(key in keys[..i] && io.ok(Delete(key)))
                               :: old(secrets)[key]
      {
        var _ := DeleteSecret(keys[i], io.ok(Delete(keys[i])));
        assert keys[..i + 1] == keys[..i] + [keys[i]];
        i := i + 1;
      }
      assert keys[..i] == keys;
    }

    method CacheListEntries(n: Names, io: IO) returns (results: Result<seq<Row>>)
      ensures results.Ok? <==> io.ok(List)
      ensures results.Ok? ==> exists keys ::
                Enumerates(keys, CachedRows(n, secrets, io))
                && results.value == RowsOf(CachedRows(n, secrets, io), keys)
    {
      if !io.ok(List) {
        return Err(HostFailure);
      }
      var keys := ListSecrets(n.tokenPrefix);
      ghost var rows := CachedRows(n, secrets, io);
      ghost var listed: seq<string> := [];
      var found: seq<Row> := [];
      var i := 0;
      while i < |keys|
        invariant i <= |keys|
        invariant NoDuplicates(listed)
        invariant forall key :: key in listed <==> key in keys[..i] && key in rows
        invariant found == RowsOf(rows, listed)
      {
        var key := keys[i];
        assert key !in keys[..i] && keys[..i + 1] == keys[..i] + [key];
        i := i + 1;
        var value := Load(secrets, key, io.ok(Get(key)));
        if value.Err? {
          continue;
        }
        var entry := DecodeEntry(value.value);
        if entry.None? {
          continue;
        }
        assert Listable(n, secrets, io, key);
        found := found + [EntryRow(entry.value, io.now(EntryCheck(key)))];
        assert (listed + [key])[..|listed|] == listed;
        listed := listed + [key];
      }
      assert keys[..i] == keys;
      assert Enumerates(listed, rows);
      return Ok(found);
    }

    // One turn of the purge loop.
    method PurgeEntry(n: Names, key: string, io: IO) returns (done: bool)
      requires key in secrets && n.tokenPrefix <= key
      modifies this
      ensures (secrets, done) == Turn(n, old(secrets), io, key)
    {
      var value := Load(secrets, key, io.ok(Get(key)));
      if value.Err? {
        return false;
      }
      var entry := DecodeEntry(value.value);
      if entry.None? {
        return false;
      }
      if entry.value.expiresAt != ZERO_TIME && io.now(EntryCheck(key)) > entry.value.expiresAt {
        done := DeleteSecret(key, io.ok(Delete(key)));
        return done;
      }
      return false;
    }

    method CachePurgeExpired(n: Names, io: IO) returns (count: Result<nat>)
      modifies this
      ensures (secrets, count) == Purge(n, old(secrets), io)
    {
      if !io.ok(List) {
        assert secrets - {} == secrets;
        return Err(HostFailure);
      }
      var keys := ListSecrets(n.tokenPrefix);
      ghost var states := PurgeStates(n, secrets, io, keys);
      var removed := 0;
      var i := 0;
      while i < |keys|
        invariant i <= |keys|
        invariant (secrets, removed) == states[i]
      {
        assert keys[i] in keys && Turned(n, io, states[i], keys[i], states[i + 1]);
        var done := PurgeEntry(n, keys[i], io);
        if done {
          removed := removed + 1;
        }
        i := i + 1;
      }
      return Ok(removed);
    }

    // ---------- Storing credentials ----------

    method StoreCredentials(profile: string, io: IO, answer: TokenAnswer, scopes: seq<string>, sessionID: string,
                            flow: Flow)
        returns (claims: Result<Claims>)
      modifies this
      ensures if !ValidProfile(profile) then claims == Err(InvalidProfile) && secrets == old(secrets)
              else (secrets, claims) == CredentialStore.StoreCredentials(cfg, NamesOf(cfg, profile), old(secrets), io,
                                                                          answer, scopes, sessionID, flow)
    {
      if !ValidProfile(profile) {
        return Err(InvalidProfile);
      }
      var n := NamesOf(cfg, profile);
      if answer.refreshToken != "" {
        var stored := SetSecret(n.refresh, Raw(answer.refreshToken), io, io.ok(Put(n.refresh)));
        if !stored {
          return Err(HostFailure);
        }
      }
      if answer.accessToken != "" {
        var stored := SetSecret(n.access, Raw(answer.accessToken), io, io.ok(Put(n.access)));
        if !stored {
          return Err(HostFailure);
        }
      }
      var metadata := LoginMetadata(cfg, io, answer, scopes, sessionID, flow);
      var stored := SetSecret(n.metadata, MetadataJson(metadata), io, io.ok(Put(n.metadata)));
      if !stored {
        return Err(HostFailure);
      }
      if answer.accessToken != "" {
        var entry := LoginEntry(io, answer, scopes, sessionID, flow);
        var _ := CacheSet(n.defaultEntry, entry, io.now(LoginCachedAt), io, io.ok(Put(n.defaultEntry)));
      }
      return Ok(ClaimsOf(cfg, io));
    }

    // ---------- Getting a token ----------

    method RefreshAccessToken(profile: string, io: IO, refreshToken: string, clientID: string)
        returns (request: Option<Request>, token: Result<Token>)
      requires ValidProfile(profile)
      modifies this
      ensures TokenResult(secrets, request, token) ==
              CredentialStore.RefreshAccessToken(cfg, NamesOf(cfg, profile), old(secrets), io, refreshToken, clientID)
    {
      var n := NamesOf(cfg, profile);
      var metadata := LoadMetadata(secrets, n, io.ok(GetAgain(n.metadata)));
      request := Some(Request(refreshToken, clientID));
      if io.refreshAnswer.None? {
        return request, Err(RefreshRequestFailed);
      }
      var answer := io.refreshAnswer.value;
      if answer.accessToken == "" {
        return request, Err(RefreshRevoked);
      }
      if answer.refreshToken != "" && answer.refreshToken != refreshToken && metadata.Ok? {
        var m := metadata.value;
        var _ := StoreCredentials(profile, io, answer, m.scopes, m.sessionID, m.flow);
      }
      return request, Ok(RefreshedToken(io, answer, metadata));
    }

    method MintToken(profile: string, io: IO) returns (request: Option<Request>, token: Result<Token>)
      requires ValidProfile(profile)
      modifies this
      ensures TokenResult(secrets, request, token)
              == CredentialStore.MintToken(cfg, NamesOf(cfg, profile), old(secrets), io)
    {
      var n := NamesOf(cfg, profile);
      var refresh := Load(secrets, n.refresh, io.ok(Get(n.refresh)));
      if refresh.Err? {
        return None, Err(NotAuthenticated);
      }
      var metadata := LoadMetadata(secrets, n, io.ok(Get(n.metadata)));
      if metadata.Err? {
        return None, Err(metadata.error);
      }
      if metadata.value.clientID == "" {
        return None, Err(MissingClientID);
      }
      request, token := RefreshAccessToken(profile, io, Text(refresh.value), metadata.value.clientID);
    }

    method GetPATToken(profile: string, io: IO, force: bool) returns (issued: Result<Issued>)
      requires ValidProfile(profile)
      modifies this
      ensures TokenResult(secrets, None, issued)
              == CredentialStore.GetPATToken(NamesOf(cfg, profile), old(secrets), io, force)
    {
      var n := NamesOf(cfg, profile);
      if PATFromEnv(io.env) == "" {
        return Err(MissingPAT);
      }
      if !force {
        var cached := CacheGet(secrets, n.patEntry, io.ok(Get(n.patEntry)));
        if cached.Ok? && cached.value.Some? && io.valid(cached.value.value) {
          return Ok(Issue(cached.value.value));
        }
      }
      if io.userClaims.None? {
        return Err(InvalidPAT);
      }
      var token := PATToken(io);
      var _ := CacheSet(n.patEntry, token, io.now(TokenCachedAt), io, io.ok(Put(n.patEntry)));
      return Ok(Issue(token));
    }

    method GetToken(profile: string, io: IO, force: bool) returns (request: Option<Request>, issued: Result<Issued>)
      modifies this
      ensures if !ValidProfile(profile) then issued == Err(InvalidProfile) && request == None && secrets == old(secrets)
              else TokenResult(secrets, request, issued)
                   == CredentialStore.GetToken(cfg, NamesOf(cfg, profile), old(secrets), io, force)
    {
      request := None;
      if !ValidProfile(profile) {
        return None, Err(InvalidProfile);
      }
      if HasPAT(io.env) {
        issued := GetPATToken(profile, io, force);
        return None, issued;
      }
      var n := NamesOf(cfg, profile);
      if !force {
        var cached := CacheGet(secrets, n.defaultEntry, io.ok(Get(n.defaultEntry)));
        if cached.Ok? && cached.value.Some? && io.valid(cached.value.value) {
          return None, Ok(Issue(cached.value.value));
        }
      }
      var access := Load(secrets, n.access, io.ok(Get(n.access)));
      if access.Ok? && Text(access.value) != "" {
        var direct := DirectToken(io, Text(access.value));
        var _ := CacheSet(n.defaultEntry, direct, io.now(TokenCachedAt), io, io.ok(PutAgain(n.defaultEntry)));
        return None, Ok(Issue(direct));
      }
      var token: Result<Token>;
      request, token := MintToken(profile, io);
      if token.Err? {
        return request, Err(token.error);
      }
      var _ := CacheSet(n.defaultEntry, token.value, io.now(TokenCachedAt), io, io.ok(PutAgain(n.defaultEntry)));
      return request, Ok(Issue(token.value));
    }

    // ---------- The other operations ----------

    method AppLogin(profile: string, io: IO, token: string, expiresAt: int, app: AppInfo)
      returns (claims: Result<Claims>)
      modifies this
      ensures if !ValidProfile(profile) then claims == Err(InvalidProfile) && secrets == old(secrets)
              else (secrets, claims)
                   == CredentialStore.AppLogin(cfg, NamesOf(cfg, profile), old(secrets), io, token, expiresAt, app)
    {
      if !ValidProfile(profile) {
        return Err(InvalidProfile);
      }
      var n := NamesOf(cfg, profile);
      var _ := CacheSet(n.appEntry, AppToken(token, expiresAt), io.now(LoginCachedAt), io, io.ok(Put(n.appEntry)));
      var stored := SetSecret(n.access, Raw(token), io, io.ok(Put(n.access)));
      if !stored {
        return Err(HostFailure);
      }
      var metadata := AppMetadata(cfg, io, app);
      stored := SetSecret(n.metadata, MetadataJson(metadata), io, io.ok(Put(n.metadata)));
      if !stored {
        return Err(HostFailure);
      }
      return Ok(metadata.claims.value);
    }

    method GetStatus(profile: string, io: IO) returns (status: Result<Status>)
      ensures status == if !ValidProfile(profile) then Err(InvalidProfile)
                        else Ok(CredentialStore.GetStatus(cfg, NamesOf(cfg, profile), secrets, io))
    {
      if !ValidProfile(profile) {
        return Err(InvalidProfile);
      }
      if HasPAT(io.env) {
        if io.userClaims.None? {
          return Ok(Unauthenticated);
        }
        return Ok(Authenticated(io.userClaims, ZERO_TIME, ZERO_TIME, User, "", cfg.defaultScopes));
      }
      var n := NamesOf(cfg, profile);
      var refresh := Load(secrets, n.refresh, io.ok(Get(n.refresh)));
      var access := Load(secrets, n.access, io.ok(Get(n.access)));
      if refresh.Err? && access.Err? {
        return Ok(Unauthenticated);
      }
      var metadata := LoadMetadata(secrets, n, io.ok(Get(n.metadata)));
      if metadata.Err? {
        return Ok(Unauthenticated);
      }
      var m := metadata.value;
      if m.refreshTokenExpiresAt != ZERO_TIME && io.now(SessionCheck) > m.refreshTokenExpiresAt {
        return Ok(SessionExpired(m.claims));
      }
      return Ok(Authenticated(m.claims, m.refreshTokenExpiresAt, m.lastRefresh, User, m.clientID, m.scopes));
    }

    method ListCachedTokens(profile: string, io: IO) returns (results: Result<seq<Row>>)
      ensures !ValidProfile(profile) ==> results == Err(InvalidProfile)
      ensures ValidProfile(profile)
              ==> results.Ok? && Arranged(ListTokens(NamesOf(cfg, profile), secrets, io), results.value)
    {
      if !ValidProfile(profile) {
        return Err(InvalidProfile);
      }
      var n := NamesOf(cfg, profile);
      var refresh: Option<Row> := None;
      if Load(secrets, n.refresh, io.ok(Get(n.refresh))).Ok? {
        refresh := Some(RefreshRow(io, LoadMetadata(secrets, n, io.ok(Get(n.metadata)))));
      }
      var entries := CacheListEntries(n, io);
      var cachedRows := if entries.Ok? then entries.value else [];
      var direct: Option<Row> := None;
      if Load(secrets, n.access, io.ok(Get(n.access))).Ok? {
        var cached := CacheGet(secrets, n.defaultEntry, io.ok(GetAgain(n.defaultEntry)));
        if cached.Err? || cached.value.None? {
          direct := Some(DirectRow(LoadMetadata(secrets, n, io.ok(GetAgain(n.metadata)))));
        }
      }
      ghost var listing := ListTokens(n, secrets, io);
      assert Arranged(listing, Singleton(refresh) + cachedRows + Singleton(direct)) by {
        if entries.Ok? {
          var keys :| Enumerates(keys, listing.cached) && cachedRows == RowsOf(listing.cached, keys);
        } else {
          assert Enumerates([], listing.cached) && cachedRows == RowsOf(listing.cached, []);
        }
      }
      return Ok(Singleton(refresh) + cachedRows + Singleton(direct));
    }

    method PurgeExpiredTokens(profile: string, io: IO) returns (count: Result<nat>)
      modifies this
      ensures if !ValidProfile(profile) then count == Err(InvalidProfile) && secrets == old(secrets)
              else (secrets, count) == Purge(NamesOf(cfg, profile), old(secrets), io)
    {
      if !ValidProfile(profile) {
        return Err(InvalidProfile);
      }
      count := CachePurgeExpired(NamesOf(cfg, profile), io);
    }

    method LogoutInternal(profile: string, io: IO) returns (done: bool)
      modifies this
      ensures done == ValidProfile(profile)
      ensures secrets == if done then Logout(NamesOf(cfg, profile), old(secrets), io) else old(secrets)
    {
      if !ValidProfile(profile) {
        return false;
      }
      var n := NamesOf(cfg, profile);
      CacheClear(n, io);
      DeletionsMakeLogout(n, old(secrets), secrets, io);
      var _ := DeleteSecret(n.refresh, io.ok(Delete(n.refresh)));
      var _ := DeleteSecret(n.access, io.ok(Delete(n.access)));
      var _ := DeleteSecret(n.metadata, io.ok(Delete(n.metadata)));
      return true;
    }

    // ---------- The entry points ----------

    // One call of the plugin is one step of a run.
    method Call(step: Step) returns (reply: Reply)
      modifies this
      ensures secrets == Take(cfg, old(secrets), step).0
      ensures Replies(Take(cfg, old(secrets), step).1, reply)
    {
      var profile, io := step.profile, step.io;
      if !ValidProfile(profile) {
        return Refused;
      }
      match step.op {
        case DoLogin(answer, scopes, flow) =>
          var claims := StoreCredentials(profile, io, answer, scopes, "", flow);
          return ClaimsReply(claims);
        case DoAppLogin(token, expiresAt, app) =>
          var claims := AppLogin(profile, io, token, expiresAt, app);
          return ClaimsReply(claims);
        case DoGetToken(force) =>
          var request, issued := GetToken(profile, io, force);
          return TokenReply(request, issued);
        case DoStatus =>
          var status := GetStatus(profile, io);
          return StatusReply(status.value);
        case DoList =>
          var results := ListCachedTokens(profile, io);
          return RowsReply(results.value);
        case DoPurge =>
          var count := PurgeExpiredTokens(profile, io);
          return CountReply(count);
        case DoLogout =>
          var _ := LogoutInternal(profile, io);
          return Done;
      }
    }
  }
}
