/** The default cache entry under a host that may refuse: which steps make it disagree with the
    access secret it shadows, and that no other does. */
module CacheUpkeep {
  import opened Types
  import opened SecretKeys
  import opened CredentialStore
  import opened Frames
  import opened Coherence
  import opened Minting
  import KeyEncoding

  // The default entry holds another token.
  predicate HoldsOther(n: Names, s: Store, token: string) {
    && n.defaultEntry in s && DecodeEntry(s[n.defaultEntry].value).Some?
    && DecodeEntry(s[n.defaultEntry].value).value.accessToken != token
  }

  // storeCredentials gets as far as writing the access secret, and as far as writing the entry.
  predicate WritesAccess(n: Names, io: IO, answer: TokenAnswer) {
    (answer.refreshToken != "" ==> io.ok(Put(n.refresh))) && io.ok(Put(n.access))
  }

  predicate WritesEntry(n: Names, io: IO) {
    io.ok(Put(n.metadata)) && io.ok(Put(n.defaultEntry))
  }

  // A refresh makes the two differ in one of two ways: a rotation stores the new access token
  // and neither cache write goes through, or no access token is stored and GetToken caches the
  // new one.
  predicate MintUncaches(n: Names, s: Store, io: IO)
    requires n.refresh in s
  {
    && io.refreshAnswer.Some? && io.refreshAnswer.value.accessToken != ""
    && var answer := io.refreshAnswer.value;
       var rotates := Rotates(answer, Text(s[n.refresh].value)) && io.ok(GetAgain(n.metadata));
       if rotates && WritesAccess(n, io, answer)
       then !WritesEntry(n, io) && !io.ok(PutAgain(n.defaultEntry)) && HoldsOther(n, s, answer.accessToken)
       else io.ok(PutAgain(n.defaultEntry)) && !(n.access in s && s[n.access].value == Raw(answer.accessToken))
  }

  // The steps that leave the default entry with another token than the access secret.
  predicate Uncaches(n: Names, s: Store, op: Op, io: IO) {
    match op
    case DoLogin(answer, _, _) =>
      WritesAccess(n, io, answer) && !WritesEntry(n, io) && HoldsOther(n, s, answer.accessToken)
    case DoAppLogin(token, _, _) => io.ok(Put(n.access)) && HoldsOther(n, s, token)
    case DoGetToken(force) => Sends(n, s, io, force) && MintUncaches(n, s, io)
    case DoLogout =>
      n.defaultEntry in s && io.ok(Delete(n.access)) && !(io.ok(List) && io.ok(Delete(n.defaultEntry)))
    case _ => false
  }

  lemma LoginKeepsCacheExactly(cfg: Config, n: Names, s: Store, io: IO,
                               answer: TokenAnswer, scopes: seq<string>, sessionID: string, flow: Flow)
    requires Distinct(n) && CacheBacked(n, s) && answer.accessToken != ""
    ensures CacheBacked(n, StoreCredentials(cfg, n, s, io, answer, scopes, sessionID, flow).0)
            <==> !(WritesAccess(n, io, answer) && !WritesEntry(n, io) && HoldsOther(n, s, answer.accessToken))
  {
  }

  lemma AppLoginKeepsCacheExactly(cfg: Config, n: Names, s: Store, io: IO, token: string, expiresAt: int, app: AppInfo)
    requires Distinct(n) && CacheBacked(n, s)
    ensures CacheBacked(n, AppLogin(cfg, n, s, io, token, expiresAt, app).0)
            <==> !(io.ok(Put(n.access)) && HoldsOther(n, s, token))
  {
  }

  lemma LogoutKeepsCacheExactly(n: Names, s: Store, io: IO)
    requires Distinct(n) && CacheBacked(n, s)
    ensures CacheBacked(n, Logout(n, s, io))
            <==> !(n.defaultEntry in s && io.ok(Delete(n.access)) && !(io.ok(List) && io.ok(Delete(n.defaultEntry))))
  {
  }

  lemma PurgeKeepsCache(n: Names, s: Store, io: IO)
    requires Distinct(n) && CacheBacked(n, s)
    ensures CacheBacked(n, Purge(n, s, io).0)
  {
  }

  // ---------- GetToken ----------

  lemma QuietGetTokenKeepsCache(cfg: Config, n: Names, s: Store, io: IO, force: bool)
    requires Distinct(n) && Plain(n, s) && CacheBacked(n, s) && !Sends(n, s, io, force)
    ensures CacheBacked(n, GetToken(cfg, n, s, io, force).store)
  {
    PATTokenFrame(n, s, io, force, n.defaultEntry);
    PATTokenFrame(n, s, io, force, n.access);
  }

  // What a request whose answer is a token leaves: the store after the rotation, if any, with
  // the token cached if the host lets it.
  lemma SendingGetToken(cfg: Config, n: Names, s: Store, io: IO, force: bool)
    requires Sends(n, s, io, force)
    ensures var minted := MintToken(cfg, n, s, io);
            GetToken(cfg, n, s, io, force).store
            == if minted.token.Ok? then CacheToken(n, minted.store, io, minted.token.value) else minted.store
    ensures MintToken(cfg, n, s, io).token.Ok?
            <==> io.refreshAnswer.Some? && io.refreshAnswer.value.accessToken != ""
    ensures MintToken(cfg, n, s, io).token.Ok?
            ==> MintToken(cfg, n, s, io).token.value.accessToken == io.refreshAnswer.value.accessToken
    ensures MintToken(cfg, n, s, io).token.Err? ==> MintToken(cfg, n, s, io).store == s
  {
  }

  lemma CacheTokenKeepsExactly(n: Names, s: Store, io: IO, token: Token)
    requires Distinct(n) && token.accessToken != ""
    ensures CacheBacked(n, CacheToken(n, s, io, token))
            <==> if io.ok(PutAgain(n.defaultEntry)) then n.access in s && s[n.access].value == Raw(token.accessToken)
                 else CacheBacked(n, s)
  {
  }

  // The access secret after a successful refresh: the new token exactly where the rotation got
  // as far as writing it.
  lemma AccessAfterMint(cfg: Config, n: Names, s: Store, io: IO, force: bool)
    requires Distinct(n) && Sends(n, s, io, force)
    requires io.refreshAnswer.Some? && io.refreshAnswer.value.accessToken != ""
    ensures var s', answer := MintToken(cfg, n, s, io).store, io.refreshAnswer.value;
            if Rotates(answer, Text(s[n.refresh].value)) && io.ok(GetAgain(n.metadata)) && WritesAccess(n, io, answer)
            then n.access in s' && s'[n.access].value == Raw(answer.accessToken)
            else SameAt(n.access, s, s')
  {
  }

  lemma CacheAfterMint(cfg: Config, n: Names, s: Store, io: IO, force: bool)
    requires Distinct(n) && CacheBacked(n, s) && Sends(n, s, io, force)
    requires io.refreshAnswer.Some? && io.refreshAnswer.value.accessToken != ""
    ensures var answer := io.refreshAnswer.value;
            CacheBacked(n, MintToken(cfg, n, s, io).store)
            <==> !(&& Rotates(answer, Text(s[n.refresh].value)) && io.ok(GetAgain(n.metadata))
                   && WritesAccess(n, io, answer) && !WritesEntry(n, io) && HoldsOther(n, s, answer.accessToken))
  {
    var metadata := LoadMetadata(s, n, io.ok(GetAgain(n.metadata)));
    if metadata.Ok? {
      var m := metadata.value;
      LoginKeepsCacheExactly(cfg, n, s, io, io.refreshAnswer.value, m.scopes, m.sessionID, m.flow);
    }
  }

  lemma GetTokenKeepsCacheExactly(cfg: Config, n: Names, s: Store, io: IO, force: bool)
    requires Distinct(n) && Plain(n, s) && CacheBacked(n, s)
    ensures CacheBacked(n, GetToken(cfg, n, s, io, force).store)
            <==> !(Sends(n, s, io, force) && MintUncaches(n, s, io))
  {
    if !Sends(n, s, io, force) {
      QuietGetTokenKeepsCache(cfg, n, s, io, force);
    } else {
      SendingGetToken(cfg, n, s, io, force);
      var minted := MintToken(cfg, n, s, io);
      if minted.token.Ok? {
        AccessAfterMint(cfg, n, s, io, force);
        CacheAfterMint(cfg, n, s, io, force);
        CacheTokenKeepsExactly(n, minted.store, io, minted.token.value);
      }
    }
  }

  // Whatever the host refuses, a step keeps the default entry in agreement with the access
  // secret exactly when it is none of these.
  lemma StepKeepsCacheExactly(cfg: Config, n: Names, s: Store, op: Op, io: IO)
    requires Distinct(n) && Plain(n, s) && CacheBacked(n, s) && Plausible(op)
    ensures CacheBacked(n, Perform(cfg, n, s, op, io).0) <==> !Uncaches(n, s, op, io)
  {
    match op
    case DoLogin(answer, scopes, flow) => LoginKeepsCacheExactly(cfg, n, s, io, answer, scopes, "", flow);
    case DoAppLogin(token, expiresAt, app) => AppLoginKeepsCacheExactly(cfg, n, s, io, token, expiresAt, app);
    case DoGetToken(force) => GetTokenKeepsCacheExactly(cfg, n, s, io, force);
    case DoPurge => PurgeKeepsCache(n, s, io);
    case DoLogout => LogoutKeepsCacheExactly(n, s, io);
    case _ =>
  }

  // ---------- Runs ----------

  // No step of p along the run strands a refresh token or makes the cache disagree.
  ghost predicate NothingLost(cfg: Config, p: string, s: Store, steps: seq<Step>)
    decreases |steps|
  {
    steps == []
    || (&& (steps[0].profile == p ==>
              && Plausible(steps[0].op)
              && !Strands(NamesOf(cfg, p), s, steps[0].op, steps[0].io)
              && !Uncaches(NamesOf(cfg, p), s, steps[0].op, steps[0].io))
        && NothingLost(cfg, p, Take(cfg, s, steps[0]).0, steps[1..]))
  }

  lemma StepStaysCoherent(cfg: Config, p: string, s: Store, step: Step)
    requires ValidProfile(p) && Coherent(NamesOf(cfg, p), s) && !WipesOut(step, p)
    requires step.profile == p ==>
               && Plausible(step.op)
               && !Strands(NamesOf(cfg, p), s, step.op, step.io)
               && !Uncaches(NamesOf(cfg, p), s, step.op, step.io)
    ensures Coherent(NamesOf(cfg, p), Take(cfg, s, step).0)
  {
    var n := NamesOf(cfg, p);
    if step.profile == p {
      KeyEncoding.NamesDistinct(cfg, p);
      StepKeepsBackingExactly(cfg, n, s, step.op, step.io);
      StepKeepsCacheExactly(cfg, n, s, step.op, step.io);
    } else {
      OtherStepKeepsBacking(cfg, p, s, step);
      OtherStepSpares(cfg, p, s, step, n.access);
      OtherStepSpares(cfg, p, s, step, n.defaultEntry);
    }
  }

  lemma {:induction false} RunStaysCoherent(cfg: Config, p: string, s: Store, steps: seq<Step>)
    requires ValidProfile(p) && Coherent(NamesOf(cfg, p), s) && NothingLost(cfg, p, s, steps)
    requires forall step <- steps :: !WipesOut(step, p)
    ensures Coherent(NamesOf(cfg, p), Run(cfg, s, steps))
    decreases |steps|
  {
    if steps != [] {
      assert steps[0] in steps;
      StepStaysCoherent(cfg, p, s, steps[0]);
      RunStaysCoherent(cfg, p, Take(cfg, s, steps[0]).0, steps[1..]);
    }
  }

  // Over any run from an empty store, whatever the host refuses, as long as no step of the
  // profile is one of those, skipping the cache changes neither success nor the access token.
  lemma CacheAgreesUnderFailures(cfg: Config, p: string, steps: seq<Step>)
    requires ValidProfile(p) && NothingLost(cfg, p, map[], steps)
    requires forall step <- steps :: !WipesOut(step, p)
    ensures CacheAgrees(cfg, NamesOf(cfg, p), Run(cfg, map[], steps))
  {
    RunStaysCoherent(cfg, p, map[], steps);
    CoherentAgrees(cfg, NamesOf(cfg, p), Run(cfg, map[], steps));
  }

  // ---------- A run in which they disagree ----------

  // After a first login, a second whose host refuses only the cache write succeeds, and GetToken
  // answers the first token from the cache and the second when forced.
  lemma RefusedCacheWrite(cfg: Config, n: Names, before: Store, first: IO, second: IO, a: TokenAnswer, b: TokenAnswer,
                          scopes: seq<string>, flow: Flow)
    requires Distinct(n) && HostOk(first) && (forall site :: second.ok(site) <==> site != Put(n.defaultEntry))
    requires a.accessToken != "" && b.accessToken != "" && a.accessToken != b.accessToken
    ensures var s := StoreCredentials(cfg, n, before, first, a, scopes, "", flow).0;
            var r := StoreCredentials(cfg, n, s, second, b, scopes, "", flow);
            r.1.Ok? && !CacheAgrees(cfg, n, r.0)
  {
    var s := StoreCredentials(cfg, n, before, first, a, scopes, "", flow).0;
    var s' := StoreCredentials(cfg, n, s, second, b, scopes, "", flow).0;
    assert s'[n.defaultEntry] == s[n.defaultEntry];
    var always := first.(valid := _ => true, env := Environment("", ""));
    assert NoPAT(always) && !Agrees(cfg, n, s', always, always);
  }
}
