/** The token cache agrees with the secrets it shadows, and GetToken never has to mint, in
    every state the handler reaches with a host that does not fail. */
module Coherence {
  import opened Types
  import opened SecretKeys
  import opened CredentialStore
  import opened Frames
  import KeyEncoding

  // Token secrets are plain text.
  ghost predicate Plain(n: Names, s: Store) {
    && (n.refresh in s ==> s[n.refresh].value.Raw?)
    && (n.access in s ==> s[n.access].value.Raw?)
  }

  // A refresh token never stands alone.
  ghost predicate RefreshBacked(n: Names, s: Store) {
    Plain(n, s) && (n.refresh in s ==> n.access in s && Text(s[n.access].value) != "")
  }

  // The default cache entry shadows the access secret.
  ghost predicate CacheBacked(n: Names, s: Store) {
    n.defaultEntry in s ==>
      && s[n.defaultEntry].value.EntryJson?
      && n.access in s
      && s[n.access].value == Raw(s[n.defaultEntry].value.token.accessToken)
      && s[n.defaultEntry].value.token.accessToken != ""
  }

  ghost predicate Coherent(n: Names, s: Store) {
    RefreshBacked(n, s) && CacheBacked(n, s)
  }

  // ---------- GetToken in a coherent state ----------

  lemma NothingToMint(cfg: Config, n: Names, s: Store, io: IO, force: bool)
    requires RefreshBacked(n, s) && HostOk(io)
    ensures GetToken(cfg, n, s, io, force).request == None
    ensures n.refresh in s && !HasPAT(io.env) ==> GetToken(cfg, n, s, io, force).token.Ok?
  {
  }

  // With and without ForceRefresh, whatever the clock says in between.
  ghost predicate Agrees(cfg: Config, n: Names, s: Store, io: IO, io': IO) {
    var a, b := GetToken(cfg, n, s, io, false).token, GetToken(cfg, n, s, io', true).token;
    (a.Ok? <==> b.Ok?) && (a.Ok? ==> a.value.accessToken == b.value.accessToken)
  }

  ghost predicate NoPAT(io: IO) {
    HostOk(io) && !HasPAT(io.env)
  }

  ghost predicate CacheAgrees(cfg: Config, n: Names, s: Store) {
    forall io: IO, io': IO :: NoPAT(io) && NoPAT(io') ==> Agrees(cfg, n, s, io, io')
  }

  lemma CoherentAgrees(cfg: Config, n: Names, s: Store)
    requires Coherent(n, s)
    ensures CacheAgrees(cfg, n, s)
  {
  }

  // ---------- The profile's own steps ----------

  ghost predicate Clean(op: Op, io: IO) {
    HostOk(io) && Plausible(op) && (op.DoAppLogin? ==> op.token != "")
  }

  lemma OwnStepKeepsRefresh(cfg: Config, n: Names, s: Store, op: Op, io: IO)
    requires Distinct(n) && RefreshBacked(n, s) && Clean(op, io)
    ensures RefreshBacked(n, Perform(cfg, n, s, op, io).0)
  {
    if op.DoGetToken? {
      NothingToMint(cfg, n, s, io, op.force);
    }
  }

  lemma OwnStepKeepsCache(cfg: Config, n: Names, s: Store, op: Op, io: IO)
    requires Distinct(n) && Coherent(n, s) && Clean(op, io) && !op.DoAppLogin?
    ensures CacheBacked(n, Perform(cfg, n, s, op, io).0)
  {
    if op.DoGetToken? {
      NothingToMint(cfg, n, s, io, op.force);
    }
  }

  // ---------- Steps of other profiles ----------

  // The keys of m are untouched, or the prefix of n covers them all.
  ghost predicate Apart(n: Names, m: Names) {
    && KeyEncoding.NameSet(n) !! KeyEncoding.NameSet(m)
    && (|| (forall key <- KeyEncoding.NameSet(m) :: !(n.tokenPrefix <= key))
        || (forall key <- KeyEncoding.NameSet(m) :: n.tokenPrefix <= key))
  }

  lemma OtherStepKeeps(cfg: Config, n: Names, m: Names, s: Store, op: Op, io: IO)
    requires Distinct(n) && Distinct(m) && Apart(n, m) && HostOk(io) && RefreshBacked(m, s)
    ensures RefreshBacked(m, Perform(cfg, n, s, op, io).0)
    ensures CacheBacked(m, s) ==> CacheBacked(m, Perform(cfg, n, s, op, io).0)
  {
    Untouched(cfg, n, s, op, io, m.refresh);
    Untouched(cfg, n, s, op, io, m.access);
    Untouched(cfg, n, s, op, io, m.defaultEntry);
    assert m.refresh in KeyEncoding.NameSet(m) && m.access in KeyEncoding.NameSet(m);
    assert m.defaultEntry in KeyEncoding.NameSet(m);
  }

  lemma ProfilesAreApart(cfg: Config, p: string, q: string)
    requires ValidProfile(p) && ValidProfile(q) && p != q
    ensures Apart(NamesOf(cfg, p), NamesOf(cfg, q))
  {
    KeyEncoding.ProfilesApart(cfg, p, q);
  }

  // ---------- Every reachable state ----------

  ghost predicate AllRefreshBacked(cfg: Config, s: Store) {
    forall q :: ValidProfile(q) ==> RefreshBacked(NamesOf(cfg, q), s)
  }

  ghost predicate AllCoherent(cfg: Config, s: Store) {
    forall q :: ValidProfile(q) ==> Coherent(NamesOf(cfg, q), s)
  }

  ghost predicate CleanSteps(steps: seq<Step>) {
    forall step <- steps :: Clean(step.op, step.io)
  }

  lemma StepKeepsRefresh(cfg: Config, s: Store, step: Step, q: string)
    requires ValidProfile(q) && RefreshBacked(NamesOf(cfg, q), s) && Clean(step.op, step.io)
    ensures RefreshBacked(NamesOf(cfg, q), Take(cfg, s, step).0)
  {
    var p := step.profile;
    if ValidProfile(p) {
      KeyEncoding.NamesDistinct(cfg, p);
      KeyEncoding.NamesDistinct(cfg, q);
      if p == q {
        OwnStepKeepsRefresh(cfg, NamesOf(cfg, p), s, step.op, step.io);
      } else {
        ProfilesAreApart(cfg, p, q);
        OtherStepKeeps(cfg, NamesOf(cfg, p), NamesOf(cfg, q), s, step.op, step.io);
      }
    }
  }

  lemma StepKeepsCoherence(cfg: Config, s: Store, step: Step, q: string)
    requires ValidProfile(q) && Coherent(NamesOf(cfg, q), s) && Clean(step.op, step.io) && !step.op.DoAppLogin?
    ensures Coherent(NamesOf(cfg, q), Take(cfg, s, step).0)
  {
    var p := step.profile;
    StepKeepsRefresh(cfg, s, step, q);
    if ValidProfile(p) {
      KeyEncoding.NamesDistinct(cfg, p);
      KeyEncoding.NamesDistinct(cfg, q);
      if p == q {
        OwnStepKeepsCache(cfg, NamesOf(cfg, p), s, step.op, step.io);
      } else {
        ProfilesAreApart(cfg, p, q);
        OtherStepKeeps(cfg, NamesOf(cfg, p), NamesOf(cfg, q), s, step.op, step.io);
      }
    }
  }

  lemma {:induction false} RunKeepsRefresh(cfg: Config, s: Store, steps: seq<Step>)
    requires AllRefreshBacked(cfg, s) && CleanSteps(steps)
    ensures AllRefreshBacked(cfg, Run(cfg, s, steps))
    decreases |steps|
  {
    if steps != [] {
      forall q | ValidProfile(q)
        ensures RefreshBacked(NamesOf(cfg, q), Take(cfg, s, steps[0]).0)
      {
        StepKeepsRefresh(cfg, s, steps[0], q);
      }
      RunKeepsRefresh(cfg, Take(cfg, s, steps[0]).0, steps[1..]);
    }
  }

  lemma {:induction false} RunKeepsCoherence(cfg: Config, s: Store, steps: seq<Step>)
    requires AllCoherent(cfg, s) && CleanSteps(steps)
    requires forall step <- steps :: !step.op.DoAppLogin?
    ensures AllCoherent(cfg, Run(cfg, s, steps))
    decreases |steps|
  {
    if steps != [] {
      forall q | ValidProfile(q)
        ensures Coherent(NamesOf(cfg, q), Take(cfg, s, steps[0]).0)
      {
        StepKeepsCoherence(cfg, s, steps[0], q);
      }
      RunKeepsCoherence(cfg, Take(cfg, s, steps[0]).0, steps[1..]);
    }
  }

  // In every state reached by logins, app logins, GetToken, status, list, purge and logout of
  // any profiles with a host that does not fail, a stored refresh token comes with a non-empty
  // access token.
  lemma RefreshNeverAlone(cfg: Config, steps: seq<Step>, p: string)
    requires ValidProfile(p) && CleanSteps(steps)
    ensures RefreshBacked(NamesOf(cfg, p), Run(cfg, map[], steps))
  {
    RunKeepsRefresh(cfg, map[], steps);
  }

  // Without app logins, skipping the cache changes neither success nor the access token.
  lemma CacheAgreesWithSecrets(cfg: Config, steps: seq<Step>, p: string)
    requires ValidProfile(p) && CleanSteps(steps)
    requires forall step <- steps :: !step.op.DoAppLogin?
    ensures CacheAgrees(cfg, NamesOf(cfg, p), Run(cfg, map[], steps))
  {
    RunKeepsCoherence(cfg, map[], steps);
    CoherentAgrees(cfg, NamesOf(cfg, p), Run(cfg, map[], steps));
  }

  // An app login replaces the access secret and leaves the default cache entry alone, so the
  // two agree afterwards exactly when there is no such entry or it already held the token.
  lemma AppLoginAgreesExactly(cfg: Config, n: Names, s: Store, io: IO, token: string, expiresAt: int, app: AppInfo)
    requires Distinct(n) && Coherent(n, s) && HostOk(io)
    ensures CacheAgrees(cfg, n, AppLogin(cfg, n, s, io, token, expiresAt, app).0)
            <==> (n.defaultEntry in s ==> s[n.defaultEntry].value.token.accessToken == token)
  {
    var s' := AppLogin(cfg, n, s, io, token, expiresAt, app).0;
    assert n.defaultEntry in s ==> s'[n.defaultEntry] == s[n.defaultEntry];
    if n.defaultEntry in s && s[n.defaultEntry].value.token.accessToken != token {
      var always := io.(valid := _ => true, env := Environment("", ""));
      assert NoPAT(always) && !Agrees(cfg, n, s', always, always);
    }
  }

  // When the host may fail, a login leaves a refresh token without an access token exactly
  // when the refresh secret is written, the access secret is refused, and none was there.
  lemma LoginKeepsBackingExactly(cfg: Config, n: Names, s: Store, io: IO,
                                 answer: TokenAnswer, scopes: seq<string>, sessionID: string, flow: Flow)
    requires Distinct(n) && RefreshBacked(n, s) && answer.accessToken != ""
    ensures RefreshBacked(n, StoreCredentials(cfg, n, s, io, answer, scopes, sessionID, flow).0)
            <==> !(&& answer.refreshToken != "" && io.ok(Put(n.refresh)) && !io.ok(Put(n.access))
                   && !(n.access in s && Text(s[n.access].value) != ""))
  {
  }

  // The disagreement is reachable: log in, then log in as an app and get another token.
  lemma AppLoginDisagrees(cfg: Config, p: string, login: IO, appLogin: IO,
                          answer: TokenAnswer, scopes: seq<string>, flow: Flow,
                          token: string, expiresAt: int, app: AppInfo)
    requires ValidProfile(p) && HostOk(login) && HostOk(appLogin)
    requires answer.accessToken != "" && token != answer.accessToken
    ensures var first := Step(p, DoLogin(answer, scopes, flow), login);
            var second := Step(p, DoAppLogin(token, expiresAt, app), appLogin);
            !CacheAgrees(cfg, NamesOf(cfg, p), Run(cfg, map[], [first, second]))
  {
    var n := NamesOf(cfg, p);
    var first := Step(p, DoLogin(answer, scopes, flow), login);
    var second := Step(p, DoAppLogin(token, expiresAt, app), appLogin);
    var s1 := Take(cfg, map[], first).0;
    KeyEncoding.NamesDistinct(cfg, p);
    LoginCaches(cfg, n, login, answer, scopes, flow);
    AppLoginAgreesExactly(cfg, n, s1, appLogin, token, expiresAt, app);
    TwoSteps(cfg, map[], first, second);
  }

  lemma LoginCaches(cfg: Config, n: Names, io: IO, answer: TokenAnswer, scopes: seq<string>, flow: Flow)
    requires Distinct(n) && HostOk(io) && answer.accessToken != ""
    ensures var s := StoreCredentials(cfg, n, map[], io, answer, scopes, "", flow).0;
            Coherent(n, s) && n.defaultEntry in s && s[n.defaultEntry].value.token.accessToken == answer.accessToken
  {
  }

  lemma TwoSteps(cfg: Config, s: Store, first: Step, second: Step)
    ensures Run(cfg, s, [first, second]) == Take(cfg, Take(cfg, s, first).0, second).0
  {
    var s1 := Take(cfg, s, first).0;
    assert [first, second][1..] == [second] && [second][1..] == [];
    assert Run(cfg, s1, [second]) == Run(cfg, Take(cfg, s1, second).0, []);
  }
}
