/** How long GetToken goes on handing out the token of a login. */
module TokenLifetime {
  import opened Types
  import opened SecretKeys
  import opened CredentialStore
  import opened Frames
  import opened LoginRoundTrip
  import KeyEncoding
  import Isolation

  // The answer carries a later expiry than the token was issued with exactly when it does not
  // come from the cache and a year from now is past that expiry.
  lemma OutlivesIssueExactly(cfg: Config, n: Names, before: Store, io: IO,
                             answer: TokenAnswer, scopes: seq<string>, flow: Flow,
                             s: Store, later: IO, force: bool)
    requires LoggedInBy(cfg, n, before, io, answer, scopes, flow, s)
    requires HostOk(later) && !HasPAT(later.env)
    ensures var r, entry := GetToken(cfg, n, s, later, force), LoginEntry(io, answer, scopes, "", flow);
            r.token.Ok? &&
            (r.token.value.expiresAt > entry.expiresAt
             <==> (force || !later.valid(entry)) && later.now(TokenExpiry) + FAR_FUTURE > entry.expiresAt)
  {
  }

  // A token issued for an hour, asked for two hours later: GetToken answers it, good for a year.
  lemma ExpiredTokenIsServed(cfg: Config, n: Names)
    requires Distinct(n)
    ensures var answer := TokenAnswer("t", "r", "bearer", "", 3600, 0);
            var s := StoreCredentials(cfg, n, map[], Isolation.QuietIO(), answer, [], "", DeviceCode).0;
            var later := Isolation.QuietIO().(now := _ => 2 * HOUR,
                                              valid := (token: Token) => token.expiresAt > 2 * HOUR);
            var r := GetToken(cfg, n, s, later, false);
            && n.defaultEntry in s && s[n.defaultEntry].value.EntryJson?
            && s[n.defaultEntry].value.token.expiresAt == HOUR < later.now(TokenExpiry)
            && r.token.Ok? && r.token.value.accessToken == "t" && r.token.value.expiresAt == 2 * HOUR + FAR_FUTURE
  {
  }

  // ---------- Over runs ----------

  // The access secret is the token, and so is the default cache entry, if there is one.
  ghost predicate HoldsToken(n: Names, s: Store, token: string) {
    && n.access in s && s[n.access].value == Raw(token)
    && (n.defaultEntry in s ==>
          s[n.defaultEntry].value.EntryJson? && s[n.defaultEntry].value.token.accessToken == token)
  }

  // Steps of p that start or end no session, and any steps of other profiles but the one that
  // deletes its secrets.
  ghost predicate KeepsSession(p: string, step: Step) {
    if step.profile == p then
      HostOk(step.io) && (step.op.DoGetToken? || step.op.DoStatus? || step.op.DoList? || step.op.DoPurge?)
    else !WipesOut(step, p)
  }

  lemma OwnStepHoldsToken(cfg: Config, n: Names, s: Store, op: Op, io: IO, token: string)
    requires Distinct(n) && HoldsToken(n, s, token) && token != "" && HostOk(io)
    requires op.DoGetToken? || op.DoStatus? || op.DoList? || op.DoPurge?
    ensures HoldsToken(n, Perform(cfg, n, s, op, io).0, token)
  {
  }

  lemma OtherStepHoldsToken(cfg: Config, p: string, s: Store, step: Step, token: string)
    requires ValidProfile(p) && HoldsToken(NamesOf(cfg, p), s, token) && step.profile != p && !WipesOut(step, p)
    ensures HoldsToken(NamesOf(cfg, p), Take(cfg, s, step).0, token)
  {
    OtherStepSpares(cfg, p, s, step, NamesOf(cfg, p).access);
    OtherStepSpares(cfg, p, s, step, NamesOf(cfg, p).defaultEntry);
  }

  lemma StepHoldsToken(cfg: Config, p: string, s: Store, step: Step, token: string)
    requires ValidProfile(p) && HoldsToken(NamesOf(cfg, p), s, token) && token != "" && KeepsSession(p, step)
    ensures HoldsToken(NamesOf(cfg, p), Take(cfg, s, step).0, token)
  {
    if step.profile == p {
      KeyEncoding.NamesDistinct(cfg, p);
      OwnStepHoldsToken(cfg, NamesOf(cfg, p), s, step.op, step.io, token);
    } else {
      OtherStepHoldsToken(cfg, p, s, step, token);
    }
  }

  lemma {:induction false} RunHoldsToken(cfg: Config, p: string, s: Store, steps: seq<Step>, token: string)
    requires ValidProfile(p) && HoldsToken(NamesOf(cfg, p), s, token) && token != ""
    requires forall step <- steps :: KeepsSession(p, step)
    ensures HoldsToken(NamesOf(cfg, p), Run(cfg, s, steps), token)
    decreases |steps|
  {
    if steps != [] {
      assert steps[0] in steps;
      StepHoldsToken(cfg, p, s, steps[0], token);
      RunHoldsToken(cfg, p, Take(cfg, s, steps[0]).0, steps[1..], token);
    }
  }

  // From any store: log in, then run GetToken, status, list and purge at will. GetToken still
  // answers the login's token, forced or not, whatever the clock says by then; forced, it
  // answers it as good for another year.
  lemma TokenServedForEver(cfg: Config, p: string, before: Store, login: IO,
                           answer: TokenAnswer, scopes: seq<string>, flow: Flow,
                           steps: seq<Step>, later: IO, force: bool)
    requires ValidProfile(p) && HostOk(login) && answer.accessToken != "" && HostOk(later) && !HasPAT(later.env)
    requires forall step <- steps :: KeepsSession(p, step)
    ensures var s := Run(cfg, before, [Step(p, DoLogin(answer, scopes, flow), login)] + steps);
            var r := GetToken(cfg, NamesOf(cfg, p), s, later, force);
            && r.token.Ok? && r.token.value.accessToken == answer.accessToken
            && (force ==> r.token.value.expiresAt == later.now(TokenExpiry) + FAR_FUTURE)
  {
    var n := NamesOf(cfg, p);
    var s0 := StoreCredentials(cfg, n, before, login, answer, scopes, "", flow).0;
    KeyEncoding.NamesDistinct(cfg, p);
    LoginHoldsToken(cfg, n, before, login, answer, scopes, flow, s0);
    RunHoldsToken(cfg, p, s0, steps, answer.accessToken);
    assert ([Step(p, DoLogin(answer, scopes, flow), login)] + steps)[1..] == steps;
    HeldTokenIsServed(cfg, n, Run(cfg, s0, steps), answer.accessToken, later, force);
  }

  lemma LoginHoldsToken(cfg: Config, n: Names, before: Store, io: IO,
                        answer: TokenAnswer, scopes: seq<string>, flow: Flow, s: Store)
    requires LoggedInBy(cfg, n, before, io, answer, scopes, flow, s)
    ensures HoldsToken(n, s, answer.accessToken)
  {
    StoredByLogin(cfg, n, before, io, answer, scopes, flow, s);
  }

  lemma HeldTokenIsServed(cfg: Config, n: Names, s: Store, token: string, later: IO, force: bool)
    requires HoldsToken(n, s, token) && token != "" && HostOk(later) && !HasPAT(later.env)
    ensures var r := GetToken(cfg, n, s, later, force);
            && r.token.Ok? && r.token.value.accessToken == token
            && (force ==> r.token.value.expiresAt == later.now(TokenExpiry) + FAR_FUTURE)
  {
  }
}
