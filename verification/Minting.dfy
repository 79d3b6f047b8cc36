/** When GetToken asks GitHub for a new token: exactly when, in one state; never, in the states
    reached with a host that serves its calls; and how a refusing host leads there. */
module Minting {
  import opened Types
  import opened SecretKeys
  import opened CredentialStore
  import opened Frames
  import opened Coherence
  import KeyEncoding

  // ---------- In one state ----------

  predicate ServedFromCache(n: Names, s: Store, io: IO, force: bool) {
    && !force && io.ok(Get(n.defaultEntry)) && n.defaultEntry in s
    && DecodeEntry(s[n.defaultEntry].value).Some? && io.valid(DecodeEntry(s[n.defaultEntry].value).value)
  }

  predicate HasAccess(n: Names, s: Store) {
    n.access in s && Text(s[n.access].value) != ""
  }

  // Metadata a refresh can take its client id from.
  predicate HasClient(n: Names, s: Store) {
    && n.metadata in s && DecodeMetadata(s[n.metadata].value).Some?
    && DecodeMetadata(s[n.metadata].value).value.clientID != ""
  }

  // No personal access token, nothing served from the cache, the access secret unreadable or
  // empty, and both the refresh secret and metadata with a client id readable.
  predicate Sends(n: Names, s: Store, io: IO, force: bool) {
    && !HasPAT(io.env)
    && !ServedFromCache(n, s, io, force)
    && !(io.ok(Get(n.access)) && HasAccess(n, s))
    && io.ok(Get(n.refresh)) && n.refresh in s
    && io.ok(Get(n.metadata)) && HasClient(n, s)
  }

  // A refresh request goes out exactly then, and carries that refresh token and client id.
  lemma RequestExactly(cfg: Config, n: Names, s: Store, io: IO, force: bool)
    ensures GetToken(cfg, n, s, io, force).request
            == if Sends(n, s, io, force)
               then Some(Request(Text(s[n.refresh].value), DecodeMetadata(s[n.metadata].value).value.clientID))
               else None
  {
  }

  // ---------- With a host that serves its calls ----------

  // A stored refresh token either stands behind an access token or has no client to go with.
  ghost predicate NothingToSend(n: Names, s: Store) {
    Plain(n, s) && (n.refresh in s ==> HasAccess(n, s) || !HasClient(n, s))
  }

  ghost predicate Served(op: Op, io: IO) {
    HostOk(io) && Plausible(op)
  }

  lemma GetTokenSendsNothing(cfg: Config, n: Names, s: Store, io: IO, force: bool)
    requires Distinct(n) && NothingToSend(n, s) && HostOk(io)
    ensures GetToken(cfg, n, s, io, force).request == None
    ensures NothingToSend(n, GetToken(cfg, n, s, io, force).store)
  {
    RequestExactly(cfg, n, s, io, force);
  }

  lemma OwnStepSendsNothing(cfg: Config, n: Names, s: Store, op: Op, io: IO)
    requires Distinct(n) && NothingToSend(n, s) && Served(op, io)
    ensures NothingToSend(n, Perform(cfg, n, s, op, io).0)
  {
    match op
    case DoGetToken(force) => GetTokenSendsNothing(cfg, n, s, io, force);
    case DoPurge => PurgeFrame(n, s, io, n.refresh); PurgeFrame(n, s, io, n.access); PurgeFrame(n, s, io, n.metadata);
    case DoLogout => LogoutFrame(n, s, io, n.refresh);
    case _ =>
  }

  lemma OtherStepSendsNothing(cfg: Config, n: Names, m: Names, s: Store, op: Op, io: IO)
    requires Distinct(n) && Distinct(m) && Apart(n, m) && HostOk(io) && NothingToSend(m, s)
    ensures NothingToSend(m, Perform(cfg, n, s, op, io).0)
  {
    Untouched(cfg, n, s, op, io, m.refresh);
    Untouched(cfg, n, s, op, io, m.access);
    Untouched(cfg, n, s, op, io, m.metadata);
    assert m.refresh in KeyEncoding.NameSet(m) && m.access in KeyEncoding.NameSet(m);
    assert m.metadata in KeyEncoding.NameSet(m);
  }

  lemma {:induction false} RunSendsNothing(cfg: Config, s: Store, steps: seq<Step>, q: string)
    requires ValidProfile(q) && NothingToSend(NamesOf(cfg, q), s)
    requires forall step <- steps :: Served(step.op, step.io)
    ensures NothingToSend(NamesOf(cfg, q), Run(cfg, s, steps))
    decreases |steps|
  {
    if steps != [] {
      var step := steps[0];
      var p := step.profile;
      KeyEncoding.NamesDistinct(cfg, q);
      if p == q {
        OwnStepSendsNothing(cfg, NamesOf(cfg, q), s, step.op, step.io);
      } else if ValidProfile(p) {
        KeyEncoding.NamesDistinct(cfg, p);
        ProfilesAreApart(cfg, p, q);
        OtherStepSendsNothing(cfg, NamesOf(cfg, p), NamesOf(cfg, q), s, step.op, step.io);
      }
      RunSendsNothing(cfg, Take(cfg, s, step).0, steps[1..], q);
    }
  }

  // In every state reached from an empty store by any steps of any profiles, app logins with
  // an empty token included, with a host that does not fail, GetToken sends no refresh request.
  lemma GetTokenNeverMints(cfg: Config, steps: seq<Step>, p: string, io: IO, force: bool)
    requires ValidProfile(p) && HostOk(io)
    requires forall step <- steps :: Served(step.op, step.io)
    ensures GetToken(cfg, NamesOf(cfg, p), Run(cfg, map[], steps), io, force).request == None
  {
    RunSendsNothing(cfg, map[], steps, p);
    RequestExactly(cfg, NamesOf(cfg, p), Run(cfg, map[], steps), io, force);
  }

  // ---------- With a host that may refuse ----------

  // The steps that leave a refresh token without an access token: a login whose access write
  // alone is refused where none was stored, an app login that writes an empty token, a logout
  // that deletes the access secret and not the refresh secret.
  predicate Strands(n: Names, s: Store, op: Op, io: IO) {
    match op
    case DoLogin(answer, _, _) =>
      answer.refreshToken != "" && io.ok(Put(n.refresh)) && !io.ok(Put(n.access)) && !HasAccess(n, s)
    case DoAppLogin(token, _, _) => token == "" && io.ok(Put(n.access)) && n.refresh in s
    case DoLogout => n.refresh in s && !io.ok(Delete(n.refresh)) && io.ok(Delete(n.access))
    case _ => false
  }

  lemma LogoutKeepsBackingExactly(n: Names, s: Store, io: IO)
    requires Distinct(n) && RefreshBacked(n, s)
    ensures RefreshBacked(n, Logout(n, s, io))
            <==> !(n.refresh in s && !io.ok(Delete(n.refresh)) && io.ok(Delete(n.access)))
  {
  }

  lemma AppLoginKeepsBackingExactly(cfg: Config, n: Names, s: Store, io: IO,
                                    token: string, expiresAt: int, app: AppInfo)
    requires Distinct(n) && RefreshBacked(n, s)
    ensures RefreshBacked(n, AppLogin(cfg, n, s, io, token, expiresAt, app).0)
            <==> !(token == "" && io.ok(Put(n.access)) && n.refresh in s)
  {
  }

  lemma GetTokenKeepsBacking(cfg: Config, n: Names, s: Store, io: IO, force: bool)
    requires Distinct(n) && RefreshBacked(n, s)
    ensures RefreshBacked(n, GetToken(cfg, n, s, io, force).store)
  {
    PATTokenFrame(n, s, io, force, n.refresh);
    PATTokenFrame(n, s, io, force, n.access);
    MintKeepsBacking(cfg, n, s, io);
  }

  lemma MintKeepsBacking(cfg: Config, n: Names, s: Store, io: IO)
    requires Distinct(n) && RefreshBacked(n, s)
    ensures RefreshBacked(n, MintToken(cfg, n, s, io).store)
  {
    var metadata := LoadMetadata(s, n, io.ok(GetAgain(n.metadata)));
    if metadata.Ok? && io.refreshAnswer.Some? && io.refreshAnswer.value.accessToken != "" {
      var m := metadata.value;
      LoginKeepsBackingExactly(cfg, n, s, io, io.refreshAnswer.value, m.scopes, m.sessionID, m.flow);
    }
  }

  // Whatever the host refuses, a step keeps every refresh token beside an access token exactly
  // when it is none of these.
  lemma StepKeepsBackingExactly(cfg: Config, n: Names, s: Store, op: Op, io: IO)
    requires Distinct(n) && RefreshBacked(n, s) && Plausible(op)
    ensures RefreshBacked(n, Perform(cfg, n, s, op, io).0) <==> !Strands(n, s, op, io)
  {
    match op
    case DoLogin(answer, scopes, flow) => LoginKeepsBackingExactly(cfg, n, s, io, answer, scopes, "", flow);
    case DoAppLogin(token, expiresAt, app) => AppLoginKeepsBackingExactly(cfg, n, s, io, token, expiresAt, app);
    case DoGetToken(force) => GetTokenKeepsBacking(cfg, n, s, io, force);
    case DoLogout => LogoutKeepsBackingExactly(n, s, io);
    case DoPurge => PurgeFrame(n, s, io, n.refresh); PurgeFrame(n, s, io, n.access);
    case _ =>
  }

  // No step of p along the run strands a refresh token.
  ghost predicate NoneStrands(cfg: Config, p: string, s: Store, steps: seq<Step>)
    decreases |steps|
  {
    steps == []
    || (&& (steps[0].profile == p ==> Plausible(steps[0].op) && !Strands(NamesOf(cfg, p), s, steps[0].op, steps[0].io))
        && NoneStrands(cfg, p, Take(cfg, s, steps[0]).0, steps[1..]))
  }

  lemma OtherStepKeepsBacking(cfg: Config, p: string, s: Store, step: Step)
    requires ValidProfile(p) && RefreshBacked(NamesOf(cfg, p), s) && step.profile != p && !WipesOut(step, p)
    ensures RefreshBacked(NamesOf(cfg, p), Take(cfg, s, step).0)
  {
    OtherStepSpares(cfg, p, s, step, NamesOf(cfg, p).refresh);
    OtherStepSpares(cfg, p, s, step, NamesOf(cfg, p).access);
  }

  lemma {:induction false} RunKeepsBacking(cfg: Config, p: string, s: Store, steps: seq<Step>)
    requires ValidProfile(p) && RefreshBacked(NamesOf(cfg, p), s) && NoneStrands(cfg, p, s, steps)
    requires forall step <- steps :: !WipesOut(step, p)
    ensures RefreshBacked(NamesOf(cfg, p), Run(cfg, s, steps))
    decreases |steps|
  {
    if steps != [] {
      if steps[0].profile == p {
        KeyEncoding.NamesDistinct(cfg, p);
        StepKeepsBackingExactly(cfg, NamesOf(cfg, p), s, steps[0].op, steps[0].io);
      } else {
        OtherStepKeepsBacking(cfg, p, s, steps[0]);
      }
      RunKeepsBacking(cfg, p, Take(cfg, s, steps[0]).0, steps[1..]);
    }
  }

  // Over any run from an empty store, whatever the host refuses, as long as no step of the
  // profile strands a refresh token, GetToken sends a request only where the host refuses it
  // the access secret.
  lemma OnlyRefusedReadsMint(cfg: Config, p: string, steps: seq<Step>, io: IO, force: bool)
    requires ValidProfile(p) && NoneStrands(cfg, p, map[], steps)
    requires forall step <- steps :: !WipesOut(step, p)
    requires GetToken(cfg, NamesOf(cfg, p), Run(cfg, map[], steps), io, force).request.Some?
    ensures !io.ok(Get(NamesOf(cfg, p).access))
  {
    RunKeepsBacking(cfg, p, map[], steps);
    RequestExactly(cfg, NamesOf(cfg, p), Run(cfg, map[], steps), io, force);
  }

  // ---------- After a request ----------

  // A request that a serving host answers with a token ends the need for requests exactly when
  // the answer rotates the refresh token: only then is the new access token stored.
  lemma RotationRestoresExactly(cfg: Config, n: Names, s: Store, io: IO, force: bool)
    requires Distinct(n) && Plain(n, s) && HostOk(io) && Sends(n, s, io, force)
    requires io.refreshAnswer.Some? && io.refreshAnswer.value.accessToken != ""
    ensures RefreshBacked(n, GetToken(cfg, n, s, io, force).store)
            <==> Rotates(io.refreshAnswer.value, Text(s[n.refresh].value))
  {
    AnswerStored(cfg, n, s, io, force);
  }

  lemma AnswerStored(cfg: Config, n: Names, s: Store, io: IO, force: bool)
    requires Distinct(n) && HostOk(io) && Sends(n, s, io, force)
    requires io.refreshAnswer.Some? && io.refreshAnswer.value.accessToken != ""
    ensures var s', answer := GetToken(cfg, n, s, io, force).store, io.refreshAnswer.value;
            if Rotates(answer, Text(s[n.refresh].value)) then
              && n.refresh in s' && s'[n.refresh].value == Raw(answer.refreshToken)
              && n.access in s' && s'[n.access].value == Raw(answer.accessToken)
            else SameAt(n.refresh, s, s') && SameAt(n.access, s, s') && SameAt(n.metadata, s, s')
  {
  }

  // After a rotation no further request goes out to a serving host; without one the next forced
  // GetToken sends the same request again.
  lemma NextRequest(cfg: Config, n: Names, s: Store, io: IO, force: bool, later: IO)
    requires Distinct(n) && Plain(n, s) && HostOk(io) && Sends(n, s, io, force)
    requires io.refreshAnswer.Some? && io.refreshAnswer.value.accessToken != "" && HostOk(later) && !HasPAT(later.env)
    ensures GetToken(cfg, n, GetToken(cfg, n, s, io, force).store, later, true).request
            == if Rotates(io.refreshAnswer.value, Text(s[n.refresh].value)) then None
               else GetToken(cfg, n, s, io, force).request
  {
    AnswerStored(cfg, n, s, io, force);
    RequestExactly(cfg, n, s, io, force);
    RequestExactly(cfg, n, GetToken(cfg, n, s, io, force).store, later, true);
  }

  // ---------- Runs in which it does happen ----------

  // A login nobody refuses anything, then a logout whose host refuses to delete the refresh
  // secret and the metadata: the next GetToken sends the refresh token.
  lemma HalfLogoutMints(cfg: Config, n: Names, before: Store, login: IO, logout: IO, later: IO,
                        answer: TokenAnswer, scopes: seq<string>, flow: Flow, force: bool)
    requires Distinct(n) && cfg.clientID != "" && answer.accessToken != "" && answer.refreshToken != ""
    requires HostOk(login) && HostOk(later) && !HasPAT(later.env)
    requires forall site :: logout.ok(site) <==> site !in {Delete(n.refresh), Delete(n.metadata)}
    ensures var s := Logout(n, StoreCredentials(cfg, n, before, login, answer, scopes, "", flow).0, logout);
            GetToken(cfg, n, s, later, force).request == Some(Request(answer.refreshToken, cfg.clientID))
  {
    var s1 := StoreCredentials(cfg, n, before, login, answer, scopes, "", flow).0;
    var s2 := Logout(n, s1, logout);
    assert n.refresh in s2 && s2[n.refresh] == s1[n.refresh];
    assert n.metadata in s2 && s2[n.metadata] == s1[n.metadata];
    assert n.access !in s2 && n.defaultEntry !in s2;
    RequestExactly(cfg, n, s2, later, force);
  }

  // The same as a run of the handler, for any valid profile and from any store.
  lemma HalfLogoutRun(cfg: Config, p: string, before: Store, login: Step, logout: Step, later: IO, force: bool)
    requires ValidProfile(p) && cfg.clientID != "" && login.profile == logout.profile == p
    requires login.op.DoLogin? && HostOk(login.io)
    requires login.op.answer.accessToken != "" && login.op.answer.refreshToken != ""
    requires logout.op.DoLogout?
    requires forall site :: logout.io.ok(site)
                            <==> site !in {Delete(NamesOf(cfg, p).refresh), Delete(NamesOf(cfg, p).metadata)}
    requires HostOk(later) && !HasPAT(later.env)
    ensures GetToken(cfg, NamesOf(cfg, p), Run(cfg, before, [login, logout]), later, force).request
            == Some(Request(login.op.answer.refreshToken, cfg.clientID))
  {
    KeyEncoding.NamesDistinct(cfg, p);
    HalfLogoutMints(cfg, NamesOf(cfg, p), before, login.io, logout.io, later,
                    login.op.answer, login.op.scopes, login.op.flow, force);
    LoginThenLogout(cfg, before, login, logout);
  }

  lemma LoginThenLogout(cfg: Config, s: Store, login: Step, logout: Step)
    requires ValidProfile(login.profile) && login.profile == logout.profile && login.op.DoLogin? && logout.op.DoLogout?
    ensures var n := NamesOf(cfg, login.profile);
            Run(cfg, s, [login, logout])
            == Logout(n, StoreCredentials(cfg, n, s, login.io, login.op.answer, login.op.scopes, "", login.op.flow).0,
                      logout.io)
  {
    TwoSteps(cfg, s, login, logout);
  }

  // After the same login, refusing the one read of the access secret is enough.
  lemma RefusedReadMints(cfg: Config, n: Names, before: Store, login: IO, later: IO,
                         answer: TokenAnswer, scopes: seq<string>, flow: Flow)
    requires Distinct(n) && cfg.clientID != "" && answer.accessToken != "" && answer.refreshToken != ""
    requires HostOk(login) && !HasPAT(later.env) && forall site :: later.ok(site) <==> site != Get(n.access)
    ensures var s := StoreCredentials(cfg, n, before, login, answer, scopes, "", flow).0;
            && Coherent(n, s)
            && GetToken(cfg, n, s, later, true).request == Some(Request(answer.refreshToken, cfg.clientID))
  {
    RequestExactly(cfg, n, StoreCredentials(cfg, n, before, login, answer, scopes, "", flow).0, later, true);
  }
}
