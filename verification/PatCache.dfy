/** The personal access token's cache entry. */
module PatCache {
  import opened Types
  import opened SecretKeys
  import opened CredentialStore
  import KeyEncoding
  import Frames

  predicate ServedFromPATCache(n: Names, s: Store, io: IO, force: bool) {
    && !force && io.ok(Get(n.patEntry)) && n.patEntry in s
    && DecodeEntry(s[n.patEntry].value).Some? && io.valid(DecodeEntry(s[n.patEntry].value).value)
  }

  // Without either environment variable there is none; the first one goes before the second.
  lemma FromEnvironment(env: Environment)
    ensures HasPAT(env) <==> env.githubToken != "" || env.ghToken != ""
    ensures env.githubToken != "" ==> PATFromEnv(env) == env.githubToken
    ensures env.githubToken == "" ==> PATFromEnv(env) == env.ghToken
  {
  }

  // With a personal access token in the environment there is a token exactly when the cache
  // serves one or GitHub accepts this one. A token GitHub rejects is not answered and leaves the
  // store as it was; an accepted one is answered for a year, and cached if the host lets it.
  lemma PATAnsweredExactly(cfg: Config, n: Names, s: Store, io: IO, force: bool)
    requires io.env.githubToken != "" || io.env.ghToken != ""
    ensures var r, served := GetToken(cfg, n, s, io, force), ServedFromPATCache(n, s, io, force);
            var pat := if io.env.githubToken != "" then io.env.githubToken else io.env.ghToken;
            var expiry := io.now(TokenExpiry) + 31_536_000_000_000_000;
            var entry := Token(pat, "Bearer", expiry, "", io.now(TokenCachedAt), PATFlow, "");
            && r.request == None
            && (r.token.Ok? <==> served || io.userClaims.Some?)
            && (r.token.Err? ==> r.token.error == InvalidPAT && r.store == s)
            && (served ==> r.store == s && r.token.value == Issue(DecodeEntry(s[n.patEntry].value).value))
            && (!served && r.token.Ok? ==>
                  && r.token.value == Issued(pat, "Bearer", expiry, "", PATFlow, "")
                  && r.store == if io.ok(Put(n.patEntry))
                                then s[n.patEntry := Secret(EntryJson(entry), io.step)] else s)
  {
    FromEnvironment(io.env);
  }

  // Asked without one, it fails and touches nothing.
  lemma NoneConfigured(n: Names, s: Store, io: IO, force: bool)
    requires io.env.githubToken == "" && io.env.ghToken == ""
    ensures GetPATToken(n, s, io, force) == TokenResult(s, None, Err(MissingPAT))
  {
  }

  // GetPATToken answers with another token than the environment's exactly when it serves a
  // cache entry left by an earlier one.
  lemma StaleExactly(n: Names, s: Store, io: IO, force: bool)
    requires HasPAT(io.env)
    ensures var r := GetPATToken(n, s, io, force);
            r.token.Ok? && r.token.value.accessToken != PATFromEnv(io.env)
            <==> (&& ServedFromPATCache(n, s, io, force)
                  && DecodeEntry(s[n.patEntry].value).value.accessToken != PATFromEnv(io.env))
  {
  }

  // And that happens: validate one token, change the environment, ask again.
  lemma StaleReached(cfg: Config, q: string, s: Store, first: IO, second: IO)
    requires ValidProfile(q) && HostOk(first) && HostOk(second) && HasPAT(first.env) && HasPAT(second.env)
    requires first.userClaims.Some? && PATFromEnv(first.env) != PATFromEnv(second.env)
    requires second.valid(PATToken(first).(cachedAt := first.now(TokenCachedAt)))
    ensures var r := GetToken(cfg, NamesOf(cfg, q), Run(cfg, s, [Step(q, DoGetToken(true), first)]), second, false);
            r.token.Ok? && r.token.value.accessToken == PATFromEnv(first.env) != PATFromEnv(second.env)
  {
    var n, step := NamesOf(cfg, q), Step(q, DoGetToken(true), first);
    StaleSteps(n, s, first, second);
    assert [step][1..] == [] && Run(cfg, s, [step]) == Run(cfg, Take(cfg, s, step).0, []);
  }

  lemma StaleSteps(n: Names, s: Store, first: IO, second: IO)
    requires HostOk(first) && HostOk(second) && HasPAT(first.env) && HasPAT(second.env) && first.userClaims.Some?
    requires second.valid(PATToken(first).(cachedAt := first.now(TokenCachedAt)))
    ensures var r := GetPATToken(n, GetPATToken(n, s, first, true).store, second, false);
            r.token.Ok? && r.token.value.accessToken == PATFromEnv(first.env)
  {
  }

  // A validated token is served with a one-year expiry, and once cached it is served again, the
  // same, without being validated.
  lemma PATRoundTrip(n: Names, s: Store, io: IO, later: IO)
    requires HostOk(io) && HasPAT(io.env) && io.userClaims.Some? && HostOk(later) && HasPAT(later.env)
    ensures var first := GetPATToken(n, s, io, true);
            && first.token
               == Ok(Issued(PATFromEnv(io.env), "Bearer", io.now(TokenExpiry) + 365 * 24 * HOUR, "", PATFlow, ""))
            && (later.valid(PATToken(io).(cachedAt := io.now(TokenCachedAt))) ==>
                  GetPATToken(n, first.store, later, false) == TokenResult(first.store, None, first.token))
  {
  }

  ghost predicate Caches(n: Names, s: Store, pat: string) {
    n.patEntry in s ==> s[n.patEntry].value.EntryJson? && s[n.patEntry].value.token.accessToken == pat
  }

  // Wherever a personal access token is set, it is this one.
  ghost predicate Fixed(steps: seq<Step>, pat: string) {
    forall step <- steps :: HasPAT(step.io.env) ==> PATFromEnv(step.io.env) == pat
  }

  lemma OwnStepKeeps(cfg: Config, n: Names, s: Store, op: Op, io: IO, pat: string)
    requires Distinct(n) && Caches(n, s, pat) && (HasPAT(io.env) ==> PATFromEnv(io.env) == pat)
    ensures Caches(n, Perform(cfg, n, s, op, io).0, pat)
  {
    if op.DoGetToken? {
      if HasPAT(io.env) { GetPATTokenKeeps(n, s, io, op.force, pat); }
      else { Frames.StoredTokenFrame(cfg, n, s, io, op.force, n.patEntry); }
    } else if op.DoLogin? {
      Frames.LoginFrame(cfg, n, s, io, op.answer, op.scopes, "", op.flow, n.patEntry);
    } else if op.DoAppLogin? {
      Frames.AppLoginFrame(cfg, n, s, io, op.token, op.expiresAt, op.app, n.patEntry);
    }
  }

  lemma GetPATTokenKeeps(n: Names, s: Store, io: IO, force: bool, pat: string)
    requires Caches(n, s, pat) && HasPAT(io.env) && PATFromEnv(io.env) == pat
    ensures Caches(n, GetPATToken(n, s, io, force).store, pat)
  {
  }

  lemma {:induction false} RunKeeps(cfg: Config, s: Store, steps: seq<Step>, q: string, pat: string)
    requires ValidProfile(q) && Caches(NamesOf(cfg, q), s, pat) && Fixed(steps, pat)
    ensures Caches(NamesOf(cfg, q), Run(cfg, s, steps), pat)
    decreases |steps|
  {
    if steps != [] {
      var step := steps[0];
      var p, m := step.profile, NamesOf(cfg, q);
      if ValidProfile(p) {
        KeyEncoding.NamesDistinct(cfg, p);
        if p == q {
          OwnStepKeeps(cfg, m, s, step.op, step.io, pat);
        } else {
          KeyEncoding.ProfilesApart(cfg, p, q);
          assert m.patEntry in KeyEncoding.NameSet(m);
          Frames.Untouched(cfg, NamesOf(cfg, p), s, step.op, step.io, m.patEntry);
        }
      }
      RunKeeps(cfg, Take(cfg, s, step).0, steps[1..], q, pat);
    }
  }

  // From a store in which the profile has no such entry, over any run of any profiles with any
  // host failures, GetToken under a fixed environment answers with the environment's token.
  lemma PATCoherence(cfg: Config, s: Store, steps: seq<Step>, q: string, io: IO, force: bool)
    requires ValidProfile(q) && NamesOf(cfg, q).patEntry !in s
    requires HasPAT(io.env) && Fixed(steps, PATFromEnv(io.env))
    ensures var r := GetToken(cfg, NamesOf(cfg, q), Run(cfg, s, steps), io, force);
            r.token.Ok? ==> r.token.value.accessToken == PATFromEnv(io.env)
  {
    RunKeeps(cfg, s, steps, q, PATFromEnv(io.env));
    StaleExactly(NamesOf(cfg, q), Run(cfg, s, steps), io, force);
  }
}
