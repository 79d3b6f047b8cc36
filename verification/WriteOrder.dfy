/** Under arbitrary host failures, the stored metadata is never from a later login or rotation
    than the stored access token. */
module WriteOrder {
  import opened Types
  import opened SecretKeys
  import opened CredentialStore
  import KeyEncoding
  import Frames

  // A refused SetSecret has no effect, so a failing storeCredentials leaves everything but the
  // two token secrets, and each of those is either as it was or the new one, refresh first.
  lemma FailedLoginLeavesMetadataAndCache(cfg: Config, n: Names, s: Store, io: IO,
                                          answer: TokenAnswer, scopes: seq<string>, sessionID: string, flow: Flow,
                                          key: string)
    requires Distinct(n)
    requires StoreCredentials(cfg, n, s, io, answer, scopes, sessionID, flow).1.Err?
    ensures var s' := StoreCredentials(cfg, n, s, io, answer, scopes, sessionID, flow).0;
            && (key !in {n.refresh, n.access} ==> (key in s' <==> key in s) && (key in s ==> s'[key] == s[key]))
            && (s' == s
                || s' == s[n.refresh := Secret(Raw(answer.refreshToken), io.step)]
                || s' == s[n.access := Secret(Raw(answer.accessToken), io.step)]
                || s' == s[n.refresh := Secret(Raw(answer.refreshToken), io.step)]
                      [n.access := Secret(Raw(answer.accessToken), io.step)])
  {
  }

  // Neither secret is newer than the given step, and where both are present the
  // metadata is no newer than the access secret.
  ghost predicate Ordered(n: Names, s: Store, step: nat) {
    && (n.access in s ==> s[n.access].writtenBy <= step)
    && (n.metadata in s ==> s[n.metadata].writtenBy <= step)
    && (n.metadata in s && n.access in s ==> s[n.metadata].writtenBy <= s[n.access].writtenBy)
  }

  lemma LoginKeepsOrder(cfg: Config, n: Names, s: Store, io: IO,
                        answer: TokenAnswer, scopes: seq<string>, sessionID: string, flow: Flow)
    requires Distinct(n) && Ordered(n, s, io.step) && answer.accessToken != ""
    ensures Ordered(n, StoreCredentials(cfg, n, s, io, answer, scopes, sessionID, flow).0, io.step)
  {
  }

  lemma MintKeepsOrder(cfg: Config, n: Names, s: Store, io: IO)
    requires Distinct(n) && Ordered(n, s, io.step)
    ensures Ordered(n, MintToken(cfg, n, s, io).store, io.step)
  {
    var metadata := LoadMetadata(s, n, io.ok(GetAgain(n.metadata)));
    if metadata.Ok? && io.refreshAnswer.Some? && io.refreshAnswer.value.accessToken != "" {
      LoginKeepsOrder(cfg, n, s, io, io.refreshAnswer.value, metadata.value.scopes,
                      metadata.value.sessionID, metadata.value.flow);
    }
  }

  lemma WriteKeepsOrder(n: Names, s: Store, key: string, v: Stored, io: IO, ok: bool)
    requires key !in {n.access, n.metadata} && Ordered(n, s, io.step)
    ensures Ordered(n, TryWrite(s, key, v, io, ok), io.step)
  {
  }

  lemma GetTokenKeepsOrder(cfg: Config, n: Names, s: Store, io: IO, force: bool)
    requires Distinct(n) && Ordered(n, s, io.step)
    ensures Ordered(n, GetToken(cfg, n, s, io, force).store, io.step)
  {
    var minted := MintToken(cfg, n, s, io);
    MintKeepsOrder(cfg, n, s, io);
    if HasPAT(io.env) {
      WriteKeepsOrder(n, s, n.patEntry, EntryJson(PATToken(io).(cachedAt := io.now(TokenCachedAt))), io,
                      io.ok(Put(n.patEntry)));
    } else {
      CacheTokenKeepsOrder(n, s, io, DirectToken(io, if n.access in s then Text(s[n.access].value) else ""));
      if minted.token.Ok? {
        CacheTokenKeepsOrder(n, minted.store, io, minted.token.value);
      }
    }
  }

  lemma CacheTokenKeepsOrder(n: Names, s: Store, io: IO, token: Token)
    requires Distinct(n) && Ordered(n, s, io.step)
    ensures Ordered(n, CacheToken(n, s, io, token), io.step)
  {
    WriteKeepsOrder(n, s, n.defaultEntry, EntryJson(token.(cachedAt := io.now(TokenCachedAt))), io,
                    io.ok(PutAgain(n.defaultEntry)));
  }

  lemma OwnStepKeepsOrder(cfg: Config, n: Names, s: Store, op: Op, io: IO)
    requires Distinct(n) && Ordered(n, s, io.step) && Plausible(op)
    ensures Ordered(n, Perform(cfg, n, s, op, io).0, io.step)
  {
    match op
    case DoLogin(answer, scopes, flow) => LoginKeepsOrder(cfg, n, s, io, answer, scopes, "", flow);
    case DoGetToken(force) => GetTokenKeepsOrder(cfg, n, s, io, force);
    case _ =>
  }

  lemma StepKeepsOrder(cfg: Config, s: Store, step: Step, q: string)
    requires ValidProfile(q) && Plausible(step.op) && Ordered(NamesOf(cfg, q), s, step.io.step)
    ensures Ordered(NamesOf(cfg, q), Take(cfg, s, step).0, step.io.step)
  {
    var p := step.profile;
    if ValidProfile(p) {
      var n, m := NamesOf(cfg, p), NamesOf(cfg, q);
      KeyEncoding.NamesDistinct(cfg, p);
      if p == q {
        OwnStepKeepsOrder(cfg, n, s, step.op, step.io);
      } else {
        KeyEncoding.ProfilesApart(cfg, p, q);
        assert m.access in KeyEncoding.NameSet(m) && m.metadata in KeyEncoding.NameSet(m);
        Frames.Untouched(cfg, n, s, step.op, step.io, m.access);
        Frames.Untouched(cfg, n, s, step.op, step.io, m.metadata);
      }
    }
  }

  // The steps of a run are numbered in order.
  ghost predicate Numbered(steps: seq<Step>) {
    forall i, j :: 0 <= i < j < |steps| ==> steps[i].io.step < steps[j].io.step
  }

  lemma {:induction false} RunKeepsOrder(cfg: Config, s: Store, steps: seq<Step>, q: string, before: nat)
    requires ValidProfile(q) && Numbered(steps) && Ordered(NamesOf(cfg, q), s, before)
    requires forall step <- steps :: Plausible(step.op) && before <= step.io.step
    ensures var n, s' := NamesOf(cfg, q), Run(cfg, s, steps);
            n.metadata in s' && n.access in s' ==> s'[n.metadata].writtenBy <= s'[n.access].writtenBy
    decreases |steps|
  {
    if steps != [] {
      StepKeepsOrder(cfg, s, steps[0], q);
      RunKeepsOrder(cfg, Take(cfg, s, steps[0]).0, steps[1..], q, steps[0].io.step);
    }
  }

  // From an empty store, whatever the host refuses along the way.
  lemma MetadataNeverNewer(cfg: Config, steps: seq<Step>, q: string)
    requires ValidProfile(q) && Numbered(steps)
    requires forall step <- steps :: Plausible(step.op)
    ensures var n, s := NamesOf(cfg, q), Run(cfg, map[], steps);
            n.metadata in s && n.access in s ==> s[n.metadata].writtenBy <= s[n.access].writtenBy
  {
    RunKeepsOrder(cfg, map[], steps, q, 0);
  }
}
