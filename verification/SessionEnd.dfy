/** A logout lasts until the profile's next login. */
module SessionEnd {
  import opened Types
  import opened SecretKeys
  import opened CredentialStore
  import KeyEncoding
  import Frames
  import Isolation
  import Coherence
  import Minting

  // No key the handler writes for the profile exists.
  ghost predicate Gone(n: Names, s: Store) {
    forall key :: Owns(n, key) ==> key !in s
  }

  lemma LogoutClears(n: Names, s: Store, io: IO)
    requires HostOk(io)
    ensures Gone(n, Logout(n, s, io))
  {
  }

  // What a profile without secrets observes, whether or not the host fails.
  ghost predicate SignedOut(cfg: Config, n: Names, s: Store, io: IO) {
    && (forall force :: GetToken(cfg, n, s, io, force) == TokenResult(s, None, Err(NotAuthenticated)))
    && GetStatus(cfg, n, s, io) == Unauthenticated
    && ListTokens(n, s, io) == Listing(None, map[], None)
  }

  lemma GoneMeansSignedOut(cfg: Config, n: Names, s: Store, io: IO)
    requires Distinct(n) && Gone(n, s) && !HasPAT(io.env)
    ensures SignedOut(cfg, n, s, io)
  {
    assert CachedRows(n, s, io) == map[] by {
      forall key ensures !Listable(n, s, io, key) { assert Owns(n, key) ==> key !in s; }
    }
  }

  // Steps of p that do not log in again, and any steps of profiles sharing no keys with it.
  ghost predicate NoLoginOf(p: string, step: Step) {
    if step.profile == p then !step.op.DoLogin? && !step.op.DoAppLogin? && !HasPAT(step.io.env)
    else !KeyEncoding.Overlapping(step.profile, p)
  }

  lemma OwnStepStaysGone(cfg: Config, n: Names, s: Store, op: Op, io: IO)
    requires Distinct(n) && Gone(n, s) && !op.DoLogin? && !op.DoAppLogin? && !HasPAT(io.env)
    ensures Gone(n, Perform(cfg, n, s, op, io).0)
  {
    if op.DoGetToken? {
      GoneMeansSignedOut(cfg, n, s, io);
      assert GetToken(cfg, n, s, io, op.force).store == s;
    }
  }

  lemma StaysGone(cfg: Config, p: string, s: Store, step: Step)
    requires ValidProfile(p) && Gone(NamesOf(cfg, p), s) && NoLoginOf(p, step)
    ensures Gone(NamesOf(cfg, p), Take(cfg, s, step).0)
  {
    if step.profile == p {
      KeyEncoding.NamesDistinct(cfg, p);
      OwnStepStaysGone(cfg, NamesOf(cfg, p), s, step.op, step.io);
    } else {
      Isolation.OthersAreInvisible(cfg, p, s, step);
      AgreeWithGone(NamesOf(cfg, p), s, Take(cfg, s, step).0);
    }
  }

  lemma AgreeWithGone(n: Names, s: Store, s': Store)
    requires Gone(n, s) && Isolation.Agree(n, s, s')
    ensures Gone(n, s')
  {
    forall key | Owns(n, key) ensures key !in s' { assert Frames.SameAt(key, s, s'); }
  }

  lemma {:induction false} RunStaysGone(cfg: Config, p: string, s: Store, steps: seq<Step>)
    requires ValidProfile(p) && Gone(NamesOf(cfg, p), s)
    requires forall step <- steps :: NoLoginOf(p, step)
    ensures Gone(NamesOf(cfg, p), Run(cfg, s, steps))
    decreases |steps|
  {
    if steps != [] {
      StaysGone(cfg, p, s, steps[0]);
      RunStaysGone(cfg, p, Take(cfg, s, steps[0]).0, steps[1..]);
    }
  }

  // From any store: log out, then run anything but a login of the profile. The later steps may
  // fail in any way; only the logout needs a host that serves its calls.
  lemma LogoutPersists(cfg: Config, p: string, s: Store, logout: IO, steps: seq<Step>, io: IO)
    requires ValidProfile(p) && HostOk(logout) && !HasPAT(io.env)
    requires forall step <- steps :: NoLoginOf(p, step)
    ensures var n, s' := NamesOf(cfg, p), Run(cfg, s, [Step(p, DoLogout, logout)] + steps);
            Gone(n, s') && SignedOut(cfg, n, s', io)
  {
    var n, s0 := NamesOf(cfg, p), Logout(NamesOf(cfg, p), s, logout);
    KeyEncoding.NamesDistinct(cfg, p);
    LogoutClears(n, s, logout);
    RunStaysGone(cfg, p, s0, steps);
    assert ([Step(p, DoLogout, logout)] + steps)[1..] == steps;
    GoneMeansSignedOut(cfg, n, Run(cfg, s0, steps), io);
  }

  // ---------- A logout the host refuses in part ----------

  // From now on GetToken fails, whatever it is asked and whatever is answered or refused.
  ghost predicate NoTokenLeft(cfg: Config, n: Names, s: Store) {
    forall later: IO, force: bool :: !HasPAT(later.env) ==> GetToken(cfg, n, s, later, force).token.Err?
  }

  // The host grants the deletion of whatever GetToken could answer from: a decodable cache entry,
  // a non-empty access token, a refresh token that metadata with a client id goes with.
  predicate DeletesEnough(n: Names, s: Store, io: IO) {
    && (n.defaultEntry in s && DecodeEntry(s[n.defaultEntry].value).Some?
        ==> io.ok(List) && io.ok(Delete(n.defaultEntry)))
    && (Minting.HasAccess(n, s) ==> io.ok(Delete(n.access)))
    && (n.refresh in s && Minting.HasClient(n, s) ==> io.ok(Delete(n.refresh)) || io.ok(Delete(n.metadata)))
  }

  predicate Exhausted(n: Names, s: Store) {
    && !(n.defaultEntry in s && DecodeEntry(s[n.defaultEntry].value).Some?)
    && !Minting.HasAccess(n, s)
    && !(n.refresh in s && Minting.HasClient(n, s))
  }

  // In any store, GetToken fails from now on exactly when there is nothing it could answer from.
  lemma ExhaustedExactly(cfg: Config, n: Names, s: Store)
    ensures NoTokenLeft(cfg, n, s) <==> Exhausted(n, s)
  {
    if !Exhausted(n, s) {
      var later := Isolation.QuietIO().(refreshAnswer := Some(TokenAnswer("t", "", "bearer", "", 0, 0)));
      assert !HasPAT(later.env) && GetToken(cfg, n, s, later, false).token.Ok?;
    }
  }

  lemma DeletedExactly(n: Names, s: Store, io: IO)
    requires Distinct(n)
    ensures Exhausted(n, Logout(n, s, io)) <==> DeletesEnough(n, s, io)
  {
    LogoutLeaves(n, s, io, n.defaultEntry);
    LogoutLeaves(n, s, io, n.refresh);
    LogoutLeaves(n, s, io, n.access);
    LogoutLeaves(n, s, io, n.metadata);
  }

  lemma LogoutLeaves(n: Names, s: Store, io: IO, key: string)
    ensures key in Logout(n, s, io) <==> key in s && !Forgotten(n, io, key)
    ensures key in Logout(n, s, io) ==> Logout(n, s, io)[key] == s[key]
  {
  }

  // A logout always reports success. From any store, it ends the session for GetToken exactly
  // when the host deletes enough.
  lemma LogoutEndsExactly(cfg: Config, n: Names, s: Store, io: IO)
    requires Distinct(n)
    ensures NoTokenLeft(cfg, n, Logout(n, s, io)) <==> DeletesEnough(n, s, io)
  {
    DeletedExactly(n, s, io);
    ExhaustedExactly(cfg, n, Logout(n, s, io));
  }

  // Refusing only the listing is enough to miss it: the three secrets are gone, the status says
  // unauthenticated, and GetToken answers the login's token from the cache.
  lemma CachedTokenOutlivesLogout(cfg: Config, n: Names, before: Store, login: IO, logout: IO, later: IO,
                                  answer: TokenAnswer, scopes: seq<string>, flow: Flow)
    requires Distinct(n) && HostOk(login) && answer.accessToken != "" && Coherence.NoPAT(later)
    requires forall site :: logout.ok(site) <==> site != List
    requires later.valid(LoginEntry(login, answer, scopes, "", flow))
    ensures var s := Logout(n, StoreCredentials(cfg, n, before, login, answer, scopes, "", flow).0, logout);
            && n.refresh !in s && n.access !in s && n.metadata !in s
            && GetStatus(cfg, n, s, later) == Unauthenticated
            && GetToken(cfg, n, s, later, false).token.Ok?
            && GetToken(cfg, n, s, later, false).token.value.accessToken == answer.accessToken
  {
    var s0 := StoreCredentials(cfg, n, before, login, answer, scopes, "", flow).0;
    LogoutLeaves(n, s0, logout, n.defaultEntry);
    LogoutLeaves(n, s0, logout, n.refresh);
    LogoutLeaves(n, s0, logout, n.access);
    LogoutLeaves(n, s0, logout, n.metadata);
  }

  // The same as a run of the handler.
  lemma CachedTokenRun(cfg: Config, p: string, before: Store, login: Step, logout: Step, later: IO)
    requires ValidProfile(p) && login.profile == logout.profile == p && Coherence.NoPAT(later)
    requires login.op.DoLogin? && login.op.answer.accessToken != "" && HostOk(login.io)
    requires logout.op.DoLogout? && forall site :: logout.io.ok(site) <==> site != List
    requires later.valid(LoginEntry(login.io, login.op.answer, login.op.scopes, "", login.op.flow))
    ensures var n, s := NamesOf(cfg, p), Run(cfg, before, [login, logout]);
            && GetStatus(cfg, n, s, later) == Unauthenticated
            && GetToken(cfg, n, s, later, false).token.Ok?
            && GetToken(cfg, n, s, later, false).token.value.accessToken == login.op.answer.accessToken
  {
    KeyEncoding.NamesDistinct(cfg, p);
    CachedTokenOutlivesLogout(cfg, NamesOf(cfg, p), before, login.io, logout.io, later,
                              login.op.answer, login.op.scopes, login.op.flow);
    Minting.LoginThenLogout(cfg, before, login, logout);
  }
}
