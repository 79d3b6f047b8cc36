/** Refreshing a session over and over: which refresh token is sent, what stays of the login,
    and the two cache writes of one rotation. */
module Rotation {
  import opened Types
  import opened SecretKeys
  import opened CredentialStore

  // What a login leaves behind for refreshes to carry on.
  datatype Session = Session(refreshToken: string, clientID: string, sessionID: string, flow: Flow, scopes: seq<string>)

  ghost predicate Holds(n: Names, s: Store, session: Session) {
    && n.refresh in s && Text(s[n.refresh].value) == session.refreshToken
    && n.metadata in s && DecodeMetadata(s[n.metadata].value).Some?
    && var m := DecodeMetadata(s[n.metadata].value).value;
       && m.clientID == session.clientID && m.sessionID == session.sessionID
       && m.flow == session.flow && m.scopes == session.scopes
  }

  predicate Successful(io: IO) {
    io.refreshAnswer.Some? && io.refreshAnswer.value.accessToken != ""
  }

  // The refresh token of the latest successful answer that returned one, else the original.
  function LatestRefresh(original: string, ios: seq<IO>): string {
    if ios == [] then original
    else
      var last := ios[|ios| - 1];
      if Successful(last) && last.refreshAnswer.value.refreshToken != "" then last.refreshAnswer.value.refreshToken
      else LatestRefresh(original, ios[..|ios| - 1])
  }

  // The client id of the login until the first rotation rewrites the metadata, then the
  // configured one.
  function LatestClient(cfg: Config, original: Session, ios: seq<IO>): string {
    if ios == [] then original.clientID
    else
      var before, last := ios[..|ios| - 1], ios[|ios| - 1];
      if Successful(last) && Rotates(last.refreshAnswer.value, LatestRefresh(original.refreshToken, before))
      then cfg.clientID
      else LatestClient(cfg, original, before)
  }

  function After(cfg: Config, original: Session, ios: seq<IO>): Session {
    original.(refreshToken := LatestRefresh(original.refreshToken, ios), clientID := LatestClient(cfg, original, ios))
  }

  function MintAll(cfg: Config, n: Names, s: Store, ios: seq<IO>): Store {
    if ios == [] then s else MintToken(cfg, n, MintAll(cfg, n, s, ios[..|ios| - 1]), ios[|ios| - 1]).store
  }

  // One refresh: what it sends, what it returns, what it leaves.
  lemma MintOnce(cfg: Config, n: Names, s: Store, session: Session, io: IO)
    requires Distinct(n) && HostOk(io) && Holds(n, s, session) && session.clientID != "" && session.sessionID != ""
    ensures var r := MintToken(cfg, n, s, io);
            && r.request == Some(Request(session.refreshToken, session.clientID))
            && (r.token.Ok? <==> Successful(io))
            && (Successful(io) ==>
                  && r.token.value.accessToken == io.refreshAnswer.value.accessToken
                  && r.token.value.tokenType == io.refreshAnswer.value.tokenType
                  && r.token.value.expiresAt == io.now(TokenExpiry)
                     + (if io.refreshAnswer.value.expiresIn > 0
                        then io.refreshAnswer.value.expiresIn * SECOND else 8 * HOUR)
                  && r.token.value.sessionID == session.sessionID
                  && r.token.value.flow == session.flow
                  && r.token.value.scope == ScopeOf(io.refreshAnswer.value, session.scopes))
            && Holds(n, r.store,
                 if Successful(io) && Rotates(io.refreshAnswer.value, session.refreshToken)
                 then session.(refreshToken := io.refreshAnswer.value.refreshToken, clientID := cfg.clientID)
                 else session)
  {
  }

  // Over any run of refreshes the session id, flow and scopes stay those of the login.
  lemma {:induction false} SessionSurvives(cfg: Config, n: Names, s: Store, session: Session, ios: seq<IO>)
    requires Distinct(n) && Holds(n, s, session)
    requires session.clientID != "" && session.sessionID != "" && cfg.clientID != ""
    requires forall io <- ios :: HostOk(io)
    ensures Holds(n, MintAll(cfg, n, s, ios), After(cfg, session, ios))
    ensures After(cfg, session, ios).clientID != ""
    decreases |ios|
  {
    if ios != [] {
      var before, last := ios[..|ios| - 1], ios[|ios| - 1];
      SessionSurvives(cfg, n, s, session, before);
      MintOnce(cfg, n, MintAll(cfg, n, s, before), After(cfg, session, before), last);
    }
  }

  // Every refresh of the run carries the latest refresh token, and every token returned
  // belongs to the login's session.
  lemma RefreshContinuity(cfg: Config, n: Names, s: Store, session: Session, ios: seq<IO>, i: nat)
    requires Distinct(n) && Holds(n, s, session)
    requires session.clientID != "" && session.sessionID != "" && cfg.clientID != ""
    requires i < |ios| && forall io <- ios :: HostOk(io)
    ensures var r := MintToken(cfg, n, MintAll(cfg, n, s, ios[..i]), ios[i]);
            && r.request
               == Some(Request(LatestRefresh(session.refreshToken, ios[..i]), LatestClient(cfg, session, ios[..i])))
            && (r.token.Ok? <==> Successful(ios[i]))
            && (r.token.Ok? ==>
                  && r.token.value.accessToken == ios[i].refreshAnswer.value.accessToken
                  && r.token.value.sessionID == session.sessionID
                  && r.token.value.flow == session.flow
                  && r.token.value.scope == ScopeOf(ios[i].refreshAnswer.value, session.scopes))
  {
    SessionSurvives(cfg, n, s, session, ios[..i]);
    MintOnce(cfg, n, MintAll(cfg, n, s, ios[..i]), After(cfg, session, ios[..i]), ios[i]);
  }

  // ---------- Two writers of one cache entry ----------

  // A rotation caches the token twice: storeCredentials does, and then GetToken. The entries
  // differ in their expiry by the clock's advance between the two readings; they agree on
  // everything else exactly when the metadata names a session.
  lemma TwoWritersAgreeExactly(cfg: Config, n: Names, s: Store, session: Session, io: IO)
    requires Distinct(n) && HostOk(io) && !HasPAT(io.env) && io.freshID != ""
    requires Holds(n, s, session) && session.clientID != "" && (n.access in s ==> Text(s[n.access].value) == "")
    requires Successful(io) && Rotates(io.refreshAnswer.value, session.refreshToken)
    ensures var minted, final := MintToken(cfg, n, s, io).store, GetToken(cfg, n, s, io, true).store;
            && n.defaultEntry in minted && minted[n.defaultEntry].value.EntryJson?
            && n.defaultEntry in final && final[n.defaultEntry].value.EntryJson?
            && final == minted[n.defaultEntry := final[n.defaultEntry]]
            && var first, second := minted[n.defaultEntry].value.token, final[n.defaultEntry].value.token;
            && second.expiresAt - first.expiresAt == io.now(TokenExpiry) - io.now(LoginExpiry)
            && second.cachedAt - first.cachedAt == io.now(TokenCachedAt) - io.now(LoginCachedAt)
            && (second.(expiresAt := 0, cachedAt := 0) == first.(expiresAt := 0, cachedAt := 0)
                <==> session.sessionID != "")
  {
  }
}
