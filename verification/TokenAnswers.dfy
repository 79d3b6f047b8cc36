/** What GetToken answers and leaves behind, in any store and whatever the host refuses: from the
    cache, from the stored access token, from a refresh, or not at all. */
module TokenAnswers {
  import opened Types
  import opened SecretKeys
  import opened CredentialStore
  import opened Frames
  import opened Minting
  import Scopes

  predicate ReadsAccess(n: Names, s: Store, io: IO) {
    io.ok(Get(n.access)) && HasAccess(n, s)
  }

  predicate Answers(io: IO) {
    io.refreshAnswer.Some? && io.refreshAnswer.value.accessToken != ""
  }

  // Everything but the default cache entry is as it was.
  ghost predicate OnlyCaches(n: Names, s: Store, s': Store) {
    forall key :: key != n.defaultEntry ==> SameAt(key, s, s')
  }

  // ---------- Success and failure ----------

  // There is a token exactly when the cache serves one, the access secret can be read and is not
  // empty, or a refresh request goes out and is answered with one.
  lemma AnsweredExactly(cfg: Config, n: Names, s: Store, io: IO, force: bool)
    requires !HasPAT(io.env)
    ensures GetToken(cfg, n, s, io, force).token.Ok?
            <==> ServedFromCache(n, s, io, force) || ReadsAccess(n, s, io) || (Sends(n, s, io, force) && Answers(io))
  {
  }

  // Otherwise the store is as it was, and the error says what was missing first.
  lemma FailureCause(cfg: Config, n: Names, s: Store, io: IO, force: bool)
    requires !HasPAT(io.env) && GetToken(cfg, n, s, io, force).token.Err?
    ensures GetToken(cfg, n, s, io, force).store == s
    ensures var error := GetToken(cfg, n, s, io, force).token.error;
            if !(io.ok(Get(n.refresh)) && n.refresh in s) then error == NotAuthenticated
            else if !io.ok(Get(n.metadata)) then error == HostFailure
            else if n.metadata !in s then error == NotFound
            else if s[n.metadata].value.Raw? then error == Undecodable
            else if !HasClient(n, s) then error == MissingClientID
            else if io.refreshAnswer.None? then error == RefreshRequestFailed
            else error == RefreshRevoked
  {
  }

  // ---------- The three sources ----------

  lemma CacheAnswer(cfg: Config, n: Names, s: Store, io: IO, force: bool)
    requires !HasPAT(io.env) && ServedFromCache(n, s, io, force)
    ensures var r, entry := GetToken(cfg, n, s, io, force), DecodeEntry(s[n.defaultEntry].value).value;
            && r.store == s && r.request == None && r.token.Ok?
            && r.token.value == Issued(entry.accessToken, entry.tokenType, entry.expiresAt, entry.scope, entry.flow,
                                       entry.sessionID)
  {
  }

  lemma StoredAnswer(cfg: Config, n: Names, s: Store, io: IO, force: bool)
    requires !HasPAT(io.env) && !ServedFromCache(n, s, io, force) && ReadsAccess(n, s, io)
    ensures var r, year := GetToken(cfg, n, s, io, force), 31_536_000_000_000_000;
            && r.request == None && OnlyCaches(n, s, r.store)
            && r.token
               == Ok(Issued(Text(s[n.access].value), "Bearer", io.now(TokenExpiry) + year, "", NoFlow, ""))
  {
  }

  // A refreshed token is the answer's, for as long as the answer says or 8 hours. Flow, session
  // and, where the answer names no scope, the scopes come from the metadata, if its second read
  // is served.
  lemma RefreshedAnswer(cfg: Config, n: Names, s: Store, io: IO, force: bool)
    requires Sends(n, s, io, force) && Answers(io)
    ensures GetToken(cfg, n, s, io, force).token.Ok?
    ensures var token, answer := GetToken(cfg, n, s, io, force).token.value, io.refreshAnswer.value;
            var m := DecodeMetadata(s[n.metadata].value).value;
            && token.accessToken == answer.accessToken && token.tokenType == answer.tokenType
            && (answer.expiresIn > 0 ==> token.expiresAt == io.now(TokenExpiry) + answer.expiresIn * 1_000_000_000)
            && (answer.expiresIn <= 0 ==> token.expiresAt == io.now(TokenExpiry) + 28_800_000_000_000)
            && (answer.scope != "" ==> token.scope == answer.scope)
            && if io.ok(GetAgain(n.metadata))
               then token.flow == m.flow && token.sessionID == m.sessionID
                    && (answer.scope == "" ==> Scopes.Joined(m.scopes, token.scope))
               else token.flow == NoFlow && token.sessionID == "" && (answer.scope == "" ==> token.scope == "")
  {
    Scopes.JoinedExactly(DecodeMetadata(s[n.metadata].value).value.scopes);
  }

  // What a refresh leaves: where the answer rotates the refresh token and the metadata can be
  // read again, a login's writes with the metadata's scopes, session and flow; the cache apart.
  lemma RefreshLeaves(cfg: Config, n: Names, s: Store, io: IO, force: bool)
    requires Sends(n, s, io, force) && Answers(io)
    ensures var s', answer := GetToken(cfg, n, s, io, force).store, io.refreshAnswer.value;
            var m := DecodeMetadata(s[n.metadata].value).value;
            var rotated := StoreCredentials(cfg, n, s, io, answer, m.scopes, m.sessionID, m.flow).0;
            if answer.refreshToken != "" && answer.refreshToken != Text(s[n.refresh].value)
               && io.ok(GetAgain(n.metadata))
            then OnlyCaches(n, rotated, s')
            else OnlyCaches(n, s, s')
  {
  }

  // ---------- The cache ----------

  // A token that did not come from the cache is put there, field by field, if the host lets it.
  lemma AnswerIsCached(cfg: Config, n: Names, s: Store, io: IO, force: bool)
    requires !HasPAT(io.env) && !ServedFromCache(n, s, io, force) && io.ok(PutAgain(n.defaultEntry))
    requires GetToken(cfg, n, s, io, force).token.Ok?
    ensures var r := GetToken(cfg, n, s, io, force);
            var token := r.token.value;
            && n.defaultEntry in r.store
            && r.store[n.defaultEntry]
               == Secret(EntryJson(Token(token.accessToken, token.tokenType, token.expiresAt, token.scope,
                                         io.now(TokenCachedAt), token.flow, token.sessionID)), io.step)
  {
  }

  // So the next unforced GetToken that finds it valid answers the same token, sends nothing and
  // changes nothing, whatever else the host refuses by then.
  lemma AnsweredAgain(cfg: Config, n: Names, s: Store, io: IO, force: bool, later: IO)
    requires !HasPAT(io.env) && !HasPAT(later.env)
    requires !ServedFromCache(n, s, io, force) && io.ok(PutAgain(n.defaultEntry))
    requires GetToken(cfg, n, s, io, force).token.Ok?
    requires ServedFromCache(n, GetToken(cfg, n, s, io, force).store, later, false)
    ensures var r := GetToken(cfg, n, s, io, force);
            GetToken(cfg, n, r.store, later, false) == TokenResult(r.store, None, r.token)
  {
    AnswerIsCached(cfg, n, s, io, force);
    CacheAnswer(cfg, n, GetToken(cfg, n, s, io, force).store, later, false);
  }
}
