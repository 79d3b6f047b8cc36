# GitHub auth handler: a verified model

The handler logs users in to GitHub, keeps their credentials in the host's secret store, caches
access tokens there, and refreshes them. This project models three stateful parts of it and
proves what they promise.

- **The credential store.** One flat map from strings to secrets, shared by all profiles.
  `SecretKeys` holds the key formulas, `KeyEncoding` proves them injective. `CredentialStore`
  specifies every operation as a function of the store and of everything it learns from outside
  (host outcomes, clock readings, HTTP answers, fresh ids); `Handler.Plugin` is the imperative
  handler, method by method, proved against it. `Frames`, `Isolation`, `Coherence`,
  `Minting`, `CacheUpkeep`, `LoginRoundTrip`, `TokenLifetime`, `StatusAgreement`, `WriteOrder`,
  `Rotation`, `Inventory`, `SessionEnd` and `PatCache` hold the laws over runs; `TokenAnswers`
  and `CredentialWrites` say in any store, under any host answers, what a token request answers
  and what a login writes, and `Scopes` how scopes become one string.
- **The device code polling loop.** `DevicePolling` has the loop and its specification over the
  sequence of answers, in 64-bit arithmetic; `PollTiming` has the time bounds.
- **The one-slot cache of installation tokens.** `SingleStore` has the class, its history and the
  lifetime `cachedFlow` gives an entry; `SingleStoreThreads` interleaves single field accesses of
  any number of threads under the readers-writer lock; `SingleStoreCalls` ties its history to the
  calls made and shows that calls end.

`dafny verify dfyconfig.toml` checks all of it.

## How the outside world is modelled

- An operation receives an `IO`: which of its host calls succeed, what the clock says at each
  reading, the HTTP answers it gets, a fresh session id, the two environment variables, and the
  answer of the SDK's `IsValidFor`, which is an arbitrary function. Laws without `HostOk` hold
  under every pattern of host failures. A refused write or delete is taken to have no effect.
- Listing a pattern is taken to be prefix matching, as the in-memory host does
  (internal/github/fake_host_test.go:56-67); the order of the keys is arbitrary.
- Stored values are what they decode to: raw text, a cache entry, or metadata. The two JSON shapes
  share the fields `flow` and `sessionId`, so each also decodes as the other with those fields
  only. Raw text never is a JSON object.
- The fingerprint is any 64 hexadecimal characters.
- Times are integers with zero as Go's zero time. Only the laws that say so need a clock that does
  not go back.
- `Secret.writtenBy` and the history, authors and gets of `SingleStoreThreads.State` are history
  variables; no answer depends on them.
- A ticker's m-th tick after creation or reset comes no earlier than m intervals later, and no
  stale tick follows a reset (internal/clock/clock.go:20-29).
- The go-flight manager is taken to pass the lifetime unchanged to `Set` and to answer hits from
  `Get`.

## What does not hold

- Profiles are not isolated in one case: the profile named `token`, which
  internal/github/auth_handler.go:59-64 accepts, lies under the default profile's cache prefix.
  `Isolation.IsolatedExactly` has the exact condition.
- GetToken returns a token past the expiry it was issued with, for as long as the session is not
  ended: the stored access token is handed out with a one-year expiry
  (`TokenLifetime.OutlivesIssueExactly`, `TokenLifetime.ExpiredTokenIsServed`,
  `TokenLifetime.TokenServedForEver`).
- An app login leaves an older default cache entry in place (`Coherence.AppLoginAgreesExactly`,
  `Coherence.AppLoginDisagrees`).
- The cache write is best effort: when the host refuses it, or a logout's deletions, the cached and
  the stored token may differ. `CacheUpkeep.StepKeepsCacheExactly` has the steps that lead there,
  `CacheUpkeep.RefusedCacheWrite` a run.
- A logout reports success also when the host refused deletions, and GetToken may then still
  answer: `SessionEnd.LogoutEndsExactly` has the condition, `SessionEnd.CachedTokenRun` a run.
- A login without a refresh token leaves the previous one stored
  (`LoginRoundTrip.ListingAfterLogin`).
- With a host that does not fail, GetToken never refreshes (`Minting.GetTokenNeverMints`): it serves
  the access token stored beside the refresh token, or has no client id to refresh with. When the
  host refuses calls it may; `Minting.RequestExactly` has the condition in one state,
  `Minting.StepKeepsBackingExactly` the steps that lead there, and `Minting.HalfLogoutRun` and
  `Minting.RefusedReadMints` are runs in which it happens without any login failing.
- An app login with an empty installation token is accepted, and the profile is then reported as
  authenticated and gets no token (`StatusAgreement.EmptyAppToken`).
  `StatusAgreement.StatusAgreesExactly` and `StatusAgreement.AppLoginMatchesExactly` have the
  condition, over runs and for one login.
- GetStatus reports a user also after an app login (`LoginRoundTrip.AfterAppLogin`,
  `LoginRoundTrip.IdentityExactly`).
- GetToken may serve a cached personal access token after the environment changed to another one
  (`PatCache.StaleExactly`, `PatCache.StaleReached`).
- A listing the host refuses is dropped without an error, and the token then has no row
  (`Inventory.NoRowOrTwoRows`).
- A server interval that does not fit 64 bits in nanoseconds is not kept
  (`DevicePolling.ServerIsHeardExactly`, `DevicePolling.ServerUnheard`).
- A lifetime of exactly zero means no expiry (`SingleStore.ZeroLifetimeNeverExpires`).

## Model

| member | source | states |
|---|---|---|
| KeyEncoding.KeyRoundTrip | internal/github/auth_handler.go:68-87 | Decoding a store key gives back the profile and the kind of secret it was built from, for every valid profile, `token` included, and every cache key that starts with a fingerprint and a colon |
| KeyEncoding.KeysInjective | internal/github/auth_handler.go:68-87 | Distinct (profile, kind, cache key) triples never share a store key |
| KeyEncoding.CacheKeysDiffer | internal/github/cli_mode.go:135-136 | The three cache keys in use (default, personal access token, app installation) have the fingerprint shape and differ |
| KeyEncoding.PrefixMeansOwner | internal/github/auth_handler.go:80-87 | A profile's cache prefix covers a secret exactly when it is one of its own cache entries, or the profile is the default one and the secret belongs to `token` |
| KeyEncoding.OverlapExactly | internal/github/auth_handler.go:53-87 | The key sets two different profiles can touch meet exactly for the pair default and `token` |
| KeyEncoding.NamesDistinct | internal/github/auth_handler.go:28-47 | Within one profile the secrets differ and only cache entries lie under the prefix |
| KeyEncoding.ProfilesApart | internal/github/auth_handler.go:68-87 | No name of one profile is a name of another, and which prefixes reach across |
| KeyEncoding.NamesAreKeys | internal/github/auth_handler.go:68-87 | The key strings an operation works with are the store keys of its six secrets and the prefix of its cache |
| KeyEncoding.KeyLayout | internal/github/auth_handler.go:28-87 | Those strings in full, for any profile: the common base, a profile between dots, and `refresh_token`, `access_token`, `metadata`, `token.` and the three cache keys |
| KeyEncoding.ValidExactly | internal/github/auth_handler.go:59-64 | A profile name is rejected exactly when it contains a dot, a slash, a backslash or a colon |
| Frames.Untouched | internal/github/token.go:156-256 | A key that is none of a profile's names is never written by its operations, and deleted only by purge or logout under the profile's prefix |
| Isolation.TouchesOnlyOwnKeys | internal/github/cache.go:86-174 | An operation leaves every key its profile does not own as it was, whatever the host refuses |
| Isolation.DependsOnOwnKeys | internal/github/cli_mode.go:62-287 | What an operation answers and leaves behind depends on its profile's keys alone |
| Isolation.NonInterference | internal/github/auth_handler.go:59-87 | Over any interleaved run, deleting the steps of all other profiles changes nothing one profile observes: no answer, no listing, no secret; host failures included |
| Isolation.IsolatedExactly | internal/github/auth_handler.go:38-76 | Two valid profiles are isolated over all runs exactly when they are not the default profile and `token` |
| Isolation.ForeignMetadata | internal/github/cache.go:112-137 | What the default profile sees of `token`: its session metadata, listed as a cached access token that never expires and that no purge removes |
| Coherence.CoherentAgrees | internal/github/cli_mode.go:138-206 | Where the default cache entry shadows the access secret and no refresh token stands alone, GetToken with and without ForceRefresh both fail or return one access token |
| Coherence.CacheAgreesWithSecrets | internal/github/cli_mode.go:138-206 | That agreement holds in every state reached from an empty store by logins, GetToken, status, list, purge and logout of any profiles with a host that does not fail |
| Coherence.RefreshNeverAlone | internal/github/token.go:168-180 | In every such state, app logins with non-empty tokens included, a stored refresh token comes with a non-empty access token |
| Coherence.AppLoginAgreesExactly | internal/github/app_flow.go:114-128 | After an app login the cache still agrees exactly when there was no default entry or it already held the installation token |
| Coherence.AppLoginDisagrees | internal/github/app_flow.go:114-128 | For every valid profile the disagreement is reached: log in, then log in as an app with another token |
| Coherence.LoginKeepsBackingExactly | internal/github/token.go:168-180 | Under host failures, a login leaves a refresh token alone exactly when its write succeeds, the access token's is refused and none was there |
| CacheUpkeep.LoginKeepsCacheExactly | internal/github/token.go:175-253 | Under any host answers, a login leaves the default entry with another token than the access secret exactly when it writes that secret, the host refuses the metadata or the entry, and the entry holds another token |
| CacheUpkeep.AppLoginKeepsCacheExactly | internal/github/app_flow.go:114-128 | An app login does so exactly when it writes the access secret and the entry holds another token |
| CacheUpkeep.LogoutKeepsCacheExactly | internal/github/auth_handler.go:233-246 | A logout leaves the entry without its access secret exactly when that deletion is granted and the listing or the deletion of the entry is refused |
| CacheUpkeep.GetTokenKeepsCacheExactly | internal/github/cli_mode.go:166-197 | GetToken makes the two differ exactly when it sends a request that is answered with a token and either a rotation stores the new access token while both cache writes are refused beside another token, or the new token is cached without being the stored one |
| CacheUpkeep.StepKeepsCacheExactly | internal/github/token.go:168-253 | One if-and-only-if over every operation of a profile: under any host answers, which steps make its cache disagree with its access secret, and that no other does |
| CacheUpkeep.CacheAgreesUnderFailures | internal/github/cli_mode.go:138-206 | Over every run from an empty store with any host failures in which no step of the profile is one of those or strands a refresh token, and the default profile does not log out under `token`, a serving host makes GetToken with and without ForceRefresh both fail or return one access token |
| CacheUpkeep.RefusedCacheWrite | internal/github/token.go:248-252 | A failing input: a second login whose host refuses only the cache write succeeds and leaves GetToken with two answers |
| Minting.RequestExactly | internal/github/cli_mode.go:138-190 | In any store, under any host answers, GetToken sends a refresh request exactly when there is no personal access token, the cache does not serve, the access secret is unreadable or empty, and the refresh secret and metadata with a client id can be read; the request carries those |
| Minting.GetTokenNeverMints | internal/github/cli_mode.go:166-190 | In every state reached from an empty store with a host that does not fail, app logins with empty tokens included, GetToken sends no refresh request |
| Minting.LogoutKeepsBackingExactly | internal/github/auth_handler.go:236-246 | A logout strands a stored refresh token exactly when its deletion is refused and the access secret's is not |
| Minting.AppLoginKeepsBackingExactly | internal/github/app_flow.go:122-128 | An app login strands a stored refresh token exactly when it writes an empty access token |
| Minting.StepKeepsBackingExactly | internal/github/token.go:168-180 | Under any host answers, which steps of a profile leave its refresh token without an access token, and that no other does, rotations included |
| Minting.OnlyRefusedReadsMint | internal/github/cli_mode.go:167-187 | Over any run with any host failures in which the profile takes no such step, and the default profile does not log out when the profile is `token`, GetToken sends a request only where the host refuses it the access secret |
| Minting.RotationRestoresExactly | internal/github/token.go:104-122 | With a serving host, a request answered with a token leaves the refresh token with a non-empty access token exactly when the answer rotates it |
| Minting.NextRequest | internal/github/cli_mode.go:186-206 | After such an answer the next forced GetToken sends no request if the token was rotated, and the same request again if it was not |
| Minting.HalfLogoutRun | internal/github/auth_handler.go:233-252 | A run that does send one, for any valid profile and store: a login that succeeds, then a logout whose host refuses to delete the refresh secret and the metadata |
| Minting.RefusedReadMints | internal/github/cli_mode.go:167-187 | Another: right after a login that succeeds, refusing one read of the access secret makes a forced GetToken send the refresh token |
| TokenAnswers.AnsweredExactly | internal/github/cli_mode.go:138-206 | In any store, under any host answers, GetToken without a personal access token answers one exactly when the cache serves it, the access secret can be read and is not empty, or a refresh request goes out and is answered with a token |
| TokenAnswers.FailureCause | internal/github/token.go:56-71 | Otherwise the store is as it was and the error names the first thing missing: the refresh secret, the metadata (refused, absent, undecodable), its client id, an answer, a token in the answer |
| TokenAnswers.CacheAnswer | internal/github/cli_mode.go:138-154 | Served from the cache, the answer is the entry field by field; nothing is sent or written |
| TokenAnswers.StoredAnswer | internal/github/cli_mode.go:166-184 | Served from the access secret, it is that secret as a bearer token for a year; only the cache entry is written |
| TokenAnswers.RefreshedAnswer | internal/github/token.go:124-153 | After a refresh, under any host answers: the answer's token and type, for the seconds it says or 8 hours, its scope or else the metadata's scopes joined, and the metadata's flow and session where they can be read again |
| TokenAnswers.RefreshLeaves | internal/github/token.go:104-122 | What a refresh leaves, cache apart: a login's writes with the metadata's scopes, session and flow exactly when the answer brings another refresh token and the metadata can be read again, else nothing |
| TokenAnswers.AnswerIsCached | internal/github/cache.go:62-83 | A token that did not come from the cache is put there field by field when the host grants it |
| TokenAnswers.AnsweredAgain | internal/github/cli_mode.go:138-206 | The next unforced GetToken that finds it valid answers the same token, sends nothing and changes nothing, whatever else the host refuses by then |
| Scopes.JoinThenSplit | internal/github/token.go:131-134 | Scopes without spaces joined for a token come back when the string is split at its spaces |
| Scopes.SplitThenJoin | internal/github/token.go:131-134 | Any string split at its spaces and joined again is itself |
| LoginRoundTrip.DirectRowAfterLogin | internal/github/cli_mode.go:250-269 | Without its cache entry the login's token is listed by the direct row, with the metadata's flow, session and time |
| LoginRoundTrip.TokenAfterLogin | internal/github/cli_mode.go:138-184 | Right after the login GetToken reads back its token: from the cache with expiry rule, scope, flow and session, otherwise the same token as a bearer token good for a year |
| TokenLifetime.OutlivesIssueExactly | internal/github/cli_mode.go:166-184 | Right after the login, the answer carries a later expiry than the token was issued with exactly when it does not come from the cache and a year from now is past that expiry |
| TokenLifetime.ExpiredTokenIsServed | internal/github/cli_mode.go:166-184 | A concrete case: a token issued for an hour is answered two hours later as good for another year |
| TokenLifetime.TokenServedForEver | internal/github/cli_mode.go:138-184 | From any store: after a login and any run of GetToken, status, list and purge, with any steps of other profiles in between but a logout of the default profile when the profile is `token`, GetToken still answers the login's token, forced or not, whatever the clock says |
| LoginRoundTrip.StatusAfterLogin | internal/github/cli_mode.go:62-107 | GetStatus reads back the login's claims, client id, scopes and session expiry, and turns to session expired once that has passed |
| LoginRoundTrip.ListingAfterLogin | internal/github/cli_mode.go:211-272 | The listing shows the login's token once; a refresh row appears also when only an earlier login brought a refresh token |
| LoginRoundTrip.StatusMatchesListing | internal/github/cli_mode.go:89-95 | GetStatus reports an expired session exactly when the refresh row is marked expired |
| LoginRoundTrip.AfterAppLogin | internal/github/app_flow.go:103-156 | After an app login: the forced token, the cached row, the stored metadata naming a service principal, and a status that names a user all the same |
| LoginRoundTrip.IdentityExactly | internal/github/cli_mode.go:98-106 | In any store, the identity GetStatus reports is the one the metadata records exactly when that is a user |
| StatusAgreement.StatusAgreesExactly | internal/github/cli_mode.go:73-107 | In every state reached from an empty store by any steps of any profiles with a host that does not fail, app logins with empty tokens included: GetToken succeeds, forced or not, exactly when GetStatus does not say unauthenticated, if and only if the access secret, where there is one, is not empty |
| StatusAgreement.AppLoginMatchesExactly | internal/github/app_flow.go:122-156 | From any state the invariant allows, GetToken and GetStatus agree after an app login exactly when its token is not empty |
| StatusAgreement.StatusAgreesWithToken | internal/github/cli_mode.go:73-107 | So they agree in every such state that only non-empty installation tokens led to; an expired session still yields a token |
| StatusAgreement.EmptyAppToken | internal/github/app_flow.go:122-156 | With an empty installation token the profile is reported authenticated and gets no token |
| StatusAgreement.StatusExactly | internal/github/cli_mode.go:73-107 | In any store, under any host answers: unauthenticated without a readable token secret or without readable metadata, expired once the session expiry, if there is one, is past, else authenticated with the metadata's fields as a user |
| StatusAgreement.EntryAsMetadata | internal/github/token.go:285-290 | A cache entry where the metadata should be still decodes, as a session without claims, client, scopes or expiry |
| StatusAgreement.PATStatusExactly | internal/github/pat.go:71-89 | With a personal access token the stored session does not count: authenticated, with the claims found and the default scopes, exactly when GitHub accepts the token, which is when a forced GetToken answers one |
| CredentialWrites.LoginWritesExactly | internal/github/token.go:168-253 | Under any host answers, secret by secret: what storeCredentials writes, what it leaves, and that it succeeds exactly when none of the three required writes is refused |
| CredentialWrites.LoginRecords | internal/github/token.go:182-218 | The claims answered are those in the metadata written: GitHub's, or the bare host name; with session expiry, session id, scopes, flow and client |
| CredentialWrites.LoginCaches | internal/github/token.go:223-252 | The cache entry of a login: token and type, expiry of as many seconds as answered, else 8 hours beside a refresh token, else a year, scope answered or joined, flow and session those of the metadata |
| CredentialWrites.AppLoginWritesExactly | internal/github/app_flow.go:103-156 | Under any host answers, secret by secret: what appLogin writes, that it succeeds exactly when both required writes are granted, and the claims it answers and records |
| WriteOrder.FailedLoginLeavesMetadataAndCache | internal/github/token.go:168-218 | A failing storeCredentials leaves everything but the two token secrets as it was, and those are old or new, one by one |
| WriteOrder.MetadataNeverNewer | internal/github/token.go:168-218 | Over every run from an empty store, whatever the host refuses, the metadata present beside an access secret was never written by a later step than it |
| WriteOrder.RunKeepsOrder | internal/github/app_flow.go:122-156 | The same from any ordered store, over logins, rotations, app logins, purges and logouts of all profiles |
| Rotation.MintOnce | internal/github/token.go:52-154 | One refresh: the request it sends, the token it returns, and the session it leaves, rotated or not |
| Rotation.SessionSurvives | internal/github/token.go:104-122 | Over any run of refreshes the session id, flow and scopes stay those of the login, and the refresh secret is the latest one received |
| Rotation.RefreshContinuity | internal/github/token.go:74-154 | Every refresh of a run carries the refresh token of the latest successful answer that returned one, else the original; returned tokens keep session, flow and, where scope is omitted, the login's scopes (section 6 of RFC 6749) |
| Rotation.TwoWritersAgreeExactly | internal/github/cli_mode.go:186-197 | On a rotation the entry cached by storeCredentials and the one cached by GetToken differ in expiry by the clock's advance, and agree on all else exactly when the metadata names a session |
| Inventory.PurgeUnderMovingClock | internal/github/cache.go:144-174 | With the clock read per key and moving: all that was expired at the start is removed, nothing but what is expired at the end is, and the count is the number of secrets removed |
| Inventory.PurgeAtHeldClock | internal/github/cache.go:144-174 | At a held clock a purge leaves exactly what has not expired |
| Inventory.PurgeAgain | internal/github/cache.go:155-171 | A second purge at the time the first one ended leaves what a single purge at that time leaves, and a third removes nothing |
| Inventory.ListingComplete | internal/github/cli_mode.go:224-271 | With a host that does not fail, the default session's access token has exactly one row, every decodable entry has one, and the rows add up |
| Inventory.OneRowExactly | internal/github/cli_mode.go:246-269 | Under any host answers, whenever the access secret can be read, that token has exactly one row if and only if a decodable cache entry is either both listed and read for its row and read again, or neither |
| Inventory.NoRowOrTwoRows | internal/github/cli_mode.go:246-269 | Beside a decodable entry, refusing only the listing gives no row, refusing only the second read gives two |
| Inventory.PurgeMatchesListing | internal/github/cache.go:105-174 | At a fixed clock the purge count is the number of cached rows marked expired, and the other rows are what listing shows afterwards |
| Inventory.PurgeExactly | internal/github/cache.go:144-174 | Under any host answers: a refused listing is an error and removes nothing; else a key is gone exactly when its entry could be read, had expired by its own reading of the clock and could be deleted, and the count is the number gone |
| Inventory.RefreshRowExactly | internal/github/cli_mode.go:224-244 | Under any host answers: when there is a refresh row and what is in it, with readable metadata and without |
| Inventory.DirectRowExactly | internal/github/cli_mode.go:250-269 | The same for the direct row |
| Inventory.CachedRowExactly | internal/github/cache.go:105-141 | The same for the row of each cache key |
| Inventory.OrderDoesNotMatter | internal/github/fake_host_test.go:56-67 | Whatever order the host lists its keys in, a listing has the same rows, each as often |
| Inventory.RowsInPlace | internal/github/cli_mode.go:222-271 | The refresh row is first, the direct row last, and between them are the rows of the cache entries and no others |
| SessionEnd.LogoutClears | internal/github/auth_handler.go:219-255 | A logout whose host calls succeed leaves no key the profile owns |
| SessionEnd.GoneMeansSignedOut | internal/github/cli_mode.go:62-272 | Without secrets GetToken fails and writes nothing, GetStatus says unauthenticated, the listing is empty, whether or not the host fails |
| SessionEnd.LogoutPersists | internal/github/auth_handler.go:219-255 | All of this lasts through any later run up to the profile's next login, with steps of profiles that share no keys in between |
| SessionEnd.ExhaustedExactly | internal/github/cli_mode.go:138-190 | In any store GetToken fails from now on, whatever it is asked and whatever is answered or refused, exactly when there is no decodable cache entry, no non-empty access token, and no refresh token beside metadata with a client id |
| SessionEnd.LogoutEndsExactly | internal/github/auth_handler.go:219-255 | From any store and under any host answers, a logout leaves GetToken that way exactly when the host grants the deletion of each of these that was there |
| SessionEnd.CachedTokenRun | internal/github/auth_handler.go:233-252 | A run that misses it, for any valid profile and store: log in, then log out with only the listing refused; GetStatus says unauthenticated and GetToken answers the login's token |
| PatCache.FromEnvironment | internal/github/pat.go:29-41 | GITHUB_TOKEN counts before GH_TOKEN, and one of them must not be empty |
| PatCache.PATAnsweredExactly | internal/github/pat.go:92-156 | In any store, under any host answers: a personal access token is answered exactly when the cache serves one or GitHub accepts the environment's; a rejected one fails and writes nothing, an accepted one is answered for a year and cached when the host grants it |
| PatCache.NoneConfigured | internal/github/pat.go:92-97 | Without either variable it fails and touches nothing |
| PatCache.StaleExactly | internal/github/pat.go:107-139 | GetPATToken answers with another token than the environment's exactly when an unforced call finds a valid cache entry holding it |
| PatCache.StaleReached | internal/github/pat.go:102-126 | That case is reached, for any valid profile and store: validate one token, set another in the environment, ask again |
| PatCache.PATRoundTrip | internal/github/pat.go:107-155 | A validated token is served with a one-year expiry, and from the cache again, the same, without being validated |
| PatCache.PATCoherence | internal/github/pat.go:92-156 | With a fixed environment and no such entry at the start, every successful answer is the environment's token, over any run of any profiles with any host failures |
| Handler.Plugin.ListSecrets | internal/github/fake_host_test.go:56-67 | The matching keys, each once, in any order |
| Handler.Plugin.CacheSet | internal/github/cache.go:62-83 | Writes one stamped entry or, refused, nothing |
| Handler.Plugin.CacheClear | internal/github/cache.go:86-102 | The loop removes exactly the keys under the prefix whose deletion the host grants |
| Handler.Plugin.CacheListEntries | internal/github/cache.go:105-141 | The loop returns the rows of exactly the decodable entries the host serves, in some order without repetition |
| Handler.Plugin.CachePurgeExpired | internal/github/cache.go:144-174 | The loop removes exactly the expired decodable entries, and counts them |
| Handler.Plugin.StoreCredentials | internal/github/token.go:157-256 | The store and answer the specification gives, including every early return |
| Handler.Plugin.RefreshAccessToken | internal/github/token.go:74-154 | Same, for one refresh: request sent, rotation, token returned |
| Handler.Plugin.MintToken | internal/github/token.go:52-71 | Same, for loading the refresh token and metadata |
| Handler.Plugin.GetPATToken | internal/github/pat.go:92-156 | Same, for the personal access token and its cache entry |
| Handler.Plugin.GetToken | internal/github/cli_mode.go:110-207 | Same, for cache, stored access token and refresh in that order; an invalid profile touches nothing |
| Handler.Plugin.AppLogin | internal/github/app_flow.go:103-161 | Same, for the ordered writes of an app login |
| Handler.Plugin.GetStatus | internal/github/cli_mode.go:62-107 | Same, for the status |
| Handler.Plugin.ListCachedTokens | internal/github/cli_mode.go:211-272 | Refresh row, cached rows in the order the host lists their keys, direct row |
| Handler.Plugin.PurgeExpiredTokens | internal/github/cli_mode.go:275-287 | The purge of the profile's prefix; an invalid profile touches nothing |
| Handler.Plugin.LogoutInternal | internal/github/auth_handler.go:219-255 | Every deletion is attempted; what remains is what the host refused to delete |
| Handler.Plugin.Call | internal/github/auth_handler.go:194-311 | Each entry point of the plugin takes one step of a run: same store, same answer, the rows of a listing in the order the host lists its keys |
| DevicePolling.PollForToken | internal/github/device_flow.go:170-246 | The loop's result, its number of polls and the interval left in force, as functions of the answers: the first answer that ends the loop decides |
| DevicePolling.FirstEndFixesOutcome | internal/github/device_flow.go:187-245 | Nothing that would be answered after the first ending answer matters |
| DevicePolling.PendingIsNeutral | internal/github/device_flow.go:198-227 | A transport error or authorization_pending inserted anywhere changes neither the interval nor the result (section 3.5 of RFC 8628) |
| DevicePolling.NextInterval | internal/github/device_flow.go:228-236 | Each slow_down adds one increment in 64-bit arithmetic, and nothing else changes the interval |
| DevicePolling.IntervalClosedForm | internal/github/device_flow.go:179-236 | The interval in force is the start interval plus one increment per slow_down, wrapped to 64 bits once |
| DevicePolling.FirstWait | internal/github/device_flow.go:174-182 | The first wait is the longer of the minimum and the seconds the server asked for, where those fit 64 bits in nanoseconds, and otherwise is the minimum or equals them modulo 2^64 |
| DevicePolling.ServerIsHeardExactly | internal/github/device_flow.go:179-182 | The client waits as long as the server asks (section 3.5 of RFC 8628) exactly when the seconds fit 64 bits in nanoseconds |
| DevicePolling.ServerUnheard | internal/github/device_flow.go:179-182 | A failing input: 9223372037 seconds asked for, 5 seconds waited |
| DevicePolling.Settings | internal/github/device_flow.go:46-58 | Unset, the minimum and the increment are 5 seconds and the timeout 5 minutes; what is set or requested is kept |
| DevicePolling.ResultByAnswer | internal/github/device_flow.go:208-240 | The result of the first answer that ends the loop, by its error string, after any answers that do not |
| DevicePolling.GoesOnExactly | internal/github/device_flow.go:198-240 | The loop goes on exactly after a transport error, authorization_pending, or slow_down that leaves a positive interval |
| PollTiming.PollTimeBound | internal/github/device_flow.go:174-185 | The n-th poll, after k slow_down answers, starts at least n*i0 + d*k*(k+1)/2 after the ticker was created |
| PollTiming.BoundAttained | internal/github/device_flow.go:228-236 | A run that attains the bound: with default settings and one slow_down the second poll starts at 15 seconds |
| PollTiming.PollsBeforeDeadline | internal/github/device_flow.go:52-58 | At most timeout / i0 polls start before the deadline |
| PollTiming.IntervalBeforeDeadline | internal/github/device_flow.go:228-236 | Before the deadline the interval is exactly i0 + k*d, never below the minimum and at most timeout + d, so it does not overflow |
| PollTiming.NoPanicBeforeDeadline | internal/github/device_flow.go:184-234 | Before the deadline the ticker is never created or reset with a non-positive interval |
| PollTiming.DefaultLogin | internal/github/auth_handler.go:40-44 | With default settings a login polls at most 60 times, every wait is at least 5 seconds, and once a poll has started in time no later wait exceeds 305; where the server's seconds fit 64 bits the first wait is the longer of those and 5 seconds, and each slow_down adds 5 |
| SingleStore.SingleStore.Get | internal/github/singlestore.go:33-43 | Answers what the last Set of the history allows |
| SingleStore.SingleStore.Set | internal/github/singlestore.go:45-58 | Extends the history by one Set, with its own clock reading |
| SingleStore.HitExactly | internal/github/singlestore.go:33-58 | A hit occurs exactly when the last Set has the key, a value, and either no expiry or at least the buffer left; it answers that Set's value |
| SingleStore.MissLasts | internal/github/singlestore.go:36-41 | With a clock that does not go back a miss stays a miss until the next Set |
| SingleStore.CachedServedExactly | internal/github/cachedflow.go:32-42 | After any history, a fetched token is served exactly under its own key and up to what was left of it when fetched, counted from the Set, less the buffer; what was left is cut off at 64 bits; and what is served is that token |
| SingleStore.ServedUntilBuffer | internal/github/cachedflow.go:18-42 | With the manager's buffer: exactly up to five minutes before its expiry, shifted by the delay between the two clock readings |
| SingleStore.NeverStaleExactly | internal/github/cachedflow.go:32-42 | Exactly when a fetched token is never served past its own expiry, from expiry, the two clock readings and buffer alone: something must be left of it, and the delay be covered by the buffer or less than the buffer be left; the 64-bit cut included |
| SingleStore.DelayWithinBuffer | internal/github/cachedflow.go:18-42 | A delay of at most the default buffer suffices, after any history |
| SingleStore.ZeroLifetimeNeverExpires | internal/github/singlestore.go:50-52 | A token fetched at the moment it expires is served for ever |
| SingleStoreThreads.NoTornReads | internal/github/singlestore.go:17-58 | In every interleaving of any number of readers and writers, every finished Get answers from the key, value and expiry of one single Set, the latest completed when it returned |
| SingleStoreThreads.RunKeepsInv | internal/github/singlestore.go:33-58 | The invariant of lock, slot, readers and history behind it, kept by every step |
| SingleStoreThreads.WritersAreAlone | internal/github/singlestore.go:33-47 | A writer excludes readers and other writers |
| SingleStoreCalls.CallsInProgramOrder | internal/github/singlestore.go:33-58 | In every interleaving, the completed Sets of each thread and the one it may be in are exactly the Sets it called, each once, in order, with key, value and lifetime; likewise its Gets |
| SingleStoreCalls.SetsReadTheirClock | internal/github/singlestore.go:50-57 | Every completed Set carries the clock reading its own thread made when it wrote the expiry |
| SingleStoreCalls.GetsAreTheirThreads | internal/github/singlestore.go:33-43 | Every finished Get was called by its thread for that key, compared with the clock reading that thread made, and counts the Sets completed at its call and at its return |
| SingleStoreCalls.SetAlone | internal/github/singlestore.go:45-58 | From an idle thread and a free lock, a Set and five turns extend the history by exactly that Set |
| SingleStoreCalls.GetAlone | internal/github/singlestore.go:33-43 | With no Set going on, a Get and eight turns add exactly one record, with what the slot gives at its clock reading |
| SingleStoreCalls.SetThenGet | internal/github/singlestore.go:33-58 | A token one thread has stored is what the next Get of any thread answers, exactly while its lifetime, if it has one, leaves the buffer |
| SingleStoreCalls.InsideFinishes | internal/github/singlestore.go:34-47 | A thread holding the lock finishes after a fixed number of its own turns, whatever the others do in between |
| SingleStoreCalls.SomeoneMoves | internal/github/singlestore.go:34-47 | No deadlock: in every interleaving, while some thread is in a call, some thread in a call can take its next step |

## Left out

- A missing host client: every operation returns before it reaches the store.
- Interleaving of two handler calls: each operation is one step; only the one-slot cache is modelled under concurrency.
- JSON text, and raw secrets that happen to be JSON objects.
- 64-bit overflow in token lifetimes and times; it is modelled for the polling interval and for the lifetime `cachedFlow` computes.
- The HTTP client, response decoding, browser opening and the OAuth callback server: their decoded results are inputs, and a code exchange is one more storeCredentials call.
- JWT signing, key parsing and the hash behind the fingerprint.
- The go-flight manager's deduplication and expiry threshold.
- Server mode activation, configuration checks, flow detection and the choice of login flow.
- The expiry a login reports to its caller.
- The personal access token login: it validates the token and has no effect on the store.
- How long one poll request takes, beyond that its answer is handled no earlier than its tick.
- Handler.Plugin.CachePurgeExpired: one turn of its loop is a method of its own, `PurgeEntry`; the source has it inline.
