/** The flat key space: internal/github/auth_handler.go. */
module SecretKeys {
  import opened Types

  const SECRET_KEY_BASE := "scafctl.auth.github."
  const SECRET_KEY_REFRESH_TOKEN := SECRET_KEY_BASE + "refresh_token"
  const SECRET_KEY_ACCESS_TOKEN := SECRET_KEY_BASE + "access_token"
  const SECRET_KEY_METADATA := SECRET_KEY_BASE + "metadata"
  const SECRET_KEY_TOKEN_PREFIX := SECRET_KEY_BASE + "token."
  const DEFAULT_CACHE_KEY := "_github"
  const INSTALLATION_TOKEN_CACHE_KEY := "_github_app"

  predicate ValidProfile(profile: string) {
    profile == "" || ('.' !in profile && '/' !in profile && '\\' !in profile && ':' !in profile)
  }

  // strings.TrimPrefix
  function TrimPrefix(s: string, prefix: string): string {
    if prefix <= s then s[|prefix|..] else s
  }

  // profileSecretKey for a valid profile. Operations reject an invalid one before they get here.
  function Namespaced(key: string, profile: string): string {
    if profile == "" then key else SECRET_KEY_BASE + profile + "." + TrimPrefix(key, SECRET_KEY_BASE)
  }

  // profileTokenPrefix, likewise.
  function TokenPrefix(profile: string): string {
    if profile == "" then SECRET_KEY_TOKEN_PREFIX else SECRET_KEY_BASE + profile + ".token."
  }

  // ---------- Fingerprints ----------

  predicate IsHexDigit(c: char) {
    '0' <= c <= '9' || 'a' <= c <= 'f'
  }

  ghost predicate IsFingerprint(s: string) {
    |s| == 64 && forall i :: 0 <= i < 64 ==> IsHexDigit(s[i])
  }

  // A hex-encoded SHA-256 sum. Which one is not modelled.
  type Fingerprint = s: string | IsFingerprint(s)
    witness seq(64, _ => '0')

  // The parts of the handler's configuration the store depends on.
  datatype Config = Config(
    hostname: string,
    clientID: string,
    defaultScopes: seq<string>,
    hostFingerprint: Fingerprint,
    appFingerprint: Fingerprint)

  // ---------- The keys of one profile ----------

  // The key strings an operation works with, once its profile is resolved.
  datatype Names = Names(
    refresh: string,
    access: string,
    metadata: string,
    tokenPrefix: string,
    defaultEntry: string,
    patEntry: string,
    appEntry: string)

  function NamesOf(cfg: Config, profile: string): Names {
    Names(
      Namespaced(SECRET_KEY_REFRESH_TOKEN, profile),
      Namespaced(SECRET_KEY_ACCESS_TOKEN, profile),
      Namespaced(SECRET_KEY_METADATA, profile),
      TokenPrefix(profile),
      TokenPrefix(profile) + (cfg.hostFingerprint + ":" + DEFAULT_CACHE_KEY),
      TokenPrefix(profile) + (cfg.hostFingerprint + ":pat:" + DEFAULT_CACHE_KEY),
      TokenPrefix(profile) + (cfg.appFingerprint + ":" + INSTALLATION_TOKEN_CACHE_KEY))
  }

  // Every key an operation of the profile can read, write, list or delete.
  predicate Owns(n: Names, key: string) {
    key == n.refresh || key == n.access || key == n.metadata || n.tokenPrefix <= key
  }

  // What the operations rely on within one profile.
  predicate Distinct(n: Names) {
    && n.refresh != n.access
    && n.refresh != n.metadata
    && n.access != n.metadata
    && !(n.tokenPrefix <= n.refresh)
    && !(n.tokenPrefix <= n.access)
    && !(n.tokenPrefix <= n.metadata)
    && n.tokenPrefix <= n.defaultEntry
    && n.tokenPrefix <= n.patEntry
    && n.tokenPrefix <= n.appEntry
    && n.defaultEntry != n.patEntry
    && n.defaultEntry != n.appEntry
    && n.patEntry != n.appEntry
  }
}
