/** Which keys each operation can change. */
module Frames {
  import opened Types
  import opened SecretKeys
  import opened CredentialStore
  import KeyEncoding

  ghost predicate SameAt(key: string, s: Store, t: Store) {
    (key in s <==> key in t) && (key in s ==> s[key] == t[key])
  }

  lemma LoginFrame(cfg: Config, n: Names, s: Store, io: IO,
                   answer: TokenAnswer, scopes: seq<string>, sessionID: string, flow: Flow, key: string)
    requires key !in {n.refresh, n.access, n.metadata, n.defaultEntry}
    ensures SameAt(key, s, StoreCredentials(cfg, n, s, io, answer, scopes, sessionID, flow).0)
  {
  }

  lemma MintFrame(cfg: Config, n: Names, s: Store, io: IO, key: string)
    requires key !in {n.refresh, n.access, n.metadata, n.defaultEntry}
    ensures SameAt(key, s, MintToken(cfg, n, s, io).store)
  {
    var metadata := LoadMetadata(s, n, io.ok(GetAgain(n.metadata)));
    if metadata.Ok? && io.refreshAnswer.Some? {
      LoginFrame(cfg, n, s, io, io.refreshAnswer.value, metadata.value.scopes,
                 metadata.value.sessionID, metadata.value.flow, key);
    }
  }

  lemma StoredTokenFrame(cfg: Config, n: Names, s: Store, io: IO, force: bool, key: string)
    requires key !in {n.refresh, n.access, n.metadata, n.defaultEntry}
    ensures SameAt(key, s, GetStoredToken(cfg, n, s, io, force).store)
  {
    MintFrame(cfg, n, s, io, key);
  }

  lemma PATTokenFrame(n: Names, s: Store, io: IO, force: bool, key: string)
    requires key != n.patEntry
    ensures SameAt(key, s, GetPATToken(n, s, io, force).store)
  {
  }

  lemma AppLoginFrame(cfg: Config, n: Names, s: Store, io: IO, token: string, expiresAt: int, app: AppInfo, key: string)
    requires key !in {n.access, n.metadata, n.appEntry}
    ensures SameAt(key, s, AppLogin(cfg, n, s, io, token, expiresAt, app).0)
  {
  }

  lemma PurgeFrame(n: Names, s: Store, io: IO, key: string)
    ensures SameAt(key, s, Purge(n, s, io).0) || (key in s && key !in Purge(n, s, io).0)
    ensures key in s && key !in Purge(n, s, io).0 ==> n.tokenPrefix <= key && DecodeEntry(s[key].value).Some?
  {
  }

  lemma LogoutFrame(n: Names, s: Store, io: IO, key: string)
    ensures SameAt(key, s, Logout(n, s, io)) || (key in s && key !in Logout(n, s, io))
    ensures key in Logout(n, s, io) <==> key in s && !Forgotten(n, io, key)
  {
  }

  // A key that is none of the profile's names is never written; purge and logout may delete it
  // if the profile's prefix covers it.
  lemma Untouched(cfg: Config, n: Names, s: Store, op: Op, io: IO, key: string)
    requires key !in {n.refresh, n.access, n.metadata, n.defaultEntry, n.patEntry, n.appEntry}
    ensures var s' := Perform(cfg, n, s, op, io).0;
            && (SameAt(key, s, s') || (key in s && key !in s'))
            && (key in s && key !in s'
                ==> n.tokenPrefix <= key && (op.DoLogout? || (op.DoPurge? && DecodeEntry(s[key].value).Some?)))
            && (op.DoLogout? && HostOk(io) && n.tokenPrefix <= key ==> key !in s')
  {
    match op
    case DoLogin(answer, scopes, flow) => LoginFrame(cfg, n, s, io, answer, scopes, "", flow, key);
    case DoAppLogin(token, expiresAt, app) => AppLoginFrame(cfg, n, s, io, token, expiresAt, app, key);
    case DoGetToken(force) => StoredTokenFrame(cfg, n, s, io, force, key); PATTokenFrame(n, s, io, force, key);
    case DoPurge => PurgeFrame(n, s, io, key);
    case DoLogout => LogoutFrame(n, s, io, key);
    case _ =>
  }

  // The one step of another profile that deletes secrets of p.
  predicate WipesOut(step: Step, p: string) {
    step.profile == "" && p == "token" && step.op.DoLogout?
  }

  // Any other step of another profile leaves each name of p as it was, except that a purge of
  // the default profile may remove what decodes as an entry.
  lemma OtherStepSpares(cfg: Config, p: string, s: Store, step: Step, key: string)
    requires ValidProfile(p) && step.profile != p && !WipesOut(step, p)
    requires key in KeyEncoding.NameSet(NamesOf(cfg, p))
    ensures var s' := Take(cfg, s, step).0;
            SameAt(key, s, s') || (key in s && key !in s' && DecodeEntry(s[key].value).Some?)
  {
    if ValidProfile(step.profile) {
      KeyEncoding.ProfilesApart(cfg, step.profile, p);
      Untouched(cfg, NamesOf(cfg, step.profile), s, step.op, step.io, key);
    }
  }
}
