/** The key encoding is injective, and the only two profiles that share keys are the default
    profile and the profile named "token". */
module KeyEncoding {
  import opened Types
  import opened SecretKeys

  // One secret of one profile. A cache key starts with a fingerprint and a colon.
  datatype Slot = RefreshSlot | AccessSlot | MetadataSlot | EntrySlot(cacheKey: string)

  ghost predicate IsCacheKey(s: string) {
    |s| > 64 && IsFingerprint(s[..64]) && s[64] == ':'
  }

  ghost predicate ValidSlot(slot: Slot) {
    slot.EntrySlot? ==> IsCacheKey(slot.cacheKey)
  }

  function StoreKey(profile: string, slot: Slot): string {
    match slot
    case RefreshSlot => Namespaced(SECRET_KEY_REFRESH_TOKEN, profile)
    case AccessSlot => Namespaced(SECRET_KEY_ACCESS_TOKEN, profile)
    case MetadataSlot => Namespaced(SECRET_KEY_METADATA, profile)
    case EntrySlot(cacheKey) => TokenPrefix(profile) + cacheKey
  }

  // ---------- Decoding ----------

  // The index of the first dot, or the length when there is none.
  function FirstDot(s: string): (i: nat)
    ensures i <= |s|
    ensures '.' !in s[..i]
    ensures i < |s| ==> s[i] == '.'
  {
    if s == "" || s[0] == '.' then 0 else
    var i := 1 + FirstDot(s[1..]);
    assert s[..i] == [s[0]] + s[1..][..i - 1];
    i
  }

  function DecodeSecret(name: string): Option<Slot> {
    if name == "refresh_token" then Some(RefreshSlot)
    else if name == "access_token" then Some(AccessSlot)
    else if name == "metadata" then Some(MetadataSlot)
    else None
  }

  ghost function DecodeRest(rest: string): Option<(string, Slot)> {
    var i := FirstDot(rest);
    if i == |rest| then
      match DecodeSecret(rest) { case Some(slot) => Some(("", slot)) case None => None }
    else
      var head, tail := rest[..i], rest[i + 1..];
      if head == "token" && IsCacheKey(tail) then Some(("", EntrySlot(tail)))
      else if "token." <= tail && IsCacheKey(tail[6..]) then Some((head, EntrySlot(tail[6..])))
      else match DecodeSecret(tail) { case Some(slot) => Some((head, slot)) case None => None }
  }

  ghost function DecodeKey(key: string): Option<(string, Slot)> {
    if SECRET_KEY_BASE <= key then DecodeRest(key[|SECRET_KEY_BASE|..]) else None
  }

  // The part of a store key that says which slot it is.
  function Tail(slot: Slot): string {
    match slot
    case RefreshSlot => "refresh_token"
    case AccessSlot => "access_token"
    case MetadataSlot => "metadata"
    case EntrySlot(cacheKey) => "token." + cacheKey
  }

  function Dotted(profile: string, tail: string): string {
    if profile == "" then tail else profile + "." + tail
  }

  // The part of a store key after the common base.
  function Rest(profile: string, slot: Slot): string {
    Dotted(profile, Tail(slot))
  }

  lemma StoreKeyIsBasePlusRest(profile: string, slot: Slot)
    ensures StoreKey(profile, slot) == SECRET_KEY_BASE + Rest(profile, slot)
  {
    var base := SECRET_KEY_BASE;
    match slot
    case RefreshSlot => assert TrimPrefix(base + "refresh_token", base) == "refresh_token";
    case AccessSlot => assert TrimPrefix(base + "access_token", base) == "access_token";
    case MetadataSlot => assert TrimPrefix(base + "metadata", base) == "metadata";
    case EntrySlot(cacheKey) =>
      if profile == "" {
        assert (base + "token.") + cacheKey == base + ("token." + cacheKey);
      } else {
        assert (base + profile + ".token.") + cacheKey == base + (profile + "." + ("token." + cacheKey));
      }
  }

  lemma {:induction false} FirstDotAt(head: string, tail: string)
    requires '.' !in head
    ensures FirstDot(head + "." + tail) == |head|
  {
    var s := head + "." + tail;
    assert s[|head|] == '.';
    assert s[..|head|] == head;
  }

  lemma NoDot(s: string)
    requires '.' !in s
    ensures FirstDot(s) == |s|
  {
  }

  lemma DecodeTail(head: string, slot: Slot)
    requires ValidSlot(slot) && head != "" && ValidProfile(head)
    ensures DecodeRest(Rest(head, slot)) == Some((head, slot))
  {
    var tail := Tail(slot);
    var rest := head + "." + tail;
    FirstDotAt(head, tail);
    assert rest[..|head|] == head && rest[|head| + 1..] == tail;
    assert !IsCacheKey(tail) by {
      if |tail| > 64 {
        assert tail[..64][0] == 't';
      }
    }
    if slot.EntrySlot? {
      assert tail[6..] == slot.cacheKey;
    } else {
      assert tail[0] != 't';
    }
  }

  lemma DecodeDefault(slot: Slot)
    requires ValidSlot(slot)
    ensures DecodeRest(Tail(slot)) == Some(("", slot))
  {
    var rest := Tail(slot);
    if slot.EntrySlot? {
      assert rest == "token" + "." + slot.cacheKey;
      FirstDotAt("token", slot.cacheKey);
      assert rest[..5] == "token" && rest[6..] == slot.cacheKey;
    } else {
      NoDot(rest);
    }
  }

  // Decoding a store key gives back the profile and the slot it was built from.
  lemma KeyRoundTrip(profile: string, slot: Slot)
    requires ValidProfile(profile) && ValidSlot(slot)
    ensures DecodeKey(StoreKey(profile, slot)) == Some((profile, slot))
  {
    StoreKeyIsBasePlusRest(profile, slot);
    var rest := Rest(profile, slot);
    assert (SECRET_KEY_BASE + rest)[|SECRET_KEY_BASE|..] == rest;
    if profile == "" {
      DecodeDefault(slot);
    } else {
      DecodeTail(profile, slot);
    }
  }

  // Distinct (profile, slot) pairs never share a key.
  lemma KeysInjective(p: string, slotP: Slot, q: string, slotQ: Slot)
    requires ValidProfile(p) && ValidSlot(slotP) && ValidProfile(q) && ValidSlot(slotQ)
    requires StoreKey(p, slotP) == StoreKey(q, slotQ)
    ensures p == q && slotP == slotQ
  {
    KeyRoundTrip(p, slotP);
    KeyRoundTrip(q, slotQ);
  }

  // ---------- The names of one profile ----------

  ghost function NameSet(n: Names): set<string> {
    {n.refresh, n.access, n.metadata, n.defaultEntry, n.patEntry, n.appEntry}
  }

  lemma CacheKeyShape(fingerprint: Fingerprint, suffix: string)
    requires suffix != "" && suffix[0] == ':'
    ensures IsCacheKey(fingerprint + suffix)
  {
    assert (fingerprint + suffix)[..64] == fingerprint;
  }

  // The three shapes of cache key the handler uses.
  function DefaultCacheKey(cfg: Config): string { cfg.hostFingerprint + ":" + DEFAULT_CACHE_KEY }
  function PATCacheKey(cfg: Config): string { cfg.hostFingerprint + ":pat:" + DEFAULT_CACHE_KEY }
  function AppCacheKey(cfg: Config): string { cfg.appFingerprint + ":" + INSTALLATION_TOKEN_CACHE_KEY }

  lemma CacheKeysDiffer(cfg: Config)
    ensures IsCacheKey(DefaultCacheKey(cfg)) && IsCacheKey(PATCacheKey(cfg)) && IsCacheKey(AppCacheKey(cfg))
    ensures DefaultCacheKey(cfg) != PATCacheKey(cfg)
    ensures DefaultCacheKey(cfg) != AppCacheKey(cfg)
    ensures PATCacheKey(cfg) != AppCacheKey(cfg)
  {
    var d, p, a := DefaultCacheKey(cfg), PATCacheKey(cfg), AppCacheKey(cfg);
    assert d == cfg.hostFingerprint + (":" + DEFAULT_CACHE_KEY);
    assert p == cfg.hostFingerprint + (":pat:" + DEFAULT_CACHE_KEY);
    assert a == cfg.appFingerprint + (":" + INSTALLATION_TOKEN_CACHE_KEY);
    CacheKeyShape(cfg.hostFingerprint, ":" + DEFAULT_CACHE_KEY);
    CacheKeyShape(cfg.hostFingerprint, ":pat:" + DEFAULT_CACHE_KEY);
    CacheKeyShape(cfg.appFingerprint, ":" + INSTALLATION_TOKEN_CACHE_KEY);
    assert |d| == 72 && |p| == 76 && |a| == 76;
    assert p[65] == 'p' && a[65] == '_';
  }

  ghost function SlotOf(cfg: Config, profile: string, key: string): (slot: Slot)
    requires key in NameSet(NamesOf(cfg, profile))
    ensures ValidSlot(slot) && StoreKey(profile, slot) == key
  {
    var n := NamesOf(cfg, profile);
    CacheKeysDiffer(cfg);
    if key == n.refresh then RefreshSlot
    else if key == n.access then AccessSlot
    else if key == n.metadata then MetadataSlot
    else if key == n.defaultEntry then EntrySlot(DefaultCacheKey(cfg))
    else if key == n.patEntry then EntrySlot(PATCacheKey(cfg))
    else EntrySlot(AppCacheKey(cfg))
  }

  // ---------- Which profile a key belongs to ----------

  predicate Overlapping(p: string, q: string) {
    (p == "" && q == "token") || (p == "token" && q == "")
  }

  // What stands before the first dot of the rest of a cache entry's key.
  function EntryHead(profile: string): string {
    if profile == "" then "token" else profile
  }

  predicate Headed(rest: string, head: string) {
    |head| < |rest| && rest[..|head|] == head && FirstDot(rest) == |head|
  }

  function PrefixRest(profile: string): string {
    Dotted(profile, "token.")
  }

  lemma PrefixIsBasePlusRest(profile: string, rest: string)
    ensures TokenPrefix(profile) == SECRET_KEY_BASE + PrefixRest(profile)
    ensures TokenPrefix(profile) <= SECRET_KEY_BASE + rest <==> PrefixRest(profile) <= rest
  {
    var base, pre := SECRET_KEY_BASE, PrefixRest(profile);
    assert TokenPrefix(profile) == base + pre;
    if base + pre <= base + rest {
      assert (base + rest)[|base|..] == rest;
      assert (base + rest)[..|base + pre|][|base|..] == rest[..|pre|];
    }
    if pre <= rest {
      assert base + rest == (base + pre) + rest[|pre|..];
    }
  }

  lemma PrefixHeads(profile: string, rest: string)
    requires ValidProfile(profile) && PrefixRest(profile) <= rest
    ensures Headed(rest, EntryHead(profile))
  {
    var head := EntryHead(profile);
    FirstDotAt(head, rest[|head| + 1..]);
    assert rest == head + "." + rest[|head| + 1..];
  }

  lemma SlotHeads(profile: string, slot: Slot)
    requires ValidProfile(profile) && ValidSlot(slot)
    ensures if profile == "" && !slot.EntrySlot? then FirstDot(Rest(profile, slot)) == |Rest(profile, slot)|
            else Headed(Rest(profile, slot), EntryHead(profile))
  {
    if profile != "" {
      FirstDotAt(profile, Tail(slot));
    } else if slot.EntrySlot? {
      FirstDotAt("token", slot.cacheKey);
      assert Tail(slot) == "token" + "." + slot.cacheKey;
    } else {
      NoDot(Tail(slot));
    }
  }

  lemma DottedPrefix(profile: string, a: string, b: string)
    ensures Dotted(profile, a) <= Dotted(profile, b) <==> a <= b
  {
    if profile != "" {
      var head := profile + ".";
      assert Dotted(profile, a) == head + a && Dotted(profile, b) == head + b;
      if head + a <= head + b {
        assert a == (head + a)[|head|..] && b == (head + b)[|head|..];
        assert forall i :: 0 <= i < |a| ==> a[i] == (head + a)[|head| + i];
      }
      if a <= b {
        assert head + b == (head + a) + b[|a|..];
      }
    }
  }

  lemma EntriesAlone(slot: Slot)
    requires ValidSlot(slot)
    ensures "token." <= Tail(slot) <==> slot.EntrySlot?
    ensures slot.EntrySlot? ==> !("token." <= slot.cacheKey)
  {
    if slot.EntrySlot? {
      assert IsHexDigit(slot.cacheKey[..64][0]);
    } else {
      assert Tail(slot)[0] != 't';
    }
  }

  lemma PrefixRestMeansOwner(p: string, q: string, slot: Slot)
    requires ValidProfile(p) && ValidProfile(q) && ValidSlot(slot)
    requires PrefixRest(p) <= Rest(q, slot)
    ensures (p == q && slot.EntrySlot?) || (p == "" && q == "token")
  {
    SlotHeads(q, slot);
    PrefixHeads(p, Rest(q, slot));
    EntriesAlone(slot);
    assert EntryHead(p) == EntryHead(q);
    if p == q {
      DottedPrefix(p, "token.", Tail(slot));
    } else if q == "" && slot.EntrySlot? {
      assert Tail(slot) == Dotted("token", slot.cacheKey);
      DottedPrefix("token", "token.", slot.cacheKey);
    }
  }

  lemma OwnerMeansPrefixRest(p: string, q: string, slot: Slot)
    requires ValidSlot(slot) && ((p == q && slot.EntrySlot?) || (p == "" && q == "token"))
    ensures PrefixRest(p) <= Rest(q, slot)
  {
    EntriesAlone(slot);
    if p == q {
      DottedPrefix(p, "token.", Tail(slot));
    } else {
      DefaultCoversToken(Tail(slot));
    }
  }

  lemma DefaultCoversToken(tail: string)
    ensures "token." <= Dotted("token", tail)
  {
  }

  // The prefix of p covers a key of q exactly when the key is a cache entry of p itself, or p
  // is the default profile and q is named "token".
  lemma PrefixMeansOwner(p: string, q: string, slot: Slot)
    requires ValidProfile(p) && ValidProfile(q) && ValidSlot(slot)
    ensures TokenPrefix(p) <= StoreKey(q, slot) <==> (p == q && slot.EntrySlot?) || (p == "" && q == "token")
  {
    StoreKeyIsBasePlusRest(q, slot);
    PrefixIsBasePlusRest(p, Rest(q, slot));
    if PrefixRest(p) <= Rest(q, slot) {
      PrefixRestMeansOwner(p, q, slot);
    }
    if (p == q && slot.EntrySlot?) || (p == "" && q == "token") {
      OwnerMeansPrefixRest(p, q, slot);
    }
  }

  // The key sets two different profiles can touch are disjoint exactly when the pair is not
  // the default profile and "token".
  lemma OverlapExactly(cfg: Config, p: string, q: string)
    requires ValidProfile(p) && ValidProfile(q) && p != q
    ensures (exists key :: Owns(NamesOf(cfg, p), key) && Owns(NamesOf(cfg, q), key)) <==> Overlapping(p, q)
  {
    if Overlapping(p, q) {
      PrefixMeansOwner("", "token", RefreshSlot);
      var key := StoreKey("token", RefreshSlot);
      assert Owns(NamesOf(cfg, p), key) && Owns(NamesOf(cfg, q), key);
    }
    forall key | Owns(NamesOf(cfg, p), key) && Owns(NamesOf(cfg, q), key)
      ensures Overlapping(p, q)
    {
      OwnerHeads(cfg, p, key);
      OwnerHeads(cfg, q, key);
    }
  }

  lemma OwnerHeads(cfg: Config, profile: string, key: string)
    requires ValidProfile(profile) && Owns(NamesOf(cfg, profile), key)
    ensures |SECRET_KEY_BASE| <= |key|
    ensures var rest := key[|SECRET_KEY_BASE|..];
            if profile == "" then FirstDot(rest) == |rest| || Headed(rest, "token") else Headed(rest, profile)
  {
    var n, base := NamesOf(cfg, profile), SECRET_KEY_BASE;
    if n.tokenPrefix <= key {
      PrefixIsBasePlusRest(profile, "");
      var rest := key[|base|..];
      assert key == base + rest by {
        assert key == n.tokenPrefix + key[|n.tokenPrefix|..];
      }
      PrefixIsBasePlusRest(profile, rest);
      PrefixHeads(profile, rest);
    } else {
      var slot := SlotOf(cfg, profile, key);
      StoreKeyIsBasePlusRest(profile, slot);
      SlotHeads(profile, slot);
      assert key[|base|..] == Rest(profile, slot);
    }
  }

  // Each name an operation works with is the store key of its slot.
  lemma NamesAreKeys(cfg: Config, profile: string)
    ensures var n := NamesOf(cfg, profile);
            && n.refresh == StoreKey(profile, RefreshSlot)
            && n.access == StoreKey(profile, AccessSlot)
            && n.metadata == StoreKey(profile, MetadataSlot)
            && n.tokenPrefix == TokenPrefix(profile)
            && n.defaultEntry == StoreKey(profile, EntrySlot(DefaultCacheKey(cfg)))
            && n.patEntry == StoreKey(profile, EntrySlot(PATCacheKey(cfg)))
            && n.appEntry == StoreKey(profile, EntrySlot(AppCacheKey(cfg)))
  {
  }

  // The keys in full. A named profile comes between the common base and the secret's own name.
  lemma KeyLayout(cfg: Config, profile: string)
    ensures var n := NamesOf(cfg, profile);
            var base := "scafctl.auth.github." + (if profile == "" then "" else profile + ".");
            && n.refresh == base + "refresh_token"
            && n.access == base + "access_token"
            && n.metadata == base + "metadata"
            && n.tokenPrefix == base + "token."
            && n.defaultEntry == n.tokenPrefix + (cfg.hostFingerprint + ":_github")
            && n.patEntry == n.tokenPrefix + (cfg.hostFingerprint + ":pat:_github")
            && n.appEntry == n.tokenPrefix + (cfg.appFingerprint + ":_github_app")
  {
    NamesAreKeys(cfg, profile);
    LayoutOf(profile, RefreshSlot);
    LayoutOf(profile, AccessSlot);
    LayoutOf(profile, MetadataSlot);
    LayoutOf(profile, EntrySlot(""));
    CacheKeysInFull(cfg);
    assert TokenPrefix(profile) + "" == TokenPrefix(profile);
  }

  lemma LayoutOf(profile: string, slot: Slot)
    ensures StoreKey(profile, slot)
            == "scafctl.auth.github." + (if profile == "" then "" else profile + ".") + Tail(slot)
  {
    StoreKeyIsBasePlusRest(profile, slot);
  }

  lemma CacheKeysInFull(cfg: Config)
    ensures DefaultCacheKey(cfg) == cfg.hostFingerprint + ":_github"
    ensures PATCacheKey(cfg) == cfg.hostFingerprint + ":pat:_github"
    ensures AppCacheKey(cfg) == cfg.appFingerprint + ":_github_app"
  {
  }

  // A profile name is rejected exactly when one of the four characters occurs in it.
  lemma ValidExactly(profile: string)
    ensures ValidProfile(profile) <==> forall c <- profile :: c !in ".:/\\"
  {
  }

  // ---------- What the store operations rely on ----------

  lemma NamesDistinct(cfg: Config, profile: string)
    requires ValidProfile(profile)
    ensures Distinct(NamesOf(cfg, profile))
  {
    forall a, b | ValidSlot(a) && ValidSlot(b) && a != b
      ensures StoreKey(profile, a) != StoreKey(profile, b)
    {
      if StoreKey(profile, a) == StoreKey(profile, b) {
        KeysInjective(profile, a, profile, b);
      }
    }
    forall a | ValidSlot(a)
      ensures TokenPrefix(profile) <= StoreKey(profile, a) <==> a.EntrySlot?
    {
      PrefixMeansOwner(profile, profile, a);
    }
    CacheKeysDiffer(cfg);
    NamesAreKeys(cfg, profile);
  }

  lemma ProfilesApart(cfg: Config, p: string, q: string)
    requires ValidProfile(p) && ValidProfile(q) && p != q
    ensures NameSet(NamesOf(cfg, p)) !! NameSet(NamesOf(cfg, q))
    ensures forall key :: key in NameSet(NamesOf(cfg, q)) ==>
              (NamesOf(cfg, p).tokenPrefix <= key <==> p == "" && q == "token")
  {
    forall key | key in NameSet(NamesOf(cfg, q))
      ensures key !in NameSet(NamesOf(cfg, p))
      ensures NamesOf(cfg, p).tokenPrefix <= key <==> p == "" && q == "token"
    {
      PrefixMeansOwner(p, q, SlotOf(cfg, q, key));
      if key in NameSet(NamesOf(cfg, p)) {
        KeysInjective(p, SlotOf(cfg, p, key), q, SlotOf(cfg, q, key));
      }
    }
  }
}
