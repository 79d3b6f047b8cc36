/** What listing reports and what purging removes. */
module Inventory {
  import opened Types
  import opened SecretKeys
  import opened CredentialStore

  ghost predicate IsEntry(n: Names, s: Store, key: string) {
    key in s && n.tokenPrefix <= key && DecodeEntry(s[key].value).Some?
  }

  ghost predicate ExpiredEntry(n: Names, s: Store, key: string, t: int) {
    IsEntry(n, s, key) && Past(DecodeEntry(s[key].value).value.expiresAt, t)
  }

  // ---------- Purging, whatever the host refuses ----------

  // A refused listing is an error and purges nothing. Otherwise a key is gone exactly when its
  // entry could be read, had expired by the reading made for it, and could be deleted; the count
  // is the number of secrets gone, and the others stay as they were.
  lemma PurgeExactly(n: Names, s: Store, io: IO)
    ensures !io.ok(List) ==> Purge(n, s, io) == (s, Err(HostFailure))
    ensures io.ok(List) ==>
              var (s', count) := Purge(n, s, io);
              && (forall key :: key in s' ==> key in s && s'[key] == s[key])
              && (forall key :: key in s && key !in s'
                    <==> (&& IsEntry(n, s, key) && io.ok(Get(key)) && io.ok(Delete(key))
                          && var expiry := DecodeEntry(s[key].value).value.expiresAt;
                             expiry != 0 && io.now(EntryCheck(key)) > expiry))
              && count == Ok(|s| - |s'|)
  {
    var gone := PurgeKeys(n, s, io);
    var s' := s - gone;
    assert gone == {} ==> s' == s;
    assert gone <= s.Keys && s'.Keys == s.Keys - gone;
    assert |s.Keys - gone| == |s.Keys| - |gone|;
    assert |s.Keys| == |s| && |s'.Keys| == |s'|;
  }

  // ---------- Purging while the clock moves ----------

  ghost predicate ClockWithin(io: IO, start: int, end: int) {
    forall key :: start <= io.now(EntryCheck(key)) <= end
  }

  // Everything expired when the purge starts is gone, nothing else than what is expired when
  // it ends is touched, and the count is the number of secrets removed.
  lemma PurgeUnderMovingClock(n: Names, s: Store, io: IO, start: int, end: int)
    requires HostOk(io) && ClockWithin(io, start, end)
    ensures var (s', count) := Purge(n, s, io);
            && (forall key :: ExpiredEntry(n, s, key, start) ==> key !in s')
            && (forall key :: key in s && !ExpiredEntry(n, s, key, end) ==> key in s')
            && (forall key :: key in s' ==> key in s && s'[key] == s[key])
            && count == Ok(|s| - |s'|)
  {
    PurgeExactly(n, s, io);
  }

  ghost function Unexpired(n: Names, s: Store, t: int): Store {
    map key | key in s && !ExpiredEntry(n, s, key, t) :: s[key]
  }

  // At a held clock a purge leaves exactly what has not expired.
  lemma PurgeAtHeldClock(n: Names, s: Store, io: IO, t: int)
    requires HostOk(io) && ClockHeld(io, t)
    ensures PurgeKeys(n, s, io) == set key | key in s && ExpiredEntry(n, s, key, t)
    ensures Purge(n, s, io).0 == Unexpired(n, s, t)
  {
    forall key
      ensures key in PurgeKeys(n, s, io) <==> ExpiredEntry(n, s, key, t)
    {
      assert ExpiredEntry(n, s, key, t) ==> Purgeable(n, s, io, key);
    }
  }

  lemma UnexpiredOfRest(n: Names, s: Store, rest: Store, t: int)
    requires forall key :: key in rest ==> key in s && rest[key] == s[key]
    requires forall key :: key in s && !ExpiredEntry(n, s, key, t) ==> key in rest
    ensures Unexpired(n, rest, t) == Unexpired(n, s, t)
  {
    forall key | key in rest
      ensures ExpiredEntry(n, rest, key, t) <==> ExpiredEntry(n, s, key, t)
    {
    }
  }

  // A second purge, with the clock held where the first one ended, leaves what one purge at
  // that time would have left, and a third finds nothing.
  lemma PurgeAgain(n: Names, s: Store, io: IO, held: IO, start: int, end: int)
    requires HostOk(io) && ClockWithin(io, start, end) && HostOk(held) && ClockHeld(held, end)
    ensures Purge(n, Purge(n, s, io).0, held).0 == Purge(n, s, held).0
    ensures Purge(n, Purge(n, s, held).0, held) == (Purge(n, s, held).0, Ok(0))
  {
    var once, done := Purge(n, s, io).0, Purge(n, s, held).0;
    PurgeUnderMovingClock(n, s, io, start, end);
    PurgeAtHeldClock(n, s, held, end);
    PurgeAtHeldClock(n, once, held, end);
    UnexpiredOfRest(n, s, once, end);
    PurgeOfUnexpired(n, s, held, end);
  }

  lemma PurgeOfUnexpired(n: Names, s: Store, held: IO, t: int)
    requires HostOk(held) && ClockHeld(held, t)
    ensures Purge(n, Unexpired(n, s, t), held) == (Unexpired(n, s, t), Ok(0))
  {
    var done := Unexpired(n, s, t);
    PurgeAtHeldClock(n, done, held, t);
    forall key | key in done
      ensures !ExpiredEntry(n, done, key, t)
    {
    }
    assert PurgeKeys(n, done, held) == {};
    assert done - {} == done;
  }

  // ---------- Listing ----------

  // The row a refresh token gets, in any store, whatever the host refuses. Without readable
  // metadata it is a device code row without expiry.
  lemma RefreshRowExactly(n: Names, s: Store, io: IO)
    ensures var row := ListTokens(n, s, io).refresh;
            && (row.Some? <==> io.ok(Get(n.refresh)) && n.refresh in s)
            && (row.Some? ==>
                  if io.ok(Get(n.metadata)) && n.metadata in s && !s[n.metadata].value.Raw?
                  then
                    var m := DecodeMetadata(s[n.metadata].value).value;
                    && row.value.kind == RefreshKind && row.value.tokenType == "" && row.value.scope == ""
                    && row.value.flow == (if m.flow == NoFlow then DeviceCode else m.flow)
                    && row.value.expiresAt == m.refreshTokenExpiresAt && row.value.cachedAt == m.lastRefresh
                    && row.value.sessionID == m.sessionID
                    && (row.value.isExpired
                        <==> m.refreshTokenExpiresAt != 0 && io.now(SessionCheck) > m.refreshTokenExpiresAt)
                  else row.value == Row(RefreshKind, "", "", DeviceCode, 0, 0, false, ""))
  {
  }

  // The direct row: the access secret can be read and the default entry cannot be read again.
  lemma DirectRowExactly(n: Names, s: Store, io: IO)
    ensures var row := ListTokens(n, s, io).direct;
            && (row.Some? <==>
                  && io.ok(Get(n.access)) && n.access in s
                  && !(io.ok(GetAgain(n.defaultEntry)) && n.defaultEntry in s && !s[n.defaultEntry].value.Raw?))
            && (row.Some? ==>
                  if io.ok(GetAgain(n.metadata)) && n.metadata in s && !s[n.metadata].value.Raw?
                  then
                    var m := DecodeMetadata(s[n.metadata].value).value;
                    row.value == Row(AccessKind, "Bearer", "", m.flow, 0, m.lastRefresh, false, m.sessionID)
                  else row.value == Row(AccessKind, "Bearer", "", NoFlow, 0, 0, false, ""))
  {
  }

  // The cached rows: one for each entry listed and read, with the entry's fields.
  lemma CachedRowExactly(n: Names, s: Store, io: IO, key: string)
    ensures var rows := ListTokens(n, s, io).cached;
            && (key in rows <==> io.ok(List) && io.ok(Get(key)) && IsEntry(n, s, key))
            && (key in rows ==>
                  var entry := DecodeEntry(s[key].value).value;
                  && rows[key].kind == AccessKind && rows[key].tokenType == entry.tokenType
                  && rows[key].scope == entry.scope && rows[key].flow == entry.flow
                  && rows[key].expiresAt == entry.expiresAt && rows[key].cachedAt == entry.cachedAt
                  && rows[key].sessionID == entry.sessionID
                  && (rows[key].isExpired <==> entry.expiresAt != 0 && io.now(EntryCheck(key)) > entry.expiresAt))
  {
    assert IsEntry(n, s, key) && io.ok(Get(key)) ==> Listable(n, s, io, key);
  }

  // Rows for the default session's access token: its cache entry, or the direct row.
  ghost function DefaultRows(n: Names, listing: Listing): nat {
    (if n.defaultEntry in listing.cached then 1 else 0) + (if listing.direct.Some? then 1 else 0)
  }

  function RowCount(listing: Listing): nat {
    (if listing.refresh.Some? then 1 else 0) + |listing.cached| + (if listing.direct.Some? then 1 else 0)
  }

  // Whenever the access secret can be read, the token has exactly one row if and only if the
  // host treats both looks at a decodable cache entry alike: listing it and reading it for its
  // row, and reading it again for the direct row. A refused listing is dropped without error.
  lemma OneRowExactly(n: Names, s: Store, io: IO)
    requires Distinct(n) && n.access in s && io.ok(Get(n.access))
    ensures DefaultRows(n, ListTokens(n, s, io)) == 1
            <==> (IsEntry(n, s, n.defaultEntry) ==>
                    ((io.ok(List) && io.ok(Get(n.defaultEntry))) <==> io.ok(GetAgain(n.defaultEntry))))
  {
    assert n.defaultEntry in CachedRows(n, s, io)
           <==> io.ok(List) && n.defaultEntry in s && Listable(n, s, io, n.defaultEntry);
  }

  // Both failures happen: a refused listing alone hides the token, a refused second read alone
  // shows it twice.
  lemma NoRowOrTwoRows(n: Names, s: Store, io: IO)
    requires Distinct(n) && n.access in s && IsEntry(n, s, n.defaultEntry)
    ensures DefaultRows(n, ListTokens(n, s, io.(ok := site => site != List))) == 0
    ensures DefaultRows(n, ListTokens(n, s, io.(ok := site => site != GetAgain(n.defaultEntry)))) == 2
  {
    var again := io.(ok := site => site != GetAgain(n.defaultEntry));
    assert Listable(n, s, again, n.defaultEntry);
  }

  // With a host that does not fail, the listing is complete and without duplicates.
  lemma ListingComplete(n: Names, s: Store, io: IO)
    requires Distinct(n) && HostOk(io)
    ensures var listing := ListTokens(n, s, io);
            && (n.access in s ==> DefaultRows(n, listing) == 1)
            && (n.access !in s ==> listing.direct.None?)
            && (listing.refresh.Some? <==> n.refresh in s)
            && (forall key :: key in listing.cached <==> IsEntry(n, s, key))
            && RowCount(listing) == (if n.refresh in s then 1 else 0)
                                    + |set key | key in s && IsEntry(n, s, key)|
                                    + (if n.access in s && !IsEntry(n, s, n.defaultEntry) then 1 else 0)
  {
    var rows := CachedRows(n, s, io);
    forall key
      ensures key in rows <==> IsEntry(n, s, key)
    {
      assert IsEntry(n, s, key) ==> Listable(n, s, io, key);
    }
    assert rows.Keys == set key | key in s && IsEntry(n, s, key);
    assert |rows.Keys| == |rows|;
    if n.access in s {
      OneRowExactly(n, s, io);
    }
  }

  // At a fixed clock, purging removes exactly the cached rows marked expired, and listing
  // again shows the others unchanged.
  lemma PurgeMatchesListing(n: Names, s: Store, io: IO, t: int)
    requires HostOk(io) && ClockHeld(io, t)
    ensures var rows, rest := CachedRows(n, s, io), CachedRows(n, Purge(n, s, io).0, io);
            && Purge(n, s, io).1 == Ok(|set key | key in rows && rows[key].isExpired|)
            && rest == map key | key in rows && !rows[key].isExpired :: rows[key]
  {
    var rows, s' := CachedRows(n, s, io), Purge(n, s, io).0;
    PurgeAtHeldClock(n, s, io, t);
    forall key
      ensures key in rows <==> IsEntry(n, s, key)
      ensures key in rows ==> (rows[key].isExpired <==> ExpiredEntry(n, s, key, t))
      ensures Listable(n, s', io, key) <==> key in rows && !rows[key].isExpired
    {
      assert IsEntry(n, s, key) ==> Listable(n, s, io, key);
    }
    assert PurgeKeys(n, s, io) == set key | key in rows && rows[key].isExpired;
  }

  // ---------- Putting the rows in order ----------

  ghost predicate NoDuplicates(keys: seq<string>) {
    forall i, j :: 0 <= i < j < |keys| ==> keys[i] != keys[j]
  }

  ghost predicate Enumerates(keys: seq<string>, rows: map<string, Row>) {
    NoDuplicates(keys) && forall key :: key in keys <==> key in rows
  }

  function RowsOf(rows: map<string, Row>, keys: seq<string>): seq<Row>
    requires forall key <- keys :: key in rows
  {
    if keys == [] then [] else RowsOf(rows, keys[..|keys| - 1]) + [rows[keys[|keys| - 1]]]
  }

  function Singleton(row: Option<Row>): seq<Row> {
    if row.Some? then [row.value] else []
  }

  // A listing as returned: the refresh row, the cached rows in the order the host listed their
  // keys, the direct row.
  ghost predicate Arranged(listing: Listing, results: seq<Row>) {
    exists keys ::
      Enumerates(keys, listing.cached) &&
      results == Singleton(listing.refresh) + RowsOf(listing.cached, keys) + Singleton(listing.direct)
  }

  function RemoveAt(keys: seq<string>, i: nat): seq<string>
    requires i < |keys|
  {
    keys[..i] + keys[i + 1..]
  }

  lemma RemoveAtInit(keys: seq<string>, i: nat)
    requires i < |keys| - 1
    ensures RemoveAt(keys, i) == RemoveAt(keys[..|keys| - 1], i) + [keys[|keys| - 1]]
  {
  }

  lemma RowsAppend(rows: map<string, Row>, keys: seq<string>, key: string)
    requires key in rows && forall k <- keys :: k in rows
    ensures RowsOf(rows, keys + [key]) == RowsOf(rows, keys) + [rows[key]]
  {
    assert (keys + [key])[..|keys|] == keys;
  }

  lemma {:induction false} RowsWithout(rows: map<string, Row>, keys: seq<string>, i: nat)
    requires i < |keys| && forall key <- keys :: key in rows
    ensures multiset(RowsOf(rows, keys)) == multiset(RowsOf(rows, RemoveAt(keys, i))) + multiset{rows[keys[i]]}
    decreases |keys|
  {
    var last := |keys| - 1;
    var init := keys[..last];
    assert keys == init + [keys[last]];
    RowsAppend(rows, init, keys[last]);
    if i < last {
      RowsWithout(rows, init, i);
      RemoveAtInit(keys, i);
      RowsAppend(rows, RemoveAt(init, i), keys[last]);
    } else {
      assert RemoveAt(keys, i) == init;
    }
  }

  // Any two enumerations of the same rows list them equally often.
  lemma {:induction false} EnumerationsAgree(rows: map<string, Row>, keys: seq<string>, keys': seq<string>)
    requires Enumerates(keys, rows) && Enumerates(keys', rows)
    ensures multiset(RowsOf(rows, keys)) == multiset(RowsOf(rows, keys'))
    decreases |keys|
  {
    if keys == [] {
      assert forall key :: key in keys' ==> key in keys;
    } else {
      var last := |keys| - 1;
      assert keys[last] in keys';
      var i: nat :| i < |keys'| && keys'[i] == keys[last];
      var fewer := rows - {keys[last]};
      var rest := RemoveAt(keys', i);
      EnumeratesWithout(rows, keys, last);
      assert RemoveAt(keys, last) == keys[..last];
      EnumeratesWithout(rows, keys', i);
      EnumerationsAgree(fewer, keys[..last], rest);
      SameRows(rows, fewer, keys[..last]);
      SameRows(rows, fewer, rest);
      RowsWithout(rows, keys', i);
    }
  }

  lemma {:induction false} RowPerKey(rows: map<string, Row>, keys: seq<string>)
    requires Enumerates(keys, rows)
    ensures |RowsOf(rows, keys)| == |keys| == |rows|
    decreases |keys|
  {
    if keys == [] {
      assert forall key :: key in rows ==> key in keys;
      assert rows == map[];
    } else {
      var last := |keys| - 1;
      var fewer := rows - {keys[last]};
      EnumeratesWithout(rows, keys, last);
      assert RemoveAt(keys, last) == keys[..last];
      RowPerKey(fewer, keys[..last]);
      SameRows(rows, fewer, keys[..last]);
      OneFewer(rows, keys[last]);
    }
  }

  lemma OneFewer(rows: map<string, Row>, key: string)
    requires key in rows
    ensures |rows - {key}| == |rows| - 1
  {
    assert (rows - {key}).Keys == rows.Keys - {key};
    assert |rows.Keys - {key}| == |rows.Keys| - 1;
  }

  lemma EnumeratesWithout(rows: map<string, Row>, keys: seq<string>, i: nat)
    requires Enumerates(keys, rows) && i < |keys|
    ensures Enumerates(RemoveAt(keys, i), rows - {keys[i]})
  {
    var rest := RemoveAt(keys, i);
    forall key
      ensures key in rest <==> key in rows && key != keys[i]
    {
      if key in rows && key != keys[i] {
        assert key in keys;
        var j :| 0 <= j < |keys| && keys[j] == key;
        assert rest[if j < i then j else j - 1] == key;
      }
    }
  }

  lemma {:induction false} SameRows(rows: map<string, Row>, fewer: map<string, Row>, keys: seq<string>)
    requires forall key <- keys :: key in fewer && key in rows && rows[key] == fewer[key]
    ensures RowsOf(rows, keys) == RowsOf(fewer, keys)
    decreases |keys|
  {
    if keys != [] {
      SameRows(rows, fewer, keys[..|keys| - 1]);
    }
  }

  lemma {:induction false} RowsAreThose(rows: map<string, Row>, keys: seq<string>, row: Row)
    requires forall key <- keys :: key in rows
    ensures row in RowsOf(rows, keys) <==> exists key :: key in keys && rows[key] == row
    decreases |keys|
  {
    if keys != [] {
      RowsAreThose(rows, keys[..|keys| - 1], row);
      assert keys == keys[..|keys| - 1] + [keys[|keys| - 1]];
    }
  }

  // The refresh row comes first, the direct row last, and what is between is the rows of the
  // cache entries.
  lemma RowsInPlace(listing: Listing, results: seq<Row>)
    requires Arranged(listing, results)
    ensures var a, b := if listing.refresh.Some? then 1 else 0, if listing.direct.Some? then 1 else 0;
            && |results| == a + |listing.cached| + b
            && (listing.refresh.Some? ==> results[0] == listing.refresh.value)
            && (listing.direct.Some? ==> results[|results| - 1] == listing.direct.value)
            && var between := results[a..a + |listing.cached|];
               forall row :: row in between <==> exists key :: key in listing.cached && listing.cached[key] == row
  {
    var rows := listing.cached;
    var keys :| Enumerates(keys, rows) &&
      results == Singleton(listing.refresh) + RowsOf(rows, keys) + Singleton(listing.direct);
    RowPerKey(rows, keys);
    var a := if listing.refresh.Some? then 1 else 0;
    assert results[a..a + |rows|] == RowsOf(rows, keys);
    forall row
      ensures row in RowsOf(rows, keys) <==> exists key :: key in rows && rows[key] == row
    {
      RowsAreThose(rows, keys, row);
    }
  }

  // However the host orders the keys, the listing has the same rows, each as often.
  lemma OrderDoesNotMatter(listing: Listing, a: seq<Row>, b: seq<Row>)
    requires Arranged(listing, a) && Arranged(listing, b)
    ensures multiset(a) == multiset(b) && |a| == RowCount(listing)
  {
    var keys :| Enumerates(keys, listing.cached) &&
      a == Singleton(listing.refresh) + RowsOf(listing.cached, keys) + Singleton(listing.direct);
    var keys' :| Enumerates(keys', listing.cached) &&
      b == Singleton(listing.refresh) + RowsOf(listing.cached, keys') + Singleton(listing.direct);
    EnumerationsAgree(listing.cached, keys, keys');
    RowPerKey(listing.cached, keys);
  }
}
