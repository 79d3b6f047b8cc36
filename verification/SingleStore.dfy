/** The one-slot cache of installation tokens and the lifetime cachedFlow gives its entries:
    internal/github/singlestore.go and internal/github/cachedflow.go. */
module SingleStore {
  import opened Types

  // One call of Set, with the clock reading it makes.
  datatype SetCall = SetCall(key: string, value: Option<Issued>, ttl: int, at: int)

  // The three fields one Set leaves behind.
  datatype Slot = Slot(key: string, value: Option<Issued>, expiresAt: int)

  const EMPTY_SLOT := Slot("", None, ZERO_TIME)

  function SlotOf(call: SetCall): Slot {
    Slot(call.key, call.value, if call.ttl == 0 then ZERO_TIME else call.at + call.ttl)
  }

  // The slot after a history of Sets: the last one's, alone.
  function Latest(history: seq<SetCall>): Slot {
    if history == [] then EMPTY_SLOT else SlotOf(history[|history| - 1])
  }

  // What Get answers from a slot.
  function Judge(slot: Slot, key: string, now: int, buffer: int): Option<Issued> {
    if slot.key != key || slot.value.None? then None
    else if slot.expiresAt != ZERO_TIME && slot.expiresAt - buffer < now then None
    else slot.value
  }

  class SingleStore {
    const expiryBuffer: int
    var key: string
    var value: Option<Issued>
    var expiresAt: int
    ghost var history: seq<SetCall>

    ghost predicate Valid()
      reads this
    {
      Slot(key, value, expiresAt) == Latest(history)
    }

    constructor (buffer: int)
      ensures Valid() && history == [] && expiryBuffer == buffer
    {
      expiryBuffer := buffer;
      key, value, expiresAt, history := "", None, ZERO_TIME, [];
    }

    method Get(wanted: string, now: int) returns (found: Option<Issued>)
      requires Valid()
      ensures found == Judge(Latest(history), wanted, now, expiryBuffer)
    {
      if key != wanted || value.None? {
        return None;
      }
      if expiresAt != ZERO_TIME && now > expiresAt - expiryBuffer {
        return None;
      }
      return value;
    }

    method Set(newKey: string, newValue: Option<Issued>, ttl: int, now: int)
      requires Valid()
      modifies this
      ensures Valid() && history == old(history) + [SetCall(newKey, newValue, ttl, now)]
    {
      key := newKey;
      value := newValue;
      if ttl == 0 {
        expiresAt := ZERO_TIME;
      } else {
        expiresAt := now + ttl;
      }
      history := history + [SetCall(newKey, newValue, ttl, now)];
    }
  }

  // ---------- Hits ----------

  predicate Hit(history: seq<SetCall>, key: string, now: int, buffer: int) {
    Judge(Latest(history), key, now, buffer).Some?
  }

  predicate NeverExpires(call: SetCall) {
    call.ttl == 0 || call.at + call.ttl == ZERO_TIME
  }

  // A hit answers the value of the last Set, exactly when that Set had the key, a value, and
  // either no expiry or at least the buffer left of its lifetime. An expiry that happens to be
  // the zero time counts as none.
  lemma HitExactly(history: seq<SetCall>, key: string, now: int, buffer: int)
    ensures Hit(history, key, now, buffer)
            <==> (&& history != []
                  && var last := history[|history| - 1];
                     && last.key == key && last.value.Some?
                     && (NeverExpires(last) || now <= last.at + last.ttl - buffer))
    ensures Hit(history, key, now, buffer) ==> Judge(Latest(history), key, now, buffer) == history[|history| - 1].value
  {
  }

  // With a clock that does not go back, an expired entry stays a miss until the next Set.
  lemma MissLasts(history: seq<SetCall>, key: string, now: int, later: int, buffer: int)
    requires !Hit(history, key, now, buffer) && now <= later
    ensures !Hit(history, key, later, buffer)
  {
  }

  // ---------- cachedFlow ----------

  const DEFAULT_STORE_BUFFER := 5 * MINUTE

  const MIN_DURATION := -0x8000_0000_0000_0000
  const MAX_DURATION := 0x7fff_ffff_ffff_ffff

  // time.Until saturates at the ends of the 64-bit range.
  function Until(t: int, now: int): int {
    if t - now < MIN_DURATION then MIN_DURATION
    else if t - now > MAX_DURATION then MAX_DURATION
    else t - now
  }

  // What cachedFlow stores for a fetched token: the lifetime is computed at one reading of the
  // clock and handed unchanged to Set, which makes its own reading.
  function Cached(key: string, token: Issued, computed: int, stored: int): SetCall {
    SetCall(key, Some(token), Until(token.expiresAt, computed), stored)
  }

  // When a fetched token is served: exactly from the key it was stored under, as long as what was
  // left of it when it was fetched is, counted from the Set, not used up but for the buffer. What
  // was left is kept as it is if it fits 64 bits, and cut off otherwise.
  lemma CachedServedExactly(history: seq<SetCall>, key: string, token: Issued, computed: int, stored: int,
                            wanted: string, now: int, buffer: int)
    ensures var h, left := history + [Cached(key, token, computed, stored)], token.expiresAt - computed;
            var kept := if left > 0x7fff_ffff_ffff_ffff then 0x7fff_ffff_ffff_ffff
                        else if left < -0x8000_0000_0000_0000 then -0x8000_0000_0000_0000 else left;
            && (Hit(h, wanted, now, buffer)
                <==> wanted == key && (kept == 0 || stored + kept == 0 || now <= stored + kept - buffer))
            && (Hit(h, wanted, now, buffer) ==> Judge(Latest(h), wanted, now, buffer) == Some(token))
  {
    var h := history + [Cached(key, token, computed, stored)];
    assert h[|h| - 1] == Cached(key, token, computed, stored);
  }

  // With the manager's buffer: a token that has an expiry is served until five minutes before
  // it, shifted by the delay between the two readings of the clock.
  lemma ServedUntilBuffer(history: seq<SetCall>, key: string, token: Issued, computed: int, stored: int, now: int)
    requires token.expiresAt != computed && stored + (token.expiresAt - computed) != ZERO_TIME
    requires MIN_DURATION <= token.expiresAt - computed <= MAX_DURATION
    ensures Hit(history + [Cached(key, token, computed, stored)], key, now, DEFAULT_STORE_BUFFER)
            <==> now <= token.expiresAt + (stored - computed) - 300_000_000_000
  {
    CachedServedExactly(history, key, token, computed, stored, key, now, DEFAULT_STORE_BUFFER);
  }

  // From the Set on, every hit comes no later than the token's own expiry.
  ghost predicate NeverStale(call: SetCall, expiry: int, buffer: int) {
    forall now :: call.at <= now && Hit([call], call.key, now, buffer) ==> now <= expiry
  }

  // When a fetched token is never served past its expiry. Where what is left of it fits 64 bits:
  // something is left or it has expired before, the Set's expiry is not the zero time, and
  // either the delay between the two readings is covered by the buffer or less than the buffer
  // is left and nothing is ever served. What the cut takes off a longer lifetime covers more
  // delay.
  lemma NeverStaleExactly(key: string, token: Issued, computed: int, stored: int, buffer: int)
    requires computed <= stored && 0 <= buffer
    ensures var safe := NeverStale(Cached(key, token, computed, stored), token.expiresAt, buffer);
            var left := token.expiresAt - computed;
            && (-0x8000_0000_0000_0000 <= left <= 0x7fff_ffff_ffff_ffff ==>
                  (safe <==> left != 0 && stored + left != 0 && (left < buffer || stored - computed <= buffer)))
            && (left > 0x7fff_ffff_ffff_ffff ==>
                  (safe <==> && stored + 0x7fff_ffff_ffff_ffff != 0
                               && (buffer > 0x7fff_ffff_ffff_ffff
                                   || stored + 0x7fff_ffff_ffff_ffff - buffer <= token.expiresAt)))
            && (left < -0x8000_0000_0000_0000 ==> (safe <==> stored - 0x8000_0000_0000_0000 != 0))
  {
    var call := Cached(key, token, computed, stored);
    if NeverExpires(call) {
      var late := if stored <= token.expiresAt then token.expiresAt + 1 else stored + 1;
      assert Hit([call], key, late, buffer) && call.at <= late && late > token.expiresAt;
    } else if call.ttl >= buffer {
      var last := call.at + call.ttl - buffer;
      assert Hit([call], key, last, buffer) && call.at <= last;
    }
  }

  // A delay of at most the buffer is enough, whatever the lifetime.
  lemma DelayWithinBuffer(history: seq<SetCall>, key: string, token: Issued, computed: int, stored: int, now: int)
    requires computed <= stored <= now && stored - computed <= DEFAULT_STORE_BUFFER
    requires !NeverExpires(Cached(key, token, computed, stored))
    requires Hit(history + [Cached(key, token, computed, stored)], key, now, DEFAULT_STORE_BUFFER)
    ensures now <= token.expiresAt
  {
    CachedServedExactly(history, key, token, computed, stored, key, now, DEFAULT_STORE_BUFFER);
  }

  // The exception is real: a token fetched at the very moment it expires is served for ever.
  lemma ZeroLifetimeNeverExpires(key: string, token: Issued, now: int)
    ensures Hit([Cached(key, token, token.expiresAt, token.expiresAt)], key, now, DEFAULT_STORE_BUFFER)
  {
  }
}
