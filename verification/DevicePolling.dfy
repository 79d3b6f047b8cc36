/** The device code polling loop (section 3.5 of RFC 8628): internal/github/device_flow.go. */
module DevicePolling {
  import opened Types

  // ---------- 64-bit durations ----------

  const TWO_63 := 0x8000_0000_0000_0000
  type int64 = x: int | -TWO_63 <= x < TWO_63

  function Wrap64(x: int): int64 {
    (x + TWO_63) % (2 * TWO_63) - TWO_63
  }

  // The sum of two durations overflows at most once.
  function Add64(x: int64, y: int64): int64 {
    if x + y >= TWO_63 then x + y - 2 * TWO_63
    else if x + y < -TWO_63 then x + y + 2 * TWO_63
    else x + y
  }

  // ---------- The loop's inputs ----------

  const DEFAULT_TIMEOUT := 5 * MINUTE
  const DEFAULT_POLL_INTERVAL := 5 * SECOND
  const DEFAULT_SLOW_DOWN := 5 * SECOND

  datatype PollConfig = PollConfig(minPollInterval: int64, slowDownIncrement: int64)

  // A decoded body carries token fields and error fields at once.
  datatype Answer = TransportError | Garbled | Body(token: TokenAnswer, error: string, description: string)

  datatype PollResult =
    | Granted(token: TokenAnswer)
    | TimedOut
    | Cancelled
    | ParseFailure
    | Refused(error: string, description: string)
    | Panicked

  function MinInterval(cfg: PollConfig): int64 {
    if cfg.minPollInterval == 0 then DEFAULT_POLL_INTERVAL else cfg.minPollInterval
  }

  function Increment(cfg: PollConfig): int64 {
    if cfg.slowDownIncrement == 0 then DEFAULT_SLOW_DOWN else cfg.slowDownIncrement
  }

  // How long a device code login may take.
  function LoginTimeout(requested: int64): int64 {
    if requested == 0 then DEFAULT_TIMEOUT else requested
  }

  function ServerInterval(seconds: int64): int64 {
    Wrap64(seconds * SECOND)
  }

  // ---------- The specification ----------

  predicate SlowDown(a: Answer) {
    a.Body? && a.token.accessToken == "" && a.error == "slow_down"
  }

  predicate Pending(a: Answer) {
    a.TransportError? || (a.Body? && a.token.accessToken == "" && a.error == "authorization_pending")
  }

  predicate Decisive(a: Answer) {
    !SlowDown(a) && !Pending(a)
  }

  function Verdict(a: Answer): PollResult
    requires Decisive(a)
  {
    if a.Garbled? then ParseFailure
    else if a.token.accessToken != "" then Granted(a.token)
    else if a.error == "expired_token" then TimedOut
    else if a.error == "access_denied" then Cancelled
    else Refused(a.error, a.description)
  }

  function StartInterval(cfg: PollConfig, seconds: int64): int64 {
    if ServerInterval(seconds) < MinInterval(cfg) then MinInterval(cfg) else ServerInterval(seconds)
  }

  function SlowDowns(answers: seq<Answer>): nat {
    if answers == [] then 0
    else SlowDowns(answers[..|answers| - 1]) + if SlowDown(answers[|answers| - 1]) then 1 else 0
  }

  // The start interval and k increments of d, without wrap-around.
  function Stretched(start: int, d: int, k: nat): int {
    if k == 0 then start else Stretched(start, d, k - 1) + d
  }

  // The same in 64-bit arithmetic.
  function Wrapped(start: int64, d: int64, k: nat): int64 {
    if k == 0 then start else Add64(Wrapped(start, d, k - 1), d)
  }

  // The interval in force once these answers have been seen.
  function IntervalAfter(start: int64, d: int64, answers: seq<Answer>): int64 {
    Wrapped(start, d, SlowDowns(answers))
  }

  // The i-th answer ends the loop: it is decisive, or the ticker cannot be reset.
  predicate Ends(start: int64, d: int64, answers: seq<Answer>, i: nat)
    requires i < |answers|
  {
    Decisive(answers[i]) || (SlowDown(answers[i]) && IntervalAfter(start, d, answers[..i + 1]) <= 0)
  }

  // The index of the first answer that ends the loop, or the number of answers.
  function FirstEnd(start: int64, d: int64, answers: seq<Answer>, from: nat): (i: nat)
    requires from <= |answers|
    ensures from <= i <= |answers|
    ensures forall j: nat :: from <= j < i ==> !Ends(start, d, answers, j)
    ensures i < |answers| ==> Ends(start, d, answers, i)
    decreases |answers| - from
  {
    if from == |answers| || Ends(start, d, answers, from) then from
    else FirstEnd(start, d, answers, from + 1)
  }

  // The result, from the answers to the polls started before the context ends.
  function Outcome(start: int64, d: int64, answers: seq<Answer>): PollResult {
    if start <= 0 then Panicked
    else
      var i := FirstEnd(start, d, answers, 0);
      if i == |answers| then TimedOut
      else if Decisive(answers[i]) then Verdict(answers[i])
      else Panicked
  }

  // ---------- The loop ----------

  lemma Wrap64Absorbs(x: int, y: int)
    ensures Wrap64(Wrap64(x) + y) == Wrap64(x + y)
  {
    var q := (x + TWO_63) / (2 * TWO_63);
    assert Wrap64(x) == x - q * (2 * TWO_63);
  }

  lemma Add64Wraps(x: int64, y: int64)
    ensures Add64(x, y) == Wrap64(x + y)
  {
  }

  lemma {:induction false} WrappedClosedForm(start: int64, d: int64, k: nat)
    ensures Wrapped(start, d, k) == Wrap64(start + k * d)
  {
    if k > 0 {
      WrappedClosedForm(start, d, k - 1);
      Add64Wraps(Wrapped(start, d, k - 1), d);
      Wrap64Absorbs(start + (k - 1) * d, d);
      assert k * d == (k - 1) * d + d;
    }
  }

  // The interval in force is the start interval plus one increment for each slow_down, wrapped
  // to 64 bits once.
  lemma IntervalClosedForm(start: int64, d: int64, answers: seq<Answer>)
    ensures IntervalAfter(start, d, answers) == Wrap64(start + SlowDowns(answers) * d)
  {
    WrappedClosedForm(start, d, SlowDowns(answers));
  }

  lemma {:induction false} StretchedClosedForm(start: int, d: int, k: nat)
    ensures Stretched(start, d, k) == start + k * d
  {
    if k > 0 {
      StretchedClosedForm(start, d, k - 1);
      assert k * d == (k - 1) * d + d;
    }
  }

  // Where the sum fits 64 bits the interval is the sum.
  lemma {:induction false} FitsUnwrapped(start: int64, d: int64, k: nat)
    requires 0 <= start && 0 <= d && Stretched(start, d, k) < TWO_63
    ensures Wrapped(start, d, k) == Stretched(start, d, k) >= start
  {
    if k > 0 {
      FitsUnwrapped(start, d, k - 1);
    }
  }

  lemma NextInterval(start: int64, d: int64, answers: seq<Answer>, i: nat)
    requires i < |answers|
    ensures IntervalAfter(start, d, answers[..i + 1]) ==
            if SlowDown(answers[i]) then Add64(IntervalAfter(start, d, answers[..i]), d)
            else IntervalAfter(start, d, answers[..i])
  {
    assert answers[..i + 1][..i] == answers[..i];
  }

  // The answer to poll i: whether it ends the loop, and the search for the end if not.
  lemma OnePoll(start: int64, d: int64, answers: seq<Answer>, i: nat)
    requires i < |answers|
    ensures IntervalAfter(start, d, answers[..i + 1]) ==
            if SlowDown(answers[i]) then Add64(IntervalAfter(start, d, answers[..i]), d)
            else IntervalAfter(start, d, answers[..i])
    ensures FirstEnd(start, d, answers, i)
            == if Decisive(answers[i]) || (SlowDown(answers[i]) && IntervalAfter(start, d, answers[..i + 1]) <= 0)
               then i else FirstEnd(start, d, answers, i + 1)
  {
    NextInterval(start, d, answers, i);
  }

  // ---------- What the settings and the server ask for ----------

  // Nothing configured: 5 seconds each for the shortest interval and for a slow_down, 5 minutes
  // for the login. Anything else configured or requested is kept.
  lemma Settings(cfg: PollConfig, requested: int64)
    ensures MinInterval(cfg) == if cfg.minPollInterval != 0 then cfg.minPollInterval else 5_000_000_000
    ensures Increment(cfg) == if cfg.slowDownIncrement != 0 then cfg.slowDownIncrement else 5_000_000_000
    ensures LoginTimeout(requested) == if requested != 0 then requested else 300_000_000_000
  {
  }

  lemma Wrap64Fits(x: int)
    requires -0x8000_0000_0000_0000 <= x < 0x8000_0000_0000_0000
    ensures Wrap64(x) == x
  {
  }

  lemma Wrap64IsCongruent(x: int)
    ensures (Wrap64(x) - x) % 0x1_0000_0000_0000_0000 == 0
  {
    var q := (x + TWO_63) / (2 * TWO_63);
    assert Wrap64(x) - x == -q * 0x1_0000_0000_0000_0000;
  }

  // The first wait is the longer of the minimum and the seconds the server asked for, if those
  // fit 64 bits in nanoseconds; if not, what the server asked for is only met modulo 2^64.
  lemma FirstWait(cfg: PollConfig, seconds: int64)
    ensures StartInterval(cfg, seconds) >= MinInterval(cfg)
    ensures var asked := seconds * 1_000_000_000;
            && (-0x8000_0000_0000_0000 <= asked < 0x8000_0000_0000_0000 ==>
                  StartInterval(cfg, seconds) == if asked < MinInterval(cfg) then MinInterval(cfg) else asked)
            && (StartInterval(cfg, seconds) == MinInterval(cfg)
                || (StartInterval(cfg, seconds) - asked) % 0x1_0000_0000_0000_0000 == 0)
  {
    var asked := seconds * 1_000_000_000;
    assert ServerInterval(seconds) == Wrap64(asked);
    Wrap64IsCongruent(asked);
    if -0x8000_0000_0000_0000 <= asked < 0x8000_0000_0000_0000 {
      Wrap64Fits(asked);
    }
  }

  // So the client waits as long as the server asks exactly when that fits 64 bits.
  lemma ServerIsHeardExactly(cfg: PollConfig, seconds: int64)
    ensures StartInterval(cfg, seconds) >= seconds * 1_000_000_000
            <==> seconds * 1_000_000_000 < 0x8000_0000_0000_0000
  {
    FirstWait(cfg, seconds);
  }

  // A failing input: the 9223372037 seconds the server asks for come out negative, and the client
  // polls every 5 seconds.
  lemma ServerUnheard(cfg: PollConfig)
    requires cfg.minPollInterval == 0
    ensures StartInterval(cfg, 9_223_372_037) == 5_000_000_000
  {
  }

  method PollForToken(cfg: PollConfig, seconds: int64, answers: seq<Answer>)
      returns (result: PollResult, polls: nat, interval: int64)
    ensures result == Outcome(StartInterval(cfg, seconds), Increment(cfg), answers)
    ensures polls <= |answers|
    ensures interval == IntervalAfter(StartInterval(cfg, seconds), Increment(cfg), answers[..polls])
    ensures StartInterval(cfg, seconds) > 0 ==>
              var i := FirstEnd(StartInterval(cfg, seconds), Increment(cfg), answers, 0);
              polls == if i < |answers| then i + 1 else |answers|
  {
    var minPollInterval := cfg.minPollInterval;
    if minPollInterval == 0 {
      minPollInterval := DEFAULT_POLL_INTERVAL;
    }
    polls := 0;
    interval := ServerInterval(seconds);
    if interval < minPollInterval {
      interval := minPollInterval;
    }
    if interval <= 0 {
      return Panicked, 0, interval;
    }
    ghost var start, d := interval, Increment(cfg);
    assert start == StartInterval(cfg, seconds);
    while polls < |answers|
      invariant polls <= |answers|
      invariant interval == IntervalAfter(start, d, answers[..polls])
      invariant FirstEnd(start, d, answers, 0) == FirstEnd(start, d, answers, polls)
    {
      var answer := answers[polls];
      OnePoll(start, d, answers, polls);
      polls := polls + 1;
      if answer.TransportError? {
        continue;
      }
      if answer.Garbled? {
        return ParseFailure, polls, interval;
      }
      if answer.token.accessToken != "" {
        return Granted(answer.token), polls, interval;
      }
      if answer.error == "authorization_pending" {
        continue;
      } else if answer.error == "slow_down" {
        var slowDownIncr := cfg.slowDownIncrement;
        if slowDownIncr == 0 {
          slowDownIncr := DEFAULT_SLOW_DOWN;
        }
        interval := Add64(interval, slowDownIncr);
        if interval <= 0 {
          return Panicked, polls, interval;
        }
      } else if answer.error == "expired_token" {
        return TimedOut, polls, interval;
      } else if answer.error == "access_denied" {
        return Cancelled, polls, interval;
      } else {
        return Refused(answer.error, answer.description), polls, interval;
      }
    }
    return TimedOut, polls, interval;
  }

  // The first answer that ends the loop alone fixes the result: whatever would have been
  // answered later does not matter.
  lemma FirstEndFixesOutcome(start: int64, d: int64, answers: seq<Answer>, more: seq<Answer>)
    requires FirstEnd(start, d, answers, 0) < |answers|
    ensures Outcome(start, d, answers + more) == Outcome(start, d, answers)
    ensures FirstEnd(start, d, answers + more, 0) == FirstEnd(start, d, answers, 0)
  {
    var all, i := answers + more, FirstEnd(start, d, answers, 0);
    forall j: nat | j <= i
      ensures Ends(start, d, all, j) <==> Ends(start, d, answers, j)
    {
      assert all[..j + 1] == answers[..j + 1];
    }
    EndIs(start, d, all, i);
  }

  lemma EndIs(start: int64, d: int64, answers: seq<Answer>, i: nat)
    requires i <= |answers| && (i < |answers| ==> Ends(start, d, answers, i))
    requires forall j: nat :: j < i ==> !Ends(start, d, answers, j)
    ensures FirstEnd(start, d, answers, 0) == i
  {
  }

  // What an answer does once no earlier one has ended the loop, by its error string.
  lemma ResultByAnswer(start: int64, d: int64, before: seq<Answer>, a: Answer, after: seq<Answer>)
    requires 0 < start && forall j: nat :: j < |before| ==> !Ends(start, d, before, j)
    ensures var result := Outcome(start, d, before + [a] + after);
            && (a.Garbled? ==> result == ParseFailure)
            && (a.Body? && a.token.accessToken != "" ==> result == Granted(a.token))
            && (a.Body? && a.token.accessToken == "" ==>
                  && (a.error == "expired_token" ==> result == TimedOut)
                  && (a.error == "access_denied" ==> result == Cancelled)
                  && (a.error !in {"authorization_pending", "slow_down", "expired_token", "access_denied"} ==>
                        result == Refused(a.error, a.description)))
    ensures a.TransportError? || (a.Body? && a.token.accessToken == "" && a.error == "authorization_pending") ==>
              IntervalAfter(start, d, before + [a]) == IntervalAfter(start, d, before)
    ensures a.Body? && a.token.accessToken == "" && a.error == "slow_down" ==>
              && IntervalAfter(start, d, before + [a]) == Add64(IntervalAfter(start, d, before), d)
              && (IntervalAfter(start, d, before + [a]) <= 0 ==> Outcome(start, d, before + [a] + after) == Panicked)
  {
    var all, i := before + [a] + after, |before|;
    forall j: nat | j < i
      ensures !Ends(start, d, all, j)
    {
      assert all[..j + 1] == before[..j + 1] && all[j] == before[j] && !Ends(start, d, before, j);
    }
    assert all[..i + 1] == before + [a] && all[..i] == before && (before + [a])[..i] == before;
    NextInterval(start, d, before + [a], i);
    if Ends(start, d, all, i) {
      EndIs(start, d, all, i);
    }
  }

  // The loop goes on after an answer exactly when it carries no token and its error is
  // authorization_pending, or slow_down with a positive interval left, or when no answer came.
  lemma GoesOnExactly(start: int64, d: int64, before: seq<Answer>, a: Answer)
    ensures !Ends(start, d, before + [a], |before|)
            <==> a.TransportError?
                 || (&& a.Body? && a.token.accessToken == ""
                     && (a.error == "authorization_pending"
                         || (a.error == "slow_down" && IntervalAfter(start, d, before + [a]) > 0)))
  {
    assert (before + [a])[..|before| + 1] == before + [a];
  }

  lemma {:induction false} SlowDownsConcat(a: seq<Answer>, b: seq<Answer>)
    ensures SlowDowns(a + b) == SlowDowns(a) + SlowDowns(b)
  {
    if b == [] {
      assert a + b == a;
    } else {
      assert (a + b)[..|a + b| - 1] == a + b[..|b| - 1];
      SlowDownsConcat(a, b[..|b| - 1]);
    }
  }

  lemma InsertedPending(before: seq<Answer>, idle: Answer, after: seq<Answer>)
    requires Pending(idle)
    ensures SlowDowns(before + [idle] + after) == SlowDowns(before + after)
  {
    SlowDownsConcat(before + [idle], after);
    SlowDownsConcat(before, [idle]);
    SlowDownsConcat(before, after);
    assert [idle][..0] == [];
  }

  // Transport errors and authorization_pending leave the state alone: inserting one anywhere
  // changes neither the interval in force afterwards nor the result.
  lemma PendingIsNeutral(start: int64, d: int64, before: seq<Answer>, idle: Answer, after: seq<Answer>)
    requires Pending(idle)
    ensures IntervalAfter(start, d, before + [idle] + after) == IntervalAfter(start, d, before + after)
    ensures Outcome(start, d, before + [idle] + after) == Outcome(start, d, before + after)
  {
    InsertedPending(before, idle, after);
    var i := FirstEnd(start, d, before + after, 0);
    FirstEndShifts(start, d, before, idle, after, i);
    EndIs(start, d, before + [idle] + after, if |before| <= i then i + 1 else i);
  }

  lemma EndsEarlier(start: int64, d: int64, before: seq<Answer>, idle: Answer, after: seq<Answer>, j: nat)
    requires j < |before|
    ensures Ends(start, d, before + [idle] + after, j) <==> Ends(start, d, before + after, j)
  {
    assert (before + [idle] + after)[..j + 1] == (before + after)[..j + 1];
  }

  lemma EndsLater(start: int64, d: int64, before: seq<Answer>, idle: Answer, after: seq<Answer>, j: nat)
    requires Pending(idle) && |before| <= j < |before + after|
    ensures Ends(start, d, before + [idle] + after, j + 1) <==> Ends(start, d, before + after, j)
  {
    var part := after[..j + 1 - |before|];
    InsertedPending(before, idle, part);
    assert (before + [idle] + after)[..j + 2] == before + [idle] + part;
    assert (before + after)[..j + 1] == before + part;
  }

  lemma FirstEndShifts(start: int64, d: int64, before: seq<Answer>, idle: Answer, after: seq<Answer>, i: nat)
    requires Pending(idle) && i == FirstEnd(start, d, before + after, 0)
    ensures var long, m := before + [idle] + after, if |before| <= i then i + 1 else i;
            && (forall j: nat :: j < m ==> !Ends(start, d, long, j))
            && (m < |long| ==> Ends(start, d, long, m) && long[m] == (before + after)[i])
  {
    var long, b := before + [idle] + after, |before|;
    var m := if b <= i then i + 1 else i;
    forall j: nat | j < m
      ensures !Ends(start, d, long, j)
    {
      if j < b { EndsEarlier(start, d, before, idle, after, j); }
      else if b < j { EndsLater(start, d, before, idle, after, j - 1); }
    }
    if i < b {
      EndsEarlier(start, d, before, idle, after, i);
    } else if m < |long| {
      EndsLater(start, d, before, idle, after, i);
    }
  }

  // The loop panics only where an interval is not positive.
  lemma PanicCause(start: int64, d: int64, answers: seq<Answer>) returns (i: nat)
    requires start > 0 && Outcome(start, d, answers).Panicked?
    ensures 0 < i <= |answers| && IntervalAfter(start, d, answers[..i]) <= 0
  {
    i := FirstEnd(start, d, answers, 0) + 1;
  }
}
