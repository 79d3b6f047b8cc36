/** How much time the polling loop takes: a quadratic lower bound, and what it says about polls
    started before the deadline. */
module PollTiming {
  import opened Types
  import opened DevicePolling

  // One poll: when its tick is received, when its answer has been handled, and the answer.
  datatype Poll = Poll(at: int, handled: int, answer: Answer)

  function Answers(polls: seq<Poll>): seq<Answer> {
    seq(|polls|, i requires 0 <= i < |polls| => polls[i].answer)
  }

  // A ticker's schedule: when it was created or last reset, and how many of its ticks have
  // been received since.
  datatype Ticker = Ticker(base: int, ticks: nat)

  function Advance(t: Ticker, poll: Poll): Ticker {
    if SlowDown(poll.answer) then Ticker(poll.handled, 0) else t.(ticks := t.ticks + 1)
  }

  function TickerAfter(created: int, polls: seq<Poll>): Ticker {
    if polls == [] then Ticker(created, 0)
    else Advance(TickerAfter(created, polls[..|polls| - 1]), polls[|polls| - 1])
  }

  // n * x, one addition at a time.
  function Times(n: nat, x: int): int {
    if n == 0 then 0 else Times(n - 1, x) + x
  }

  predicate OnTime(t: Ticker, interval: int, at: int) {
    t.base + Times(t.ticks + 1, interval) <= at
  }

  // The m-th tick after creation or Reset comes no earlier than m intervals later, and no
  // stale tick follows Reset.
  ghost predicate TickerContract(start: int64, d: int64, created: int, polls: seq<Poll>) {
    forall i :: 0 <= i < |polls| ==>
      && OnTime(TickerAfter(created, polls[..i]), IntervalAfter(start, d, Answers(polls[..i])), polls[i].at)
      && polls[i].at <= polls[i].handled
  }

  // A run before the deadline: polls that start no later than timeout after the ticker was
  // created, and a sum that fits 64 bits.
  ghost predicate Timely(start: int64, d: int64, created: int, timeout: int, polls: seq<Poll>) {
    && 0 < start && 0 <= d
    && TickerContract(start, d, created, polls)
    && (forall poll <- polls :: poll.at <= created + timeout)
    && timeout + d < TWO_63
  }

  // The same for a login whose settings are not negative.
  ghost predicate TimelyLogin(cfg: PollConfig, seconds: int64, created: int, timeout: int, polls: seq<Poll>) {
    && 0 <= cfg.minPollInterval && 0 <= cfg.slowDownIncrement
    && Timely(StartInterval(cfg, seconds), Increment(cfg), created, timeout, polls)
  }

  lemma StartIsPositive(cfg: PollConfig, seconds: int64)
    requires 0 <= cfg.minPollInterval
    ensures 0 < MinInterval(cfg) <= StartInterval(cfg, seconds)
  {
  }

  lemma TimelyPrefix(start: int64, d: int64, created: int, timeout: int, polls: seq<Poll>, m: nat)
    requires Timely(start, d, created, timeout, polls) && m <= |polls|
    ensures Timely(start, d, created, timeout, polls[..m])
  {
    forall i | 0 <= i < m ensures polls[..m][..i] == polls[..i] {}
  }

  // ---------- The waits added up ----------

  // The sum of the intervals waited before each of these answers, without wrap-around.
  function Waited(start: int, d: int, answers: seq<Answer>): int {
    if answers == [] then 0
    else
      var before := answers[..|answers| - 1];
      Waited(start, d, before) + Stretched(start, d, SlowDowns(before))
  }

  lemma {:induction false} StretchedAtLeast(start: int, d: int, k: nat)
    requires 0 <= d
    ensures start <= Stretched(start, d, k)
  {
    if k > 0 {
      StretchedAtLeast(start, d, k - 1);
    }
  }

  // ---------- The schedule ----------

  // After k slow_downs the interval is as without wrap-around, and the last tick was no earlier
  // than the waits added up.
  ghost predicate Held(start: int64, d: int64, created: int, t: Ticker, k: nat, waited: int) {
    var interval := Stretched(start, d, k);
    && Wrapped(start, d, k) == interval
    && 0 <= waited
    && t.base + Times(t.ticks, interval) >= created + waited
  }

  // One poll before the deadline: the interval it waited for fits the time there was, so the
  // interval it leaves in force does not wrap.
  lemma PollStep(start: int64, d: int64, created: int, timeout: int, t: Ticker, k: nat, waited: int, poll: Poll)
    requires 0 < start && 0 <= d && timeout + d < TWO_63
    requires Held(start, d, created, t, k, waited)
    requires OnTime(t, Wrapped(start, d, k), poll.at) && poll.at <= poll.handled && poll.at <= created + timeout
    ensures poll.at >= created + waited + Stretched(start, d, k)
    ensures Stretched(start, d, k) <= timeout
    ensures Held(start, d, created, Advance(t, poll), if SlowDown(poll.answer) then k + 1 else k,
                 waited + Stretched(start, d, k))
  {
    StretchedAtLeast(start, d, k);
    if SlowDown(poll.answer) {
      FitsUnwrapped(start, d, k + 1);
    }
  }

  function SlowDownsIn(polls: seq<Poll>): nat {
    SlowDowns(Answers(polls))
  }

  function WaitedFor(start: int, d: int, polls: seq<Poll>): int {
    Waited(start, d, Answers(polls))
  }

  ghost predicate Scheduled(start: int64, d: int64, created: int, polls: seq<Poll>) {
    Held(start, d, created, TickerAfter(created, polls), SlowDownsIn(polls), WaitedFor(start, d, polls))
  }

  lemma OneMorePoll(start: int, d: int, created: int, polls: seq<Poll>, m: nat)
    requires m < |polls|
    ensures TickerAfter(created, polls[..m + 1]) == Advance(TickerAfter(created, polls[..m]), polls[m])
    ensures SlowDownsIn(polls[..m + 1]) == SlowDownsIn(polls[..m]) + if SlowDown(polls[m].answer) then 1 else 0
    ensures WaitedFor(start, d, polls[..m + 1])
            == WaitedFor(start, d, polls[..m]) + Stretched(start, d, SlowDownsIn(polls[..m]))
  {
    assert polls[..m + 1][..m] == polls[..m];
    assert Answers(polls[..m + 1])[..m] == Answers(polls[..m]);
  }

  lemma PollInTime(start: int64, d: int64, created: int, timeout: int, polls: seq<Poll>, m: nat)
    requires Timely(start, d, created, timeout, polls) && m < |polls|
    ensures OnTime(TickerAfter(created, polls[..m]), Wrapped(start, d, SlowDownsIn(polls[..m])), polls[m].at)
    ensures polls[m].at <= polls[m].handled && polls[m].at <= created + timeout
  {
    assert polls[m] in polls;
  }

  lemma {:induction false} Schedule(start: int64, d: int64, created: int, timeout: int, polls: seq<Poll>, m: nat)
    requires Timely(start, d, created, timeout, polls) && m <= |polls|
    ensures Scheduled(start, d, created, polls[..m])
    decreases m
  {
    if m == 0 {
      assert polls[..m] == [] && Answers([]) == [];
    } else {
      Schedule(start, d, created, timeout, polls, m - 1);
      PollInTime(start, d, created, timeout, polls, m - 1);
      ScheduleStep(start, d, created, timeout, polls, m - 1);
    }
  }

  lemma ScheduleStep(start: int64, d: int64, created: int, timeout: int, polls: seq<Poll>, m: nat)
    requires 0 < start && 0 <= d && timeout + d < TWO_63 && m < |polls|
    requires Scheduled(start, d, created, polls[..m])
    requires OnTime(TickerAfter(created, polls[..m]), Wrapped(start, d, SlowDownsIn(polls[..m])), polls[m].at)
    requires polls[m].at <= polls[m].handled && polls[m].at <= created + timeout
    ensures Scheduled(start, d, created, polls[..m + 1])
    ensures polls[m].at >= created + WaitedFor(start, d, polls[..m + 1])
    ensures Stretched(start, d, SlowDownsIn(polls[..m + 1])) <= timeout + d
  {
    OneMorePoll(start, d, created, polls, m);
    PollStep(start, d, created, timeout, TickerAfter(created, polls[..m]), SlowDownsIn(polls[..m]),
             WaitedFor(start, d, polls[..m]), polls[m]);
  }

  // Poll m of a timely run: when it starts at the earliest, and the interval it leaves in force.
  lemma PollAt(start: int64, d: int64, created: int, timeout: int, polls: seq<Poll>, m: nat)
    requires Timely(start, d, created, timeout, polls) && m < |polls|
    ensures polls[m].at >= created + WaitedFor(start, d, polls[..m + 1])
    ensures Wrapped(start, d, SlowDownsIn(polls[..m + 1]))
            == Stretched(start, d, SlowDownsIn(polls[..m + 1])) <= timeout + d
  {
    Schedule(start, d, created, timeout, polls, m);
    PollInTime(start, d, created, timeout, polls, m);
    ScheduleStep(start, d, created, timeout, polls, m);
  }

  // ---------- The quadratic bound ----------

  // What k slow_downs add to the waits.
  function Extra(start: int, d: int, k: nat): int {
    if k == 0 then 0 else Extra(start, d, k - 1) + Stretched(start, d, k) - start
  }

  lemma {:induction false} ExtraClosedForm(start: int, d: int, k: nat)
    ensures Extra(start, d, k) == d * (k * (k + 1) / 2)
  {
    if k > 0 {
      ExtraClosedForm(start, d, k - 1);
      StretchedClosedForm(start, d, k);
      TriangleGrows(d, k);
    }
  }

  lemma TriangleGrows(d: int, k: nat)
    requires k > 0
    ensures d * (k * (k + 1) / 2) == d * ((k - 1) * k / 2) + k * d
  {
    assert k * (k + 1) == (k - 1) * k + 2 * k;
    assert k * (k + 1) / 2 == (k - 1) * k / 2 + k;
    assert d * ((k - 1) * k / 2 + k) == d * ((k - 1) * k / 2) + d * k;
  }

  lemma {:induction false} TimesIsProduct(n: nat, x: int)
    ensures Times(n, x) == n * x
  {
    if n > 0 {
      TimesIsProduct(n - 1, x);
      assert n * x == (n - 1) * x + x;
    }
  }

  lemma {:induction false} WaitedBound(start: int, d: int, answers: seq<Answer>)
    requires 0 <= d && answers != []
    ensures Waited(start, d, answers) >= Times(|answers|, start) + Extra(start, d, SlowDowns(answers[..|answers| - 1]))
    decreases |answers|
  {
    var before := answers[..|answers| - 1];
    StretchedAtLeast(start, d, SlowDowns(before));
    if before != [] {
      WaitedBound(start, d, before);
      assert SlowDowns(before) <= SlowDowns(before[..|before| - 1]) + 1;
    }
  }

  lemma PollAfterWaits(start: int64, d: int64, created: int, timeout: int, polls: seq<Poll>, n: nat)
    requires Timely(start, d, created, timeout, polls) && 1 <= n <= |polls|
    ensures polls[n - 1].at >= created + Times(n, start) + Extra(start, d, SlowDowns(Answers(polls[..n - 1])))
  {
    PollAt(start, d, created, timeout, polls, n - 1);
    WaitedBound(start, d, Answers(polls[..n]));
    assert Answers(polls[..n])[..n - 1] == Answers(polls[..n - 1]);
  }

  lemma ClosedForm(start: int, d: int, at: int, created: int, n: nat, k: nat)
    requires at >= created + Times(n, start) + Extra(start, d, k)
    ensures at >= created + n * start + d * (k * (k + 1) / 2)
  {
    TimesIsProduct(n, start);
    ExtraClosedForm(start, d, k);
  }

  // The n-th poll, reached after k slow_down answers, starts at least
  // n * i0 + d * k * (k + 1) / 2 after the ticker was created.
  lemma PollTimeBound(cfg: PollConfig, seconds: int64, created: int, timeout: int, polls: seq<Poll>, n: nat, k: nat)
    requires TimelyLogin(cfg, seconds, created, timeout, polls)
    requires 1 <= n <= |polls| && k == SlowDowns(Answers(polls[..n - 1]))
    ensures polls[n - 1].at >= created + n * StartInterval(cfg, seconds) + Increment(cfg) * (k * (k + 1) / 2)
  {
    PollAfterWaits(StartInterval(cfg, seconds), Increment(cfg), created, timeout, polls, n);
    ClosedForm(StartInterval(cfg, seconds), Increment(cfg), polls[n - 1].at, created, n, k);
  }

  // The bound is attained: with default settings and a server interval of 5 seconds, a
  // slow_down at 5 seconds lets the second poll start at 15 = 2 * 5 + 5 * 1 * 2 / 2 seconds.
  lemma BoundAttained(cfg: PollConfig, seconds: int64, first: Poll, second: Poll)
    requires cfg.minPollInterval == 0 && cfg.slowDownIncrement == 0 && seconds == 5
    requires first.at == first.handled == 5 * SECOND && SlowDown(first.answer)
    requires second.at == second.handled == 15 * SECOND
    ensures TimelyLogin(cfg, seconds, 0, DEFAULT_TIMEOUT, [first, second])
  {
    var polls := [first, second];
    var start, d := StartInterval(cfg, seconds), Increment(cfg);
    assert polls[..0] == [] && polls[..1] == [first] && [first][..0] == [];
    assert Answers([]) == [] && Answers([first]) == [first.answer] && [first.answer][..0] == [];
    OneMorePoll(start, d, 0, [first], 0);
    assert Wrapped(start, d, 1) == Add64(Wrapped(start, d, 0), d) == 10 * SECOND;
    forall interval ensures Times(1, interval) == interval { assert Times(0, interval) == 0; }
  }

  lemma {:induction false} ExtraAtLeastZero(start: int, d: int, k: nat)
    requires 0 <= d
    ensures 0 <= Extra(start, d, k)
  {
    if k > 0 {
      ExtraAtLeastZero(start, d, k - 1);
      StretchedAtLeast(start, d, k);
    }
  }

  lemma QuotientAtLeast(n: nat, i0: int, timeout: int)
    requires 0 < i0 && n * i0 <= timeout
    ensures n <= timeout / i0
  {
    var q, r := timeout / i0, timeout % i0;
    assert timeout == q * i0 + r && r < i0;
    assert n * i0 < (q + 1) * i0;
  }

  // ---------- Before the deadline ----------

  lemma WaitsFit(start: int64, d: int64, created: int, timeout: int, polls: seq<Poll>)
    requires Timely(start, d, created, timeout, polls) && polls != []
    ensures Times(|polls|, start) <= timeout
  {
    assert polls[|polls| - 1] in polls;
    PollAfterWaits(start, d, created, timeout, polls, |polls|);
    ExtraAtLeastZero(start, d, SlowDowns(Answers(polls[..|polls| - 1])));
  }

  // At most timeout / i0 polls start before the deadline.
  lemma PollsBeforeDeadline(cfg: PollConfig, seconds: int64, created: int, timeout: int, polls: seq<Poll>)
    requires TimelyLogin(cfg, seconds, created, timeout, polls)
    ensures StartInterval(cfg, seconds) > 0
    ensures polls != [] ==> |polls| <= timeout / StartInterval(cfg, seconds)
  {
    if polls != [] {
      WaitsFit(StartInterval(cfg, seconds), Increment(cfg), created, timeout, polls);
      TimesIsProduct(|polls|, StartInterval(cfg, seconds));
      QuotientAtLeast(|polls|, StartInterval(cfg, seconds), timeout);
    }
  }

  // The interval such a poll leaves in force is as without wrap-around, between the start
  // interval and timeout plus one increment.
  lemma IntervalWithin(start: int64, d: int64, created: int, timeout: int, polls: seq<Poll>)
    requires Timely(start, d, created, timeout, polls) && polls != []
    ensures IntervalAfter(start, d, Answers(polls)) == Stretched(start, d, SlowDowns(Answers(polls)))
    ensures start <= IntervalAfter(start, d, Answers(polls)) <= timeout + d
  {
    assert polls[..|polls|] == polls;
    PollAt(start, d, created, timeout, polls, |polls| - 1);
    StretchedAtLeast(start, d, SlowDowns(Answers(polls)));
  }

  // It is exactly the start interval plus one increment per slow_down, never below the minimum:
  // no 64-bit overflow.
  lemma IntervalBeforeDeadline(cfg: PollConfig, seconds: int64, created: int, timeout: int, polls: seq<Poll>)
    requires TimelyLogin(cfg, seconds, created, timeout, polls) && polls != []
    ensures var interval := IntervalAfter(StartInterval(cfg, seconds), Increment(cfg), Answers(polls));
            && interval == StartInterval(cfg, seconds) + SlowDowns(Answers(polls)) * Increment(cfg)
            && 0 < MinInterval(cfg) <= interval <= timeout + Increment(cfg)
  {
    IntervalWithin(StartInterval(cfg, seconds), Increment(cfg), created, timeout, polls);
    StretchedClosedForm(StartInterval(cfg, seconds), Increment(cfg), SlowDowns(Answers(polls)));
    StartIsPositive(cfg, seconds);
  }

  lemma NoPanic(start: int64, d: int64, created: int, timeout: int, polls: seq<Poll>)
    requires Timely(start, d, created, timeout, polls)
    ensures !Outcome(start, d, Answers(polls)).Panicked?
  {
    if Outcome(start, d, Answers(polls)).Panicked? {
      var i := PanicCause(start, d, Answers(polls));
      TimelyPrefix(start, d, created, timeout, polls, i);
      assert Answers(polls[..i]) == Answers(polls)[..i];
      IntervalWithin(start, d, created, timeout, polls[..i]);
    }
  }

  // So before the deadline the loop's result never is a panic.
  lemma NoPanicBeforeDeadline(cfg: PollConfig, seconds: int64, created: int, timeout: int, polls: seq<Poll>)
    requires TimelyLogin(cfg, seconds, created, timeout, polls)
    ensures !Outcome(StartInterval(cfg, seconds), Increment(cfg), Answers(polls)).Panicked?
  {
    NoPanic(StartInterval(cfg, seconds), Increment(cfg), created, timeout, polls);
  }

  lemma SlowerMeansFewer(n: nat, i0: int, lo: int, timeout: int)
    requires 0 < lo <= i0 && n <= timeout / i0
    ensures n <= timeout / lo
  {
    var q, r := timeout / i0, timeout % i0;
    assert timeout == q * i0 + r && 0 <= r;
    assert n * i0 <= q * i0;
    assert n * lo <= n * i0;
    QuotientAtLeast(n, lo, timeout);
  }

  lemma SixtyPolls(n: nat, i0: int, timeout: int)
    requires timeout == DEFAULT_TIMEOUT && DEFAULT_POLL_INTERVAL <= i0 && n <= timeout / i0
    ensures n <= 60
  {
    SlowerMeansFewer(n, i0, DEFAULT_POLL_INTERVAL, timeout);
  }

  // With nothing configured and no timeout requested, a login polls at most 60 times. The wait
  // before the first poll is at least 5 seconds; once a poll has started in time, no later wait
  // exceeds 305 seconds. If the seconds the server asks for fit 64 bits, the first wait is that
  // many, and each slow_down adds 5.
  lemma DefaultLogin(cfg: PollConfig, seconds: int64, created: int, timeout: int64, polls: seq<Poll>)
    requires cfg.minPollInterval == 0 && cfg.slowDownIncrement == 0 && timeout == LoginTimeout(0)
    requires TimelyLogin(cfg, seconds, created, timeout, polls)
    ensures |polls| <= 60
    ensures var first := if seconds < 5 then 5 else seconds;
            var interval := IntervalAfter(StartInterval(cfg, seconds), Increment(cfg), Answers(polls));
            && 5_000_000_000 <= interval
            && (if polls == [] then interval == StartInterval(cfg, seconds) else interval <= 305_000_000_000)
            && (-TWO_63 <= seconds * 1_000_000_000 < TWO_63 ==>
                  interval == (first + 5 * SlowDowns(Answers(polls))) * 1_000_000_000)
  {
    StartIsPositive(cfg, seconds);
    Settings(cfg, 0);
    FirstWait(cfg, seconds);
    if polls == [] {
      assert Answers(polls) == [];
    } else {
      PollsBeforeDeadline(cfg, seconds, created, timeout, polls);
      SixtyPolls(|polls|, StartInterval(cfg, seconds), timeout);
      IntervalBeforeDeadline(cfg, seconds, created, timeout, polls);
    }
  }
}
