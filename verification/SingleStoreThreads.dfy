/** The one-slot cache under concurrent use: Set and Get as single field accesses under a
    readers-writer lock, any number of threads, any interleaving. */
module SingleStoreThreads {
  import opened Types
  import opened SingleStore

  type ThreadId = nat

  // Where a thread is, with what it has read so far: since is the number of Sets completed
  // when its Get was called, clock the reading of the clock, if it made one.
  datatype Thread =
    | Idle
    // Get
    | Wanting(since: nat, wanted: string)
    | ReadingKey(since: nat, wanted: string)
    | ReadingValue(since: nat, wanted: string)
    | ReadingExpiry(since: nat, wanted: string)
    | ReadingClock(since: nat, wanted: string)
    | Comparing(since: nat, wanted: string, now: int)
    | ReadingResult(since: nat, wanted: string, clock: Option<int>)
    | Releasing(since: nat, wanted: string, clock: Option<int>, result: Option<Issued>)
    // Set
    | Offering(call: SetCall)
    | WritingKey(call: SetCall)
    | WritingValue(call: SetCall)
    | WritingExpiry(call: SetCall)
    | Publishing(call: SetCall)

  // A finished Get of a thread, with the number of Sets completed when it was called and when it
  // returned.
  datatype GetRecord = GetRecord(caller: ThreadId, wanted: string, clock: Option<int>, result: Option<Issued>,
                                 called: nat, returned: nat)

  // The completed Sets, with the thread that made each, and the finished Gets, in order.
  datatype State = State(
    slot: Slot,
    writer: Option<ThreadId>,
    readers: set<ThreadId>,
    threads: map<ThreadId, Thread>,
    history: seq<SetCall>,
    authors: seq<ThreadId>,
    gets: seq<GetRecord>)

  const INITIAL := State(EMPTY_SLOT, None, {}, map[], [], [], [])

  function At(s: State, tid: ThreadId): Thread {
    if tid in s.threads then s.threads[tid] else Idle
  }

  function Move(s: State, tid: ThreadId, t: Thread): State {
    s.(threads := s.threads[tid := t])
  }

  // A thread starts a call, or takes the next step of the one it is in. The number is what the
  // clock says, where the step reads it.
  datatype Action = CallGet(wanted: string) | CallSet(key: string, value: Option<Issued>, ttl: int) | Continue(now: int)

  // One step of one thread. A step reads or writes one field; a thread that waits for the lock
  // stays where it is.
  function Next(s: State, tid: ThreadId, action: Action, buffer: int): State {
    match (At(s, tid), action)
    case (Idle, CallGet(wanted)) => Move(s, tid, Wanting(|s.history|, wanted))
    case (Idle, CallSet(key, value, ttl)) => Move(s, tid, Offering(SetCall(key, value, ttl, 0)))
    case (Wanting(since, wanted), Continue(_)) =>
      if s.writer.Some? then s
      else Move(s, tid, ReadingKey(since, wanted)).(readers := s.readers + {tid})
    case (ReadingKey(since, wanted), Continue(_)) =>
      Move(s, tid, if s.slot.key != wanted then Releasing(since, wanted, None, None) else ReadingValue(since, wanted))
    case (ReadingValue(since, wanted), Continue(_)) =>
      Move(s, tid, if s.slot.value.None? then Releasing(since, wanted, None, None) else ReadingExpiry(since, wanted))
    case (ReadingExpiry(since, wanted), Continue(_)) =>
      Move(s, tid, if s.slot.expiresAt == ZERO_TIME then ReadingResult(since, wanted, None)
                   else ReadingClock(since, wanted))
    case (ReadingClock(since, wanted), Continue(now)) => Move(s, tid, Comparing(since, wanted, now))
    case (Comparing(since, wanted, now), Continue(_)) =>
      Move(s, tid, if s.slot.expiresAt - buffer < now then Releasing(since, wanted, Some(now), None)
                   else ReadingResult(since, wanted, Some(now)))
    case (ReadingResult(since, wanted, clock), Continue(_)) =>
      Move(s, tid, Releasing(since, wanted, clock, s.slot.value))
    case (Releasing(since, wanted, clock, result), Continue(_)) =>
      Move(s, tid, Idle).(readers := s.readers - {tid},
                          gets := s.gets + [GetRecord(tid, wanted, clock, result, since, |s.history|)])
    case (Offering(call), Continue(_)) =>
      if s.writer.Some? || s.readers != {} then s
      else Move(s, tid, WritingKey(call)).(writer := Some(tid))
    case (WritingKey(call), Continue(_)) => Move(s, tid, WritingValue(call)).(slot := s.slot.(key := call.key))
    case (WritingValue(call), Continue(_)) => Move(s, tid, WritingExpiry(call)).(slot := s.slot.(value := call.value))
    case (WritingExpiry(call), Continue(now)) =>
      var done := call.(at := now);
      Move(s, tid, Publishing(done)).(slot := s.slot.(expiresAt := SlotOf(done).expiresAt))
    case (Publishing(call), Continue(_)) =>
      Move(s, tid, Idle).(writer := None, history := s.history + [call], authors := s.authors + [tid])
    case _ => s
  }

  function RunThreads(s: State, schedule: seq<(ThreadId, Action)>, buffer: int): State
    decreases |schedule|
  {
    if schedule == [] then s
    else RunThreads(Next(s, schedule[0].0, schedule[0].1, buffer), schedule[1..], buffer)
  }

  // ---------- The invariant ----------

  predicate HoldsRead(t: Thread) {
    t.ReadingKey? || t.ReadingValue? || t.ReadingExpiry? || t.ReadingClock? || t.Comparing?
    || t.ReadingResult? || t.Releasing?
  }

  predicate HoldsWrite(t: Thread) {
    t.WritingKey? || t.WritingValue? || t.WritingExpiry? || t.Publishing?
  }

  ghost predicate Exclusive(s: State) {
    && (forall tid: ThreadId :: HoldsRead(At(s, tid)) <==> tid in s.readers)
    && (forall tid: ThreadId :: HoldsWrite(At(s, tid)) <==> s.writer == Some(tid))
    && (s.writer.Some? ==> s.readers == {})
  }

  // The slot is the last Set's, except for what the writer has already overwritten.
  predicate SlotInStep(s: State) {
    var before := Latest(s.history);
    if s.writer.None? then s.slot == before
    else
      match At(s, s.writer.value)
      case WritingKey(_) => s.slot == before
      case WritingValue(call) => s.slot == before.(key := call.key)
      case WritingExpiry(call) => s.slot == before.(key := call.key, value := call.value)
      case Publishing(call) => s.slot == SlotOf(call)
      case _ => false
  }

  // An answer given without reading the clock does not depend on it.
  ghost predicate JudgedBy(slot: Slot, wanted: string, clock: Option<int>, result: Option<Issued>, buffer: int) {
    match clock
    case Some(now) => result == Judge(slot, wanted, now, buffer)
    case None => forall now :: result == Judge(slot, wanted, now, buffer)
  }

  // What a reader has seen is what the slot still holds.
  ghost predicate ReaderInStep(slot: Slot, t: Thread, buffer: int) {
    match t
    case ReadingValue(_, wanted) => slot.key == wanted
    case ReadingExpiry(_, wanted) => slot.key == wanted && slot.value.Some?
    case ReadingClock(_, wanted) => slot.key == wanted && slot.value.Some? && slot.expiresAt != ZERO_TIME
    case Comparing(_, wanted, _) => slot.key == wanted && slot.value.Some? && slot.expiresAt != ZERO_TIME
    case ReadingResult(_, wanted, clock) => JudgedBy(slot, wanted, clock, slot.value, buffer)
    case Releasing(_, wanted, clock, result) => JudgedBy(slot, wanted, clock, result, buffer)
    case _ => true
  }

  predicate CallsStarted(s: State, t: Thread) {
    (t.Wanting? || HoldsRead(t)) ==> t.since <= |s.history|
  }

  // One finished Get saw the key, value and expiry of one single Set: the last one completed
  // when it returned, which it cannot have been called after.
  ghost predicate Linearized(g: GetRecord, history: seq<SetCall>, buffer: int) {
    g.called <= g.returned <= |history| && JudgedBy(Latest(history[..g.returned]), g.wanted, g.clock, g.result, buffer)
  }

  ghost predicate Inv(s: State, buffer: int) {
    && Exclusive(s)
    && SlotInStep(s)
    && (forall tid: ThreadId :: ReaderInStep(s.slot, At(s, tid), buffer) && CallsStarted(s, At(s, tid)))
    && (forall g <- s.gets :: Linearized(g, s.history, buffer))
  }

  lemma OthersStay(s: State, tid: ThreadId, action: Action, buffer: int, other: ThreadId)
    requires other != tid
    ensures At(Next(s, tid, action, buffer), other) == At(s, other)
  {
  }

  // A thread outside its critical section: it starts a call, waits for the lock, or takes it.
  lemma OutsideStep(s: State, tid: ThreadId, action: Action, buffer: int)
    requires Inv(s, buffer) && !HoldsWrite(At(s, tid)) && !HoldsRead(At(s, tid))
    ensures Inv(Next(s, tid, action, buffer), buffer)
  {
    forall other: ThreadId | other != tid { OthersStay(s, tid, action, buffer, other); }
  }

  // A reader: it reads a field, decides, or returns and gives the lock back.
  lemma ReaderStep(s: State, tid: ThreadId, action: Action, buffer: int)
    requires Inv(s, buffer) && HoldsRead(At(s, tid)) && !At(s, tid).Releasing?
    ensures Inv(Next(s, tid, action, buffer), buffer)
  {
    forall other: ThreadId | other != tid { OthersStay(s, tid, action, buffer, other); }
  }

  lemma ReturnStep(s: State, tid: ThreadId, action: Action, buffer: int)
    requires Inv(s, buffer) && At(s, tid).Releasing?
    ensures Inv(Next(s, tid, action, buffer), buffer)
  {
    forall other: ThreadId | other != tid { OthersStay(s, tid, action, buffer, other); }
    assert s.history[..|s.history|] == s.history;
    assert tid in s.readers;
  }

  lemma WriterStep(s: State, tid: ThreadId, action: Action, buffer: int)
    requires Inv(s, buffer) && HoldsWrite(At(s, tid))
    ensures Inv(Next(s, tid, action, buffer), buffer)
  {
    var s' := Next(s, tid, action, buffer);
    forall other: ThreadId | other != tid { OthersStay(s, tid, action, buffer, other); }
    forall other: ThreadId ensures !HoldsRead(At(s', other)) { assert other !in s.readers; }
    forall g | g in s.gets
      ensures Linearized(g, s'.history, buffer)
    {
      assert s'.history[..g.returned] == s.history[..g.returned];
    }
  }

  lemma {:induction false} RunKeepsInv(s: State, schedule: seq<(ThreadId, Action)>, buffer: int)
    requires Inv(s, buffer)
    ensures Inv(RunThreads(s, schedule, buffer), buffer)
    decreases |schedule|
  {
    if schedule != [] {
      var (tid, action) := schedule[0];
      var t := At(s, tid);
      if HoldsWrite(t) { WriterStep(s, tid, action, buffer); }
      else if t.Releasing? { ReturnStep(s, tid, action, buffer); }
      else if HoldsRead(t) { ReaderStep(s, tid, action, buffer); }
      else { OutsideStep(s, tid, action, buffer); }
      RunKeepsInv(Next(s, tid, action, buffer), schedule[1..], buffer);
    }
  }

  // No torn reads: in every interleaving, every finished Get answers what Get would answer
  // from the latest Set completed when it returned.
  lemma NoTornReads(schedule: seq<(ThreadId, Action)>, buffer: int, g: GetRecord)
    requires g in RunThreads(INITIAL, schedule, buffer).gets
    ensures Linearized(g, RunThreads(INITIAL, schedule, buffer).history, buffer)
  {
    RunKeepsInv(INITIAL, schedule, buffer);
  }

  // Readers never overlap a writer, and there is at most one writer.
  lemma WritersAreAlone(schedule: seq<(ThreadId, Action)>, buffer: int, a: ThreadId, b: ThreadId)
    requires a != b && HoldsWrite(At(RunThreads(INITIAL, schedule, buffer), a))
    ensures var t := At(RunThreads(INITIAL, schedule, buffer), b); !HoldsWrite(t) && !HoldsRead(t)
  {
    RunKeepsInv(INITIAL, schedule, buffer);
  }
}
