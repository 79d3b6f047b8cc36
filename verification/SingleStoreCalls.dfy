/** The calls behind the history of the one-slot cache: whose Set and Get each of them is, where
    its clock reading comes from, and that calls come to an end. */
module SingleStoreCalls {
  import opened Types
  import opened SingleStore
  import opened SingleStoreThreads

  type Schedule = seq<(ThreadId, Action)>

  function RunFrom(schedule: Schedule, buffer: int): State {
    RunThreads(INITIAL, schedule, buffer)
  }

  // ---------- Every call once, in program order ----------

  // The Set, or the Get, a thread starts with this action: it must be idle.
  function Starts(t: Thread, action: Action, sets: bool): seq<Action> {
    if t.Idle? && (if sets then action.CallSet? else action.CallGet?) then [action] else []
  }

  // The calls a thread makes along a schedule: the Sets, or the Gets, it asks for while idle.
  function Called(s: State, schedule: Schedule, buffer: int, tid: ThreadId, sets: bool): seq<Action>
    decreases |schedule|
  {
    if schedule == [] then []
    else
      var (t, action) := schedule[0];
      (if t == tid then Starts(At(s, t), action, sets) else [])
      + Called(Next(s, t, action, buffer), schedule[1..], buffer, tid, sets)
  }

  // The completed Sets of a thread, as it called them.
  function SetsDone(history: seq<SetCall>, authors: seq<ThreadId>, tid: ThreadId): seq<Action>
    requires |history| == |authors|
  {
    if history == [] then []
    else
      var last := |history| - 1;
      SetsDone(history[..last], authors[..last], tid)
      + if authors[last] == tid then [CallSet(history[last].key, history[last].value, history[last].ttl)] else []
  }

  // The finished Gets of a thread, as it called them.
  function GetsDone(gets: seq<GetRecord>, tid: ThreadId): seq<Action> {
    if gets == [] then []
    else
      var last := |gets| - 1;
      GetsDone(gets[..last], tid) + if gets[last].caller == tid then [CallGet(gets[last].wanted)] else []
  }

  // The Set, or the Get, a thread is in.
  function Underway(t: Thread, sets: bool): seq<Action> {
    if t.Idle? then []
    else if t.Offering? || HoldsWrite(t) then
      if sets then [CallSet(t.call.key, t.call.value, t.call.ttl)] else []
    else if sets then [] else [CallGet(t.wanted)]
  }

  function Done(s: State, tid: ThreadId, sets: bool): seq<Action>
    requires |s.history| == |s.authors|
  {
    if sets then SetsDone(s.history, s.authors, tid) else GetsDone(s.gets, tid)
  }

  // The call a step of the thread finishes.
  function Finishes(t: Thread, action: Action, sets: bool): seq<Action> {
    if sets && t.Publishing? && action.Continue? then [CallSet(t.call.key, t.call.value, t.call.ttl)]
    else if !sets && t.Releasing? && action.Continue? then [CallGet(t.wanted)]
    else []
  }

  lemma OwnStepAccounts(s: State, tid: ThreadId, action: Action, buffer: int, sets: bool)
    ensures Finishes(At(s, tid), action, sets) + Underway(At(Next(s, tid, action, buffer), tid), sets)
            == Underway(At(s, tid), sets) + Starts(At(s, tid), action, sets)
  {
  }

  lemma HistoryStep(s: State, tid: ThreadId, action: Action, buffer: int)
    ensures var s', t := Next(s, tid, action, buffer), At(s, tid);
            && (if t.Publishing? && action.Continue?
                then s'.history == s.history + [t.call] && s'.authors == s.authors + [tid]
                else s'.history == s.history && s'.authors == s.authors)
            && (if t.Releasing? && action.Continue?
                then s'.gets == s.gets + [GetRecord(tid, t.wanted, t.clock, t.result, t.since, |s.history|)]
                else s'.gets == s.gets)
  {
  }

  lemma DoneStep(s: State, t: ThreadId, action: Action, buffer: int, tid: ThreadId, sets: bool)
    requires |s.history| == |s.authors|
    ensures var s' := Next(s, t, action, buffer);
            && |s'.history| == |s'.authors|
            && Done(s', tid, sets) == Done(s, tid, sets) + if t == tid then Finishes(At(s, t), action, sets) else []
  {
    var s' := Next(s, t, action, buffer);
    HistoryStep(s, t, action, buffer);
    if At(s, t).Publishing? && action.Continue? {
      assert s'.history[..|s.history|] == s.history && s'.authors[..|s.history|] == s.authors;
    }
    if At(s, t).Releasing? && action.Continue? {
      assert s'.gets[..|s.gets|] == s.gets;
    }
  }

  // What a thread has done and what it is in.
  function Account(s: State, tid: ThreadId, sets: bool): seq<Action>
    requires |s.history| == |s.authors|
  {
    Done(s, tid, sets) + Underway(At(s, tid), sets)
  }

  lemma Assoc(a: seq<Action>, b: seq<Action>, c: seq<Action>)
    ensures (a + b) + c == a + (b + c)
  {
  }

  lemma Regroup(done: seq<Action>, finished: seq<Action>, later: seq<Action>, now: seq<Action>, started: seq<Action>)
    requires finished + later == now + started
    ensures (done + finished) + later == (done + now) + started
  {
    Assoc(done, finished, later);
    Assoc(done, now, started);
  }

  lemma StepAccounts(s: State, t: ThreadId, action: Action, buffer: int, tid: ThreadId, sets: bool)
    requires |s.history| == |s.authors|
    ensures var s' := Next(s, t, action, buffer);
            && |s'.history| == |s'.authors|
            && Account(s', tid, sets) == Account(s, tid, sets) + if t == tid then Starts(At(s, t), action, sets) else []
  {
    var s' := Next(s, t, action, buffer);
    DoneStep(s, t, action, buffer, tid, sets);
    if t == tid {
      OwnStepAccounts(s, tid, action, buffer, sets);
      Regroup(Done(s, tid, sets), Finishes(At(s, t), action, sets), Underway(At(s', tid), sets),
              Underway(At(s, tid), sets), Starts(At(s, t), action, sets));
    } else {
      OthersStay(s, t, action, buffer, tid);
    }
  }

  lemma {:induction false} RunAccounts(s: State, schedule: Schedule, buffer: int, tid: ThreadId, sets: bool)
    requires |s.history| == |s.authors|
    ensures var s' := RunThreads(s, schedule, buffer);
            && |s'.history| == |s'.authors|
            && Account(s', tid, sets) == Account(s, tid, sets) + Called(s, schedule, buffer, tid, sets)
    decreases |schedule|
  {
    if schedule != [] {
      var (t, action) := schedule[0];
      StepAccounts(s, t, action, buffer, tid, sets);
      var s' := Next(s, t, action, buffer);
      RunAccounts(s', schedule[1..], buffer, tid, sets);
      var started := if t == tid then Starts(At(s, t), action, sets) else [];
      var rest := Called(s', schedule[1..], buffer, tid, sets);
      assert Called(s, schedule, buffer, tid, sets) == started + rest;
      Assoc(Account(s, tid, sets), started, rest);
    }
  }

  // In every interleaving, the Sets of a thread in the history and the one it may be in are
  // exactly the Sets it called, each once, in the order it called them, with their arguments;
  // and so for its Gets. Nothing is lost, doubled or mixed up.
  lemma CallsInProgramOrder(schedule: Schedule, buffer: int, tid: ThreadId)
    ensures var s := RunFrom(schedule, buffer);
            && |s.history| == |s.authors|
            && SetsDone(s.history, s.authors, tid) + Underway(At(s, tid), true)
               == Called(INITIAL, schedule, buffer, tid, true)
            && GetsDone(s.gets, tid) + Underway(At(s, tid), false) == Called(INITIAL, schedule, buffer, tid, false)
  {
    RunAccounts(INITIAL, schedule, buffer, tid, true);
    RunAccounts(INITIAL, schedule, buffer, tid, false);
  }

  // ---------- Where the clock readings and the counts come from ----------

  lemma {:induction false} RunOneMore(s: State, schedule: Schedule, step: (ThreadId, Action), buffer: int)
    ensures RunThreads(s, schedule + [step], buffer) == Next(RunThreads(s, schedule, buffer), step.0, step.1, buffer)
    decreases |schedule|
  {
    var all := schedule + [step];
    if schedule == [] {
      assert all[1..] == [];
    } else {
      assert all[1..] == schedule[1..] + [step];
      RunOneMore(Next(s, schedule[0].0, schedule[0].1, buffer), schedule[1..], step, buffer);
    }
  }

  // Step k of the schedule is one of the thread, reading the clock for its Set or for its Get.
  ghost predicate ReadAt(schedule: Schedule, buffer: int, tid: ThreadId, now: int, setting: bool, k: nat) {
    && k < |schedule| && schedule[k] == (tid, Continue(now))
    && var t := At(RunFrom(schedule[..k], buffer), tid); if setting then t.WritingExpiry? else t.ReadingClock?
  }

  // Step k calls this Get when that many Sets are complete; step k returns from one.
  ghost predicate CalledAt(schedule: Schedule, buffer: int, tid: ThreadId, wanted: string, since: nat, k: nat) {
    k < |schedule| && schedule[k] == (tid, CallGet(wanted)) && |RunFrom(schedule[..k], buffer).history| == since
  }

  ghost predicate ReturnedAt(schedule: Schedule, buffer: int, g: GetRecord, k: nat) {
    && k < |schedule| && schedule[k].0 == g.caller && schedule[k].1.Continue?
    && var s := RunFrom(schedule[..k], buffer); At(s, g.caller).Releasing? && |s.history| == g.returned
  }

  ghost predicate SetTimed(schedule: Schedule, buffer: int, tid: ThreadId, call: SetCall) {
    exists k: nat :: ReadAt(schedule, buffer, tid, call.at, true, k)
  }

  ghost predicate GetTimed(schedule: Schedule, buffer: int, tid: ThreadId, clock: Option<int>) {
    clock.Some? ==> exists k: nat :: ReadAt(schedule, buffer, tid, clock.value, false, k)
  }

  ghost predicate GetCalled(schedule: Schedule, buffer: int, tid: ThreadId, wanted: string, since: nat) {
    exists k: nat :: CalledAt(schedule, buffer, tid, wanted, since, k)
  }

  ghost predicate GetReturned(schedule: Schedule, buffer: int, g: GetRecord) {
    exists k: nat :: ReturnedAt(schedule, buffer, g, k)
  }

  ghost predicate ThreadTraced(schedule: Schedule, buffer: int, tid: ThreadId, t: Thread) {
    && (t.Publishing? ==> SetTimed(schedule, buffer, tid, t.call))
    && (t.Wanting? || HoldsRead(t) ==> GetCalled(schedule, buffer, tid, t.wanted, t.since))
    && (t.Comparing? ==> GetTimed(schedule, buffer, tid, Some(t.now)))
    && (t.ReadingResult? || t.Releasing? ==> GetTimed(schedule, buffer, tid, t.clock))
  }

  ghost predicate RecordTraced(schedule: Schedule, buffer: int, g: GetRecord) {
    && GetCalled(schedule, buffer, g.caller, g.wanted, g.called)
    && GetTimed(schedule, buffer, g.caller, g.clock)
    && GetReturned(schedule, buffer, g)
  }

  ghost predicate Traced(schedule: Schedule, buffer: int, s: State) {
    && |s.history| == |s.authors|
    && (forall i :: 0 <= i < |s.history| ==> SetTimed(schedule, buffer, s.authors[i], s.history[i]))
    && (forall g <- s.gets :: RecordTraced(schedule, buffer, g))
    && (forall tid: ThreadId :: ThreadTraced(schedule, buffer, tid, At(s, tid)))
  }

  // What is found along a schedule is found along a longer one.
  lemma ReadStays(schedule: Schedule, step: (ThreadId, Action), buffer: int, tid: ThreadId, now: int, setting: bool)
    requires exists k: nat :: ReadAt(schedule, buffer, tid, now, setting, k)
    ensures exists k: nat :: ReadAt(schedule + [step], buffer, tid, now, setting, k)
  {
    var k: nat :| ReadAt(schedule, buffer, tid, now, setting, k);
    assert (schedule + [step])[..k] == schedule[..k];
    assert ReadAt(schedule + [step], buffer, tid, now, setting, k);
  }

  lemma CallStays(schedule: Schedule, step: (ThreadId, Action), buffer: int, tid: ThreadId, wanted: string, since: nat)
    requires GetCalled(schedule, buffer, tid, wanted, since)
    ensures GetCalled(schedule + [step], buffer, tid, wanted, since)
  {
    var k: nat :| CalledAt(schedule, buffer, tid, wanted, since, k);
    assert (schedule + [step])[..k] == schedule[..k];
    assert CalledAt(schedule + [step], buffer, tid, wanted, since, k);
  }

  lemma ReturnStays(schedule: Schedule, step: (ThreadId, Action), buffer: int, g: GetRecord)
    requires GetReturned(schedule, buffer, g)
    ensures GetReturned(schedule + [step], buffer, g)
  {
    var k: nat :| ReturnedAt(schedule, buffer, g, k);
    assert (schedule + [step])[..k] == schedule[..k];
    assert ReturnedAt(schedule + [step], buffer, g, k);
  }

  lemma ThreadStays(schedule: Schedule, step: (ThreadId, Action), buffer: int, tid: ThreadId, t: Thread)
    requires ThreadTraced(schedule, buffer, tid, t)
    ensures ThreadTraced(schedule + [step], buffer, tid, t)
  {
    if t.Publishing? { ReadStays(schedule, step, buffer, tid, t.call.at, true); }
    if t.Wanting? || HoldsRead(t) { CallStays(schedule, step, buffer, tid, t.wanted, t.since); }
    if t.Comparing? { ReadStays(schedule, step, buffer, tid, t.now, false); }
    if (t.ReadingResult? || t.Releasing?) && t.clock.Some? {
      ReadStays(schedule, step, buffer, tid, t.clock.value, false);
    }
  }

  lemma RecordStays(schedule: Schedule, step: (ThreadId, Action), buffer: int, g: GetRecord)
    requires RecordTraced(schedule, buffer, g)
    ensures RecordTraced(schedule + [step], buffer, g)
  {
    CallStays(schedule, step, buffer, g.caller, g.wanted, g.called);
    ReturnStays(schedule, step, buffer, g);
    if g.clock.Some? { ReadStays(schedule, step, buffer, g.caller, g.clock.value, false); }
  }

  // What the step itself adds.
  lemma StepFound(schedule: Schedule, step: (ThreadId, Action), buffer: int)
    ensures var (tid, action) := step;
            var s, all := RunFrom(schedule, buffer), schedule + [step];
            var t := At(s, tid);
            && (t.WritingExpiry? && action.Continue? ==> ReadAt(all, buffer, tid, action.now, true, |schedule|))
            && (t.ReadingClock? && action.Continue? ==> ReadAt(all, buffer, tid, action.now, false, |schedule|))
            && (action.CallGet? ==> CalledAt(all, buffer, tid, action.wanted, |s.history|, |schedule|))
            && (t.Releasing? && action.Continue? ==>
                  var g := GetRecord(tid, t.wanted, t.clock, t.result, t.since, |s.history|);
                  ReturnedAt(all, buffer, g, |schedule|))
  {
    assert (schedule + [step])[..|schedule|] == schedule;
  }

  // The thread that takes the step, once what the step adds is known to be found.
  lemma MovedThread(all: Schedule, buffer: int, s: State, tid: ThreadId, action: Action, k: nat)
    requires ThreadTraced(all, buffer, tid, At(s, tid))
    requires var t := At(s, tid);
             && (t.WritingExpiry? && action.Continue? ==> ReadAt(all, buffer, tid, action.now, true, k))
             && (t.ReadingClock? && action.Continue? ==> ReadAt(all, buffer, tid, action.now, false, k))
             && (action.CallGet? ==> CalledAt(all, buffer, tid, action.wanted, |s.history|, k))
    ensures ThreadTraced(all, buffer, tid, At(Next(s, tid, action, buffer), tid))
  {
  }

  lemma OwnStepTraced(schedule: Schedule, step: (ThreadId, Action), buffer: int)
    requires ThreadTraced(schedule, buffer, step.0, At(RunFrom(schedule, buffer), step.0))
    ensures ThreadTraced(schedule + [step], buffer, step.0,
                         At(Next(RunFrom(schedule, buffer), step.0, step.1, buffer), step.0))
  {
    ThreadStays(schedule, step, buffer, step.0, At(RunFrom(schedule, buffer), step.0));
    StepFound(schedule, step, buffer);
    MovedThread(schedule + [step], buffer, RunFrom(schedule, buffer), step.0, step.1, |schedule|);
  }

  lemma StepTraced(schedule: Schedule, step: (ThreadId, Action), buffer: int)
    requires Traced(schedule, buffer, RunFrom(schedule, buffer))
    ensures Traced(schedule + [step], buffer, Next(RunFrom(schedule, buffer), step.0, step.1, buffer))
  {
    var s, all := RunFrom(schedule, buffer), schedule + [step];
    var s', t := Next(s, step.0, step.1, buffer), At(s, step.0);
    HistoryStep(s, step.0, step.1, buffer);
    assert ThreadTraced(schedule, buffer, step.0, t);
    ThreadStays(schedule, step, buffer, step.0, t);
    forall tid: ThreadId
      ensures ThreadTraced(all, buffer, tid, At(s', tid))
    {
      if tid == step.0 {
        OwnStepTraced(schedule, step, buffer);
      } else {
        OthersStay(s, step.0, step.1, buffer, tid);
        ThreadStays(schedule, step, buffer, tid, At(s, tid));
      }
    }
    forall i | 0 <= i < |s'.history|
      ensures SetTimed(all, buffer, s'.authors[i], s'.history[i])
    {
      if i < |s.history| { ReadStays(schedule, step, buffer, s.authors[i], s.history[i].at, true); }
    }
    forall g | g in s'.gets
      ensures RecordTraced(all, buffer, g)
    {
      if g in s.gets { RecordStays(schedule, step, buffer, g); }
      else { StepFound(schedule, step, buffer); }
    }
  }

  lemma {:induction false} RunTraced(schedule: Schedule, buffer: int)
    ensures Traced(schedule, buffer, RunFrom(schedule, buffer))
    decreases |schedule|
  {
    if schedule != [] {
      var before, step := schedule[..|schedule| - 1], schedule[|schedule| - 1];
      RunTraced(before, buffer);
      StepTraced(before, step, buffer);
      RunOneMore(INITIAL, before, step, buffer);
      assert before + [step] == schedule;
    }
  }

  // In every interleaving, each completed Set carries the clock reading its own thread made when
  // it wrote the expiry.
  lemma SetsReadTheirClock(schedule: Schedule, buffer: int, i: nat)
    requires i < |RunFrom(schedule, buffer).history|
    ensures var s := RunFrom(schedule, buffer);
            i < |s.authors| && SetTimed(schedule, buffer, s.authors[i], s.history[i])
  {
    RunTraced(schedule, buffer);
  }

  // Each finished Get was called by its own thread for that key, and compared with the clock
  // reading that thread made, if any; the two counts are the numbers of Sets completed at its
  // call and at its return.
  lemma GetsAreTheirThreads(schedule: Schedule, buffer: int, g: GetRecord)
    requires g in RunFrom(schedule, buffer).gets
    ensures RecordTraced(schedule, buffer, g)
  {
    RunTraced(schedule, buffer);
  }

  // ---------- Calls come to an end ----------

  lemma NextOf(s: State, step: (ThreadId, Action), rest: Schedule, buffer: int)
    ensures RunThreads(s, [step] + rest, buffer) == RunThreads(Next(s, step.0, step.1, buffer), rest, buffer)
  {
    assert ([step] + rest)[1..] == rest;
  }

  // The thread takes one turn at each of these clock readings.
  function Going(tid: ThreadId, nows: seq<int>): Schedule {
    seq(|nows|, i requires 0 <= i < |nows| => (tid, Continue(nows[i])))
  }

  lemma NextTurn(s: State, tid: ThreadId, nows: seq<int>, buffer: int)
    requires nows != []
    ensures RunThreads(s, Going(tid, nows), buffer)
            == RunThreads(Next(s, tid, Continue(nows[0]), buffer), Going(tid, nows[1..]), buffer)
  {
    assert Going(tid, nows) == [(tid, Continue(nows[0]))] + Going(tid, nows[1..]);
    NextOf(s, (tid, Continue(nows[0])), Going(tid, nows[1..]), buffer);
  }

  // Alone with a free lock, a Set takes five turns and adds exactly itself to the history, with
  // the clock reading of the fourth.
  lemma SetAlone(s: State, tid: ThreadId, key: string, value: Option<Issued>, ttl: int, nows: seq<int>, buffer: int)
    requires At(s, tid).Idle? && s.writer.None? && s.readers == {} && |nows| == 5
    ensures var s' := RunThreads(s, [(tid, CallSet(key, value, ttl))] + Going(tid, nows), buffer);
            var call := SetCall(key, value, ttl, nows[3]);
            && s'.history == s.history + [call] && s'.authors == s.authors + [tid] && s'.slot == SlotOf(call)
            && s'.gets == s.gets && s'.writer.None? && s'.readers == {} && At(s', tid).Idle?
  {
    NextOf(s, (tid, CallSet(key, value, ttl)), Going(tid, nows), buffer);
    var s1 := Next(s, tid, CallSet(key, value, ttl), buffer);
    NextTurn(s1, tid, nows, buffer);
    var s2 := Next(s1, tid, Continue(nows[0]), buffer);
    WriteAlone(s2, tid, nows[1..], buffer);
  }

  // From the point where the writer has the lock.
  lemma WriteAlone(s: State, tid: ThreadId, nows: seq<int>, buffer: int)
    requires At(s, tid).WritingKey? && |nows| == 4
    ensures var call, s' := At(s, tid).call.(at := nows[2]), RunThreads(s, Going(tid, nows), buffer);
            && s'.history == s.history + [call] && s'.authors == s.authors + [tid] && s'.slot == SlotOf(call)
            && s'.gets == s.gets && s'.writer.None? && s'.readers == s.readers && At(s', tid).Idle?
  {
    NextTurn(s, tid, nows, buffer);
    var s1 := Next(s, tid, Continue(nows[0]), buffer);
    NextTurn(s1, tid, nows[1..], buffer);
    var s2 := Next(s1, tid, Continue(nows[1]), buffer);
    assert At(s2, tid) == WritingExpiry(At(s, tid).call) && s2.slot.key == At(s, tid).call.key;
    ExpireAlone(s2, tid, nows[2..], buffer);
  }

  lemma ExpireAlone(s: State, tid: ThreadId, nows: seq<int>, buffer: int)
    requires At(s, tid).WritingExpiry? && |nows| == 2
    requires s.slot.key == At(s, tid).call.key && s.slot.value == At(s, tid).call.value
    ensures var call, s' := At(s, tid).call.(at := nows[0]), RunThreads(s, Going(tid, nows), buffer);
            && s'.history == s.history + [call] && s'.authors == s.authors + [tid] && s'.slot == SlotOf(call)
            && s'.gets == s.gets && s'.writer.None? && s'.readers == s.readers && At(s', tid).Idle?
  {
    NextTurn(s, tid, nows, buffer);
    PublishAlone(Next(s, tid, Continue(nows[0]), buffer), tid, nows[1..], buffer);
  }

  lemma PublishAlone(s: State, tid: ThreadId, nows: seq<int>, buffer: int)
    requires At(s, tid).Publishing? && |nows| == 1
    ensures var s' := RunThreads(s, Going(tid, nows), buffer);
            && s'.history == s.history + [At(s, tid).call] && s'.authors == s.authors + [tid] && s'.slot == s.slot
            && s'.gets == s.gets && s'.writer.None? && s'.readers == s.readers && At(s', tid).Idle?
  {
    NextTurn(s, tid, nows, buffer);
  }

  lemma {:induction false} IdleTurns(s: State, tid: ThreadId, nows: seq<int>, buffer: int)
    requires At(s, tid).Idle?
    ensures RunThreads(s, Going(tid, nows), buffer) == s
    decreases |nows|
  {
    if nows != [] {
      NextTurn(s, tid, nows, buffer);
      IdleTurns(s, tid, nows[1..], buffer);
    }
  }

  // The last turn of a Get.
  lemma ReturnAlone(s: State, tid: ThreadId, nows: seq<int>, buffer: int)
    requires At(s, tid).Releasing? && nows != []
    ensures var t, s' := At(s, tid), RunThreads(s, Going(tid, nows), buffer);
            && s'.gets == s.gets + [GetRecord(tid, t.wanted, t.clock, t.result, t.since, |s.history|)]
            && s'.readers == s.readers - {tid} && s'.writer == s.writer && At(s', tid).Idle?
            && s'.history == s.history && s'.authors == s.authors && s'.slot == s.slot
  {
    NextTurn(s, tid, nows, buffer);
    IdleTurns(Next(s, tid, Continue(nows[0]), buffer), tid, nows[1..], buffer);
  }

  // With no Set going on, a Get takes at most eight turns and adds exactly one record, with what
  // Get answers at the clock reading of the fifth.
  lemma GetAlone(s: State, tid: ThreadId, wanted: string, nows: seq<int>, buffer: int)
    requires At(s, tid).Idle? && s.writer.None? && tid !in s.readers && |nows| == 8
    ensures var s' := RunThreads(s, [(tid, CallGet(wanted))] + Going(tid, nows), buffer);
            && |s'.gets| == |s.gets| + 1 && s'.gets[..|s.gets|] == s.gets
            && var g := s'.gets[|s.gets|];
            && g.caller == tid && g.wanted == wanted && g.result == Judge(s.slot, wanted, nows[4], buffer)
            && g.called == g.returned == |s.history|
            && s'.history == s.history && s'.slot == s.slot && s'.readers == s.readers && At(s', tid).Idle?
  {
    NextOf(s, (tid, CallGet(wanted)), Going(tid, nows), buffer);
    var s1 := Next(s, tid, CallGet(wanted), buffer);
    NextTurn(s1, tid, nows, buffer);
    var s2 := Next(s1, tid, Continue(nows[0]), buffer);
    NextTurn(s2, tid, nows[1..], buffer);
    var s3 := Next(s2, tid, Continue(nows[1]), buffer);
    if s.slot.key != wanted { ReturnAlone(s3, tid, nows[2..], buffer); return; }
    NextTurn(s3, tid, nows[2..], buffer);
    var s4 := Next(s3, tid, Continue(nows[2]), buffer);
    if s.slot.value.None? { ReturnAlone(s4, tid, nows[3..], buffer); return; }
    NextTurn(s4, tid, nows[3..], buffer);
    var s5 := Next(s4, tid, Continue(nows[3]), buffer);
    ReadAlone(s5, tid, nows[4..], buffer);
  }

  // From the point where the expiry has been read.
  lemma ReadAlone(s: State, tid: ThreadId, nows: seq<int>, buffer: int)
    requires At(s, tid).ReadingResult? || At(s, tid).ReadingClock?
    requires At(s, tid).ReadingResult? <==> s.slot.expiresAt == ZERO_TIME
    requires s.slot.key == At(s, tid).wanted && s.slot.value.Some? && |nows| == 4
    ensures var t, s' := At(s, tid), RunThreads(s, Going(tid, nows), buffer);
            && |s'.gets| == |s.gets| + 1 && s'.gets[..|s.gets|] == s.gets
            && var g := s'.gets[|s.gets|];
            && g.caller == tid && g.wanted == t.wanted && g.result == Judge(s.slot, t.wanted, nows[0], buffer)
            && g.called == t.since && g.returned == |s.history|
            && s'.history == s.history && s'.slot == s.slot && s'.readers == s.readers - {tid} && At(s', tid).Idle?
  {
    NextTurn(s, tid, nows, buffer);
    var s1 := Next(s, tid, Continue(nows[0]), buffer);
    if At(s, tid).ReadingResult? { ReturnAlone(s1, tid, nows[1..], buffer); return; }
    NextTurn(s1, tid, nows[1..], buffer);
    var s2 := Next(s1, tid, Continue(nows[1]), buffer);
    if At(s2, tid).Releasing? { ReturnAlone(s2, tid, nows[2..], buffer); return; }
    NextTurn(s2, tid, nows[2..], buffer);
    var s3 := Next(s2, tid, Continue(nows[2]), buffer);
    ReturnAlone(s3, tid, nows[3..], buffer);
  }

  lemma {:induction false} RunBoth(s: State, first: Schedule, second: Schedule, buffer: int)
    ensures RunThreads(s, first + second, buffer) == RunThreads(RunThreads(s, first, buffer), second, buffer)
    decreases |first|
  {
    if first == [] {
      assert first + second == second;
    } else {
      assert (first + second)[1..] == first[1..] + second;
      RunBoth(Next(s, first[0].0, first[0].1, buffer), first[1..], second, buffer);
    }
  }

  // One thread stores a token, then any thread asks for it: it gets that very token exactly while
  // the Set's lifetime, if it has one, leaves at least the buffer.
  lemma SetThenGet(s: State, a: ThreadId, b: ThreadId, key: string, token: Issued, ttl: int,
                   setting: seq<int>, getting: seq<int>, buffer: int)
    requires At(s, a).Idle? && s.writer.None? && s.readers == {} && |setting| == 5
    requires At(s, b).Idle? && |getting| == 8
    ensures var asked := [(a, CallSet(key, Some(token), ttl))] + Going(a, setting);
            var s' := RunThreads(s, asked + ([(b, CallGet(key))] + Going(b, getting)), buffer);
            && |s'.gets| == |s.gets| + 1
            && var served := ttl == 0 || setting[3] + ttl == 0 || getting[4] <= setting[3] + ttl - buffer;
               s'.gets[|s.gets|].result == if served then Some(token) else None
  {
    var asked := [(a, CallSet(key, Some(token), ttl))] + Going(a, setting);
    var s1 := RunThreads(s, asked, buffer);
    RunBoth(s, asked, [(b, CallGet(key))] + Going(b, getting), buffer);
    SetAlone(s, a, key, Some(token), ttl, setting, buffer);
    if a != b {
      OthersIdle(s, asked, buffer, a, b);
    }
    GetAlone(s1, b, key, getting, buffer);
  }

  // A schedule of one thread leaves the others where they are.
  lemma {:induction false} OthersIdle(s: State, schedule: Schedule, buffer: int, a: ThreadId, b: ThreadId)
    requires a != b && forall step <- schedule :: step.0 == a
    ensures At(RunThreads(s, schedule, buffer), b) == At(s, b)
    decreases |schedule|
  {
    if schedule != [] {
      var (t, action) := schedule[0];
      assert schedule[0] in schedule;
      OthersStay(s, t, action, buffer, b);
      OthersIdle(Next(s, t, action, buffer), schedule[1..], buffer, a, b);
    }
  }

  // The steps a thread inside its critical section still has to take.
  function StepsLeft(t: Thread): nat {
    match t
    case WritingKey(_) => 4
    case WritingValue(_) => 3
    case WritingExpiry(_) => 2
    case Publishing(_) => 1
    case ReadingKey(_, _) => 7
    case ReadingValue(_, _) => 6
    case ReadingExpiry(_, _) => 5
    case ReadingClock(_, _) => 4
    case Comparing(_, _, _) => 3
    case ReadingResult(_, _, _) => 2
    case Releasing(_, _, _, _) => 1
    case _ => 0
  }

  function Turns(schedule: Schedule, tid: ThreadId): nat {
    if schedule == [] then 0
    else (if schedule[0].0 == tid && schedule[0].1.Continue? then 1 else 0) + Turns(schedule[1..], tid)
  }

  // A thread that holds the lock is never held up: whatever the others do in between, it has
  // finished its call, and given the lock back, after that many turns of its own.
  lemma {:induction false} InsideFinishes(s: State, schedule: Schedule, buffer: int, tid: ThreadId) returns (k: nat)
    requires StepsLeft(At(s, tid)) <= Turns(schedule, tid)
    requires HoldsRead(At(s, tid)) || HoldsWrite(At(s, tid))
    ensures k <= |schedule| && At(RunThreads(s, schedule[..k], buffer), tid).Idle?
    decreases |schedule|
  {
    var (t, action) := schedule[0];
    var s' := Next(s, t, action, buffer);
    if t != tid {
      OthersStay(s, t, action, buffer, tid);
    }
    if At(s', tid).Idle? {
      k := 1;
      assert schedule[..1][1..] == [] && RunThreads(s', [], buffer) == s';
    } else {
      var k' := InsideFinishes(s', schedule[1..], buffer, tid);
      k := k' + 1;
      assert schedule[..k][1..] == schedule[1..][..k'];
    }
  }

  // No deadlock: in every interleaving, as long as some thread is in a call, some thread in a
  // call can take its next step.
  lemma SomeoneMoves(schedule: Schedule, buffer: int, tid: ThreadId, now: int) returns (mover: ThreadId)
    requires !At(RunFrom(schedule, buffer), tid).Idle?
    ensures var s := RunFrom(schedule, buffer);
            !At(s, mover).Idle? && At(Next(s, mover, Continue(now), buffer), mover) != At(s, mover)
  {
    var s := RunFrom(schedule, buffer);
    assert Inv(INITIAL, buffer);
    RunKeepsInv(INITIAL, schedule, buffer);
    if s.writer.Some? {
      mover := s.writer.value;
    } else if s.readers != {} {
      mover :| mover in s.readers;
    } else {
      mover := tid;
    }
  }
}
