/** Idempotency keys (internal/handler/idempotency.go), for all requests that share one
    key. Each SQL statement is one atomic step. Times are nanoseconds; the table keeps
    whole seconds. Fingerprints and bodies are strings. */
module Idempotency {
  import opened SqlLogic

  const SECOND := 1_000_000_000

  /** status 0: the claiming request has not recorded its response. */
  datatype Entry = Entry(fingerprint: string, status: int, body: string, created: int)

  /** now.Sub(time.Unix(created, 0)) < ttl */
  predicate Unexpired(e: Entry, now: int, ttl: int) { now - e.created * SECOND < ttl }

  datatype Reply =
    | Mismatch                             // 422: key used with another body
    | InProgress                           // 409
    | Replay(status: int, body: string)
    | CheckFailed                          // 500
    | Ran(status: int, body: string)       // the handler's own response

  /** The response to a request that did not get the key. */
  function ReplyFrom(e: Entry, fingerprint: string): Reply {
    if e.fingerprint != fingerprint then Mismatch
    else if e.status == 0 then InProgress
    else Replay(e.status, e.body)
  }

  predicate Releases(status: int) { status >= 500 || status == 0 }

  /** The key's row, and a request on it without interruption. */
  class KeyRow {
    var entry: Option<Entry>

    /** claimIdempotencyKey: the key is obtained exactly when it is free or expired. */
    method Claim(fingerprint: string, now: int, ttl: int) returns (claimed: bool, stored: Option<Entry>)
      modifies this
      ensures claimed <==> old(entry).None? || now - old(entry).value.created * 1_000_000_000 >= ttl
      ensures claimed ==> entry == Some(Entry(fingerprint, 0, "", now / 1_000_000_000)) && stored == None
      ensures !claimed ==> entry == old(entry) && stored == old(entry)
    {
      var attempt := 0;
      while attempt < 2
        invariant attempt == 0 ==> entry == old(entry)
        invariant attempt > 0 ==> entry == None && old(entry).Some? && !Unexpired(old(entry).value, now, ttl)
        invariant attempt <= 1
        decreases 2 - attempt
      {
        if entry.None? {
          entry := Some(Entry(fingerprint, 0, "", now / SECOND));
          return true, None;
        }
        if Unexpired(entry.value, now, ttl) {
          return false, entry;
        }
        entry := None;
        attempt := attempt + 1;
      }
      assert false;
      claimed, stored := false, None;
    }

    /** After the handler: release the key on a server failure, else store the response. */
    method Settle(status: int, body: string)
      modifies this
      ensures entry == Settled(old(entry), status, body)
      ensures status >= 500 || status == 0 ==> entry == None
      ensures 0 < status < 500 && old(entry).Some? ==> entry == Some(old(entry).value.(status := status, body := body))
    {
      if Releases(status) {
        entry := None;
      } else if entry.Some? {
        entry := Some(entry.value.(status := status, body := body));
      }
    }
  }

  function Settled(entry: Option<Entry>, status: int, body: string): Option<Entry> {
    if Releases(status) then None
    else if entry.Some? then Some(entry.value.(status := status, body := body))
    else None
  }

  // ---- requests between their statements ----

  datatype Request =
    | Inserting(fingerprint: string, now: int, attempt: nat)
    | Reading(fingerprint: string, now: int, attempt: nat)
    | Deleting(fingerprint: string, now: int, attempt: nat)
    | Running(fingerprint: string)
    | Finishing(fingerprint: string, status: int, body: string)

  datatype Answer = Answer(fingerprint: string, reply: Reply)

  datatype Outcome = Outcome(fingerprint: string, status: int, body: string)

  /** runs counts handler starts, finished is the last response below 500, recorded tells
      whether its UPDATE ran, answers are the replies sent, oldest first. */
  datatype State = State(
    entry: Option<Entry>,
    requests: map<int, Request>,
    now: int,
    runs: nat,
    finished: Option<Outcome>,
    recorded: bool,
    answers: seq<Answer>)

  datatype Step =
    | Tick(to: int)
    | Arrive(p: int, fingerprint: string)
    | Sweep(t: int)
    | Insert(p: int)
    | Read(p: int)
    | Delete(p: int)
    | Complete(p: int, status: int, body: string)
    | Record(p: int)
    | Stop(p: int)

  predicate Enabled(s: State, step: Step) {
    match step
    case Tick(to) => to >= s.now
    case Arrive(p, _) => p !in s.requests
    case Sweep(t) => t <= s.now
    case Insert(p) => p in s.requests && s.requests[p].Inserting?
    case Read(p) => p in s.requests && s.requests[p].Reading?
    case Delete(p) => p in s.requests && s.requests[p].Deleting?
    case Complete(p, _, _) => p in s.requests && s.requests[p].Running?
    case Record(p) => p in s.requests && s.requests[p].Finishing?
    case Stop(p) => p in s.requests
  }

  function Become(s: State, p: int, r: Request): State { s.(requests := s.requests[p := r]) }

  function Respond(s: State, p: int, fingerprint: string, reply: Reply): State {
    s.(requests := s.requests - {p}, answers := s.answers + [Answer(fingerprint, reply)])
  }

  function Apply(s: State, step: Step, ttl: int): State
    requires Enabled(s, step)
  {
    match step
    case Tick(to) => s.(now := to)
    case Arrive(p, f) => Become(s, p, Inserting(f, s.now, 0))
    case Sweep(t) =>
      if s.entry.Some? && s.entry.value.created < (t - ttl) / SECOND then s.(entry := None) else s
    case Insert(p) =>
      var Inserting(f, t, attempt) := s.requests[p];
      if s.entry.None? then
        Become(s.(entry := Some(Entry(f, 0, "", t / SECOND)), runs := s.runs + 1), p, Running(f))
      else Become(s, p, Reading(f, t, attempt))
    case Read(p) =>
      var Reading(f, t, attempt) := s.requests[p];
      if s.entry.None? then Respond(s, p, f, CheckFailed)
      else if Unexpired(s.entry.value, t, ttl) then Respond(s, p, f, ReplyFrom(s.entry.value, f))
      else Become(s, p, Deleting(f, t, attempt))
    case Delete(p) =>
      var Deleting(f, t, attempt) := s.requests[p];
      if attempt + 1 < 2 then Become(s.(entry := None), p, Inserting(f, t, attempt + 1))
      else Respond(s.(entry := None), p, f, CheckFailed)
    case Complete(p, status, body) =>
      var f := s.requests[p].fingerprint;
      Become(if Releases(status) then s else s.(finished := Some(Outcome(f, status, body)), recorded := false),
             p, Finishing(f, status, body))
    case Record(p) =>
      var Finishing(f, status, body) := s.requests[p];
      Respond(s.(entry := Settled(s.entry, status, body), recorded := s.recorded || !Releases(status)), p, f,
          Ran(status, body))
    case Stop(p) => s.(requests := s.requests - {p})
  }

  predicate RunEnabled(s: State, steps: seq<Step>, ttl: int)
    decreases |steps|
  {
    steps == [] || (Enabled(s, steps[0]) && RunEnabled(Apply(s, steps[0], ttl), steps[1..], ttl))
  }

  function Run(s: State, steps: seq<Step>, ttl: int): State
    requires RunEnabled(s, steps, ttl)
    decreases |steps|
  {
    if steps == [] then s else Run(Apply(s, steps[0], ttl), steps[1..], ttl)
  }

  // ---- every run: when a second handler can start ----

  /** Nothing has happened with the key yet. */
  predicate Empty(s: State) { s.entry == None && s.requests == map[] }

  /** The handler is running, or its response is not settled yet. */
  predicate Active(s: State, p: int) {
    p in s.requests && (s.requests[p].Running? || s.requests[p].Finishing?)
  }

  ghost predicate SomeActive(s: State) { exists p :: Active(s, p) }

  /** At most one handler, and while there is one its entry keeps the others out. */
  ghost predicate Guarded(s: State) {
    && (forall p, q :: Active(s, p) && Active(s, q) ==> p == q)
    && (SomeActive(s) ==> s.entry.Some?)
  }

  /** The step deletes the entry: an expired one was read, or a sweep finds it old. */
  predicate Removes(s: State, step: Step, ttl: int) {
    s.entry.Some? && (step.Delete? || (step.Sweep? && s.entry.value.created < (step.t - ttl) / SECOND))
  }

  lemma ActiveMoves(s: State, step: Step, ttl: int, p: int)
    requires Enabled(s, step)
    ensures Active(Apply(s, step, ttl), p) ==> Active(s, p) || (step == Insert(p) && s.entry.None?)
    ensures step.Insert? && s.entry.None? ==> Active(Apply(s, step, ttl), step.p)
    ensures (step.Delete? || step.Sweep?) && Active(s, p) ==> Active(Apply(s, step, ttl), p)
  {
  }

  lemma EntryMoves(s: State, step: Step, ttl: int)
    requires Enabled(s, step) && s.entry.Some?
    ensures Apply(s, step, ttl).entry.None? <==>
      Removes(s, step, ttl) || (step.Record? && Releases(s.requests[step.p].status))
  {
  }

  /** Every step keeps at most one guarded handler, except exactly the steps that delete the
      entry of a handler that is still active. */
  lemma GuardEndsByRemoval(s: State, step: Step, ttl: int)
    requires Guarded(s) && Enabled(s, step)
    ensures Guarded(Apply(s, step, ttl)) <==> !(Removes(s, step, ttl) && SomeActive(s))
  {
    hide Active, Removes;
    var s' := Apply(s, step, ttl);
    forall p ensures Active(s', p) ==> Active(s, p) || (step == Insert(p) && s.entry.None?) {
      ActiveMoves(s, step, ttl, p);
    }
    if s.entry.Some? { EntryMoves(s, step, ttl); }
    if step.Insert? && s.entry.None? { ActiveMoves(s, step, ttl, step.p); }
    if Removes(s, step, ttl) && SomeActive(s) {
      var p :| Active(s, p);
      RemovalIsBlind(s, step, ttl);
      ActiveMoves(s, step, ttl, p);
    } else {
      if step.Record? { RecordEnds(s, step, ttl); }
      if step.Insert? && s.entry.None? { OnlyInsertFills(s, step, ttl); }
    }
  }

  lemma RemovalIsBlind(s: State, step: Step, ttl: int)
    requires Removes(s, step, ttl)
    ensures step.Delete? || step.Sweep?
  {
  }

  lemma RecordEnds(s: State, step: Step, ttl: int)
    requires Guarded(s) && Enabled(s, step) && step.Record?
    ensures !SomeActive(Apply(s, step, ttl))
  {
    forall p ensures !Active(Apply(s, step, ttl), p) {
      assert Active(s, step.p);
      ActiveMoves(s, step, ttl, p);
    }
  }

  lemma OnlyInsertFills(s: State, step: Step, ttl: int)
    requires Enabled(s, step) && s.entry.None? && step.Insert?
    ensures Apply(s, step, ttl).entry.Some?
  {
  }

  ghost predicate AlwaysGuarded(s: State, steps: seq<Step>, ttl: int)
    requires RunEnabled(s, steps, ttl)
    decreases |steps|
  {
    Guarded(s) && (steps == [] || AlwaysGuarded(Apply(s, steps[0], ttl), steps[1..], ttl))
  }

  ghost predicate NeverRemovesActive(s: State, steps: seq<Step>, ttl: int)
    requires RunEnabled(s, steps, ttl)
    decreases |steps|
  {
    steps == [] || (!(Removes(s, steps[0], ttl) && SomeActive(s)) &&
        NeverRemovesActive(Apply(s, steps[0], ttl), steps[1..], ttl))
  }

  /** In every run from a key without a row the handler is guarded throughout if and only if no
      step deletes the entry of an active one. */
  lemma {:induction false} GuardedExactlyWithoutRemoval(s: State, steps: seq<Step>, ttl: int)
    requires Guarded(s) && RunEnabled(s, steps, ttl)
    ensures AlwaysGuarded(s, steps, ttl) <==> NeverRemovesActive(s, steps, ttl)
    decreases |steps|
  {
    hide Enabled, Apply, Guarded, Removes, SomeActive;
    if steps != [] {
      GuardEndsByRemoval(s, steps[0], ttl);
      if Guarded(Apply(s, steps[0], ttl)) {
        GuardedExactlyWithoutRemoval(Apply(s, steps[0], ttl), steps[1..], ttl);
      } else {
        NotGuarded(Apply(s, steps[0], ttl), steps[1..], ttl);
      }
    }
  }

  lemma NotGuarded(s: State, steps: seq<Step>, ttl: int)
    requires !Guarded(s) && RunEnabled(s, steps, ttl)
    ensures !AlwaysGuarded(s, steps, ttl)
  {
    hide Enabled, Apply, Guarded;
  }

  lemma EmptyIsGuarded(s: State)
    requires Empty(s)
    ensures Guarded(s)
  {
  }

  /** At most one handler at a time in every run that deletes no active handler's entry. */
  lemma {:induction false} OneHandlerAtATime(s: State, steps: seq<Step>, ttl: int, p: int, q: int)
    requires Guarded(s) && RunEnabled(s, steps, ttl) && NeverRemovesActive(s, steps, ttl)
    requires Active(Run(s, steps, ttl), p) && Active(Run(s, steps, ttl), q)
    ensures p == q
    decreases |steps|
  {
    hide Enabled, Apply, Removes, SomeActive;
    if steps != [] {
      GuardEndsByRemoval(s, steps[0], ttl);
      OneHandlerAtATime(Apply(s, steps[0], ttl), steps[1..], ttl, p, q);
    }
  }

  /** After a step that deletes an active handler's entry any new request runs beside it. */
  lemma RemovalLetsSecondStart(s: State, step: Step, ttl: int, q: int, p: int, fingerprint: string)
    requires Enabled(s, step) && Removes(s, step, ttl) && Active(s, q) && p !in Apply(s, step, ttl).requests
    ensures
      var s1 := Apply(s, step, ttl);
      && Enabled(s1, Arrive(p, fingerprint))
      && var s2 := Apply(s1, Arrive(p, fingerprint), ttl);
         Enabled(s2, Insert(p)) && Active(Apply(s2, Insert(p), ttl), p) && Active(Apply(s2, Insert(p), ttl), q)
  {
  }

  // ---- the age of the entry ----

  /** The age an entry shows to a clock reading. */
  function Age(e: Entry, now: int): int { now - e.created * SECOND }

  /** Reading the entry while its handler is active: the reader deletes it and starts a second
      handler if and only if the entry's age, when the reader arrived, had reached ttl. */
  lemma SecondHandlerByAge(s: State, p: int, q: int, ttl: int)
    requires Enabled(s, Read(p)) && s.requests[p].attempt == 0 && s.entry.Some? && Active(s, q)
    ensures
      var s1 := Apply(s, Read(p), ttl);
      if Age(s.entry.value, s.requests[p].now) >= ttl then
        && Enabled(s1, Delete(p)) && Removes(s1, Delete(p), ttl)
        && Enabled(Apply(s1, Delete(p), ttl), Insert(p))
        && var s3 := Apply(Apply(s1, Delete(p), ttl), Insert(p), ttl); Active(s3, p) && Active(s3, q)
      else p !in s1.requests && s1.entry == s.entry && Active(s1, q)
  {
  }

  /** No request and no sweep of the run sees an entry whose age has reached ttl. */
  predicate Young(s: State, steps: seq<Step>, ttl: int)
    requires RunEnabled(s, steps, ttl)
    decreases |steps|
  {
    steps == [] || (
      && (steps[0].Read? && s.entry.Some? ==> Age(s.entry.value, s.requests[steps[0].p].now) < ttl)
      && (steps[0].Sweep? && s.entry.Some? ==> s.entry.value.created >= (steps[0].t - ttl) / SECOND)
      && Young(Apply(s, steps[0], ttl), steps[1..], ttl))
  }

  predicate NoneDeleting(s: State) { forall p <- s.requests :: !s.requests[p].Deleting? }

  ghost predicate NeverRemoves(s: State, steps: seq<Step>, ttl: int)
    requires RunEnabled(s, steps, ttl)
    decreases |steps|
  {
    && NoneDeleting(s)
    && (steps == [] || (!Removes(s, steps[0], ttl) && NeverRemoves(Apply(s, steps[0], ttl), steps[1..], ttl)))
  }

  lemma OnlyOldIsDeleted(s: State, step: Step, ttl: int)
    requires NoneDeleting(s) && Enabled(s, step)
    ensures NoneDeleting(Apply(s, step, ttl)) <==>
      !(step.Read? && s.entry.Some? && Age(s.entry.value, s.requests[step.p].now) >= ttl)
    ensures Removes(s, step, ttl) <==> step.Sweep? && s.entry.Some? && s.entry.value.created < (step.t - ttl) / SECOND
  {
    if step.Read? && s.entry.Some? && Age(s.entry.value, s.requests[step.p].now) >= ttl {
      assert Apply(s, step, ttl).requests[step.p].Deleting?;
    }
  }

  /** In every run entries are deleted for their age, by a request or a sweep, if and only if one
      is seen at age ttl. */
  lemma {:induction false} DeletedExactlyWhenOld(s: State, steps: seq<Step>, ttl: int)
    requires NoneDeleting(s) && RunEnabled(s, steps, ttl)
    ensures NeverRemoves(s, steps, ttl) <==> Young(s, steps, ttl)
    decreases |steps|
  {
    hide Enabled, Apply, NoneDeleting, Removes, Age;
    if steps != [] {
      OnlyOldIsDeleted(s, steps[0], ttl);
      if NoneDeleting(Apply(s, steps[0], ttl)) {
        DeletedExactlyWhenOld(Apply(s, steps[0], ttl), steps[1..], ttl);
      }
    }
  }

  /** So a key whose entries are never seen at age ttl has at most one handler at a time. */
  lemma YoungIsExclusive(s: State, steps: seq<Step>, ttl: int, p: int, q: int)
    requires Empty(s) && RunEnabled(s, steps, ttl) && Young(s, steps, ttl)
    requires Active(Run(s, steps, ttl), p) && Active(Run(s, steps, ttl), q)
    ensures p == q
  {
    EmptyIsGuarded(s);
    DeletedExactlyWhenOld(s, steps, ttl);
    NothingRemovedNoActive(s, steps, ttl);
    OneHandlerAtATime(s, steps, ttl, p, q);
  }

  lemma {:induction false} NothingRemovedNoActive(s: State, steps: seq<Step>, ttl: int)
    requires RunEnabled(s, steps, ttl) && NeverRemoves(s, steps, ttl)
    ensures NeverRemovesActive(s, steps, ttl)
    decreases |steps|
  {
    hide Enabled, Apply, NoneDeleting, Removes;
    if steps != [] { NothingRemovedNoActive(Apply(s, steps[0], ttl), steps[1..], ttl); }
  }

  // ---- runs with two handlers ----

  lemma {:induction false} RunOneMore(s: State, steps: seq<Step>, step: Step, ttl: int)
    requires RunEnabled(s, steps, ttl) && Enabled(Run(s, steps, ttl), step)
    ensures RunEnabled(s, steps + [step], ttl) && Run(s, steps + [step], ttl) == Apply(Run(s, steps, ttl), step, ttl)
    decreases |steps|
  {
    hide Enabled, Apply;
    if steps == [] {
      assert steps + [step] == [step] && [step][1..] == [];
    } else {
      assert (steps + [step])[1..] == steps[1..] + [step];
      RunOneMore(Apply(s, steps[0], ttl), steps[1..], step, ttl);
    }
  }

  lemma EmptyRun(s: State, ttl: int)
    ensures RunEnabled(s, [], ttl) && Run(s, [], ttl) == s
  {
  }

  /** A slow handler, from a key without a row and with a ttl of 5 seconds: request 1 still runs
      when request 2 arrives after 6 seconds, deletes its entry and runs too. */
  lemma SlowHandlerRace() returns (s: State, steps: seq<Step>)
    ensures var ttl := 5 * SECOND;
      Empty(s) && RunEnabled(s, steps, ttl) &&
          Run(s, steps, ttl).requests == map[1 := Running("body"), 2 := Running("body")]
  {
    hide RunEnabled, Run;
    var ttl, late := 5 * SECOND, 6 * SECOND;
    s := State(None, map[], 0, 0, None, false, []);
    steps := [];
    EmptyRun(s, ttl);
    RunOneMore(s, steps, Arrive(1, "body"), ttl);
    steps := steps + [Arrive(1, "body")];
    RunOneMore(s, steps, Insert(1), ttl);
    steps := steps + [Insert(1)];
    assert Run(s, steps, ttl).requests == map[1 := Running("body")];
    RunOneMore(s, steps, Tick(late), ttl);
    steps := steps + [Tick(late)];
    RunOneMore(s, steps, Arrive(2, "body"), ttl);
    steps := steps + [Arrive(2, "body")];
    RunOneMore(s, steps, Insert(2), ttl);
    steps := steps + [Insert(2)];
    assert Run(s, steps, ttl).requests == map[1 := Running("body"), 2 := Reading("body", late, 0)];
    RunOneMore(s, steps, Read(2), ttl);
    steps := steps + [Read(2)];
    assert Run(s, steps, ttl).requests == map[1 := Running("body"), 2 := Deleting("body", late, 0)];
    RunOneMore(s, steps, Delete(2), ttl);
    steps := steps + [Delete(2)];
    RunOneMore(s, steps, Insert(2), ttl);
    steps := steps + [Insert(2)];
  }

  /** An entry left by a crash, under the same ttl: requests 1 and 2 both find it expired; 1
      deletes it and runs, then 2 deletes the fresh entry of 1 and runs beside it. */
  lemma ExpiredEntryRace() returns (s: State, steps: seq<Step>)
    ensures var ttl := 5 * SECOND;
      Empty(s) && RunEnabled(s, steps, ttl) &&
          Run(s, steps, ttl).requests == map[1 := Running("body"), 2 := Running("body")]
  {
    hide RunEnabled, Run;
    var ttl, late := 5 * SECOND, 6 * SECOND;
    s := State(None, map[], 0, 0, None, false, []);
    steps := [];
    EmptyRun(s, ttl);
    RunOneMore(s, steps, Arrive(0, "body"), ttl);
    steps := steps + [Arrive(0, "body")];
    RunOneMore(s, steps, Insert(0), ttl);
    steps := steps + [Insert(0)];
    RunOneMore(s, steps, Stop(0), ttl);
    steps := steps + [Stop(0)];
    RunOneMore(s, steps, Tick(late), ttl);
    steps := steps + [Tick(late)];
    assert Run(s, steps, ttl) == State(Some(Entry("body", 0, "", 0)), map[], late, 1, None, false, []);
    steps := BothFindExpired(s, steps, ttl, late);
    steps := BothInsert(s, steps, ttl, late);
  }

  lemma BothFindExpired(s: State, before: seq<Step>, ttl: int, late: int) returns (steps: seq<Step>)
    requires ttl == 5 * SECOND && late == 6 * SECOND && RunEnabled(s, before, ttl)
    requires Run(s, before, ttl) == State(Some(Entry("body", 0, "", 0)), map[], late, 1, None, false, [])
    ensures RunEnabled(s, steps, ttl)
    ensures Run(s, steps, ttl)
        == State(Some(Entry("body", 0, "", 0)), map[1 := Deleting("body", late, 0), 2 := Deleting("body", late, 0)],
        late, 1, None, false, [])
  {
    hide RunEnabled, Run;
    steps := before;
    RunOneMore(s, steps, Arrive(1, "body"), ttl);
    steps := steps + [Arrive(1, "body")];
    RunOneMore(s, steps, Insert(1), ttl);
    steps := steps + [Insert(1)];
    RunOneMore(s, steps, Read(1), ttl);
    steps := steps + [Read(1)];
    assert Run(s, steps, ttl).requests == map[1 := Deleting("body", late, 0)];
    RunOneMore(s, steps, Arrive(2, "body"), ttl);
    steps := steps + [Arrive(2, "body")];
    RunOneMore(s, steps, Insert(2), ttl);
    steps := steps + [Insert(2)];
    RunOneMore(s, steps, Read(2), ttl);
    steps := steps + [Read(2)];
  }

  lemma BothInsert(s: State, before: seq<Step>, ttl: int, late: int) returns (steps: seq<Step>)
    requires ttl == 5 * SECOND && late == 6 * SECOND && RunEnabled(s, before, ttl)
    requires Run(s, before, ttl)
        == State(Some(Entry("body", 0, "", 0)), map[1 := Deleting("body", late, 0), 2 := Deleting("body", late, 0)],
        late, 1, None, false, [])
    ensures RunEnabled(s, steps, ttl) && Run(s, steps, ttl).requests == map[1 := Running("body"), 2 := Running("body")]
  {
    hide RunEnabled, Run;
    steps := before;
    RunOneMore(s, steps, Delete(1), ttl);
    steps := steps + [Delete(1)];
    RunOneMore(s, steps, Insert(1), ttl);
    steps := steps + [Insert(1)];
    assert Run(s, steps, ttl).requests == map[1 := Running("body"), 2 := Deleting("body", late, 0)];
    RunOneMore(s, steps, Delete(2), ttl);
    steps := steps + [Delete(2)];
    RunOneMore(s, steps, Insert(2), ttl);
    steps := steps + [Insert(2)];
  }

  /** A request deletes an expired entry at most twice: after the second time it gives up. */
  lemma OneRetry(s: State, p: int, ttl: int)
    requires Enabled(s, Delete(p))
    ensures var r, s' := s.requests[p], Apply(s, Delete(p), ttl);
      && s'.entry == None
      && (r.attempt == 0 ==>
          s'.requests == s.requests[p := Inserting(r.fingerprint, r.now, 1)] && s'.answers == s.answers)
      && (r.attempt > 0 ==>
            s'.requests == s.requests - {p} && s'.answers == s.answers + [Answer(r.fingerprint, CheckFailed)])
  {
  }

  // ---- once there is a response below 500 ----

  predicate Initial(s: State) { Empty(s) && s.finished == None && !s.recorded }

  /** A stored response is the finished one; until it is stored the entry stays claimed. */
  ghost predicate Consistent(s: State) {
    && (s.finished.Some? ==>
          s.entry.Some? && s.entry.value.fingerprint == s.finished.value.fingerprint
          && (forall p <- s.requests :: !s.requests[p].Running?)
          && (if s.recorded
              then && s.entry.value.status == s.finished.value.status
                   && s.entry.value.body == s.finished.value.body
                   && s.entry.value.status != 0 && forall p :: !Active(s, p)
              else s.entry.value.status == 0))
    && (s.finished.None? ==> !s.recorded && (s.entry.Some? ==> s.entry.value.status == 0))
    && (forall p <- s.requests :: s.requests[p].Finishing? && !Releases(s.requests[p].status) ==>
          s.finished == Some(Outcome(s.requests[p].fingerprint, s.requests[p].status, s.requests[p].body)))
    && (forall p <- s.requests :: s.requests[p].Finishing? && Releases(s.requests[p].status) ==> s.finished == None)
  }

  ghost predicate Inv(s: State) {
    && NoneDeleting(s)
    && Consistent(s)
    && (forall p, q :: Active(s, p) && Active(s, q) ==> p == q)
    && (forall p :: Active(s, p) ==>
          && s.entry.Some? && s.entry.value.status == 0
          && s.entry.value.fingerprint == s.requests[p].fingerprint)
  }

  lemma InitialInv(s: State)
    requires Initial(s)
    ensures Inv(s)
  {
  }

  lemma StepKeepsInv(s: State, step: Step, ttl: int)
    requires Inv(s) && RunEnabled(s, [step], ttl) && Young(s, [step], ttl)
    ensures Inv(Apply(s, step, ttl)) && !step.Delete? && (step.Sweep? ==> Apply(s, step, ttl) == s)
  {
    hide NoneDeleting;
    OnlyOldIsDeleted(s, step, ttl);
    var s' := Apply(s, step, ttl);
    assert step.Complete? || step.Record? ==> Active(s, step.p);
    forall p | p in s'.requests && (s'.requests[p].Running? || s'.requests[p].Finishing?)
      ensures Active(s', p) && (Active(s, p) || (step == Insert(p) && s.entry.None?))
    {
    }
    forall p, q | Active(s', p) && Active(s', q) ensures p == q {
      assert Active(s, p) || (step == Insert(p) && s.entry.None?);
      assert Active(s, q) || (step == Insert(q) && s.entry.None?);
    }
    assert step.Delete? ==> false by { NoDeletes(s, step); }
    assert Consistent(s') by {
      if step.Record? {
        forall p ensures !Active(s', p) {
          assert Active(s, p) ==> p == step.p;
        }
      }
    }
  }

  lemma NoDeletes(s: State, step: Step)
    requires NoneDeleting(s) && Enabled(s, step)
    ensures !step.Delete?
  {
  }

  /** The invariant holds throughout every run from a free key that never sees its entry at age
      ttl, however long the run is and however often the key is released and claimed again. */
  lemma {:induction false} RunKeepsInv(s: State, steps: seq<Step>, ttl: int)
    requires Inv(s) && RunEnabled(s, steps, ttl) && Young(s, steps, ttl)
    ensures Inv(Run(s, steps, ttl))
    decreases |steps|
  {
    if steps != [] {
      FirstIsYoung(s, steps, ttl);
      StepKeepsInv(s, steps[0], ttl);
      RunKeepsInv(Apply(s, steps[0], ttl), steps[1..], ttl);
    }
  }

  lemma FirstIsYoung(s: State, steps: seq<Step>, ttl: int)
    requires steps != [] && RunEnabled(s, steps, ttl) && Young(s, steps, ttl)
    ensures RunEnabled(s, [steps[0]], ttl) && Young(s, [steps[0]], ttl)
  {
    assert [steps[0]][1..] == [];
  }

  /** After a response below 500 the handler never starts again, whether or not the response could
      be stored, as long as the entry is not seen at age ttl. */
  lemma {:induction false} NeverRunsAgain(s: State, steps: seq<Step>, ttl: int)
    requires Inv(s) && RunEnabled(s, steps, ttl) && Young(s, steps, ttl) && s.finished.Some?
    ensures Run(s, steps, ttl).runs == s.runs && Run(s, steps, ttl).finished == s.finished
    decreases |steps|
  {
    if steps != [] {
      FirstIsYoung(s, steps, ttl);
      StepKeepsInv(s, steps[0], ttl);
      NeverRunsAgain(Apply(s, steps[0], ttl), steps[1..], ttl);
    }
  }

  /** What a request reading the key is told from now on. */
  function Verdict(s: State, fingerprint: string): Reply
    requires s.finished.Some?
  {
    if fingerprint != s.finished.value.fingerprint then Mismatch
    else if s.recorded then Replay(s.finished.value.status, s.finished.value.body)
    else InProgress
  }

  /** Once the handler's request is over, every later answer is the verdict: the stored
      status and body for the same request body if the response was recorded, 409 if it was
      lost, and 422 for another body. */
  lemma {:induction false} LaterRequestsGetTheVerdict(s: State, steps: seq<Step>, ttl: int)
    requires Inv(s) && RunEnabled(s, steps, ttl) && Young(s, steps, ttl)
    requires s.finished.Some? && forall p :: !Active(s, p)
    ensures var s' := Run(s, steps, ttl);
            && s'.recorded == s.recorded && s'.finished == s.finished
            && s.answers <= s'.answers
            && forall k :: |s.answers| <= k < |s'.answers| ==>
                 s'.answers[k].reply == Verdict(s, s'.answers[k].fingerprint)
    decreases |steps|
  {
    if steps != [] {
      var s1 := Apply(s, steps[0], ttl);
      FirstIsYoung(s, steps, ttl);
      StepKeepsInv(s, steps[0], ttl);
      forall p ensures !Active(s1, p) {
        assert !Active(s, p);
      }
      if steps[0].Complete? || steps[0].Record? {
        assert Active(s, steps[0].p);
      }
      LaterRequestsGetTheVerdict(s1, steps[1..], ttl);
    }
  }

  // ---- said with the status of the response ----

  /** A response below 500, whether it is stored afterwards or not: the handler never starts again in
      any run that does not see the entry at age ttl. */
  lemma AnsweredNeverRunsAgain(s: State, p: int, status: int, body: string, steps: seq<Step>, ttl: int)
    requires Inv(s) && Enabled(s, Complete(p, status, body)) && 0 < status < 500
    requires var s1 := Apply(s, Complete(p, status, body), ttl); RunEnabled(s1, steps, ttl) && Young(s1, steps, ttl)
    ensures Run(Apply(s, Complete(p, status, body), ttl), steps, ttl).runs == s.runs
  {
    hide Inv, Enabled, Apply;
    CompleteKeepsInv(s, p, status, body, ttl);
    NeverRunsAgain(Apply(s, Complete(p, status, body), ttl), steps, ttl);
  }

  lemma CompleteKeepsInv(s: State, p: int, status: int, body: string, ttl: int)
    requires Inv(s) && Enabled(s, Complete(p, status, body))
    ensures var s1 := Apply(s, Complete(p, status, body), ttl);
      && Inv(s1) && s1.runs == s.runs && s1.entry == s.entry && Enabled(s1, Record(p))
      && s1.requests[p] == Finishing(s.requests[p].fingerprint, status, body)
      && (0 < status < 500 ==> s1.finished == Some(Outcome(s.requests[p].fingerprint, status, body)))
  {
    hide Inv, Young, RunEnabled;
    OneStepRun(s, Complete(p, status, body), ttl);
    StepKeepsInv(s, Complete(p, status, body), ttl);
  }

  lemma OneStepRun(s: State, step: Step, ttl: int)
    requires Enabled(s, step) && !step.Read? && !step.Sweep?
    ensures RunEnabled(s, [step], ttl) && Young(s, [step], ttl)
  {
    hide Apply;
    assert [step][1..] == [];
  }

  /** A response below 500 that is stored: the entry holds it, the handler never starts again, and
      every later request gets it, or 422 for another body, in any run that does not see the entry at
      age ttl. */
  lemma StoredAnswerIsReplayed(s: State, p: int, status: int, body: string, steps: seq<Step>, ttl: int)
    requires Inv(s) && Enabled(s, Complete(p, status, body)) && 0 < status < 500
    requires Enabled(Apply(s, Complete(p, status, body), ttl), Record(p))
    requires var s2 := Apply(Apply(s, Complete(p, status, body), ttl), Record(p), ttl);
      RunEnabled(s2, steps, ttl) && Young(s2, steps, ttl)
    ensures var s2 := Apply(Apply(s, Complete(p, status, body), ttl), Record(p), ttl);
      var f, s' := s.requests[p].fingerprint, Run(s2, steps, ttl);
      && s2.entry.Some? && s2.entry.value.status == status && s2.entry.value.body == body &&
          s2.entry.value.fingerprint == f
      && s'.runs == s.runs && s2.answers <= s'.answers
      && forall k :: |s2.answers| <= k < |s'.answers| ==>
           s'.answers[k].reply == if s'.answers[k].fingerprint == f then Replay(status, body) else Mismatch
  {
    hide Inv, Young, RunEnabled;
    CompleteKeepsInv(s, p, status, body, ttl);
    var s1 := Apply(s, Complete(p, status, body), ttl);
    var s2 := Apply(s1, Record(p), ttl);
    OneStepRun(s1, Record(p), ttl);
    StepKeepsInv(s1, Record(p), ttl);
    RecordedState(s1, p, status, body, ttl);
    LaterRequestsGetTheVerdict(s2, steps, ttl);
    NeverRunsAgain(s2, steps, ttl);
  }

  lemma RecordedState(s: State, p: int, status: int, body: string, ttl: int)
    requires Inv(s) && Enabled(s, Record(p)) && 0 < status < 500
    requires s.requests[p].status == status && s.requests[p].body == body
    ensures var s' := Apply(s, Record(p), ttl); var f := s.requests[p].fingerprint;
      && s'.entry.Some? && s'.entry.value.status == status && s'.entry.value.body == body &&
          s'.entry.value.fingerprint == f
      && s'.finished == Some(Outcome(f, status, body)) && s'.recorded && s'.runs == s.runs && forall q :: !Active(s', q)
  {
    assert Active(s, p);
    forall q ensures !Active(Apply(s, Record(p), ttl), q) {
      assert Active(s, q) ==> q == p;
    }
  }

  /** After a response of 500 or more, or none, the key is free again and the next request runs. */
  lemma FailureFreesTheKey(s: State, p: int, status: int, body: string, ttl: int)
    requires Enabled(s, Complete(p, status, body)) && (status >= 500 || status == 0)
    ensures var s1 := Apply(s, Complete(p, status, body), ttl);
      && Enabled(s1, Record(p)) && s1.finished == s.finished
      && var s2 := Apply(s1, Record(p), ttl);
         && s2.entry == None
         && forall q: int, f: string :: q in s2.requests && s2.requests[q] == Inserting(f, s2.now, 0) ==>
              Apply(s2, Insert(q), ttl).runs == s2.runs + 1 && Active(Apply(s2, Insert(q), ttl), q)
  {
  }
}
