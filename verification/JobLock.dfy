/** The cron lock on a database row (internal/cron/locker.go), for one job. Times are
    nanoseconds; the row keeps whole seconds. Owners are numbers, distinct per replica. */
module JobLock {
  import opened SqlLogic

  const SECOND := 1_000_000_000

  datatype LockRow = LockRow(owner: int, until: int)

  /** lease and minHold in seconds; the program uses 30 minutes and 15 seconds. */
  datatype Config = Config(lease: int, minHold: int) {
    predicate Valid() { 0 <= minHold <= lease }
  }

  // ---- the SQL statements ----

  /** UPDATE … WHERE locked_until <= now */
  predicate Expired(row: Option<LockRow>, now: int) { row.Some? && row.value.until <= now / SECOND }

  function TakeOver(row: Option<LockRow>, owner: int, now: int, c: Config): Option<LockRow> {
    if Expired(row, now) then Some(LockRow(owner, now / SECOND + c.lease)) else row
  }

  /** UPDATE … SET locked_until WHERE owner */
  function Shorten(row: Option<LockRow>, owner: int, started: int, c: Config): Option<LockRow> {
    if row.Some? && row.value.owner == owner then Some(LockRow(owner, started / SECOND + c.minHold)) else row
  }

  /** One job's row, and a Lock on it without interruption. */
  class Locker {
    var row: Option<LockRow>

    method Lock(owner: int, now: int, c: Config) returns (ok: bool)
      modifies this
      ensures ok <==> old(row).None? || old(row).value.until <= now / 1_000_000_000
      ensures row == if ok then Some(LockRow(owner, now / 1_000_000_000 + c.lease)) else old(row)
    {
      if row.Some? && row.value.until <= now / SECOND {
        row := Some(LockRow(owner, now / SECOND + c.lease));
        return true;
      }
      if row.Some? {
        return false;
      }
      row := Some(LockRow(owner, now / SECOND + c.lease));
      ok := true;
    }

    method Unlock(owner: int, started: int, c: Config)
      modifies this
      ensures row == Shorten(old(row), owner, started, c)
    {
      if row.Some? && row.value.owner == owner {
        row := Some(LockRow(owner, started / SECOND + c.minHold));
      }
    }
  }

  // ---- replicas between their statements ----

  /** A replica has read the clock, has found no expired row, or holds the lock, which was the
      nth acquisition. */
  datatype Replica = Trying(now: int) | Creating(now: int) | Holding(started: int, nth: nat)

  datatype Start = Start(owner: int, at: int)

  /** starts lists the acquisitions, each of which starts a run of the job, oldest first. */
  datatype State = State(row: Option<LockRow>, replicas: map<int, Replica>, now: int, starts: seq<Start>)

  datatype Step =
    | Tick(to: int)
    | Begin(o: int)
    | Update(o: int)
    | Create(o: int)
    | Release(o: int)
    | Stop(o: int)

  /** One outstanding lock per owner: a replica begins only when it has none. */
  predicate Enabled(s: State, step: Step) {
    match step
    case Tick(to) => to >= s.now
    case Begin(o) => o !in s.replicas
    case Update(o) => o in s.replicas && s.replicas[o].Trying?
    case Create(o) => o in s.replicas && s.replicas[o].Creating?
    case Release(o) => o in s.replicas && s.replicas[o].Holding?
    case Stop(o) => o in s.replicas
  }

  function Apply(s: State, step: Step, c: Config): State
    requires Enabled(s, step)
  {
    match step
    case Tick(to) => s.(now := to)
    case Begin(o) => s.(replicas := s.replicas[o := Trying(s.now)])
    case Update(o) =>
      var t := s.replicas[o].now;
      if Expired(s.row, t)
      then s.(row := TakeOver(s.row, o, t, c), replicas := s.replicas[o := Holding(t, |s.starts|)],
          starts := s.starts + [Start(o, t)])
      else s.(replicas := s.replicas[o := Creating(t)])
    case Create(o) =>
      var t := s.replicas[o].now;
      if s.row.None?
      then s.(row := Some(LockRow(o, t / SECOND + c.lease)), replicas := s.replicas[o := Holding(t, |s.starts|)],
          starts := s.starts + [Start(o, t)])
      else s.(replicas := s.replicas - {o})
    case Release(o) => s.(row := Shorten(s.row, o, s.replicas[o].started, c), replicas := s.replicas - {o})
    case Stop(o) => s.(replicas := s.replicas - {o})
  }

  predicate RunEnabled(s: State, steps: seq<Step>, c: Config)
    decreases |steps|
  {
    steps == [] || (Enabled(s, steps[0]) && RunEnabled(Apply(s, steps[0], c), steps[1..], c))
  }

  function Run(s: State, steps: seq<Step>, c: Config): State
    requires RunEnabled(s, steps, c)
    decreases |steps|
  {
    if steps == [] then s else Run(Apply(s, steps[0], c), steps[1..], c)
  }

  predicate Initial(s: State) { s.row == None && s.replicas == map[] && s.starts == [] }

  /** o holds the lock and its lease, in whole seconds, has not run out. */
  predicate HoldsUnexpired(s: State, o: int, c: Config) {
    o in s.replicas && s.replicas[o].Holding? && s.now / SECOND < s.replicas[o].started / SECOND + c.lease
  }

  /** Runs start at least minHold whole seconds apart. */
  ghost predicate Spaced(starts: seq<Start>, c: Config) {
    forall i, j :: 0 <= i < j < |starts| ==> starts[j].at / SECOND >= starts[i].at / SECOND + c.minHold
  }

  /** The row belongs to the last acquisition; a holder's later ones are all by others. */
  ghost predicate Recorded(s: State) {
    && (s.row.Some? ==> s.starts != [] && s.row.value.owner == s.starts[|s.starts| - 1].owner)
    && (forall o :: o in s.replicas && s.replicas[o].Holding? ==> OwnAcquisition(s, o))
  }

  ghost predicate OwnAcquisition(s: State, o: int)
    requires o in s.replicas && s.replicas[o].Holding?
  {
    var h := s.replicas[o];
    && h.nth < |s.starts| && s.starts[h.nth] == Start(o, h.started)
    && forall j :: h.nth < j < |s.starts| ==> s.starts[j].owner != o
  }

  ghost predicate Inv(s: State, c: Config) {
    && (forall o <- s.replicas :: s.replicas[o].Trying? || s.replicas[o].Creating? ==> s.replicas[o].now <= s.now)
    && (forall o :: HoldsUnexpired(s, o, c) ==> s.row == Some(LockRow(o, s.replicas[o].started / SECOND + c.lease)))
    && (forall o <- s.replicas :: s.replicas[o].Holding? && s.row.Some? && s.row.value.owner == o ==>
          s.starts != [] && s.replicas[o].started == s.starts[|s.starts| - 1].at)
    && (s.row.None? ==> s.starts == [])
    && (s.row.Some? ==> s.starts != [] && s.row.value.until >= s.starts[|s.starts| - 1].at / SECOND + c.minHold)
    && Spaced(s.starts, c)
  }

  lemma DivGrows(a: int, b: int)
    requires a <= b
    ensures a / SECOND <= b / SECOND
  {
  }

  lemma SpacedSnoc(starts: seq<Start>, t: Start, c: Config)
    requires Spaced(starts, c) && c.Valid()
    requires starts != [] ==> t.at / SECOND >= starts[|starts| - 1].at / SECOND + c.minHold
    ensures Spaced(starts + [t], c)
  {
    forall i, j | 0 <= i < j < |starts + [t]|
        ensures (starts + [t])[j].at / SECOND >= (starts + [t])[i].at / SECOND + c.minHold {
      if j == |starts| && i < |starts| - 1 {
        assert starts[|starts| - 1].at / SECOND >= starts[i].at / SECOND + c.minHold;
      }
    }
  }

  lemma StepKeepsInv(s: State, step: Step, c: Config)
    requires Inv(s, c) && Enabled(s, step) && c.Valid()
    ensures Inv(Apply(s, step, c), c)
  {
    hide Spaced;
    var s' := Apply(s, step, c);
    if step.Tick? {
      DivGrows(s.now, step.to);
    }
    if step.Update? {
      DivGrows(s.replicas[step.o].now, s.now);
      if Expired(s.row, s.replicas[step.o].now) {
        SpacedSnoc(s.starts, Start(step.o, s.replicas[step.o].now), c);
      }
    }
    if step.Create? && s.row.None? {
      SpacedSnoc(s.starts, Start(step.o, s.replicas[step.o].now), c);
    }
    forall o | HoldsUnexpired(s', o, c)
      ensures s'.row == Some(LockRow(o, s'.replicas[o].started / SECOND + c.lease))
    {
      assert HoldsUnexpired(s, o, c) || step == Update(o) || step == Create(o);
    }
  }

  lemma {:induction false} RunKeepsInv(s: State, steps: seq<Step>, c: Config)
    requires Inv(s, c) && RunEnabled(s, steps, c) && c.Valid()
    ensures Inv(Run(s, steps, c), c)
    decreases |steps|
  {
    if steps != [] {
      StepKeepsInv(s, steps[0], c);
      RunKeepsInv(Apply(s, steps[0], c), steps[1..], c);
    }
  }

  /** In every interleaving two unexpired leases never overlap, and a run never starts
      before minHold whole seconds after any earlier one. */
  lemma LocksAreExclusive(s: State, steps: seq<Step>, c: Config)
    requires Initial(s) && RunEnabled(s, steps, c) && c.Valid()
    ensures var s' := Run(s, steps, c);
            && (forall o1, o2 :: HoldsUnexpired(s', o1, c) && HoldsUnexpired(s', o2, c) ==> o1 == o2)
            && Spaced(s'.starts, c)
  {
    RunKeepsInv(s, steps, c);
  }

  lemma StepKeepsRecorded(s: State, step: Step, c: Config)
    requires Recorded(s) && Enabled(s, step) && (s.row.None? ==> s.starts == [])
    ensures Recorded(Apply(s, step, c))
  {
    var s' := Apply(s, step, c);
    forall o | o in s'.replicas && s'.replicas[o].Holding? ensures OwnAcquisition(s', o) {
      if o in s.replicas && s.replicas[o].Holding? { assert OwnAcquisition(s, o); }
    }
  }

  lemma {:induction false} RunKeepsRecorded(s: State, steps: seq<Step>, c: Config)
    requires Recorded(s) && Inv(s, c) && RunEnabled(s, steps, c) && c.Valid()
    ensures Recorded(Run(s, steps, c))
    decreases |steps|
  {
    hide Recorded, Enabled, Apply;
    if steps != [] {
      StepKeepsInv(s, steps[0], c);
      StepKeepsRecorded(s, steps[0], c);
      RunKeepsRecorded(Apply(s, steps[0], c), steps[1..], c);
    }
  }

  /** Unlocking in any run: a holder whose acquisition was followed by another one leaves the
      row alone; the holder of the last one shortens it to minHold after its start. */
  lemma LateUnlockIsHarmless(s0: State, steps: seq<Step>, c: Config, o: int)
    requires Initial(s0) && RunEnabled(s0, steps, c) && c.Valid()
    requires Enabled(Run(s0, steps, c), Release(o))
    ensures var s := Run(s0, steps, c); var s' := Apply(s, Release(o), c); var h := s.replicas[o];
      && s.row.Some? && h.nth < |s.starts|
      && (h.nth < |s.starts| - 1 ==> s'.row == s.row && s.row.value.owner != o)
      && (h.nth == |s.starts| - 1 ==> s'.row == Some(LockRow(o, h.started / SECOND + c.minHold)))
  {
    hide RunEnabled, Run;
    RunKeepsInv(s0, steps, c);
    RunKeepsRecorded(s0, steps, c);
    assert OwnAcquisition(Run(s0, steps, c), o);
  }

  /** A crashed holder frees the job: within lease seconds of the last start the row
      expires, and the next replica to try obtains it. */
  lemma CrashedHolderExpires(s: State, steps: seq<Step>, c: Config, o: int)
    requires Initial(s) && RunEnabled(s, steps, c) && c.Valid() && c.lease > 0
    requires o !in Run(s, steps, c).replicas
    requires var s' := Run(s, steps, c); s'.row.Some? && s'.row.value.until <= s'.now / SECOND
    ensures var s1 := Apply(Run(s, steps, c), Begin(o), c);
            Enabled(s1, Update(o)) && HoldsUnexpired(Apply(s1, Update(o), c), o, c)
  {
    RunKeepsInv(s, steps, c);
  }
}
