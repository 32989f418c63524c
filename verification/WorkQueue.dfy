/** The claim/retry queue behind the outbox and the inbox (internal/queue/queue.go). Times
    in the table are whole seconds; durations are nanoseconds. */
module WorkQueue {
  import Basics

  const LEASE := 120

  datatype Status = Pending | Done | Dead

  datatype Job = Job(status: Status, attempts: int, nextAttempt: int, lockedUntil: int, created: int)

  type Rows = map<int, Job>

  datatype Item = Item(id: int, attempts: int)

  datatype Policy = Policy(maxAttempts: int, initial: int, max: int)

  // ---- the SQL statements ----

  predicate IsDue(j: Job, now: int) {
    j.status == Pending && j.nextAttempt <= now && j.lockedUntil <= now
  }

  predicate Claimable(rows: Rows, id: int, now: int) {
    id in rows && rows[id].status == Pending && rows[id].lockedUntil <= now
  }

  function ClaimRow(rows: Rows, id: int, now: int): Rows {
    if Claimable(rows, id, now) then rows[id := rows[id].(lockedUntil := now + LEASE)] else rows
  }

  function DoneRow(rows: Rows, id: int): Rows {
    if id in rows then rows[id := rows[id].(status := Done, attempts := rows[id].attempts + 1, lockedUntil := 0)]
        else rows
  }

  /** Dead at the policy's limit or at once when permanent, otherwise rescheduled. */
  function FailRow(rows: Rows, it: Item, p: Policy, permanent: bool, retryAt: int): Rows {
    if it.id !in rows then rows
    else if permanent || it.attempts + 1 >= p.maxAttempts then
      rows[it.id := rows[it.id].(status := Dead, attempts := it.attempts + 1, lockedUntil := 0)]
    else rows[it.id := rows[it.id].(attempts := it.attempts + 1, nextAttempt := retryAt, lockedUntil := 0)]
  }

  function PurgeRows(rows: Rows, cutoff: int): Rows {
    map id | id in rows && !(rows[id].status == Done && rows[id].created < cutoff) :: rows[id]
  }

  // ---- backoff ----

  const TWO64 := 0x1_0000_0000_0000_0000
  const MAX_INT64 := 0x7FFF_FFFF_FFFF_FFFF

  /** int64 multiplication wraps around. */
  function Wrap64(n: int): int {
    var m := n % TWO64;
    if m > MAX_INT64 then m - TWO64 else m
  }

  function Pow2(k: nat): nat { if k == 0 then 1 else 2 * Pow2(k - 1) }

  function Doubled(p: Policy, attempts: int): int
    requires attempts >= 1
  {
    p.initial * Pow2(Basics.Min(attempts - 1, 20))
  }

  /** The delay the policy asks for: doubling from initial, capped at max. */
  function Planned(p: Policy, attempts: int): int
    requires attempts >= 1
  {
    Basics.Min(Doubled(p, attempts), p.max)
  }

  function TruncateReal(x: real): int { if x >= 0.0 then x.Floor else -((-x).Floor) }

  /** time.Duration(float64(d) * f) */
  function Jittered(d: int, f: real): int { TruncateReal(Scaled(d as real, f)) }

  function Scaled(d: real, f: real): real { d * f }

  /** The delay before jitter, as int64 arithmetic computes it. */
  function Delay(p: Policy, attempts: int): int
    requires attempts >= 1
  {
    Basics.Min(Wrap64(Doubled(p, attempts)), p.max)
  }

  predicate FitsInt64(n: int) { -MAX_INT64 - 1 <= n <= MAX_INT64 }

  /** What Fail computes, with jitter in [0.8, 1.2]. A product beyond 64 bits converts to
      whatever the platform makes of it: outside. */
  function Backoff(p: Policy, attempts: int, jitter: real, outside: int): int
    requires attempts >= 1
  {
    var b := Jittered(Delay(p, attempts), jitter);
    if FitsInt64(b) then b else outside
  }

  /** For every jitter and on every platform the delay is the planned one with jitter. */
  ghost predicate AlwaysPlanned(p: Policy, attempts: int)
    requires attempts >= 1
  {
    forall f: real, o: int :: 0.8 <= f <= 1.2 && FitsInt64(o) ==>
      Backoff(p, attempts, f, o) == Jittered(Planned(p, attempts), f)
  }

  /** The row is retried after the planned delay with jitter if and only if the doubling fits 64
      bits or wraps around to at least the cap, and the planned delay leaves room for the largest
      jitter. */
  lemma BackoffFollowsPolicy(p: Policy, attempts: int)
    requires attempts >= 1 && p.initial >= 0 && 0 <= p.max <= MAX_INT64
    ensures AlwaysPlanned(p, attempts) <==>
      && (Doubled(p, attempts) <= MAX_INT64 || Wrap64(Doubled(p, attempts)) >= p.max)
      && Jittered(Planned(p, attempts), 1.2) <= MAX_INT64
  {
    hide Doubled, Jittered, Wrap64;
    DelayIsPlanned(p, attempts);
    var d, planned := Delay(p, attempts), Planned(p, attempts);
    if AlwaysPlanned(p, attempts) {
      DelayInRange(p, attempts);
      assert Jittered(d, 1.0) == d && Jittered(planned, 1.0) == planned by { NoJitter(d); NoJitter(planned); }
      assert Backoff(p, attempts, 1.0, 0) == planned;
      assert Backoff(p, attempts, 1.2, 0) == Jittered(planned, 1.2);
      assert Backoff(p, attempts, 1.2, 1) == Jittered(planned, 1.2);
    } else {
      var f: real, o: int :| 0.8 <= f <= 1.2 && FitsInt64(o) && Backoff(p, attempts, f, o) != Jittered(planned, f);
      JitterBounds(planned, f);
      JitterGrows(planned, f);
    }
  }

  /** With its jitter the planned delay is within 20 % of itself, and on every platform it is what
      Fail computes from it if and only if it fits 64 bits. */
  lemma JitterIsClose(p: Policy, attempts: int, jitter: real)
    requires attempts >= 1 && p.initial >= 0 && 0 <= p.max && 0.8 <= jitter <= 1.2
    requires Delay(p, attempts) == Planned(p, attempts)
    ensures var d := Planned(p, attempts); var b := Jittered(d, jitter);
      && 0 <= b && 0.8 * d as real - 1.0 < b as real <= 1.2 * d as real
      && ((forall o: int :: FitsInt64(o) ==> Backoff(p, attempts, jitter, o) == b) <==> b <= MAX_INT64)
  {
    hide Doubled, Jittered, Wrap64;
    DoubledNonnegative(p, attempts);
    JitterBounds(Planned(p, attempts), jitter);
    if Jittered(Planned(p, attempts), jitter) > MAX_INT64 {
      assert FitsInt64(0) && Backoff(p, attempts, jitter, 0) == 0;
    }
  }

  lemma DelayIsPlanned(p: Policy, attempts: int)
    requires attempts >= 1 && p.initial >= 0 && 0 <= p.max <= MAX_INT64
    ensures Delay(p, attempts) == Planned(p, attempts) <==>
      Doubled(p, attempts) <= MAX_INT64 || Wrap64(Doubled(p, attempts)) >= p.max
    ensures Planned(p, attempts) >= 0
  {
    hide Doubled, Wrap64;
    DoubledNonnegative(p, attempts);
    WrapInRange(Doubled(p, attempts));
    if Doubled(p, attempts) <= MAX_INT64 { WrapSmall(Doubled(p, attempts)); }
  }

  lemma DelayInRange(p: Policy, attempts: int)
    requires attempts >= 1 && p.initial >= 0 && 0 <= p.max <= MAX_INT64
    ensures FitsInt64(Delay(p, attempts))
  {
    hide Doubled, Wrap64;
    WrapInRange(Doubled(p, attempts));
  }

  lemma NoJitter(n: int)
    ensures Jittered(n, 1.0) == n
  {
  }

  lemma JitterGrows(n: int, f: real)
    requires n >= 0 && 0.8 <= f <= 1.2
    ensures Jittered(n, f) <= Jittered(n, 1.2)
  {
    hide TruncateReal, Scaled;
    ScaledBounds(n as real, f);
    assert Scaled(n as real, 1.2) == 1.2 * n as real by { ScaledMost(n as real); }
    Truncated(Scaled(n as real, f));
    Truncated(Scaled(n as real, 1.2));
  }

  lemma ScaledMost(d: real)
    ensures Scaled(d, 1.2) == 1.2 * d
  {
  }

  /** The planned delay before the cap is initial, doubled once for each further attempt up to the
      21st and not after that. */
  lemma DoublesTwentyTimes(p: Policy, attempts: int)
    requires attempts >= 1
    ensures Doubled(p, 1) == p.initial
    ensures Doubled(p, attempts + 1) == if attempts <= 20 then 2 * Doubled(p, attempts) else Doubled(p, attempts)
  {
    hide Pow2;
    assert Pow2(0) == 1 by { PowerStep(0); }
    if attempts <= 20 { PowerStep(attempts); }
  }

  lemma PowerStep(k: nat)
    ensures Pow2(0) == 1 && (k > 0 ==> Pow2(k) == 2 * Pow2(k - 1))
  {
  }

  /** int64 arithmetic: the one 64-bit number that differs by a multiple of 2^64. */
  lemma WrapIsCongruent(x: int, n: int)
    ensures n == Wrap64(x) <==>
      -0x8000_0000_0000_0000 <= n <= 0x7FFF_FFFF_FFFF_FFFF && (n - x) % 0x1_0000_0000_0000_0000 == 0
    ensures FitsInt64(n) <==> -0x8000_0000_0000_0000 <= n <= 0x7FFF_FFFF_FFFF_FFFF
  {
  }

  lemma WrapInRange(x: int)
    ensures FitsInt64(Wrap64(x))
  {
  }

  lemma DoubledNonnegative(p: Policy, attempts: int)
    requires attempts >= 1 && p.initial >= 0
    ensures Doubled(p, attempts) >= 0
  {
    hide Pow2;
    Nonnegative(p.initial, Pow2(Basics.Min(attempts - 1, 20)));
  }

  lemma Nonnegative(a: int, b: nat)
    requires a >= 0
    ensures a * b >= 0
  {
  }

  lemma WrapSmall(x: int)
    requires 0 <= x <= MAX_INT64
    ensures Wrap64(x) == x
  {
  }

  lemma ScaledBounds(d: real, f: real)
    requires d >= 0.0 && 0.8 <= f <= 1.2
    ensures 0.8 * d <= Scaled(d, f) <= 1.2 * d
  {
  }

  lemma Truncated(y: real)
    requires y >= 0.0
    ensures TruncateReal(y) >= 0 && TruncateReal(y) as real <= y < TruncateReal(y) as real + 1.0
  {
  }

  lemma JitterBounds(n: int, f: real)
    requires n >= 0 && 0.8 <= f <= 1.2
    ensures Jittered(n, f) >= 0 && 0.8 * n as real - 1.0 < Jittered(n, f) as real <= 1.2 * n as real
  {
    hide TruncateReal, Scaled;
    ScaledBounds(n as real, f);
    Truncated(Scaled(n as real, f));
  }

  /** An input outside that condition: an initial delay of three hours overflows at the 21st
      attempt and the row is retried at once, although the policy plans the maximal delay. */
  lemma BackoffOverflows()
    ensures var p := Policy(100, 10_800_000_000_000, 86_400_000_000_000);
            Planned(p, 21) == p.max && forall o :: Backoff(p, 21, 1.0, o) < 0
  {
    var p := Policy(100, 10_800_000_000_000, 86_400_000_000_000);
    assert Pow2(20) == 1_048_576 by {
      assert Pow2(5) == 32 && Pow2(10) == 32 * Pow2(5) && Pow2(15) == 32 * Pow2(10);
    }
    assert Basics.Min(20, 20) == 20;
  }

  class Queue {
    var rows: Rows

    /** Due: up to limit due rows, earliest next attempt first. */
    method Due(now: int, limit: nat) returns (items: seq<Item>)
      ensures |items| <= limit
      ensures forall it <- items :: it.id in rows && IsDue(rows[it.id], now) && it.attempts == rows[it.id].attempts
      ensures forall i, j :: 0 <= i < j < |items| ==>
        && items[i].id != items[j].id
        && rows[items[i].id].nextAttempt <= rows[items[j].id].nextAttempt
      ensures forall id :: id in rows && IsDue(rows[id], now) && Item(id, rows[id].attempts) !in items ==>
        |items| == limit && forall it <- items :: rows[it.id].nextAttempt <= rows[id].nextAttempt
    {
      hide IsDue;
      items := [];
      var left := set id | id in rows && IsDue(rows[id], now);
      while left != {} && |items| < limit
        invariant |items| <= limit
        invariant left <= rows.Keys && forall id <- left :: IsDue(rows[id], now)
        invariant forall id :: id in rows && IsDue(rows[id], now) ==> id in left || Item(id, rows[id].attempts) in items
        invariant forall it <- items ::
          it.id in rows && it.id !in left && IsDue(rows[it.id], now) && it.attempts == rows[it.id].attempts
        invariant forall it <- items, id <- left :: rows[it.id].nextAttempt <= rows[id].nextAttempt
        invariant forall i, j :: 0 <= i < j < |items| ==>
          && items[i].id != items[j].id
          && rows[items[i].id].nextAttempt <= rows[items[j].id].nextAttempt
        decreases |left|
      {
        var first := Earliest(left);
        items := items + [Item(first, rows[first].attempts)];
        left := left - {first};
      }
    }

    method Earliest(ids: set<int>) returns (first: int)
      requires ids != {} && ids <= rows.Keys
      ensures first in ids && forall id <- ids :: rows[first].nextAttempt <= rows[id].nextAttempt
    {
      ghost var some := Basics.SomeMember(ids);
      first :| first in ids;
      var rest := ids - {first};
      while rest != {}
        invariant rest <= ids && first in ids
        invariant forall id <- ids - rest :: rows[first].nextAttempt <= rows[id].nextAttempt
        decreases |rest|
      {
        ghost var other := Basics.SomeMember(rest);
        var id :| id in rest;
        if rows[id].nextAttempt < rows[first].nextAttempt {
          first := id;
        }
        rest := rest - {id};
      }
    }

    method Claim(id: int, now: int) returns (ok: bool)
      modifies this
      ensures rows == ClaimRow(old(rows), id, now) && (ok <==> Claimable(old(rows), id, now))
    {
      ok := id in rows && rows[id].status == Pending && rows[id].lockedUntil <= now;
      if ok {
        rows := rows[id := rows[id].(lockedUntil := now + LEASE)];
      }
    }

    method MarkDone(id: int)
      modifies this
      ensures rows == DoneRow(old(rows), id)
    {
      if id in rows {
        rows := rows[id := rows[id].(status := Done, attempts := rows[id].attempts + 1, lockedUntil := 0)];
      }
    }

    /** now is in nanoseconds; the table keeps whole seconds. */
    method Fail(it: Item, p: Policy, permanent: bool, now: int, jitter: real, outside: int) returns (dead: bool,
                retryIn: int)
      requires it.attempts >= 0
      modifies this
      ensures dead <==> permanent || it.attempts + 1 >= p.maxAttempts
      ensures retryIn == if dead then 0 else Backoff(p, it.attempts + 1, jitter, outside)
      ensures rows == FailRow(old(rows), it, p, permanent, (now + retryIn) / 1_000_000_000)
    {
      var attempts := it.attempts + 1;
      if permanent || attempts >= p.maxAttempts {
        if it.id in rows {
          rows := rows[it.id := rows[it.id].(status := Dead, attempts := attempts, lockedUntil := 0)];
        }
        return true, 0;
      }
      var backoff := Backoff(p, attempts, jitter, outside);
      if it.id in rows {
        rows := rows[it.id := rows[it.id].(attempts := attempts, nextAttempt := (now + backoff) / 1_000_000_000,
            lockedUntil := 0)];
      }
      dead, retryIn := false, backoff;
    }

    method Purge(cutoff: int)
      modifies this
      ensures rows == PurgeRows(old(rows), cutoff)
    {
      rows := PurgeRows(rows, cutoff);
    }
  }

  // ---- polling workers ----

  /** A worker between its statements: it has read an item, or it holds the row's lease. */
  datatype Worker = Polled(it: Item) | Working(it: Item, until: int)

  /** ids holds every id ever enqueued; uuids are not reused. */
  datatype State = State(rows: Rows, workers: map<int, Worker>, now: int, ids: set<int>)

  /** Statements carry the time t their worker read beforehand, at most now. */
  datatype Step =
    | Tick(to: int)
    | Enqueue(id: int, nextAttempt: int)
    | Poll(w: int, id: int, t: int)
    | TryClaim(w: int, t: int)
    | Succeed(w: int)
    | GiveBack(w: int, p: Policy, permanent: bool, retryAt: int)
    | Crash(w: int)
    | Collect(cutoff: int)

  /** Nothing ties a worker to its lease: it may finish, late or never, at any time. */
  predicate Enabled(s: State, step: Step) {
    match step
    case Tick(to) => to >= s.now
    case Enqueue(id, _) => id !in s.ids
    case Poll(w, id, t) => w !in s.workers && id in s.rows && t <= s.now && IsDue(s.rows[id], t)
    case TryClaim(w, t) => w in s.workers && s.workers[w].Polled? && t <= s.now
    case Succeed(w) => w in s.workers && s.workers[w].Working?
    case GiveBack(w, _, _, _) => w in s.workers && s.workers[w].Working?
    case Crash(w) => w in s.workers
    case Collect(_) => true
  }

  function Apply(s: State, step: Step): State
    requires Enabled(s, step)
  {
    match step
    case Tick(to) => s.(now := to)
    case Enqueue(id, next) => s.(rows := s.rows[id := Job(Pending, 0, next, 0, s.now)], ids := s.ids + {id})
    case Poll(w, id, t) => s.(workers := s.workers[w := Polled(Item(id, s.rows[id].attempts))])
    case TryClaim(w, t) =>
      var it := s.workers[w].it;
      if Claimable(s.rows, it.id, t)
      then s.(rows := ClaimRow(s.rows, it.id, t), workers := s.workers[w := Working(it, t + LEASE)])
      else s.(workers := s.workers - {w})
    case Succeed(w) => s.(rows := DoneRow(s.rows, s.workers[w].it.id), workers := s.workers - {w})
    case GiveBack(w, p, permanent, retryAt) =>
      s.(rows := FailRow(s.rows, s.workers[w].it, p, permanent, retryAt), workers := s.workers - {w})
    case Crash(w) => s.(workers := s.workers - {w})
    case Collect(cutoff) => s.(rows := PurgeRows(s.rows, cutoff))
  }

  predicate RunEnabled(s: State, steps: seq<Step>)
    decreases |steps|
  {
    steps == [] || (Enabled(s, steps[0]) && RunEnabled(Apply(s, steps[0]), steps[1..]))
  }

  function Run(s: State, steps: seq<Step>): State
    requires RunEnabled(s, steps)
    decreases |steps|
  {
    if steps == [] then s else Run(Apply(s, steps[0]), steps[1..])
  }

  predicate Initial(s: State) { s.rows == map[] && s.workers == map[] && s.ids == {} && s.now >= 0 }

  /** w works on the row, whether or not its lease has run out. */
  ghost predicate Holds(s: State, w: int, id: int) {
    w in s.workers && s.workers[w].Working? && s.workers[w].it.id == id
  }

  /** The row still carries the lease that w took. */
  ghost predicate Owns(s: State, w: int, id: int) {
    Holds(s, w, id) && id in s.rows && s.rows[id].status == Pending && s.rows[id].lockedUntil == s.workers[w].until
  }

  ghost predicate Exclusive(s: State) {
    forall v, w, id :: Holds(s, v, id) && Holds(s, w, id) ==> v == w
  }

  /** Every worker at work owns its row, and no row has two. */
  ghost predicate Inv(s: State) {
    && s.rows.Keys <= s.ids
    && (forall w, id :: Holds(s, w, id) ==> Owns(s, w, id))
    && Exclusive(s)
  }

  /** A claim that reads the clock at or after the end of the lease of a worker still at work. */
  ghost predicate Overtakes(s: State, step: Step) {
    && step.TryClaim? && step.w in s.workers
    && exists v :: Holds(s, v, s.workers[step.w].it.id) && s.workers[v].until <= step.t
  }

  /** At a claim: while a worker owns the row it is claimable exactly from the end of its lease on. */
  lemma ClaimableFromLeaseEnd(s: State, v: int, id: int, t: int)
    requires Owns(s, v, id)
    ensures Claimable(s.rows, id, t) <==> t >= s.workers[v].until
  {
  }

  lemma HoldersMove(s: State, step: Step, v: int, id: int)
    requires Enabled(s, step) && Holds(Apply(s, step), v, id)
    ensures Holds(s, v, id) ||
        (step.TryClaim? && step.w == v && s.workers[v].it.id == id && Claimable(s.rows, id, step.t))
    ensures Holds(s, v, id) ==> Apply(s, step).workers[v] == s.workers[v]
  {
  }

  /** One step keeps a lone owner's row as it is, unless it is its own or a claim past its lease. */
  lemma OwnerStays(s: State, step: Step, v: int, id: int)
    requires Inv(s) && Enabled(s, step) && !Overtakes(s, step) && Holds(s, v, id) && Holds(Apply(s, step), v, id)
    ensures Owns(Apply(s, step), v, id)
  {
    assert Owns(s, v, id);
    if step.TryClaim? { ClaimableFromLeaseEnd(s, v, id, step.t); }
    if (step.Succeed? || step.GiveBack?) && step.w != v {
      assert s.workers[step.w].Working? ==> Holds(s, step.w, s.workers[step.w].it.id);
    }
  }

  lemma StepKeepsInv(s: State, step: Step)
    requires Inv(s) && Enabled(s, step) && !Overtakes(s, step)
    ensures Inv(Apply(s, step))
  {
    hide Owns, Holds;
    var s' := Apply(s, step);
    forall v, id | Holds(s', v, id) ensures Owns(s', v, id) {
      HoldersMove(s, step, v, id);
      if Holds(s, v, id) {
        OwnerStays(s, step, v, id);
      } else {
        ClaimerOwns(s, step.w, step.t);
      }
    }
    forall v, w, id | Holds(s', v, id) && Holds(s', w, id) ensures v == w {
      HoldersMove(s, step, v, id);
      HoldersMove(s, step, w, id);
      if Holds(s, v, id) && !Holds(s, w, id) { ClaimableFromLeaseEnd(s, v, id, step.t); }
      if Holds(s, w, id) && !Holds(s, v, id) { ClaimableFromLeaseEnd(s, w, id, step.t); }
    }
    RowsStayKnown(s, step);
  }

  lemma RowsStayKnown(s: State, step: Step)
    requires Enabled(s, step) && s.rows.Keys <= s.ids
    ensures Apply(s, step).rows.Keys <= Apply(s, step).ids && s.ids <= Apply(s, step).ids
  {
    hide IsDue;
  }

  lemma ClaimerOwns(s: State, w: int, t: int)
    requires Enabled(s, TryClaim(w, t)) && Claimable(s.rows, s.workers[w].it.id, t)
    ensures Owns(Apply(s, TryClaim(w, t)), w, s.workers[w].it.id)
  {
  }

  /** A claim past the lease of a worker at work succeeds and leaves two at work on the row. */
  lemma OvertakingBreaksExclusion(s: State, step: Step)
    requires Inv(s) && Enabled(s, step) && Overtakes(s, step)
    ensures !Exclusive(Apply(s, step))
  {
    var id := s.workers[step.w].it.id;
    var v :| Holds(s, v, id) && s.workers[v].until <= step.t;
    ClaimableFromLeaseEnd(s, v, id, step.t);
    assert Holds(Apply(s, step), v, id) && Holds(Apply(s, step), step.w, id);
  }

  ghost predicate AlwaysExclusive(s: State, steps: seq<Step>)
    requires RunEnabled(s, steps)
    decreases |steps|
  {
    Exclusive(s) && (steps == [] || AlwaysExclusive(Apply(s, steps[0]), steps[1..]))
  }

  ghost predicate NeverOvertakes(s: State, steps: seq<Step>)
    requires RunEnabled(s, steps)
    decreases |steps|
  {
    steps == [] || (!Overtakes(s, steps[0]) && NeverOvertakes(Apply(s, steps[0]), steps[1..]))
  }

  /** With any number of workers, no two are ever at work on one row in a run if and only if
      no claim in it comes at or after the end of the lease of a worker still at work. */
  lemma {:induction false} LeasesAreExclusive(s: State, steps: seq<Step>)
    requires Inv(s) && RunEnabled(s, steps)
    ensures AlwaysExclusive(s, steps) <==> NeverOvertakes(s, steps)
    decreases |steps|
  {
    hide Enabled, Apply, Inv, Overtakes;
    InvIsExclusive(s);
    if steps != [] {
      if Overtakes(s, steps[0]) {
        OvertakingBreaksExclusion(s, steps[0]);
      } else {
        StepKeepsInv(s, steps[0]);
        LeasesAreExclusive(Apply(s, steps[0]), steps[1..]);
      }
    }
  }

  /** Workers that finish or stop before their lease ends. */
  ghost predicate Punctual(s: State, steps: seq<Step>)
    requires RunEnabled(s, steps)
    decreases |steps|
  {
    && (forall w, id :: Holds(s, w, id) ==> s.now < s.workers[w].until)
    && (steps == [] || Punctual(Apply(s, steps[0]), steps[1..]))
  }

  /** Punctual workers are never overtaken. */
  lemma PunctualIsExclusive(s: State, steps: seq<Step>)
    requires Initial(s) && RunEnabled(s, steps) && Punctual(s, steps)
    ensures NeverOvertakes(s, steps) && AlwaysExclusive(s, steps)
  {
    InitialInv(s);
    PunctualNeverOvertakes(s, steps);
    LeasesAreExclusive(s, steps);
  }

  lemma {:induction false} PunctualNeverOvertakes(s: State, steps: seq<Step>)
    requires RunEnabled(s, steps) && Punctual(s, steps)
    ensures NeverOvertakes(s, steps)
    decreases |steps|
  {
    hide Apply, IsDue;
    if steps != [] { PunctualNeverOvertakes(Apply(s, steps[0]), steps[1..]); }
  }

  lemma InvIsExclusive(s: State)
    requires Inv(s)
    ensures Exclusive(s)
  {
  }

  lemma InitialInv(s: State)
    requires Initial(s)
    ensures Inv(s)
  {
  }

  // ---- finished rows ----

  /** The worker's lease was overtaken: the row no longer carries it. */
  ghost predicate Lost(s: State, w: int) {
    w in s.workers && s.workers[w].Working? && !Owns(s, w, s.workers[w].it.id)
  }

  predicate LastAttempt(it: Item, p: Policy, permanent: bool) { permanent || it.attempts + 1 >= p.maxAttempts }

  /** In every state: a step changes the status of a finished row if and only if it is the late
      result of a worker that has lost the row, a success on a dead one or a last failure on a
      done one. */
  lemma OnlyLateResultsReopen(s: State, step: Step, id: int)
    requires Enabled(s, step) && id in s.rows && s.rows[id].status != Pending && s.rows.Keys <= s.ids
    ensures
      var s' := Apply(s, step);
      (id in s'.rows && s'.rows[id].status != s.rows[id].status) <==> Reopens(s, step, id)
  {
  }

  ghost predicate Reopens(s: State, step: Step, id: int)
    requires id in s.rows
  {
    && (step.Succeed? || step.GiveBack?) && Holds(s, step.w, id) && Lost(s, step.w)
    && (if step.Succeed? then s.rows[id].status == Dead
        else s.rows[id].status == Done && LastAttempt(s.workers[step.w].it, step.p, step.permanent))
  }

  /** In every state: a worker at work loses the row it owns if and only if another worker that
      also holds it reports a result, or another one claims it at or after the end of the lease. */
  lemma HowARowIsLost(s: State, step: Step, v: int, id: int)
    requires Enabled(s, step) && Owns(s, v, id) && Holds(Apply(s, step), v, id)
    requires s.rows.Keys <= s.ids && s.workers[v].until > 0
    ensures !Owns(Apply(s, step), v, id) <==>
      || ((step.Succeed? || step.GiveBack?) && step.w != v && Holds(s, step.w, id))
      || (step.TryClaim? && step.w != v && s.workers[step.w].it.id == id && step.t >= s.workers[v].until)
  {
    hide IsDue;
    if step.TryClaim? { ClaimableFromLeaseEnd(s, v, id, step.t); }
  }

  lemma StepKeepsTerminal(s: State, step: Step, id: int)
    requires Inv(s) && Enabled(s, step) && id in s.rows && s.rows[id].status != Pending
    ensures var s' := Apply(s, step);
            if id in s'.rows then s'.rows[id] == s.rows[id] else s.rows[id].status == Done && step.Collect?
    ensures s.ids <= Apply(s, step).ids
  {
    if (step.Succeed? || step.GiveBack?) && s.workers[step.w].it.id == id {
      assert Holds(s, step.w, id);
    }
  }

  lemma {:induction false} PurgedStaysGone(s: State, steps: seq<Step>, id: int)
    requires RunEnabled(s, steps) && id in s.ids && id !in s.rows
    ensures id !in Run(s, steps).rows
    decreases |steps|
  {
    hide IsDue;
    if steps != [] {
      PurgedStaysGone(Apply(s, steps[0]), steps[1..], id);
    }
  }

  /** In every run in which no worker is overtaken, a done or dead row never changes again;
      only a done one can disappear. */
  lemma {:induction false} TerminalRowsStay(s: State, steps: seq<Step>, id: int)
    requires Inv(s) && RunEnabled(s, steps) && NeverOvertakes(s, steps) && id in s.rows && s.rows[id].status != Pending
    ensures var s' := Run(s, steps); if id in s'.rows then s'.rows[id] == s.rows[id] else s.rows[id].status == Done
    decreases |steps|
  {
    hide Enabled, Apply, Inv, Overtakes;
    if steps != [] {
      var s' := Apply(s, steps[0]);
      StepKeepsInv(s, steps[0]);
      StepKeepsTerminal(s, steps[0], id);
      if id in s'.rows {
        TerminalRowsStay(s', steps[1..], id);
      } else {
        RowIsKnown(s, id);
        PurgedStaysGone(s', steps[1..], id);
      }
    }
  }

  lemma RowIsKnown(s: State, id: int)
    requires Inv(s) && id in s.rows
    ensures id in s.ids
  {
  }

  /** Only done rows are ever removed. */
  lemma OnlyDoneDisappears(s: State, step: Step, id: int)
    requires Enabled(s, step) && id in s.rows && id !in Apply(s, step).rows
    ensures s.rows[id].status == Done && step.Collect? && s.rows[id].created < step.cutoff
  {
  }

  // ---- results ----

  /** What a result does to the row, said with the row's own fields: a success finishes it, a last or
      permanent failure ends it, any other reschedules it, so that it is due again from its retry
      time on and not before. No other row changes. */
  lemma ResultsMove(s: State, step: Step, id: int)
    requires Enabled(s, step) && (step.Succeed? || step.GiveBack?) && id in s.rows
    ensures var j, rows, it := s.rows[id], Apply(s, step).rows, s.workers[step.w].it;
      && rows.Keys == s.rows.Keys
      && (it.id != id ==> rows[id] == j)
      && (it.id == id && step.Succeed? ==> rows[id] == Job(Done, j.attempts + 1, j.nextAttempt, 0, j.created))
      && (it.id == id && step.GiveBack? && (step.permanent || it.attempts + 1 >= step.p.maxAttempts) ==>
            rows[id] == Job(Dead, it.attempts + 1, j.nextAttempt, 0, j.created))
      && (it.id == id && step.GiveBack? && !step.permanent && it.attempts + 1 < step.p.maxAttempts ==>
            rows[id] == Job(j.status, it.attempts + 1, step.retryAt, 0, j.created))
  {
  }

  /** A row that was put back can be polled and claimed exactly from its retry time on. */
  lemma RescheduledIsDueLater(s: State, step: Step, t: int)
    requires Enabled(s, step) && step.GiveBack? && s.workers[step.w].it.id in s.rows && t >= 0
    requires s.rows[s.workers[step.w].it.id].status == Pending
    requires !step.permanent && s.workers[step.w].it.attempts + 1 < step.p.maxAttempts
    ensures var s', it := Apply(s, step), s.workers[step.w].it;
      && (IsDue(s'.rows[it.id], t) <==> step.retryAt <= t)
      && (forall w :: w !in s'.workers && t <= s'.now ==> (Enabled(s', Poll(w, it.id, t)) <==> step.retryAt <= t))
  {
  }

  // ---- rows left behind ----

  ghost predicate LeasesBounded(s: State) {
    && s.now >= 0
    && (forall id <- s.rows :: s.rows[id].lockedUntil <= s.now + LEASE)
  }

  lemma {:induction false} RunKeepsLeasesBounded(s: State, steps: seq<Step>)
    requires LeasesBounded(s) && RunEnabled(s, steps)
    ensures LeasesBounded(Run(s, steps))
    decreases |steps|
  {
    hide IsDue;
    if steps != [] {
      RunKeepsLeasesBounded(Apply(s, steps[0]), steps[1..]);
    }
  }

  /** A pending row in any run, whoever holds it or has crashed: its lease ends within LEASE
      seconds, and once it has ended and the row is due, a worker that polls and claims it
      obtains it. */
  lemma AbandonedRowIsClaimable(s: State, steps: seq<Step>, id: int, w: int)
    requires Initial(s) && RunEnabled(s, steps)
    requires id in Run(s, steps).rows && Run(s, steps).rows[id].status == Pending
    ensures var s' := Run(s, steps);
            && s'.rows[id].lockedUntil <= s'.now + LEASE
            && (s'.rows[id].lockedUntil <= s'.now && w !in s'.workers && s'.rows[id].nextAttempt <= s'.now ==>
                  Enabled(s', Poll(w, id, s'.now))
                  && var polled := Apply(s', Poll(w, id, s'.now));
                     Enabled(polled, TryClaim(w, s'.now)) && Owns(Apply(polled, TryClaim(w, s'.now)), w, id))
  {
    RunKeepsLeasesBounded(s, steps);
  }

  // ---- a run in which both go wrong ----

  lemma {:induction false} RunOneMore(s: State, steps: seq<Step>, step: Step)
    requires RunEnabled(s, steps) && Enabled(Run(s, steps), step)
    ensures RunEnabled(s, steps + [step]) && Run(s, steps + [step]) == Apply(Run(s, steps), step)
    decreases |steps|
  {
    hide Enabled, Apply;
    if steps == [] {
      assert steps + [step] == [step] && [step][1..] == [];
    } else {
      assert (steps + [step])[1..] == steps[1..] + [step];
      RunOneMore(Apply(s, steps[0]), steps[1..], step);
    }
  }

  lemma EmptyRun(s: State)
    ensures RunEnabled(s, []) && Run(s, []) == s
  {
  }

  /** A run from the empty queue: worker 10 outlives its lease of 120 seconds, worker 11 claims
      the row, so both hold it; 11 finishes it, and the late last failure of 10 turns the done
      row into a dead one. */
  lemma LateFailOverwritesDone() returns (s: State, steps: seq<Step>, both: nat, done: nat)
    ensures Initial(s) && RunEnabled(s, steps) && both < done < |steps|
    ensures RunEnabled(s, steps[..both]) && Holds(Run(s, steps[..both]), 10, 1) && Holds(Run(s, steps[..both]), 11, 1)
    ensures RunEnabled(s, steps[..done]) && 1 in Run(s, steps[..done]).rows &&
        Run(s, steps[..done]).rows[1].status == Done
    ensures 1 in Run(s, steps).rows && Run(s, steps).rows[1].status == Dead
  {
    hide RunEnabled, Run;
    s := State(map[], map[], 0, {});
    both, done := 6, 7;
    steps := [];
    EmptyRun(s);
    RunOneMore(s, steps, Enqueue(1, 0));
    steps := steps + [Enqueue(1, 0)];
    assert Run(s, steps) == State(map[1 := Job(Pending, 0, 0, 0, 0)], map[], 0, {1});
    RunOneMore(s, steps, Poll(10, 1, 0));
    steps := steps + [Poll(10, 1, 0)];
    assert Run(s, steps) == State(map[1 := Job(Pending, 0, 0, 0, 0)], map[10 := Polled(Item(1, 0))], 0, {1});
    RunOneMore(s, steps, TryClaim(10, 0));
    steps := steps + [TryClaim(10, 0)];
    assert Run(s, steps) == State(map[1 := Job(Pending, 0, 0, 120, 0)], map[10 := Working(Item(1, 0), 120)], 0, {1});
    RunOneMore(s, steps, Tick(120));
    steps := steps + [Tick(120)];
    assert Run(s, steps) == State(map[1 := Job(Pending, 0, 0, 120, 0)], map[10 := Working(Item(1, 0), 120)], 120, {1});
    ghost var last := TakenOver(s, steps);
    steps := last;
  }

  lemma TakenOver(s: State, before: seq<Step>) returns (steps: seq<Step>)
    requires RunEnabled(s, before) && |before| == 4
    requires Run(s, before)
        == State(map[1 := Job(Pending, 0, 0, 120, 0)], map[10 := Working(Item(1, 0), 120)], 120, {1})
    ensures |steps| == 8 && RunEnabled(s, steps)
    ensures RunEnabled(s, steps[..6]) && Holds(Run(s, steps[..6]), 10, 1) && Holds(Run(s, steps[..6]), 11, 1)
    ensures RunEnabled(s, steps[..7]) && 1 in Run(s, steps[..7]).rows && Run(s, steps[..7]).rows[1].status == Done
    ensures 1 in Run(s, steps).rows && Run(s, steps).rows[1].status == Dead
  {
    hide RunEnabled, Run;
    var job, item := Job(Pending, 0, 0, 120, 0), Item(1, 0);
    steps := before;
    RunOneMore(s, steps, Poll(11, 1, 120));
    steps := steps + [Poll(11, 1, 120)];
    assert Run(s, steps) == State(map[1 := job], map[10 := Working(item, 120), 11 := Polled(item)], 120, {1});
    RunOneMore(s, steps, TryClaim(11, 120));
    steps := steps + [TryClaim(11, 120)];
    var six := steps;
    assert Run(s, six) == State(map[1 := job.(lockedUntil := 240)],
        map[10 := Working(item, 120), 11 := Working(item, 240)], 120, {1});
    RunOneMore(s, steps, Succeed(11));
    steps := steps + [Succeed(11)];
    var seven := steps;
    assert Run(s, seven) == State(map[1 := Job(Done, 1, 0, 0, 0)], map[10 := Working(item, 120)], 120, {1});
    var late := GiveBack(10, Policy(1, 0, 0), false, 0);
    RunOneMore(s, steps, late);
    steps := steps + [late];
    assert steps[..6] == six && steps[..7] == seven;
  }
}
