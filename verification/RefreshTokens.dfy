/** Refresh-token rotation (internal/auth/refresh.go). Every SQL statement is one atomic
    step; requests interleave between their statements, may stop at any point, and clocks
    only move forward. Ids, users, families and token digests are numbers. */
module RefreshTokens {
  import Basics
  import opened SqlLogic

  datatype Token = Token(user: int, family: int, hash: int, expires: int, used: Option<int>, revoked: Option<int>) {
    predicate Live() { used.None? && revoked.None? }
  }

  type Rows = map<int, Token>

  // ---- the SQL statements ----

  /** SELECT … WHERE token_hash = hash; the digest column is unique. */
  predicate Selects(rows: Rows, hash: int, found: Option<int>) {
    match found
    case Some(id) => id in rows && rows[id].hash == hash
    case None => forall id <- rows :: rows[id].hash != hash
  }

  /** UPDATE … SET used_at WHERE id AND used_at IS NULL AND revoked_at IS NULL */
  function Consume(rows: Rows, id: int, now: int): Rows {
    if id in rows && rows[id].Live() then rows[id := rows[id].(used := Some(now))] else rows
  }

  function Revoke(t: Token, now: int): Token {
    if t.revoked.None? then t.(revoked := Some(now)) else t
  }

  /** UPDATE … SET revoked_at WHERE family_id AND revoked_at IS NULL */
  function RevokeFamily(rows: Rows, family: int, now: int): Rows {
    map id | id in rows :: if rows[id].family == family then Revoke(rows[id], now) else rows[id]
  }

  /** UPDATE … SET revoked_at WHERE user_id AND revoked_at IS NULL */
  function RevokeUser(rows: Rows, user: int, now: int): Rows {
    map id | id in rows :: if rows[id].user == user then Revoke(rows[id], now) else rows[id]
  }

  /** Whether an INSERT meets the primary key and the unique digest. */
  predicate Insertable(rows: Rows, id: int, hash: int) {
    id !in rows && Selects(rows, hash, None)
  }

  /** One token table, and a refresh request on it without interruption. */
  class TokenTable {
    var rows: Rows

    method SelectByHash(hash: int) returns (found: Option<int>)
      ensures Selects(rows, hash, found)
    {
      var ids := rows.Keys;
      while ids != {}
        invariant ids <= rows.Keys
        invariant forall id <- rows.Keys - ids :: rows[id].hash != hash
        decreases |ids|
      {
        ghost var some := Basics.SomeMember(ids);
        var id :| id in ids;
        if rows[id].hash == hash {
          return Some(id);
        }
        ids := ids - {id};
      }
      found := None;
    }

    method ConsumeToken(id: int, now: int) returns (n: nat)
      modifies this
      ensures rows == Consume(old(rows), id, now)
      ensures n == if id in old(rows) && old(rows)[id].Live() then 1 else 0
    {
      n := 0;
      if id in rows && rows[id].used.None? && rows[id].revoked.None? {
        rows := rows[id := rows[id].(used := Some(now))];
        n := 1;
      }
    }

    method RevokeTokens(family: int, now: int)
      modifies this
      ensures rows == RevokeFamily(old(rows), family, now)
      ensures OnlyRevoked(old(rows), rows, old(rows).Keys, now, (t: Token) => t.family == family)
    {
      rows := RevokeFamily(rows, family, now);
    }

    /** issueRefreshToken; the caller's uuid and random digest may collide only with an
        error. */
    method Issue(id: int, user: int, family: int, hash: int, expires: int) returns (ok: bool)
      modifies this
      ensures ok <==> Insertable(old(rows), id, hash)
      ensures rows == if ok then old(rows)[id := Token(user, family, hash, expires, None, None)] else old(rows)
    {
      var clash := SelectByHash(hash);
      ok := id !in rows && clash.None?;
      if ok {
        rows := rows[id := Token(user, family, hash, expires, None, None)];
      }
    }

    /** rotateRefreshToken without interruption: only a live, unexpired token rotates, and
        presenting a used one revokes its whole family. */
    method Rotate(hash: int, now: int) returns (r: Rotation)
      requires UniqueHashes(rows)
      modifies this
      ensures r.Rotated? <==>
        exists id :: Selects(old(rows), hash, Some(id)) && old(rows)[id].Live() && old(rows)[id].expires > now
      ensures r == Reused <==>
        exists id :: Selects(old(rows), hash, Some(id)) && old(rows)[id].revoked.None? && old(rows)[id].used.Some?
      ensures forall id :: Selects(old(rows), hash, Some(id)) ==>
        && (r.Rotated? ==>
            && r == Rotated(old(rows)[id].user, old(rows)[id].family)
            && rows == old(rows)[id := old(rows)[id].(used := Some(now))])
        && (r == Reused ==>
            var f := old(rows)[id].family;
            OnlyRevoked(old(rows), rows, old(rows).Keys, now, (t: Token) => t.family == f))
      ensures r == Invalid ==> rows == old(rows)
    {
      var found := SelectByHash(hash);
      if found.None? {
        return Invalid;
      }
      var row := rows[found.value];
      if row.revoked.Some? {
        return Invalid;
      }
      if row.used.Some? {
        RevokeTokens(row.family, now);
        return Reused;
      }
      if row.expires <= now {
        return Invalid;
      }
      var n := ConsumeToken(found.value, now);
      assert n == 1; // the lost race, where n is 0, is a step of the system below
      r := Rotated(row.user, row.family);
    }
  }

  /** The rows meant are revoked now unless they were before; nothing else differs. */
  ghost predicate OnlyRevoked(before: Rows, after: Rows, ids: set<int>, now: int, meant: Token -> bool) {
    && before.Keys == ids && after.Keys == ids
    && (forall id <- ids :: !meant(before[id]) ==> after[id] == before[id])
    && (forall id <- ids :: meant(before[id]) && before[id].revoked.Some? ==> after[id] == before[id])
    && (forall id <- ids :: meant(before[id]) && before[id].revoked.None? ==>
          after[id] == before[id].(revoked := Some(now)))
  }

  datatype Rotation = Rotated(user: int, family: int) | Invalid | Reused

  /** The unique index on token_hash. */
  predicate UniqueHashes(rows: Rows) {
    forall a, b :: a in rows && b in rows && rows[a].hash == rows[b].hash ==> a == b
  }

  // ---- requests between their statements ----

  datatype Request =
    | Presented(hash: int)                        // refresh, before its SELECT
    | Checked(id: int, user: int, family: int)    // row looked usable, before its UPDATE
    | Rotating(user: int, family: int)            // consumed, successor not inserted yet
    | Revoking(family: int)                       // before UPDATE … revoked_at on a family
    | LoggingOut(hash: int)                       // logout, before its SELECT
    | RevokingUser(user: int)                     // logout-all
    | LoggingIn(user: int)                        // before the first token of a session

  /** consumed lists the rows whose used_at a refresh has set, oldest first. */
  datatype State = State(rows: Rows, requests: map<int, Request>, now: int, consumed: seq<int>)

  datatype Step =
    | Tick(to: int)
    | Start(p: int, r: Request)
    | Select(p: int, found: Option<int>)
    | Update(p: int)
    | UserMissing(p: int)
    | Insert(p: int, id: int, hash: int, expires: int)
    | InsertFirst(p: int, id: int, hash: int, family: int, expires: int)
    | RunRevoke(p: int)
    | Stop(p: int)

  function Finish(s: State, p: int): State { s.(requests := s.requests - {p}) }

  function Become(s: State, p: int, r: Request): State { s.(requests := s.requests[p := r]) }

  /** A family nobody has used: uuids are fresh. */
  predicate FreshFamily(s: State, f: int) {
    && (forall id <- s.rows :: s.rows[id].family != f)
    && (forall p <- s.requests :: s.requests[p] != Revoking(f))
    && (forall p <- s.requests :: !(s.requests[p].Checked? && s.requests[p].family == f))
    && (forall p <- s.requests :: !(s.requests[p].Rotating? && s.requests[p].family == f))
  }

  predicate Enabled(s: State, step: Step) {
    match step
    case Tick(to) => to >= s.now
    case Start(p, r) => p !in s.requests && (r.Presented? || r.LoggingOut? || r.RevokingUser? || r.LoggingIn?)
    case Select(p, found) =>
      p in s.requests && (s.requests[p].Presented? || s.requests[p].LoggingOut?)
      && Selects(s.rows, s.requests[p].hash, found)
    case Update(p) => p in s.requests && s.requests[p].Checked?
    case UserMissing(p) => p in s.requests && s.requests[p].Rotating?
    case Insert(p, id, hash, _) => p in s.requests && s.requests[p].Rotating? && Insertable(s.rows, id, hash)
    case InsertFirst(p, id, hash, family, _) =>
      p in s.requests && s.requests[p].LoggingIn? && Insertable(s.rows, id, hash) && FreshFamily(s, family)
    case RunRevoke(p) => p in s.requests && (s.requests[p].Revoking? || s.requests[p].RevokingUser?)
    case Stop(p) => p in s.requests
  }

  /** After the SELECT of a refresh: the checks of rotateRefreshToken. */
  function AfterSelect(s: State, p: int, found: Option<int>): State
    requires found.Some? ==> found.value in s.rows
  {
    match found
    case None => Finish(s, p)
    case Some(id) =>
      var t := s.rows[id];
      if t.revoked.Some? then Finish(s, p)
      else if t.used.Some? then Become(s, p, Revoking(t.family))
      else if t.expires <= s.now then Finish(s, p)
      else Become(s, p, Checked(id, t.user, t.family))
  }

  function Apply(s: State, step: Step): State
    requires Enabled(s, step)
  {
    match step
    case Tick(to) => s.(now := to)
    case Start(p, r) => Become(s, p, r)
    case Select(p, found) =>
      if s.requests[p].Presented? then AfterSelect(s, p, found)
      else if found.Some? then Become(s, p, Revoking(s.rows[found.value].family))
      else Finish(s, p)
    case Update(p) =>
      var Checked(id, user, family) := s.requests[p];
      if id in s.rows && s.rows[id].Live() then
        Become(s.(rows := Consume(s.rows, id, s.now), consumed := s.consumed + [id]), p, Rotating(user, family))
      else Become(s, p, Revoking(family))
    case UserMissing(p) => Become(s, p, Revoking(s.requests[p].family))
    case Insert(p, id, hash, expires) =>
      var Rotating(user, family) := s.requests[p];
      Finish(s.(rows := s.rows[id := Token(user, family, hash, expires, None, None)]), p)
    case InsertFirst(p, id, hash, family, expires) =>
      Finish(s.(rows := s.rows[id := Token(s.requests[p].user, family, hash, expires, None, None)]), p)
    case RunRevoke(p) =>
      var rows := if s.requests[p].Revoking? then RevokeFamily(s.rows, s.requests[p].family, s.now)
                  else RevokeUser(s.rows, s.requests[p].user, s.now);
      Finish(s.(rows := rows), p)
    case Stop(p) => Finish(s, p)
  }

  predicate RunEnabled(s: State, steps: seq<Step>)
    decreases |steps|
  {
    steps == [] || (Enabled(s, steps[0]) && RunEnabled(Apply(s, steps[0]), steps[1..]))
  }

  function Run(s: State, steps: seq<Step>): State
    requires RunEnabled(s, steps)
    decreases |steps|
  {
    if steps == [] then s else Run(Apply(s, steps[0]), steps[1..])
  }

  predicate Initial(s: State) { s.rows == map[] && s.requests == map[] && s.consumed == [] }

  // ---- what every step keeps ----

  /** What can still extend a session: a live token, or a rotation in flight. */
  datatype Holder = Stored(id: int) | InFlight(p: int)

  predicate Holds(s: State, f: int, h: Holder) {
    match h
    case Stored(id) => id in s.rows && s.rows[id].family == f && s.rows[id].Live()
    case InFlight(p) => p in s.requests && s.requests[p].Rotating? && s.requests[p].family == f
  }

  ghost predicate OneHolder(s: State) {
    forall f, h1, h2 :: Holds(s, f, h1) && Holds(s, f, h2) ==> h1 == h2
  }

  /** Each row whose used_at is set was consumed exactly once. */
  ghost predicate ConsumedOnce(s: State) {
    && (forall i, j :: 0 <= i < j < |s.consumed| ==> s.consumed[i] != s.consumed[j])
    && (forall id :: id in s.consumed <==> id in s.rows && s.rows[id].used.Some?)
  }

  ghost predicate Inv(s: State) {
    && OneHolder(s)
    && ConsumedOnce(s)
    && (forall p <- s.requests :: s.requests[p].Checked? ==>
          s.requests[p].id in s.rows && s.rows[s.requests[p].id].family == s.requests[p].family)
    && (forall p <- s.requests :: s.requests[p].Rotating? ==> KnownFamily(s, s.requests[p].family))
  }

  /** Some row of the family exists; rows are never deleted, so it stays known. */
  ghost predicate KnownFamily(s: State, f: int) {
    exists id :: id in s.rows && s.rows[id].family == f
  }

  /** Each holder after a step is a holder before it, except where a token turns into a
      rotation, a rotation into a token, or a new family starts. */
  lemma HoldersMove(s: State, step: Step, f: int, h: Holder)
    requires Enabled(s, step) && Holds(Apply(s, step), f, h)
    ensures Holds(s, f, h)
      || (step.Update? && h == InFlight(step.p) && s.requests[step.p].id in s.rows &&
          s.rows[s.requests[step.p].id].Live() && f == s.requests[step.p].family)
      || (step.Insert? && h == Stored(step.id) && Holds(s, f, InFlight(step.p)))
      || (step.InsertFirst? && h == Stored(step.id) && f == step.family)
  {
  }

  lemma StepKeepsOneHolder(s: State, step: Step, f: int, h1: Holder, h2: Holder)
    requires Inv(s) && Enabled(s, step)
    requires Holds(Apply(s, step), f, h1) && Holds(Apply(s, step), f, h2)
    ensures h1 == h2
  {
    HoldersMove(s, step, f, h1);
    HoldersMove(s, step, f, h2);
    var s' := Apply(s, step);
    if step.Update? && s.requests[step.p].id in s.rows {
      assert !Holds(s', f, Stored(s.requests[step.p].id));
      assert s.rows[s.requests[step.p].id].Live() ==>
          Holds(s, s.requests[step.p].family, Stored(s.requests[step.p].id));
    }
    if step.Insert? {
      assert !Holds(s', f, InFlight(step.p));
    }
    if step.InsertFirst? && f == step.family {
      assert forall h :: !Holds(s, f, h);
    }
  }

  lemma StepKeepsConsumed(s: State, step: Step)
    requires ConsumedOnce(s) && Enabled(s, step)
    ensures ConsumedOnce(Apply(s, step))
  {
  }

  lemma StepKeepsKnown(s: State, step: Step, f: int)
    requires Enabled(s, step) && KnownFamily(s, f)
    ensures KnownFamily(Apply(s, step), f)
  {
    var id :| id in s.rows && s.rows[id].family == f;
    assert id in Apply(s, step).rows && Apply(s, step).rows[id].family == f;
  }

  lemma StepKeepsInv(s: State, step: Step)
    requires Inv(s) && Enabled(s, step)
    ensures Inv(Apply(s, step))
  {
    hide ConsumedOnce, Holds;
    var s' := Apply(s, step);
    forall f, h1, h2 | Holds(s', f, h1) && Holds(s', f, h2) ensures h1 == h2 {
      StepKeepsOneHolder(s, step, f, h1, h2);
    }
    StepKeepsConsumed(s, step);
    forall p | p in s'.requests && s'.requests[p].Rotating? ensures KnownFamily(s', s'.requests[p].family) {
      if step.Update? && step.p == p {
        var id := s.requests[p].id;
        assert id in s'.rows && s'.rows[id].family == s.requests[p].family;
      } else {
        StepKeepsKnown(s, step, s'.requests[p].family);
      }
    }
  }

  lemma {:induction false} RunKeepsInv(s: State, steps: seq<Step>)
    requires Inv(s) && RunEnabled(s, steps)
    ensures Inv(Run(s, steps))
    decreases |steps|
  {
    if steps != [] {
      StepKeepsInv(s, steps[0]);
      RunKeepsInv(Apply(s, steps[0]), steps[1..]);
    }
  }

  /** In every interleaving no row is consumed twice, and a family has at most one among
      its live tokens and its rotations in flight. */
  lemma RotationIsExclusive(s: State, steps: seq<Step>)
    requires Initial(s) && RunEnabled(s, steps)
    ensures var s' := Run(s, steps);
            && (forall i, j :: 0 <= i < j < |s'.consumed| ==> s'.consumed[i] != s'.consumed[j])
            && (forall f, h1, h2 :: Holds(s', f, h1) && Holds(s', f, h2) ==> h1 == h2)
  {
    RunKeepsInv(s, steps);
  }

  // ---- a revoked family stays dead ----

  ghost predicate Dead(s: State, f: int) {
    KnownFamily(s, f) && forall h :: !Holds(s, f, h)
  }

  ghost function FamilyRows(s: State, f: int): set<int> {
    set id | id in s.rows && s.rows[id].family == f
  }

  lemma StepKeepsDead(s: State, step: Step, f: int)
    requires Inv(s) && Enabled(s, step) && Dead(s, f)
    ensures Dead(Apply(s, step), f) && FamilyRows(Apply(s, step), f) == FamilyRows(s, f)
    ensures forall id <- FamilyRows(s, f) :: id in Apply(s, step).consumed <==> id in s.consumed
  {
    var s' := Apply(s, step);
    var known :| known in s.rows && s.rows[known].family == f;
    assert known in s'.rows && s'.rows[known].family == f;
    forall h ensures !Holds(s', f, h) {
      if Holds(s', f, h) {
        HoldersMove(s, step, f, h);
        if step.Update? && h == InFlight(step.p) {
          assert Holds(s, f, Stored(s.requests[step.p].id));
        }
      }
    }
    assert step.Insert? ==> Holds(s, s.requests[step.p].family, InFlight(step.p));
    if step.Update? && s.requests[step.p].id in s.rows && s.rows[s.requests[step.p].id].Live() {
      assert Holds(s, s.requests[step.p].family, Stored(s.requests[step.p].id));
    }
    forall id ensures id in FamilyRows(s', f) <==> id in FamilyRows(s, f) {
      assert id in s.rows ==> id in s'.rows && s'.rows[id].family == s.rows[id].family;
      assert id in s'.rows && id !in s.rows ==> s'.rows[id].family != f;
    }
  }

  /** Once a family has no live token and no rotation in flight, no later step of any
      interleaving consumes a token of it or adds one to it. */
  lemma {:induction false} DeadFamilyStaysDead(s: State, steps: seq<Step>, f: int)
    requires Inv(s) && RunEnabled(s, steps) && Dead(s, f)
    ensures var s' := Run(s, steps);
            && Dead(s', f) && FamilyRows(s', f) == FamilyRows(s, f)
            && (forall id <- FamilyRows(s, f) :: id in s'.consumed <==> id in s.consumed)
    decreases |steps|
  {
    if steps != [] {
      StepKeepsInv(s, steps[0]);
      StepKeepsDead(s, steps[0], f);
      DeadFamilyStaysDead(Apply(s, steps[0]), steps[1..], f);
    }
  }

  /** Revoking a family kills it if and only if no rotation of it is in flight. */
  lemma RevokeKillsUnlessRotating(s: State, p: int)
    requires Inv(s) && p in s.requests && s.requests[p].Revoking? && KnownFamily(s, s.requests[p].family)
    ensures var f := s.requests[p].family;
            Dead(Apply(s, RunRevoke(p)), f) <==> forall q :: !Holds(s, f, InFlight(q))
  {
    var f := s.requests[p].family;
    var s' := Apply(s, RunRevoke(p));
    var known :| known in s.rows && s.rows[known].family == f;
    assert known in s'.rows && s'.rows[known].family == f;
    forall h ensures Holds(s', f, h) <==> h.InFlight? && Holds(s, f, h) {
      if h.Stored? && h.id in s.rows && s.rows[h.id].family == f {
        assert s'.rows[h.id].revoked.Some?;
      }
    }
    if Dead(s', f) {
      forall q ensures !Holds(s, f, InFlight(q)) {
        assert !Holds(s', f, InFlight(q));
      }
    }
  }

  /** A revocation touches the rows of its family, or of its user, and no others. */
  lemma RevocationIsLocal(s: State, p: int)
    requires Enabled(s, RunRevoke(p))
    ensures var s' := Apply(s, RunRevoke(p)); var r := s.requests[p];
      && (r.Revoking? ==> OnlyRevoked(s.rows, s'.rows, s.rows.Keys, s.now, (t: Token) => t.family == r.family))
      && (r.RevokingUser? ==> OnlyRevoked(s.rows, s'.rows, s.rows.Keys, s.now, (t: Token) => t.user == r.user))
      && s'.requests == s.requests - {p} && s'.consumed == s.consumed && s'.now == s.now
  {
  }

  /** In every state: a family loses what extends its sessions exactly by its consumption, by a
      revocation of the family or of the token's user, or when the rotation in flight ends. In
      particular no step of one family or user takes anything from another. */
  lemma HolderIsLost(s: State, step: Step, f: int, h: Holder)
    requires Enabled(s, step) && Holds(s, f, h)
    ensures !Holds(Apply(s, step), f, h) <==>
      match h
      case Stored(id) =>
        || (step.Update? && s.requests[step.p].id == id)
        || (step.RunRevoke? && s.requests[step.p] == Revoking(f))
        || (step.RunRevoke? && s.requests[step.p] == RevokingUser(s.rows[id].user))
      case InFlight(p) =>
        (step.Insert? || step.UserMissing? || step.Stop?) && step.p == p
  {
  }

  /** What a refresh makes of the row it selected: only a live, unexpired token goes on to be
      consumed, a used one leads to the revocation of its family, any other request ends. */
  lemma PresentedOutcome(s: State, p: int, found: Option<int>)
    requires Enabled(s, Select(p, found)) && s.requests[p].Presented?
    ensures var s' := Apply(s, Select(p, found));
      && s'.rows == s.rows && s'.consumed == s.consumed
      && (p in s'.requests && s'.requests[p].Checked? <==>
          found.Some? && s.rows[found.value].used == None && s.rows[found.value].revoked == None
          && s.rows[found.value].expires > s.now)
      && (p in s'.requests && s'.requests[p].Checked? ==>
          s'.requests[p] == Checked(found.value, s.rows[found.value].user, s.rows[found.value].family))
      && (p in s'.requests && s'.requests[p].Revoking? <==>
          found.Some? && s.rows[found.value].used != None && s.rows[found.value].revoked == None)
      && (p in s'.requests && s'.requests[p].Revoking? ==> s'.requests[p].family == s.rows[found.value].family)
      && (p in s'.requests ==> s'.requests[p].Checked? || s'.requests[p].Revoking?)
  {
  }

  /** The UPDATE of a refresh consumes the row it checked if it is still live; a request that lost the
      race, or whose user is gone, revokes the family of the token it presented. */
  lemma ConsumedOrRevoked(s: State, p: int)
    requires Enabled(s, Update(p))
    ensures var r, s' := s.requests[p], Apply(s, Update(p));
      var live := r.id in s.rows && s.rows[r.id].used == None && s.rows[r.id].revoked == None;
      && s'.rows == (if live then s.rows[r.id := s.rows[r.id].(used := Some(s.now))] else s.rows)
      && s'.consumed == s.consumed + (if live then [r.id] else [])
      && s'.requests == s.requests[p := if live then Rotating(r.user, r.family) else Revoking(r.family)]
  {
  }

  lemma MissingUserRevokes(s: State, p: int)
    requires Enabled(s, UserMissing(p))
    ensures Apply(s, UserMissing(p)) == s.(requests := s.requests[p := Revoking(s.requests[p].family)])
  {
  }

  /** A rotation's successor is a live token of the same user and family. */
  lemma SuccessorJoinsTheFamily(s: State, p: int, id: int, hash: int, expires: int)
    requires Enabled(s, Insert(p, id, hash, expires))
    ensures var r, s' := s.requests[p], Apply(s, Insert(p, id, hash, expires));
      && s'.rows == s.rows[id := Token(r.user, r.family, hash, expires, None, None)]
      && s'.requests == s.requests - {p} && s'.consumed == s.consumed
  {
  }

  /** Presenting a consumed token of a family that is not revoked leads to its revocation, which
      leaves the family dead if and only if no rotation of it is in flight. */
  lemma ReuseRevokesFamily(s: State, p: int, id: int)
    requires Inv(s) && p in s.requests && s.requests[p].Presented? && Selects(s.rows, s.requests[p].hash, Some(id))
    requires s.rows[id].used.Some? && s.rows[id].revoked.None?
    ensures var s1 := Apply(s, Select(p, Some(id))); var f := s.rows[id].family;
      && s1.rows == s.rows && Enabled(s1, RunRevoke(p))
      && (Dead(Apply(s1, RunRevoke(p)), f) <==> forall q :: !Holds(s, f, InFlight(q)))
  {
    var s1 := Apply(s, Select(p, Some(id)));
    var f := s.rows[id].family;
    StepKeepsInv(s, Select(p, Some(id)));
    assert s1.rows[id].family == f;
    RevokeKillsUnlessRotating(s1, p);
    forall q ensures Holds(s1, f, InFlight(q)) <==> Holds(s, f, InFlight(q)) {
    }
  }

  /** A rotation that a revocation misses: whichever rotation is in flight when its family is
      revoked, its successor can still be stored, live. */
  lemma RotationSurvivesRevocation(s: State, p: int, q: int, id: int, hash: int, expires: int)
    requires p in s.requests && s.requests[p].Rotating? && q in s.requests
    requires s.requests[q] == Revoking(s.requests[p].family)
    requires Insertable(s.rows, id, hash)
    ensures var revoked := Apply(s, RunRevoke(q));
            && Enabled(revoked, Insert(p, id, hash, expires))
            && Holds(Apply(revoked, Insert(p, id, hash, expires)), s.requests[p].family, Stored(id))
  {
  }

  /** All tokens of a family, and all requests that check or rotate one, are one user's. */
  ghost predicate OneUser(s: State) {
    && (forall a, b :: a in s.rows && b in s.rows && s.rows[a].family == s.rows[b].family ==>
        s.rows[a].user == s.rows[b].user)
    && (forall p :: p in s.requests && s.requests[p].Checked? ==> CheckedIsRow(s, p))
    && (forall p, id ::
        p in s.requests && s.requests[p].Rotating? && id in s.rows && s.rows[id].family == s.requests[p].family ==>
          s.rows[id].user == s.requests[p].user)
  }

  predicate CheckedIsRow(s: State, p: int)
    requires p in s.requests && s.requests[p].Checked?
  {
    var r := s.requests[p];
    r.id in s.rows && s.rows[r.id].family == r.family && s.rows[r.id].user == r.user
  }

  /** Steps never change whose a row is, and in which family; a new row is of the request's user
      and in its family, or first in a fresh one. */
  lemma RowsMove(s: State, step: Step, id: int)
    requires Enabled(s, step)
    ensures var s' := Apply(s, step);
      && (id in s.rows ==>
          id in s'.rows && s'.rows[id].user == s.rows[id].user && s'.rows[id].family == s.rows[id].family)
      && (id in s'.rows && id !in s.rows ==>
            || (step.Insert? && s.requests[step.p].user == s'.rows[id].user &&
                s.requests[step.p].family == s'.rows[id].family)
            || (step.InsertFirst? && FreshFamily(s, s'.rows[id].family)))
  {
  }

  lemma StepKeepsOneUser(s: State, step: Step)
    requires OneUser(s) && Inv(s) && Enabled(s, step)
    ensures OneUser(Apply(s, step))
  {
    hide OneHolder, ConsumedOnce;
    var s' := Apply(s, step);
    forall a, b | a in s'.rows && b in s'.rows && s'.rows[a].family == s'.rows[b].family
      ensures s'.rows[a].user == s'.rows[b].user
    {
      RowsMove(s, step, a);
      RowsMove(s, step, b);
    }
    forall p | p in s'.requests && s'.requests[p].Checked? ensures CheckedIsRow(s', p) {
      RequestsMove(s, step, p);
    }
    forall p, id | p in s'.requests && s'.requests[p].Rotating? && id in s'.rows &&
        s'.rows[id].family == s'.requests[p].family
      ensures s'.rows[id].user == s'.requests[p].user
    {
      RotatingIsRow(s, step, p, id);
    }
  }

  lemma RequestsMove(s: State, step: Step, p: int)
    requires OneUser(s) && Enabled(s, step)
    requires p in Apply(s, step).requests && Apply(s, step).requests[p].Checked?
    ensures CheckedIsRow(Apply(s, step), p)
  {
    var id := Apply(s, step).requests[p].id;
    RowsMove(s, step, id);
    if p in s.requests && s.requests[p].Checked? { assert CheckedIsRow(s, p); }
  }

  lemma RotatingIsRow(s: State, step: Step, p: int, id: int)
    requires OneUser(s) && Inv(s) && Enabled(s, step)
    requires var s' := Apply(s, step);
      p in s'.requests && s'.requests[p].Rotating? && id in s'.rows && s'.rows[id].family == s'.requests[p].family
    ensures Apply(s, step).rows[id].user == Apply(s, step).requests[p].user
  {
    hide OneHolder, ConsumedOnce;
    RowsMove(s, step, id);
    if step.Update? && step.p == p {
      assert CheckedIsRow(s, p);
    } else {
      assert s.requests[p] == Apply(s, step).requests[p];
      assert KnownFamily(s, s.requests[p].family);
      var known :| known in s.rows && s.rows[known].family == s.requests[p].family;
      if step.Insert? && id !in s.rows {
        assert Holds(s, s.requests[p].family, InFlight(p)) && Holds(s, s.requests[p].family, InFlight(step.p));
        assert s.rows[known].user == s.requests[step.p].user;
      }
    }
  }

  lemma {:induction false} RunKeepsOneUser(s: State, steps: seq<Step>)
    requires OneUser(s) && Inv(s) && RunEnabled(s, steps)
    ensures OneUser(Run(s, steps)) && Inv(Run(s, steps))
    decreases |steps|
  {
    hide OneUser, Inv, Enabled, Apply;
    if steps != [] {
      StepKeepsOneUser(s, steps[0]);
      StepKeepsInv(s, steps[0]);
      RunKeepsOneUser(Apply(s, steps[0]), steps[1..]);
    }
  }

  /** logout-all: in every run, revoking all tokens of a user leaves each family of that user
      dead if and only if no rotation of it is in flight. */
  lemma LogoutAllKillsUnlessRotating(s0: State, steps: seq<Step>, p: int, id: int)
    requires Initial(s0) && RunEnabled(s0, steps)
    requires var s := Run(s0, steps);
      p in s.requests && s.requests[p].RevokingUser? && id in s.rows && s.rows[id].user == s.requests[p].user
    ensures var s := Run(s0, steps); var f := s.rows[id].family;
      Dead(Apply(s, RunRevoke(p)), f) <==> forall q :: !Holds(s, f, InFlight(q))
  {
    hide RunEnabled, Run;
    RunKeepsOneUser(s0, steps);
    var s := Run(s0, steps);
    var f, s' := s.rows[id].family, Apply(s, RunRevoke(p));
    assert id in s'.rows && s'.rows[id].family == f;
    forall h ensures Holds(s', f, h) <==> h.InFlight? && Holds(s, f, h) {
      if h.Stored? && h.id in s.rows && s.rows[h.id].family == f {
        assert s.rows[h.id].user == s.rows[id].user;
        assert s'.rows[h.id].revoked.Some?;
      }
    }
    if Dead(s', f) {
      forall q ensures !Holds(s, f, InFlight(q)) {
        assert !Holds(s', f, InFlight(q));
      }
    }
  }

  lemma {:induction false} RunOneMore(s: State, steps: seq<Step>, step: Step)
    requires RunEnabled(s, steps) && Enabled(Run(s, steps), step)
    ensures RunEnabled(s, steps + [step]) && Run(s, steps + [step]) == Apply(Run(s, steps), step)
    decreases |steps|
  {
    hide Enabled, Apply;
    if steps == [] {
      assert steps + [step] == [step] && [step][1..] == [];
    } else {
      assert (steps + [step])[1..] == steps[1..] + [step];
      RunOneMore(Apply(s, steps[0]), steps[1..], step);
    }
  }

  /** Such a run exists: token 1 of family 7 is consumed by request 1, request 2 presents it
      again and revokes the family, request 1 then stores token 2. */
  lemma RevocationCanMissRotation() returns (s: State, steps: seq<Step>)
    ensures Initial(s) && RunEnabled(s, steps) && Holds(Run(s, steps), 7, Stored(2))
    ensures steps != [] && steps[|steps| - 1].Insert?
    ensures RunRevoke(2) in steps
  {
    hide RunEnabled, Run;
    s := State(map[], map[], 0, []);
    steps := [];
    EmptyRun(s);
    var script := [Start(0, LoggingIn(5)), InsertFirst(0, 1, 100, 7, 50),
                   Start(1, Presented(100)), Select(1, Some(1)), Update(1),
                   Start(2, Presented(100)), Select(2, Some(1)), RunRevoke(2)];
    RunOneMore(s, steps, script[0]);
    steps := steps + [script[0]];
    RunOneMore(s, steps, script[1]);
    steps := steps + [script[1]];
    assert Run(s, steps).rows == map[1 := Token(5, 7, 100, 50, None, None)] && Run(s, steps).requests == map[];
    RunOneMore(s, steps, script[2]);
    steps := steps + [script[2]];
    RunOneMore(s, steps, script[3]);
    steps := steps + [script[3]];
    assert Run(s, steps).requests == map[1 := Checked(1, 5, 7)];
    RunOneMore(s, steps, script[4]);
    steps := steps + [script[4]];
    assert Run(s, steps).rows == map[1 := Token(5, 7, 100, 50, Some(0), None)];
    assert Run(s, steps).requests == map[1 := Rotating(5, 7)];
    RunOneMore(s, steps, script[5]);
    steps := steps + [script[5]];
    RunOneMore(s, steps, script[6]);
    steps := steps + [script[6]];
    assert Run(s, steps).requests == map[1 := Rotating(5, 7), 2 := Revoking(7)];
    RunOneMore(s, steps, script[7]);
    steps := steps + [script[7]];
    assert steps[7] == RunRevoke(2);
    assert Run(s, steps).rows == map[1 := Token(5, 7, 100, 50, Some(0), Some(0))];
    RunOneMore(s, steps, Insert(1, 2, 200, 60));
    steps := steps + [Insert(1, 2, 200, 60)];
    assert steps[7] == RunRevoke(2);
  }

  lemma EmptyRun(s: State)
    ensures RunEnabled(s, []) && Run(s, []) == s
  {
  }
}
