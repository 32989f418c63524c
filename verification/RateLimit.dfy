/** The keyed token-bucket limiter (internal/middleware/ratelimit.go). Times are seconds and,
    like the token counts, exact reals. */
module RateLimit {

  datatype Limits = Limits(max: real, rate: real) {
    /** What the callers pass: a burst of at least one and a positive refill rate. */
    predicate Valid() { max >= 1.0 && rate > 0.0 }

    /** An idle bucket is full again after max / rate seconds; a minute is added. */
    function IdleTTL(): real
      requires rate > 0.0
    {
      max / rate + 60.0
    }
  }

  datatype Bucket = Bucket(tokens: real, lastTime: real)

  datatype Verdict = Verdict(ok: bool, left: real, wait: real)

  function Min(a: real, b: real): real { if a <= b then a else b }

  function Earned(rate: real, seconds: real): real { rate * seconds }

  function Refilled(b: Bucket, now: real, c: Limits): real {
    Min(c.max, b.tokens + Earned(c.rate, now - b.lastTime))
  }

  function Wait(tokens: real, rate: real): real
    requires rate > 0.0
  {
    (1.0 - tokens) / rate
  }

  function Spend(b: Bucket, now: real, c: Limits): (Bucket, Verdict)
    requires c.Valid()
  {
    var t := Refilled(b, now, c);
    if t >= 1.0 then (Bucket(t - 1.0, now), Verdict(true, t - 1.0, 0.0))
    else (Bucket(t, now), Verdict(false, t, Wait(t, c.rate)))
  }

  predicate InRange(b: Bucket, now: real, c: Limits) { 0.0 <= b.tokens <= c.max && b.lastTime <= now }

  // ---- arithmetic of the refill ----

  lemma EarnedSum(rate: real, a: real, b: real)
    ensures Earned(rate, a) + Earned(rate, b) == Earned(rate, a + b)
  {
  }

  lemma EarnedGrows(rate: real, a: real, b: real)
    requires rate > 0.0 && a <= b
    ensures Earned(rate, a) <= Earned(rate, b)
  {
    assert rate * (b - a) >= 0.0;
  }

  lemma EarnedZero(rate: real)
    ensures Earned(rate, 0.0) == 0.0
  {
  }

  lemma EarnedReaches(rate: real, d: real, x: real)
    requires rate > 0.0
    ensures Earned(rate, d) >= x <==> d >= x / rate
  {
    assert rate * (x / rate) == x;
    if d >= x / rate {
      EarnedGrows(rate, x / rate, d);
    } else {
      assert rate * (x / rate - d) > 0.0;
    }
  }

  lemma StaysInRange(b: Bucket, now: real, later: real, c: Limits)
    requires c.Valid() && InRange(b, now, c) && now <= later
    ensures InRange(Spend(b, later, c).0, later, c)
    ensures 0.0 <= Refilled(b, later, c) <= c.max
  {
    EarnedZero(c.rate);
    EarnedGrows(c.rate, 0.0, later - b.lastTime);
  }

  /** The wait a denied request is told is exact: with no other request in between, a retry is
      allowed if and only if that much time has passed. */
  lemma WaitIsExact(b: Bucket, now: real, later: real, c: Limits)
    requires c.Valid() && now <= later
    requires !Spend(b, now, c).1.ok
    ensures Spend(Spend(b, now, c).0, later, c).1.ok <==> later - now >= Spend(b, now, c).1.wait
  {
    hide Earned;
    var t := Refilled(b, now, c);
    EarnedReaches(c.rate, later - now, 1.0 - t);
  }

  // ---- the limiter ----

  datatype Request = Request(key: string, at: real)

  type Buckets = map<string, Bucket>

  datatype Limiter = Limiter(buckets: Buckets, lastSweep: real)

  /** One request against buckets that are never dropped. */
  function Keep(m: Buckets, r: Request, c: Limits): (Buckets, Verdict)
    requires c.Valid()
  {
    var step := Spend(if r.key in m then m[r.key] else Bucket(c.max, r.at), r.at, c);
    (m[r.key := step.0], step.1)
  }

  function Swept(l: Limiter, now: real, c: Limits): Limiter
    requires c.Valid()
  {
    if now - l.lastSweep < c.IdleTTL() then l
    else Limiter(map k | k in l.buckets && now - l.buckets[k].lastTime <= c.IdleTTL() :: l.buckets[k], now)
  }

  function Answer(l: Limiter, r: Request, c: Limits): (Limiter, Verdict)
    requires c.Valid()
  {
    var swept := Swept(l, r.at, c);
    var step := Keep(swept.buckets, r, c);
    (Limiter(step.0, swept.lastSweep), step.1)
  }

  /** The answers to a sequence of requests, with and without sweeping. */
  function Verdicts(l: Limiter, rs: seq<Request>, c: Limits): seq<Verdict>
    requires c.Valid()
    decreases |rs|
  {
    if rs == [] then []
    else
      var step := Answer(l, rs[0], c);
      [step.1] + Verdicts(step.0, rs[1..], c)
  }

  function KeptVerdicts(m: Buckets, rs: seq<Request>, c: Limits): seq<Verdict>
    requires c.Valid()
    decreases |rs|
  {
    if rs == [] then []
    else
      var step := Keep(m, rs[0], c);
      [step.1] + KeptVerdicts(step.0, rs[1..], c)
  }

  predicate InOrder(now: real, rs: seq<Request>)
    decreases |rs|
  {
    rs == [] || (now <= rs[0].at && InOrder(rs[0].at, rs[1..]))
  }

  /** a lacks only buckets of m that are full again. */
  ghost predicate Agrees(a: Buckets, m: Buckets, now: real, c: Limits) {
    && (forall k :: k in a ==> k in m && a[k] == m[k])
    && (forall k :: k in m ==> InRange(m[k], now, c))
    && (forall k :: k in m && k !in a ==> Full(m[k], now, c))
  }

  predicate Full(b: Bucket, now: real, c: Limits) { Refilled(b, now, c) == c.max }

  lemma FullStays(b: Bucket, now: real, later: real, c: Limits)
    requires c.Valid() && now <= later && Full(b, now, c)
    ensures Full(b, later, c)
  {
    EarnedGrows(c.rate, now - b.lastTime, later - b.lastTime);
  }

  lemma IdleIsFull(b: Bucket, now: real, c: Limits)
    requires c.Valid() && InRange(b, now, c) && now - b.lastTime > c.IdleTTL()
    ensures Full(b, now, c)
  {
    EarnedReaches(c.rate, now - b.lastTime, c.max);
  }

  /** A full bucket answers like a new one. */
  lemma FullIsNew(b: Bucket, now: real, c: Limits)
    requires c.Valid() && Full(b, now, c)
    ensures Spend(b, now, c) == Spend(Bucket(c.max, now), now, c)
  {
    EarnedZero(c.rate);
  }

  lemma AgreesLater(a: Buckets, m: Buckets, now: real, later: real, c: Limits)
    requires c.Valid() && Agrees(a, m, now, c) && now <= later
    ensures Agrees(a, m, later, c)
  {
    hide Full;
    forall k | k in m && k !in a ensures Full(m[k], later, c) {
      FullStays(m[k], now, later, c);
    }
  }

  lemma AgreesSwept(l: Limiter, m: Buckets, now: real, c: Limits)
    requires c.Valid() && Agrees(l.buckets, m, now, c)
    ensures Agrees(Swept(l, now, c).buckets, m, now, c)
  {
    hide Full, Limits.IdleTTL;
    forall k | k in m && k !in Swept(l, now, c).buckets ensures Full(m[k], now, c) {
      if k in l.buckets {
        IdleIsFull(m[k], now, c);
      }
    }
  }

  lemma AgreesKeep(a: Buckets, m: Buckets, r: Request, c: Limits)
    requires c.Valid() && Agrees(a, m, r.at, c)
    ensures Keep(a, r, c).1 == Keep(m, r, c).1
    ensures Agrees(Keep(a, r, c).0, Keep(m, r, c).0, r.at, c)
  {
    hide Spend, Full;
    var b := if r.key in m then m[r.key] else Bucket(c.max, r.at);
    if r.key in m && r.key !in a {
      FullIsNew(b, r.at, c);
    }
    StaysInRange(b, r.at, r.at, c);
  }

  /** Sweeping is invisible: on every sequence of requests with non-decreasing times the limiter
      answers exactly like one that never drops a bucket. */
  lemma {:induction false} SweepingIsInvisible(l: Limiter, m: Buckets, now: real, rs: seq<Request>, c: Limits)
    requires c.Valid() && Agrees(l.buckets, m, now, c) && InOrder(now, rs)
    ensures Verdicts(l, rs, c) == KeptVerdicts(m, rs, c)
    decreases |rs|
  {
    hide Agrees, Swept, Keep;
    if rs != [] {
      AgreesLater(l.buckets, m, now, rs[0].at, c);
      AgreesSwept(l, m, rs[0].at, c);
      AgreesKeep(Swept(l, rs[0].at, c).buckets, m, rs[0], c);
      SweepingIsInvisible(Answer(l, rs[0], c).0, Keep(m, rs[0], c).0, rs[0].at, rs[1..], c);
    }
  }

  // ---- the rate bound ----

  /** What a key could spend at a given time. */
  function Level(m: Buckets, key: string, now: real, c: Limits): real {
    if key in m then Refilled(m[key], now, c) else c.max
  }

  function Granted(rs: seq<Request>, vs: seq<Verdict>, key: string): nat
    requires |rs| == |vs|
    decreases |rs|
  {
    if rs == [] then 0
    else (if rs[0].key == key && vs[0].ok then 1 else 0) + Granted(rs[1..], vs[1..], key)
  }

  lemma {:induction false} OneVerdictEach(m: Buckets, rs: seq<Request>, c: Limits)
    requires c.Valid()
    ensures |KeptVerdicts(m, rs, c)| == |rs|
    decreases |rs|
  {
    hide Keep;
    if rs != [] { OneVerdictEach(Keep(m, rs[0], c).0, rs[1..], c); }
  }

  ghost predicate AllInRange(m: Buckets, now: real, c: Limits) { forall k :: k in m ==> InRange(m[k], now, c) }

  lemma LevelRises(m: Buckets, key: string, now: real, later: real, c: Limits)
    requires c.Valid() && AllInRange(m, now, c) && now <= later
    ensures Level(m, key, later, c) <= Level(m, key, now, c) + Earned(c.rate, later - now)
    ensures Level(m, key, now, c) <= c.max
  {
    hide Earned;
    EarnedZero(c.rate);
    EarnedGrows(c.rate, 0.0, later - now);
    if key in m {
      EarnedSum(c.rate, now - m[key].lastTime, later - now);
    }
  }

  lemma LevelSpent(m: Buckets, r: Request, key: string, c: Limits)
    requires c.Valid() && AllInRange(m, r.at, c)
    ensures AllInRange(Keep(m, r, c).0, r.at, c)
    ensures Level(Keep(m, r, c).0, key, r.at, c)
         == Level(m, key, r.at, c) - if r.key == key && Keep(m, r, c).1.ok then 1.0 else 0.0
  {
    hide Earned;
    EarnedZero(c.rate);
    StaysInRange(if r.key in m then m[r.key] else Bucket(c.max, r.at), r.at, r.at, c);
  }

  /** Grants are paid for by the level at the start and what is earned until the last request. */
  lemma {:induction false} GrantsArePaid(m: Buckets, now: real, rs: seq<Request>, key: string, c: Limits)
    requires c.Valid() && AllInRange(m, now, c) && InOrder(now, rs) && rs != []
    ensures |KeptVerdicts(m, rs, c)| == |rs|
    ensures Granted(rs, KeptVerdicts(m, rs, c), key) as real
         <= Level(m, key, now, c) + Earned(c.rate, rs[|rs| - 1].at - now)
    decreases |rs|
  {
    hide Keep, Earned, Level, AllInRange;
    OneVerdictEach(m, rs, c);
    var r := rs[0];
    var next := Keep(m, r, c).0;
    LevelRises(m, key, now, r.at, c);
    RangeLater(m, now, r.at, c);
    LevelSpent(m, r, key, c);
    EarnedSum(c.rate, r.at - now, rs[|rs| - 1].at - r.at);
    assert KeptVerdicts(m, rs, c)[1..] == KeptVerdicts(next, rs[1..], c);
    if |rs| > 1 {
      GrantsArePaid(next, r.at, rs[1..], key, c);
      assert rs[1..][|rs| - 2] == rs[|rs| - 1];
    } else {
      LevelNotNegative(next, key, r.at, c);
      EarnedZero(c.rate);
      assert Granted(rs[1..], KeptVerdicts(next, rs[1..], c), key) == 0;
    }
  }

  lemma RangeLater(m: Buckets, now: real, later: real, c: Limits)
    requires AllInRange(m, now, c) && now <= later
    ensures AllInRange(m, later, c)
  {
  }

  lemma LevelNotNegative(m: Buckets, key: string, now: real, c: Limits)
    requires c.Valid() && AllInRange(m, now, c)
    ensures Level(m, key, now, c) >= 0.0
  {
    if key in m { StaysInRange(m[key], now, now, c); }
  }

  /** The buckets after the first i requests, and the answers from there on. */
  function KeptAfter(m: Buckets, rs: seq<Request>, c: Limits): Buckets
    requires c.Valid()
    decreases |rs|
  {
    if rs == [] then m else KeptAfter(Keep(m, rs[0], c).0, rs[1..], c)
  }

  lemma {:induction false} VerdictsSplit(m: Buckets, now: real, a: seq<Request>, b: seq<Request>, c: Limits)
    requires c.Valid() && AllInRange(m, now, c) && InOrder(now, a + b)
    ensures KeptVerdicts(m, a + b, c) == KeptVerdicts(m, a, c) + KeptVerdicts(KeptAfter(m, a, c), b, c)
    ensures |KeptVerdicts(m, a, c)| == |a|
    ensures b != [] ==> AllInRange(KeptAfter(m, a, c), b[0].at, c) && InOrder(b[0].at, b)
    decreases |a|
  {
    hide Keep, AllInRange;
    if a == [] {
      assert a + b == b;
      if b != [] { RangeLater(m, now, b[0].at, c); }
    } else {
      assert (a + b)[0] == a[0] && (a + b)[1..] == a[1..] + b;
      RangeLater(m, now, a[0].at, c);
      LevelSpent(m, a[0], "", c);
      VerdictsSplit(Keep(m, a[0], c).0, a[0].at, a[1..], b, c);
    }
  }

  /** In any window of requests, one key is granted at most max plus what the rate earns over the
      window's length - for the limiter that sweeps, from its empty start. */
  lemma AtMostMaxPlusRate(start: real, before: seq<Request>, window: seq<Request>, after: seq<Request>, key: string,
                          c: Limits)
    requires c.Valid() && InOrder(start, before + window + after) && window != []
    ensures
      var vs := Verdicts(Limiter(map[], start), before + window + after, c);
      && |vs| == |before| + |window| + |after|
      && Granted(window, vs[|before|..|before| + |window|], key) as real
         <= c.max + c.rate * (window[|window| - 1].at - window[0].at)
  {
    hide Verdicts, KeptVerdicts, KeptAfter, InOrder, Level, Earned, Granted;
    var rs := before + window + after;
    assert Agrees(map[], map[], start, c) && AllInRange(map[], start, c);
    SweepingIsInvisible(Limiter(map[], start), map[], start, rs, c);
    OneVerdictEach(map[], rs, c);
    assert rs == before + (window + after);
    VerdictsSplit(map[], start, before, window + after, c);
    var m := KeptAfter(map[], before, c);
    var now := window[0].at;
    assert (window + after)[0] == window[0];
    VerdictsSplit(m, now, window, after, c);
    InOrderPrefix(now, window, after);
    GrantsArePaid(m, now, window, key, c);
    LevelRises(m, key, now, now, c);
    var vs, mid := Verdicts(Limiter(map[], start), rs, c), KeptVerdicts(m, window, c);
    assert vs == KeptVerdicts(map[], before, c) + (mid + KeptVerdicts(KeptAfter(m, window, c), after, c));
    assert vs[|before|..|before| + |window|] == mid;
    EarnedIs(c.rate, window[|window| - 1].at - now);
  }

  lemma EarnedIs(rate: real, d: real)
    ensures Earned(rate, d) == rate * d
  {
  }

  lemma {:induction false} InOrderPrefix(now: real, a: seq<Request>, b: seq<Request>)
    requires InOrder(now, a + b)
    ensures InOrder(now, a)
    decreases |a|
  {
    if a != [] {
      assert (a + b)[1..] == a[1..] + b;
      InOrderPrefix(a[0].at, a[1..], b);
    }
  }

  // ---- the objects ----

  class TokenBucket {
    var tokens: real
    var lastTime: real

    constructor (tokens: real, lastTime: real)
      ensures State() == Bucket(tokens, lastTime)
    {
      this.tokens := tokens;
      this.lastTime := lastTime;
    }

    function State(): Bucket
      reads this
    {
      Bucket(tokens, lastTime)
    }

    method Take(now: real, c: Limits) returns (v: Verdict)
      requires c.Valid()
      modifies this
      ensures State() == Spend(old(State()), now, c).0
      ensures v == Spend(old(State()), now, c).1
    {
      tokens := Min(c.max, tokens + Earned(c.rate, now - lastTime));
      lastTime := now;
      if tokens >= 1.0 {
        tokens := tokens - 1.0;
        return Verdict(true, tokens, 0.0);
      }
      v := Verdict(false, tokens, Wait(tokens, c.rate));
    }
  }

  /** The loop over all buckets, in any order. */
  method DropIdle(all: map<string, TokenBucket>, now: real, ttl: real) returns (kept: map<string, TokenBucket>)
    ensures forall k :: k in kept ==> k in all && kept[k] == all[k]
    ensures forall k :: k in all ==> (k in kept <==> now - all[k].lastTime <= ttl)
  {
    kept := all;
    var todo := all.Keys;
    while todo != {}
      invariant todo <= kept.Keys <= all.Keys
      invariant forall k :: k in kept ==> kept[k] == all[k]
      invariant forall k :: k in all ==> (k in kept <==> k in todo || now - all[k].lastTime <= ttl)
      decreases |todo|
    {
      var k :| k in todo;
      todo := todo - {k};
      if now - all[k].lastTime > ttl {
        kept := kept - {k};
      }
    }
  }

  class RateLimiter {
    const c: Limits
    var buckets: map<string, TokenBucket>
    var lastSweep: real

    ghost predicate Valid()
      reads this
    {
      c.Valid() && forall a, b :: a in buckets && b in buckets && a != b ==> buckets[a] != buckets[b]
    }

    ghost function State(): Limiter
      reads this, buckets.Values
    {
      Limiter(map k | k in buckets :: buckets[k].State(), lastSweep)
    }

    constructor (maxRequests: nat, ratePerSecond: real, now: real)
      requires maxRequests > 0 && ratePerSecond > 0.0
      ensures Valid() && State() == Limiter(map[], now) && c == Limits(maxRequests as real, ratePerSecond)
    {
      c := Limits(maxRequests as real, ratePerSecond);
      buckets := map[];
      lastSweep := now;
    }

    method Sweep(now: real)
      requires Valid()
      modifies this
      ensures Valid() && buckets.Values <= old(buckets.Values)
      ensures State() == Swept(old(State()), now, c)
    {
      if now - lastSweep < c.IdleTTL() {
        return;
      }
      lastSweep := now;
      buckets := DropIdle(buckets, now, c.IdleTTL());
    }

    method Allow(key: string, now: real) returns (v: Verdict)
      requires Valid()
      modifies this, buckets.Values
      ensures Valid() && State() == Answer(old(State()), Request(key, now), c).0
      ensures v == Answer(old(State()), Request(key, now), c).1
    {
      hide Spend, Swept;
      Sweep(now);
      var unused := new TokenBucket(c.max, now);
      if key !in buckets {
        buckets := buckets[key := unused];
      }
      v := buckets[key].Take(now, c);
    }
  }
}
