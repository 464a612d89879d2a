/** The token-bucket script, one Redis hash at a time. Tokens are real numbers, times whole
    milliseconds, and `rate` is in tokens per millisecond. */
module TokenBucket {

  datatype Config = Config(capacity: real, rate: real, ttl: int)

  ghost predicate ValidConfig(c: Config) {
    c.capacity >= 0.0 && c.rate > 0.0
  }

  /** The key outlives the time an empty bucket takes to fill. */
  ghost predicate OutlivesFill(c: Config) {
    ValidConfig(c) && c.ttl >= 0 && c.ttl as real * c.rate >= c.capacity
  }

  datatype Bucket = Absent | Present(tokens: real, ts: int, expireAt: int)

  function Min(a: real, b: real): real { if a <= b then a else b }

  function Ceil(x: real): int { -((-x).Floor) }

  /** A level after `elapsed` milliseconds of refilling, capped at the capacity. */
  function Refill(c: Config, tokens: real, elapsed: int): real {
    Min(c.capacity, tokens + elapsed as real * c.rate)
  }

  function Level(c: Config, b: Bucket, now: int): real {
    match b
    case Absent => c.capacity
    case Present(tokens, ts, _) => Refill(c, tokens, if now < ts then 0 else now - ts)
  }

  function Grants(c: Config, b: Bucket, now: int, requested: int): bool {
    Level(c, b, now) >= requested as real
  }

  function Taken(c: Config, b: Bucket, now: int, requested: int): Bucket {
    var level := Level(c, b, now);
    Present(if Grants(c, b, now, requested) then level - requested as real else level, now, now + c.ttl)
  }

  /** The wait a rejected request is told: whole milliseconds to cover the deficit. */
  function Wait(c: Config, b: Bucket, now: int, requested: int): int
    requires c.rate != 0.0
  {
    Ceil((requested as real - Level(c, b, now)) / c.rate)
  }

  /** The third number of the reply; a bucket that does not refill makes the script divide by zero. */
  datatype Told = Milliseconds(ms: int) | Infinite

  class BucketKey {
    var present: bool
    var tokens: real
    var ts: int
    var expireAt: int

    constructor ()
      ensures State() == Absent
    {
      present, tokens, ts, expireAt := false, 0.0, 0, 0;
    }

    ghost function State(): Bucket
      reads this
    {
      if present then Present(tokens, ts, expireAt) else Absent
    }

    method Take(now: int, capacity: real, refillRate: real, requested: int, ttlMs: int)
      returns (allowed: bool, remaining: int, wait: Told)
      modifies this
      ensures State() == Taken(Config(capacity, refillRate, ttlMs), old(State()), now, requested)
      ensures allowed == Grants(Config(capacity, refillRate, ttlMs), old(State()), now, requested)
      ensures remaining == State().tokens.Floor
      ensures wait == if allowed then Milliseconds(0) else if refillRate == 0.0 then Infinite else
                        Milliseconds(Wait(Config(capacity, refillRate, ttlMs), old(State()), now, requested))
    {
      var level, since := tokens, ts;
      if !present {
        level, since := capacity, now;
      }
      var elapsed := if now - since < 0 then 0 else now - since;
      level := Min(capacity, level + elapsed as real * refillRate);
      present, ts, expireAt := true, now, now + ttlMs;
      if level >= requested as real {
        tokens := level - requested as real;
        return true, tokens.Floor, Milliseconds(0);
      }
      var deficit := requested as real - level;
      tokens := level;
      return false, level.Floor, if refillRate == 0.0 then Infinite else Milliseconds(Ceil(deficit / refillRate));
    }
  }

  // ---- Arithmetic of refilling -----------------------------------------------

  /** Two capped refills equal one. */
  lemma RefillTwice(c: Config, tokens: real, a: int, b: int)
    requires ValidConfig(c) && a >= 0 && b >= 0
    ensures Refill(c, Refill(c, tokens, a), b) == Refill(c, tokens, a + b)
  {
    assert b as real * c.rate >= 0.0;
  }

  // ---- Runs of one key -------------------------------------------------------

  datatype Event = Take(now: int, requested: int) | Lapse(now: int)

  datatype World = World(bucket: Bucket, now: int)

  function Next(c: Config, w: World, e: Event): World {
    match e
    case Take(now, requested) => World(Taken(c, w.bucket, now, requested), now)
    case Lapse(now) => World(Absent, now)
  }

  /** The clock never runs back and a key is dropped only once due. */
  predicate Enabled(c: Config, w: World, e: Event) {
    w.now <= e.now && (e.Lapse? && w.bucket.Present? ==> w.bucket.expireAt <= e.now)
  }

  function Run(c: Config, w: World, es: seq<Event>): World
    decreases es
  {
    if es == [] then w else Run(c, Next(c, w, es[0]), es[1..])
  }

  predicate Legal(c: Config, w: World, es: seq<Event>)
    decreases es
  {
    es == [] || (Enabled(c, w, es[0]) && Legal(c, Next(c, w, es[0]), es[1..]))
  }

  function IsGrant(c: Config, w: World, e: Event): bool {
    e.Take? && Grants(c, w.bucket, e.now, e.requested)
  }

  /** The tokens handed out over a run. */
  function Granted(c: Config, w: World, es: seq<Event>): int
    decreases es
  {
    if es == [] then 0 else
      (if IsGrant(c, w, es[0]) then es[0].requested else 0) + Granted(c, Next(c, w, es[0]), es[1..])
  }

  ghost predicate Sane(c: Config, w: World) {
    w.bucket.Present? ==>
      w.bucket.tokens >= 0.0 && w.bucket.ts <= w.now && w.bucket.expireAt == w.bucket.ts + c.ttl
  }

  lemma LevelGrows(c: Config, w: World, a: int, b: int)
    requires ValidConfig(c) && Sane(c, w) && w.now <= a <= b
    ensures Level(c, w.bucket, b) <= Level(c, w.bucket, a) + (b - a) as real * c.rate
  {
    if w.bucket.Present? { RefillTwice(c, w.bucket.tokens, a - w.bucket.ts, b - a); }
  }

  /** A key that is due to be dropped holds a full bucket, so dropping it changes no level. */
  lemma DueMeansFull(c: Config, w: World, now: int, t: int)
    requires OutlivesFill(c) && Sane(c, w) && Enabled(c, w, Lapse(now)) && t >= now
    ensures Level(c, w.bucket, t) == c.capacity
  {}

  lemma NextIsSane(c: Config, w: World, e: Event)
    requires ValidConfig(c) && Sane(c, w) && Enabled(c, w, e)
    ensures Sane(c, Next(c, w, e))
  {}

  lemma {:induction false} RunIsSane(c: Config, w: World, es: seq<Event>)
    requires ValidConfig(c) && Sane(c, w) && Legal(c, w, es)
    ensures Sane(c, Run(c, w, es))
    decreases es
  {
    if es != [] {
      NextIsSane(c, w, es[0]);
      RunIsSane(c, Next(c, w, es[0]), es[1..]);
    }
  }

  /** The level, less everything the clock has refilled so far: only grants lower it. */
  ghost function Credit(c: Config, b: Bucket, t: int): real {
    Level(c, b, t) - t as real * c.rate
  }

  lemma StepKeepsLevel(c: Config, w: World, e: Event)
    requires OutlivesFill(c) && Sane(c, w) && Enabled(c, w, e)
    ensures (if IsGrant(c, w, e) then e.requested as real else 0.0) + Level(c, Next(c, w, e).bucket, e.now)
         <= Level(c, w.bucket, e.now)
  {
    if e.Lapse? { DueMeansFull(c, w, e.now, e.now); }
  }

  lemma CreditSpan(c: Config, w: World, end: World, t1: int, t2: int)
    requires ValidConfig(c) && Sane(c, w) && Sane(c, end) && w.now <= t1 && end.now <= t2
    ensures Credit(c, w.bucket, t1) - Credit(c, end.bucket, t2) <= c.capacity + (t2 - t1) as real * c.rate
  {
    Spread(Level(c, w.bucket, t1), Level(c, end.bucket, t2), t1 as real * c.rate, t2 as real * c.rate,
           (t2 - t1) as real * c.rate, c.capacity);
  }

  lemma Spread(high: real, low: real, r1: real, r2: real, span: real, capacity: real)
    requires high <= capacity && low >= 0.0 && r2 == r1 + span
    ensures (high - r1) - (low - r2) <= capacity + span
  {}

  lemma CreditFalls(c: Config, w: World, t1: int, t2: int)
    requires ValidConfig(c) && Sane(c, w) && w.now <= t1 <= t2
    ensures Credit(c, w.bucket, t2) <= Credit(c, w.bucket, t1)
  {
    LevelGrows(c, w, t1, t2);
  }

  /** What leaves the bucket and what stays in it never exceed what was in it plus the refill. */
  lemma {:induction false} TokensAreConserved(c: Config, w: World, es: seq<Event>, t1: int, t2: int)
    requires OutlivesFill(c) && Sane(c, w) && Legal(c, w, es)
    requires w.now <= t1 <= t2 && (es != [] ==> t1 <= es[0].now) && forall e | e in es :: e.now <= t2
    ensures Granted(c, w, es) as real + Credit(c, Run(c, w, es).bucket, t2) <= Credit(c, w.bucket, t1)
    decreases es
  {
    if es == [] {
      CreditFalls(c, w, t1, t2);
    } else {
      var e := es[0];
      assert e in es;
      NextIsSane(c, w, e);
      TokensAreConserved(c, Next(c, w, e), es[1..], e.now, t2);
      StepKeepsLevel(c, w, e);
      CreditFalls(c, w, t1, e.now);
    }
  }

  /** Over any stretch [t1, t2] of a run, wherever it starts, at most the capacity plus the
      refill of the stretch is handed out. */
  lemma RateBound(c: Config, start: int, before: seq<Event>, es: seq<Event>, t1: int, t2: int)
    requires OutlivesFill(c)
    requires Legal(c, World(Absent, start), before)
    requires var w := Run(c, World(Absent, start), before);
             Legal(c, w, es) && w.now <= t1 <= t2
    requires forall e | e in es :: t1 <= e.now <= t2
    ensures Granted(c, Run(c, World(Absent, start), before), es) as real
         <= c.capacity + (t2 - t1) as real * c.rate
  {
    RunIsSane(c, World(Absent, start), before);
    StretchBound(c, Run(c, World(Absent, start), before), es, t1, t2);
  }

  lemma StretchBound(c: Config, w: World, es: seq<Event>, t1: int, t2: int)
    requires OutlivesFill(c) && Sane(c, w) && Legal(c, w, es) && w.now <= t1 <= t2
    requires forall e | e in es :: t1 <= e.now <= t2
    ensures Granted(c, w, es) as real <= c.capacity + (t2 - t1) as real * c.rate
  {
    var end := Run(c, w, es);
    TokensAreConserved(c, w, es, t1, t2);
    RunIsSane(c, w, es);
    EndsInStretch(c, w, es, t2);
    CreditSpan(c, w, end, t1, t2);
  }

  lemma {:induction false} EndsInStretch(c: Config, w: World, es: seq<Event>, t2: int)
    requires w.now <= t2 && forall e | e in es :: e.now <= t2
    ensures Run(c, w, es).now <= t2
    decreases es
  {
    if es != [] {
      assert es[0] in es;
      EndsInStretch(c, Next(c, w, es[0]), es[1..], t2);
    }
  }

  // ---- The continuously refilled bucket --------------------------------------

  /** The reference: a bucket that is never dropped and that a refused request leaves alone. */
  datatype Tank = Tank(level: real, at: int)

  function TankLevel(c: Config, tank: Tank, now: int): real {
    var uncapped := tank.level + (now - tank.at) as real * c.rate;
    if uncapped > c.capacity then c.capacity else uncapped
  }

  function Draw(c: Config, tank: Tank, e: Event): Tank {
    if e.Take? && TankLevel(c, tank, e.now) >= e.requested as real
    then Tank(TankLevel(c, tank, e.now) - e.requested as real, e.now)
    else tank
  }

  function TankDecisions(c: Config, tank: Tank, es: seq<Event>): seq<bool>
    decreases es
  {
    if es == [] then [] else
      (if es[0].Take? then [TankLevel(c, tank, es[0].now) >= es[0].requested as real] else [])
      + TankDecisions(c, Draw(c, tank, es[0]), es[1..])
  }

  function Decisions(c: Config, w: World, es: seq<Event>): seq<bool>
    decreases es
  {
    if es == [] then [] else
      (if es[0].Take? then [Grants(c, w.bucket, es[0].now, es[0].requested)] else [])
      + Decisions(c, Next(c, w, es[0]), es[1..])
  }

  /** Script and reference hold the same level from now on. */
  ghost predicate Agree(c: Config, w: World, tank: Tank) {
    tank.at <= w.now && forall t | t >= w.now :: Level(c, w.bucket, t) == TankLevel(c, tank, t)
  }

  lemma TankRefills(c: Config, tank: Tank, now: int)
    ensures TankLevel(c, tank, now) == Refill(c, tank.level, now - tank.at)
  {}

  lemma TakeAgrees(c: Config, w: World, tank: Tank, e: Event, next: Bucket, drawn: Tank, t: int)
    requires ValidConfig(c) && e.Take? && tank.at <= e.now <= t
    requires Level(c, w.bucket, e.now) == TankLevel(c, tank, e.now)
    requires next == Taken(c, w.bucket, e.now, e.requested) && drawn == Draw(c, tank, e)
    ensures Level(c, next, t) == TankLevel(c, drawn, t)
  {
    TankRefills(c, tank, e.now);
    TankRefills(c, drawn, t);
    if drawn == tank {
      RefillTwice(c, tank.level, e.now - tank.at, t - e.now);
    }
  }

  lemma NextAgrees(c: Config, w: World, tank: Tank, e: Event)
    requires OutlivesFill(c) && Sane(c, w) && Enabled(c, w, e) && Agree(c, w, tank)
    ensures Agree(c, Next(c, w, e), Draw(c, tank, e))
  {
    var w', tank' := Next(c, w, e), Draw(c, tank, e);
    forall t | t >= w'.now ensures Level(c, w'.bucket, t) == TankLevel(c, tank', t) {
      assert Level(c, w.bucket, e.now) == TankLevel(c, tank, e.now);
      if e.Take? {
        TakeAgrees(c, w, tank, e, w'.bucket, tank', t);
      } else {
        DueMeansFull(c, w, e.now, t);
        assert Level(c, w.bucket, t) == TankLevel(c, tank, t);
      }
    }
  }

  lemma {:induction false} RunRefinesTank(c: Config, w: World, tank: Tank, es: seq<Event>)
    requires OutlivesFill(c) && Sane(c, w) && Legal(c, w, es) && Agree(c, w, tank)
    ensures Decisions(c, w, es) == TankDecisions(c, tank, es)
    decreases es
  {
    if es != [] {
      var e := es[0];
      assert Level(c, w.bucket, e.now) == TankLevel(c, tank, e.now);
      NextAgrees(c, w, tank, e);
      NextIsSane(c, w, e);
      RunRefinesTank(c, Next(c, w, e), Draw(c, tank, e), es[1..]);
    }
  }

  /** Key expiry and refused attempts change no decision: in every run of a new key the script
      decides as the bucket that starts full, refills for ever and that only grants touch. */
  lemma ScriptRefinesTank(c: Config, start: int, es: seq<Event>)
    requires OutlivesFill(c) && Legal(c, World(Absent, start), es)
    ensures Decisions(c, World(Absent, start), es) == TankDecisions(c, Tank(c.capacity, start), es)
  {
    RunRefinesTank(c, World(Absent, start), Tank(c.capacity, start), es);
  }

  // ---- The wait told to a rejected request -----------------------------------

  predicate NoGrant(c: Config, w: World, es: seq<Event>)
    decreases es
  {
    es == [] || (!IsGrant(c, w, es[0]) && NoGrant(c, Next(c, w, es[0]), es[1..]))
  }

  /** While nothing is granted the level at any later time stays what it was going to be. */
  lemma {:induction false} RefusalsChangeNothing(c: Config, w: World, es: seq<Event>, t: int)
    requires OutlivesFill(c) && Sane(c, w) && Legal(c, w, es) && NoGrant(c, w, es)
    requires t >= Run(c, w, es).now
    ensures t >= w.now
    ensures Level(c, Run(c, w, es).bucket, t) == Level(c, w.bucket, t)
    decreases es
  {
    if es != [] {
      var e := es[0];
      NextIsSane(c, w, e);
      RefusalsChangeNothing(c, Next(c, w, e), es[1..], t);
      match e
      case Take(now, _) =>
        if w.bucket.Present? {
          RefillTwice(c, w.bucket.tokens, now - w.bucket.ts, t - now);
        }
      case Lapse(now) => DueMeansFull(c, w, now, t);
    }
  }

  /** A request refused and told to wait is granted from that instant on and at no earlier
      millisecond, if it fits the bucket at all and nothing else is granted in between; one
      larger than the bucket is never granted, whatever wait it was told. */
  lemma WaitIsExact(c: Config, w: World, now: int, requested: int, mid: seq<Event>, t: int)
    requires OutlivesFill(c) && Sane(c, w) && Enabled(c, w, Take(now, requested))
    requires !Grants(c, w.bucket, now, requested)
    requires var w' := Next(c, w, Take(now, requested));
             Legal(c, w', mid) && NoGrant(c, w', mid) && t >= Run(c, w', mid).now
    ensures var end := Run(c, Next(c, w, Take(now, requested)), mid).bucket;
            Grants(c, end, t, requested) <==>
              requested as real <= c.capacity && t >= now + Wait(c, w.bucket, now, requested)
    ensures Wait(c, w.bucket, now, requested) >= 1
  {
    var w' := Next(c, w, Take(now, requested));
    NextIsSane(c, w, Take(now, requested));
    RefusalsChangeNothing(c, w', mid, t);
    var level := Level(c, w.bucket, now);
    assert Level(c, w'.bucket, t) == Refill(c, level, t - now);
    var deficit := requested as real - level;
    WaitCovers(c, level, requested as real, t - now);
    WaitCovers(c, level, requested as real, 0);
  }

  lemma WaitCovers(c: Config, level: real, requested: real, elapsed: int)
    requires ValidConfig(c) && level <= c.capacity && level < requested
    ensures Refill(c, level, elapsed) >= requested
            <==> requested <= c.capacity && elapsed >= Ceil((requested - level) / c.rate)
    ensures Ceil((requested - level) / c.rate) >= 1
  {
    CeilCovers(requested - level, c.rate, elapsed);
    CeilCovers(requested - level, c.rate, 0);
  }

  /** The rounded-up quotient is the least whole number of steps that covers the deficit. */
  lemma CeilCovers(deficit: real, rate: real, steps: int)
    requires rate > 0.0
    ensures steps >= Ceil(deficit / rate) <==> steps as real * rate >= deficit
  {
    var q := deficit / rate;
    assert q * rate == deficit;
    if steps as real >= q {
      assert (steps as real - q) * rate >= 0.0;
    } else {
      assert (q - steps as real) * rate > 0.0;
    }
  }

  // ---- The time-to-live the caller chooses -----------------------------------

  /** The time-to-live `checkTokenBucket` passes: twice the fill time, cut to whole milliseconds. */
  function TwiceFillTime(capacity: real, refillPerSec: real): int
    requires refillPerSec > 0.0
  {
    (capacity / refillPerSec * 1000.0 * 2.0).Floor
  }

  /** Twice the fill time outlives the fill exactly when the bucket takes at least half a
      millisecond to fill, or holds nothing: below that the time-to-live is cut to zero. */
  lemma TwiceFillTimeOutlivesFill(capacity: real, refillPerSec: real)
    requires capacity >= 0.0 && refillPerSec > 0.0
    ensures OutlivesFill(Config(capacity, refillPerSec / 1000.0, TwiceFillTime(capacity, refillPerSec)))
            <==> capacity == 0.0 || capacity * 2000.0 >= refillPerSec
  {
    var fill := capacity / refillPerSec * 1000.0;
    var rate := refillPerSec / 1000.0;
    assert fill * rate == capacity;
    HalfMillisecond(capacity, refillPerSec, fill);
    TimesRate(TwiceFillTime(capacity, refillPerSec) as real, fill, rate);
  }

  lemma HalfMillisecond(capacity: real, refillPerSec: real, fill: real)
    requires refillPerSec > 0.0 && fill == capacity / refillPerSec * 1000.0
    ensures capacity * 2000.0 >= refillPerSec <==> fill >= 0.5
    ensures capacity == 0.0 <==> fill == 0.0
  {
    assert fill * refillPerSec == capacity * 1000.0;
    TimesRate(fill, 0.5, refillPerSec);
  }

  lemma TimesRate(a: real, b: real, rate: real)
    requires rate > 0.0
    ensures a * rate >= b * rate <==> a >= b
  {
    assert (a - b) * rate == a * rate - b * rate;
    assert a >= b ==> (a - b) * rate >= 0.0;
    assert a < b ==> (b - a) * rate > 0.0;
  }

  /** The grants of a stretch of a run stay within the capacity plus the stretch's refill. */
  ghost predicate StaysWithin(c: Config, start: int, before: seq<Event>, es: seq<Event>, t1: int, t2: int) {
    Legal(c, World(Absent, start), before) ==>
      var w := Run(c, World(Absent, start), before);
      Legal(c, w, es) && w.now <= t1 <= t2 && (forall e | e in es :: t1 <= e.now <= t2) ==>
        Granted(c, w, es) as real <= c.capacity + (t2 - t1) as real * c.rate
  }

  ghost predicate AlwaysWithin(c: Config) {
    forall start, before, es, t1, t2 :: StaysWithin(c, start, before, es, t1, t2)
  }

  /** With the time-to-live the caller passes, every stretch of every run keeps to the bound
      exactly if no request for a token fits the bucket or filling it takes at least half a
      millisecond. */
  lemma RateBoundIff(capacity: real, refillPerSec: real)
    requires capacity >= 0.0 && refillPerSec > 0.0
    ensures AlwaysWithin(Config(capacity, refillPerSec / 1000.0, TwiceFillTime(capacity, refillPerSec)))
            <==> capacity < 1.0 || capacity * 2000.0 >= refillPerSec
  {
    var c := Config(capacity, refillPerSec / 1000.0, TwiceFillTime(capacity, refillPerSec));
    TwiceFillTimeOutlivesFill(capacity, refillPerSec);
    if capacity < 1.0 || capacity * 2000.0 >= refillPerSec {
      forall start, before, es, t1, t2 ensures StaysWithin(c, start, before, es, t1, t2) {
        EachStretchStays(c, start, before, es, t1, t2);
      }
    } else {
      ShortLivedKeyBreaksBound(c);
    }
  }

  lemma EachStretchStays(c: Config, start: int, before: seq<Event>, es: seq<Event>, t1: int, t2: int)
    requires ValidConfig(c) && (c.capacity < 1.0 || OutlivesFill(c))
    ensures StaysWithin(c, start, before, es, t1, t2)
  {
    if Legal(c, World(Absent, start), before) {
      var w := Run(c, World(Absent, start), before);
      if Legal(c, w, es) && w.now <= t1 <= t2 && forall e | e in es :: t1 <= e.now <= t2 {
        if OutlivesFill(c) {
          RateBound(c, start, before, es, t1, t2);
        } else {
          NothingFits(c, w, es);
        }
      }
    }
  }

  /** No level exceeds the capacity, so a bucket smaller than a token grants none. */
  lemma {:induction false} NothingFits(c: Config, w: World, es: seq<Event>)
    requires c.capacity < 1.0
    ensures Granted(c, w, es) <= 0
    decreases es
  {
    if es != [] { NothingFits(c, Next(c, w, es[0]), es[1..]); }
  }

  /** n times one token and the end of the key, all in the same millisecond. */
  function Burst(n: nat): seq<Event> {
    if n == 0 then [] else [Take(0, 1), Lapse(0)] + Burst(n - 1)
  }

  lemma {:induction false} BurstIsGranted(c: Config, n: nat)
    requires c.capacity >= 1.0 && c.ttl == 0
    ensures Legal(c, World(Absent, 0), Burst(n)) && Granted(c, World(Absent, 0), Burst(n)) == n
    ensures forall e | e in Burst(n) :: e.now == 0
  {
    if n > 0 {
      BurstIsGranted(c, n - 1);
      var es, w := Burst(n), World(Absent, 0);
      var taken := Next(c, w, Take(0, 1));
      assert es[0] == Take(0, 1) && es[1..][0] == Lapse(0) && es[1..][1..] == Burst(n - 1);
      assert IsGrant(c, w, es[0]) && Next(c, taken, Lapse(0)) == w;
      assert Legal(c, taken, es[1..]) && Granted(c, taken, es[1..]) == n - 1;
    }
  }

  /** A key without a time-to-live forgets every grant at once: a bucket that holds a token hands
      out more than it holds within one millisecond. */
  lemma ShortLivedKeyBreaksBound(c: Config)
    requires c.capacity >= 1.0 && c.ttl == 0
    ensures var es := Burst(c.capacity.Floor + 1);
            && Legal(c, World(Absent, 0), es) && Granted(c, World(Absent, 0), es) as real > c.capacity
            && !StaysWithin(c, 0, [], es, 0, 0)
    ensures !AlwaysWithin(c)
  {
    var es := Burst(c.capacity.Floor + 1);
    BurstIsGranted(c, c.capacity.Floor + 1);
    assert 0 as real * c.rate == 0.0;
    assert !StaysWithin(c, 0, [], es, 0, 0);
  }
}
