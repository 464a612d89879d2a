/** The sliding-window admission script of the rate limiter, one Redis key at a time.
    Times are whole milliseconds; `limit`, `window` and the key's time-to-live are fixed
    for a run. The same script text serves the per-identifier and the global limit. */
module SlidingWindow {
  import opened SortedSets

  datatype Config = Config(window: int, ttl: int, limit: int)

  /** The sorted set and the instant from which Redis may drop the key. */
  datatype Key = Key(entries: ZSet, expireAt: int)

  datatype Reply = Reply(allowed: bool, count: int, remaining: int, retryAfter: int)

  /** What ZREMRANGEBYSCORE key -inf bound leaves. */
  function After(z: ZSet, bound: int): ZSet {
    map m | m in z && z[m] > bound :: z[m]
  }

  /** ZRANGE key 0 0: the lowest-ranked score. */
  function Oldest(z: ZSet): int
    requires z != map[]
  {
    z[Ranking(z)[|z| - 1]]
  }

  lemma OldestIsLeast(z: ZSet) returns (m: string)
    requires z != map[]
    ensures m in z && z[m] == Oldest(z)
    ensures forall k | k in z :: Oldest(z) <= z[k]
  {
    var r := Ranking(z);
    RankingIsRanking(z);
    m := r[|r| - 1];
    forall k | k in z ensures Oldest(z) <= z[k] {
      var i :| 0 <= i < |r| && r[i] == k;
      assert i < |r| - 1 ==> Outranks(z, r[i], r[|r| - 1]);
    }
  }

  function Admits(c: Config, k: Key, now: int): bool {
    |After(k.entries, now - c.window)| < c.limit
  }

  function Attempted(c: Config, k: Key, now: int, id: string): Key {
    var kept := After(k.entries, now - c.window);
    if Admits(c, k, now) then Key(kept[id := now], now + c.ttl) else Key(kept, k.expireAt)
  }

  /** How far the oldest entry of a window is from leaving it. */
  function UntilOldestLeaves(c: Config, kept: ZSet, now: int): int
    requires kept != map[]
  {
    c.window - (now - Oldest(kept))
  }

  /** The wait the script reports with a rejection; it clamps a negative wait to zero. */
  function RetryAfter(c: Config, k: Key, now: int): int {
    var kept := After(k.entries, now - c.window);
    if kept == map[] then 0 else
      var wait := UntilOldestLeaves(c, kept, now);
      if wait < 0 then 0 else wait
  }

  class WindowKey {
    var entries: ZSet
    var expireAt: int

    constructor ()
      ensures State() == Key(map[], 0)
    {
      entries, expireAt := map[], 0;
    }

    ghost function State(): Key
      reads this
    {
      Key(entries, expireAt)
    }

    method Attempt(now: int, window: int, limit: int, reqId: string) returns (r: Reply)
      modifies this
      ensures State() == Attempted(Config(window, window, limit), old(State()), now, reqId)
      ensures r.allowed == Admits(Config(window, window, limit), old(State()), now)
      ensures r.count == |After(old(entries), now - window)| + if r.allowed then 1 else 0
      ensures r.remaining == if r.allowed then limit - r.count else 0
      ensures r.retryAfter == if r.allowed then 0 else RetryAfter(Config(window, window, limit), old(State()), now)
    {
      var windowStart := now - window;
      entries := After(entries, windowStart);
      var count := |entries|;
      if count < limit {
        entries := entries[reqId := now];
        expireAt := now + window;
        return Reply(true, count + 1, limit - count - 1, 0);
      }
      var retryAfter := 0;
      if entries != map[] {
        retryAfter := window - (now - Oldest(entries));
        if retryAfter < 0 { retryAfter := 0; }
      }
      return Reply(false, count, 0, retryAfter);
    }
  }

  // ---- Runs of one key -------------------------------------------------------

  /** A call of the script, or Redis dropping the key after its time-to-live. */
  datatype Event = Attempt(now: int, id: string) | Lapse(now: int)

  /** The key, every admission so far, and the clock. */
  datatype World = World(key: Key, log: seq<int>, now: int)

  function Start(now: int): World { World(Key(map[], 0), [], now) }

  function Next(c: Config, w: World, e: Event): World {
    match e
    case Attempt(now, id) =>
      World(Attempted(c, w.key, now, id), if Admits(c, w.key, now) then w.log + [now] else w.log, now)
    case Lapse(now) =>
      World(Key(map[], w.key.expireAt), w.log, now)
  }

  /** The clock never runs back, an admitted request's id is fresh, and a key is dropped only once
      due. */
  predicate Enabled(c: Config, w: World, e: Event) {
    && w.now <= e.now
    && match e
       case Attempt(now, id) => Admits(c, w.key, now) ==> id !in After(w.key.entries, now - c.window)
       case Lapse(now) => w.key.entries != map[] ==> w.key.expireAt <= now
  }

  function Run(c: Config, w: World, es: seq<Event>): World
    decreases es
  {
    if es == [] then w else Run(c, Next(c, w, es[0]), es[1..])
  }

  predicate Legal(c: Config, w: World, es: seq<Event>)
    decreases es
  {
    es == [] || (Enabled(c, w, es[0]) && Legal(c, Next(c, w, es[0]), es[1..]))
  }

  /** What one call leaves in Redis: of the entries those strictly inside the window, the new one only if
      it was admitted, and a lifetime that only an admission renews. */
  lemma CallLeaves(c: Config, w: World, now: int, id: string, next: World)
    requires next == Next(c, w, Attempt(now, id))
    ensures forall m | m != id :: m in next.key.entries <==> m in w.key.entries && w.key.entries[m] > now - c.window
    ensures forall m | m != id && m in next.key.entries :: next.key.entries[m] == w.key.entries[m]
    ensures Admits(c, w.key, now) ==> id in next.key.entries && next.key.entries[id] == now
    ensures Admits(c, w.key, now) ==> next.key.expireAt == now + c.ttl
    ensures !Admits(c, w.key, now) ==> next.key.expireAt == w.key.expireAt && next.log == w.log
  {}

  /** So in every run the key may go exactly a lifetime after the latest admission, however many calls were
      rejected since. */
  lemma {:induction false} LivesFromLastAdmission(c: Config, w: World, es: seq<Event>)
    requires w.log != [] ==> w.key.expireAt == w.log[|w.log| - 1] + c.ttl
    ensures var end := Run(c, w, es); end.log != [] ==> end.key.expireAt == end.log[|end.log| - 1] + c.ttl
    decreases es
  {
    if es != [] { LivesFromLastAdmission(c, Next(c, w, es[0]), es[1..]); }
  }

  /** The reference limiter: it never forgets an admission and nothing in it expires. */
  function ReferenceLog(c: Config, log: seq<int>, es: seq<Event>): seq<int>
    decreases es
  {
    if es == [] then log else
      var e := es[0];
      var log' := if e.Attempt? && CountAfter(log, e.now - c.window) < c.limit then log + [e.now] else log;
      ReferenceLog(c, log', es[1..])
  }

  function CountAfter(log: seq<int>, bound: int): nat {
    if log == [] then 0 else
      CountAfter(log[..|log| - 1], bound) + if log[|log| - 1] > bound then 1 else 0
  }

  /** Admissions in the interval (end - window, end]. */
  function InWindow(c: Config, log: seq<int>, end: int): nat {
    if log == [] then 0 else
      InWindow(c, log[..|log| - 1], end) + if end - c.window < log[|log| - 1] <= end then 1 else 0
  }

  /** The invariant of every run: the key counts, over every window still of interest, what
      the full log counts, and no window of the log is overfull. */
  ghost predicate Good(c: Config, w: World) {
    && c.ttl >= c.window
    && (forall m | m in w.key.entries ::
          w.key.entries[m] <= w.now && w.key.entries[m] + c.ttl <= w.key.expireAt)
    && (forall i | 0 <= i < |w.log| :: w.log[i] <= w.now)
    && (forall bound | bound >= w.now - c.window ::
          |After(w.key.entries, bound)| == CountAfter(w.log, bound))
    && (forall end :: InWindow(c, w.log, end) <= if c.limit < 0 then 0 else c.limit)
  }

  lemma StartIsGood(c: Config, now: int)
    requires c.ttl >= c.window
    ensures Good(c, Start(now))
  {
    forall bound ensures |After(map[], bound)| == 0 { assert After(map[], bound) == map[]; }
  }

  lemma AfterTwice(z: ZSet, a: int, b: int)
    requires a <= b
    ensures After(After(z, a), b) == After(z, b)
  {}

  lemma AfterAdd(z: ZSet, id: string, now: int, bound: int)
    requires id !in z
    ensures |After(z[id := now], bound)| == |After(z, bound)| + if now > bound then 1 else 0
  {
    if now > bound {
      assert After(z[id := now], bound) == After(z, bound)[id := now];
    } else {
      assert After(z[id := now], bound) == After(z, bound);
    }
  }

  lemma {:induction false} WindowWithinAfter(c: Config, log: seq<int>, end: int, bound: int)
    requires bound <= end - c.window
    ensures InWindow(c, log, end) <= CountAfter(log, bound)
  {
    if log != [] { WindowWithinAfter(c, log[..|log| - 1], end, bound); }
  }

  lemma {:induction false} WindowUpToNow(c: Config, log: seq<int>, now: int)
    requires forall i | 0 <= i < |log| :: log[i] <= now
    ensures InWindow(c, log, now) == CountAfter(log, now - c.window)
  {
    if log != [] { WindowUpToNow(c, log[..|log| - 1], now); }
  }

  lemma CountsAgree(c: Config, w: World, e: Event, bound: int)
    requires Good(c, w) && Enabled(c, w, e) && bound >= e.now - c.window
    ensures |After(Next(c, w, e).key.entries, bound)| == CountAfter(Next(c, w, e).log, bound)
  {
    var z := w.key.entries;
    match e
    case Attempt(now, id) =>
      AfterTwice(z, now - c.window, bound);
      if Admits(c, w.key, now) {
        AfterAdd(After(z, now - c.window), id, now, bound);
        assert (w.log + [now])[..|w.log|] == w.log;
      }
    case Lapse(now) =>
      assert After(z, bound) == map[];
      assert After(map[], bound) == map[];
  }

  lemma WindowStaysBounded(c: Config, w: World, e: Event, end: int)
    requires Good(c, w) && Enabled(c, w, e)
    ensures InWindow(c, Next(c, w, e).log, end) <= if c.limit < 0 then 0 else c.limit
  {
    if e.Attempt? && Admits(c, w.key, e.now) {
      assert (w.log + [e.now])[..|w.log|] == w.log;
      if e.now <= end {
        WindowWithinAfter(c, w.log, end, e.now - c.window);
      }
    }
  }

  lemma NextIsGood(c: Config, w: World, e: Event)
    requires Good(c, w) && Enabled(c, w, e)
    ensures Good(c, Next(c, w, e))
  {
    var w' := Next(c, w, e);
    forall bound | bound >= w'.now - c.window
      ensures |After(w'.key.entries, bound)| == CountAfter(w'.log, bound)
    {
      CountsAgree(c, w, e, bound);
    }
    forall end ensures InWindow(c, w'.log, end) <= if c.limit < 0 then 0 else c.limit {
      WindowStaysBounded(c, w, e, end);
    }
  }

  lemma {:induction false} RunIsGood(c: Config, w: World, es: seq<Event>)
    requires Good(c, w) && Legal(c, w, es)
    ensures Good(c, Run(c, w, es))
    decreases es
  {
    if es != [] {
      NextIsGood(c, w, es[0]);
      RunIsGood(c, Next(c, w, es[0]), es[1..]);
    }
  }

  /** No interval (end - window, end] of a run holds more than `limit` admissions. */
  lemma WindowNeverOverfull(c: Config, start: int, es: seq<Event>, end: int)
    requires c.ttl >= c.window && Legal(c, Start(start), es)
    ensures InWindow(c, Run(c, Start(start), es).log, end) <= if c.limit < 0 then 0 else c.limit
  {
    StartIsGood(c, start);
    RunIsGood(c, Start(start), es);
  }

  lemma {:induction false} RunRefinesLog(c: Config, w: World, es: seq<Event>)
    requires Good(c, w) && Legal(c, w, es)
    ensures Run(c, w, es).log == ReferenceLog(c, w.log, es)
    decreases es
  {
    if es != [] {
      NextIsGood(c, w, es[0]);
      assert |After(w.key.entries, es[0].now - c.window)| == CountAfter(w.log, es[0].now - c.window);
      RunRefinesLog(c, Next(c, w, es[0]), es[1..]);
    }
  }

  /** Eviction and key expiry change no decision: in every run the script lets through
      exactly the admissions of the unbounded log. */
  lemma ScriptRefinesLog(c: Config, start: int, es: seq<Event>)
    requires c.ttl >= c.window && Legal(c, Start(start), es)
    ensures Run(c, Start(start), es).log == ReferenceLog(c, [], es)
  {
    StartIsGood(c, start);
    RunRefinesLog(c, Start(start), es);
  }

  // ---- The wait told to a rejected request -----------------------------------

  /** A rejection under a positive limit leaves a full window, is told a wait of at least a
      millisecond and at most the window, and never reaches the clamp at zero. */
  lemma RetryIsPositive(c: Config, w: World, now: int, id: string)
    requires Good(c, w) && c.limit > 0 && Enabled(c, w, Attempt(now, id)) && !Admits(c, w.key, now)
    ensures var z := Next(c, w, Attempt(now, id)).key.entries;
            && z != map[] && |z| == c.limit
            && RetryAfter(c, w.key, now) == UntilOldestLeaves(c, z, now)
            && 0 < UntilOldestLeaves(c, z, now) <= c.window
  {
    var w' := Next(c, w, Attempt(now, id));
    NextIsGood(c, w, Attempt(now, id));
    var z := w'.key.entries;
    assert |After(z, now - c.window)| == CountAfter(w'.log, now - c.window);
    assert After(z, now - c.window) == z;
    WindowUpToNow(c, w'.log, now);
    var oldest := OldestIsLeast(z);
    assert InWindow(c, w'.log, now) <= c.limit;
  }

  /** From a full key `w0`, nothing is admitted before its oldest entry leaves, and the key is
      open from that instant on, however many refused calls come in between. */
  lemma {:induction false} ClosedUntilOldestLeaves(c: Config, w0: World, w: World, mid: seq<Event>, t: int)
    requires Good(c, w0) && w0.key.entries != map[] && |w0.key.entries| == c.limit
    requires Good(c, w) && w.log == w0.log && w.now >= w0.now && Legal(c, w, mid)
    requires forall e | e in mid :: e.now < Oldest(w0.key.entries) + c.window
    requires t >= Run(c, w, mid).now
    ensures Run(c, w, mid).log == w0.log
    ensures Admits(c, Run(c, w, mid).key, t) <==> t >= Oldest(w0.key.entries) + c.window
    decreases mid
  {
    if mid == [] {
      OpenOnceOldestLeft(c, w0, w, t);
    } else {
      var e := mid[0];
      OpenOnceOldestLeft(c, w0, w, e.now);
      NextIsGood(c, w, e);
      ClosedUntilOldestLeaves(c, w0, Next(c, w, e), mid[1..], t);
    }
  }

  lemma OpenOnceOldestLeft(c: Config, w0: World, w: World, t: int)
    requires Good(c, w0) && w0.key.entries != map[] && |w0.key.entries| == c.limit
    requires Good(c, w) && w.log == w0.log && t >= w.now >= w0.now
    ensures Admits(c, w.key, t) <==> t >= Oldest(w0.key.entries) + c.window
  {
    var bound := t - c.window;
    assert |After(w.key.entries, bound)| == CountAfter(w.log, bound) == |After(w0.key.entries, bound)|;
    SizeBeforeOldest(w0.key.entries, bound);
  }

  lemma SizeBeforeOldest(z: ZSet, bound: int)
    requires z != map[]
    ensures |After(z, bound)| < |z| <==> bound >= Oldest(z)
  {
    var o := OldestIsLeast(z);
    if bound < Oldest(z) {
      assert After(z, bound) == z;
    } else {
      SubsetSize(After(z, bound).Keys, z.Keys - {o});
      assert |After(z, bound)| == |After(z, bound).Keys|;
    }
  }

  /** After a rejection told to wait r, every call before now + r is refused, and the first
      instant at which a call is admitted is exactly now + r. */
  lemma RetryAfterIsExact(c: Config, w: World, now: int, id: string, mid: seq<Event>, t: int)
    requires Good(c, w) && c.limit > 0 && Enabled(c, w, Attempt(now, id)) && !Admits(c, w.key, now)
    requires var w' := Next(c, w, Attempt(now, id));
             && Legal(c, w', mid) && t >= Run(c, w', mid).now
             && forall e | e in mid :: e.now < now + RetryAfter(c, w.key, now)
    ensures var w' := Next(c, w, Attempt(now, id));
            && Run(c, w', mid).log == w.log
            && (Admits(c, Run(c, w', mid).key, t) <==> t >= now + RetryAfter(c, w.key, now))
  {
    RetryIsPositive(c, w, now, id);
    NextIsGood(c, w, Attempt(now, id));
    var w' := Next(c, w, Attempt(now, id));
    ClosedUntilOldestLeaves(c, w', w', mid, t);
  }

  // ---- Peek ------------------------------------------------------------------

  /** The entries exactly one window old: Peek counts them, the script evicts them. */
  function Boundary(c: Config, k: Key, now: int): set<string> {
    set m | m in k.entries && k.entries[m] == now - c.window
  }

  function Peeked(c: Config, k: Key, now: int): set<string> {
    set m | m in k.entries && k.entries[m] >= now - c.window
  }

  function PeekAllows(c: Config, k: Key, now: int): bool {
    |Peeked(c, k, now)| < c.limit
  }

  /** Peek answers what the script would, except that boundary entries may make it refuse
      a request the script admits. */
  lemma PeekIsConservative(c: Config, k: Key, now: int)
    ensures PeekAllows(c, k, now) <==>
            |After(k.entries, now - c.window)| + |Boundary(c, k, now)| < c.limit
    ensures PeekAllows(c, k, now) ==> Admits(c, k, now)
  {
    var kept := After(k.entries, now - c.window);
    assert Peeked(c, k, now) == kept.Keys + Boundary(c, k, now);
    assert kept.Keys !! Boundary(c, k, now);
    assert |kept| == |kept.Keys|;
  }
}
