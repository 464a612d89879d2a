/** The request ids that the rate limiter's own callers hand to the sliding-window script. They are
    made from the clock, so they repeat within one millisecond. */
module RequestIds {
  import opened SortedSets
  import opened GatewayLimiter
  import SW = SlidingWindow

  /** checkSlidingWindow: `now-prefix-n`, with the n = 1 that Check passes. */
  function OwnId(prefix: string): nat -> string {
    (now: nat) => Decimal(now) + ("-" + prefix + "-1")
  }

  /** checkGlobalLimit: `g:now`, on one key for all callers. */
  function GlobalId(): nat -> string {
    (now: nat) => "g:" + Decimal(now)
  }

  ghost predicate TellsTimes(id: nat -> string) {
    forall a: nat, b: nat | id(a) == id(b) :: a == b
  }

  lemma OwnIdTellsTimes(prefix: string)
    ensures TellsTimes(OwnId(prefix)) && TellsTimes(GlobalId())
  {
    var rest := "-" + prefix + "-1";
    forall a: nat, b: nat | OwnId(prefix)(a) == OwnId(prefix)(b) ensures a == b {
      var s := OwnId(prefix)(a);
      assert s[..|s| - |rest|] == Decimal(a) && s[..|s| - |rest|] == Decimal(b);
      DecimalIsInjective(a, b);
    }
    forall a: nat, b: nat | GlobalId()(a) == GlobalId()(b) ensures a == b {
      var s := GlobalId()(a);
      assert s[2..] == Decimal(a) && s[2..] == Decimal(b);
      DecimalIsInjective(a, b);
    }
  }

  datatype Event = Call(now: nat) | Expire(now: nat)

  function Translate(e: Event, id: nat -> string): SW.Event {
    match e
    case Call(now) => SW.Attempt(now, id(now))
    case Expire(now) => SW.Lapse(now)
  }

  function Run(c: SW.Config, w: SW.World, es: seq<Event>, id: nat -> string): SW.World
    decreases es
  {
    if es == [] then w else Run(c, SW.Next(c, w, Translate(es[0], id)), es[1..], id)
  }

  /** The clock does not run back and a key is dropped only once due; ids are what they are. */
  predicate ClockOk(c: SW.Config, w: SW.World, es: seq<Event>, id: nat -> string)
    decreases es
  {
    es == [] ||
    (&& w.now <= es[0].now
     && (es[0].Expire? && w.key.entries != map[] ==> w.key.expireAt <= es[0].now)
     && ClockOk(c, SW.Next(c, w, Translate(es[0], id)), es[1..], id))
  }

  /** No admitted call finds its id in the set. */
  predicate AllFresh(c: SW.Config, w: SW.World, es: seq<Event>, id: nat -> string)
    decreases es
  {
    es == [] ||
    (&& (es[0].Call? && SW.Admits(c, w.key, es[0].now) ==>
           id(es[0].now) !in SW.After(w.key.entries, es[0].now - c.window))
     && AllFresh(c, SW.Next(c, w, Translate(es[0], id)), es[1..], id))
  }

  lemma {:induction false} FreshRunIsGood(c: SW.Config, w: SW.World, es: seq<Event>, id: nat -> string)
    requires SW.Good(c, w) && ClockOk(c, w, es, id) && AllFresh(c, w, es, id)
    ensures SW.Good(c, Run(c, w, es, id))
    decreases es
  {
    if es != [] {
      SW.NextIsGood(c, w, Translate(es[0], id));
      FreshRunIsGood(c, SW.Next(c, w, Translate(es[0], id)), es[1..], id);
    }
  }

  // ---- Runs that keep to the limit ----------------------------------------------

  /** No two admissions of the run fall into one millisecond. */
  predicate Spaced(c: SW.Config, w: SW.World, es: seq<Event>, id: nat -> string)
    decreases es
  {
    es == [] ||
    (&& (es[0].Call? && SW.Admits(c, w.key, es[0].now) ==> es[0].now !in w.log)
     && Spaced(c, SW.Next(c, w, Translate(es[0], id)), es[1..], id))
  }

  /** Every entry is named after the instant of an admission. */
  ghost predicate Named(w: SW.World, id: nat -> string) {
    forall m | m in w.key.entries :: exists t: nat :: t in w.log && m == id(t)
  }

  lemma {:induction false} SpacedIsFresh(c: SW.Config, w: SW.World, es: seq<Event>, id: nat -> string)
    requires TellsTimes(id) && Named(w, id) && Spaced(c, w, es, id)
    ensures AllFresh(c, w, es, id)
    decreases es
  {
    if es != [] {
      SpacedIsFresh(c, SW.Next(c, w, Translate(es[0], id)), es[1..], id);
    }
  }

  /** Whatever the limit, a run that admits no two calls in one millisecond keeps to it. */
  lemma SpacedRunsKeepLimit(c: SW.Config, start: int, es: seq<Event>, id: nat -> string, end: int)
    requires c.ttl >= c.window && TellsTimes(id) && Spaced(c, SW.Start(start), es, id)
    ensures WithinLimit(c, start, es, id, end)
  {
    SpacedIsFresh(c, SW.Start(start), es, id);
    FreshRunsKeepLimit(c, start, es, id, end);
  }

  ghost predicate WithinLimit(c: SW.Config, start: int, es: seq<Event>, id: nat -> string, end: int) {
    ClockOk(c, SW.Start(start), es, id) ==>
      SW.InWindow(c, Run(c, SW.Start(start), es, id).log, end) <= if c.limit < 0 then 0 else c.limit
  }

  lemma FreshRunsKeepLimit(c: SW.Config, start: int, es: seq<Event>, id: nat -> string, end: int)
    requires c.ttl >= c.window && AllFresh(c, SW.Start(start), es, id)
    ensures WithinLimit(c, start, es, id, end)
  {
    SW.StartIsGood(c, start);
    if ClockOk(c, SW.Start(start), es, id) { FreshRunIsGood(c, SW.Start(start), es, id); }
  }

  // ---- When every run does --------------------------------------------------------

  ghost predicate AlwaysWithinLimit(c: SW.Config, id: nat -> string) {
    forall start, es, end :: WithinLimit(c, start, es, id, end)
  }

  /** With room for one request the set is empty whenever a call is admitted. */
  lemma {:induction false} OneAtATimeIsFresh(c: SW.Config, w: SW.World, es: seq<Event>, id: nat -> string)
    requires c.limit <= 1
    ensures AllFresh(c, w, es, id)
    decreases es
  {
    if es != [] {
      OneAtATimeIsFresh(c, SW.Next(c, w, Translate(es[0], id)), es[1..], id);
      if es[0].Call? && SW.Admits(c, w.key, es[0].now) {
        assert SW.After(w.key.entries, es[0].now - c.window) == map[];
      }
    }
  }

  function Calls(n: nat): seq<Event> {
    if n == 0 then [] else [Call(0)] + Calls(n - 1)
  }

  function Zeros(n: nat): seq<int> {
    if n == 0 then [] else Zeros(n - 1) + [0]
  }

  /** Calls in one millisecond all take the same place in the set. */
  lemma SamePlace(c: SW.Config, w: SW.World, id: nat -> string, w': SW.World)
    requires c.limit >= 2 && c.window >= 1 && w' == SW.Next(c, w, SW.Attempt(0, id(0)))
    requires w.key.entries == map[] || w.key.entries == map[id(0) := 0]
    ensures w'.now == 0 && w'.log == w.log + [0] && w'.key.entries == map[id(0) := 0]
  {
    assert SW.After(w.key.entries, 0 - c.window) == w.key.entries;
  }

  lemma OneMoreCall(c: SW.Config, w: SW.World, id: nat -> string, n: nat, w': SW.World)
    requires n > 0 && w.now <= 0 && w' == SW.Next(c, w, SW.Attempt(0, id(0)))
    ensures ClockOk(c, w, Calls(n), id) == ClockOk(c, w', Calls(n - 1), id)
    ensures Run(c, w, Calls(n), id) == Run(c, w', Calls(n - 1), id)
  {
    assert Calls(n)[0] == Call(0) && Calls(n)[1..] == Calls(n - 1);
  }

  lemma {:induction false} CallsAreAllAdmitted(c: SW.Config, w: SW.World, id: nat -> string, done: nat, n: nat)
    requires c.limit >= 2 && c.window >= 1 && w.now == 0 && w.log == Zeros(done)
    requires w.key.entries == map[] || w.key.entries == map[id(0) := 0]
    ensures ClockOk(c, w, Calls(n), id)
    ensures Run(c, w, Calls(n), id).log == Zeros(done + n)
    decreases n
  {
    if n > 0 {
      var w' := SW.Next(c, w, SW.Attempt(0, id(0)));
      SamePlace(c, w, id, w');
      OneMoreCall(c, w, id, n, w');
      CallsAreAllAdmitted(c, w', id, done + 1, n - 1);
    }
  }

  lemma {:induction false} ZerosInWindow(c: SW.Config, n: nat)
    requires c.window >= 1
    ensures SW.InWindow(c, Zeros(n), 0) == n
  {
    if n > 0 {
      ZerosInWindow(c, n - 1);
      assert Zeros(n)[..|Zeros(n)| - 1] == Zeros(n - 1);
    }
  }

  lemma {:induction false} EmptyWindow(c: SW.Config, log: seq<int>, end: int)
    requires c.window <= 0
    ensures SW.InWindow(c, log, end) == 0
  {
    if log != [] { EmptyWindow(c, log[..|log| - 1], end); }
  }

  /** limit + 1 calls in one millisecond all pass. */
  lemma BurstPasses(c: SW.Config, id: nat -> string)
    requires c.limit >= 2 && c.window >= 1
    ensures !WithinLimit(c, 0, Calls(c.limit + 1), id, 0)
  {
    var n := c.limit + 1;
    assert Zeros(0) == [];
    CallsAreAllAdmitted(c, SW.Start(0), id, 0, n);
    Overfull(c, Run(c, SW.Start(0), Calls(n), id).log, n);
  }

  lemma Overfull(c: SW.Config, log: seq<int>, n: nat)
    requires c.window >= 1 && n > c.limit && n > 0 && log == Zeros(n)
    ensures SW.InWindow(c, log, 0) > if c.limit < 0 then 0 else c.limit
  {
    ZerosInWindow(c, n);
  }

  /** Ids made from the clock keep every window within the limit, in all runs, exactly if the limit
      admits no two calls or the window is empty. */
  lemma ClockIdsKeepLimitIff(c: SW.Config, id: nat -> string)
    requires c.ttl >= c.window
    ensures AlwaysWithinLimit(c, id) <==> c.limit <= 1 || c.window <= 0
  {
    if c.limit <= 1 || c.window <= 0 {
      forall start, es, end ensures WithinLimit(c, start, es, id, end) {
        EmptyOrSingle(c, start, es, id, end);
      }
    } else {
      BurstPasses(c, id);
    }
  }

  lemma EmptyOrSingle(c: SW.Config, start: int, es: seq<Event>, id: nat -> string, end: int)
    requires c.ttl >= c.window && (c.limit <= 1 || c.window <= 0)
    ensures WithinLimit(c, start, es, id, end)
  {
    if c.window <= 0 {
      EmptyWindow(c, Run(c, SW.Start(start), es, id).log, end);
    } else {
      OneAtATimeIsFresh(c, SW.Start(start), es, id);
      FreshRunsKeepLimit(c, start, es, id, end);
    }
  }
}
