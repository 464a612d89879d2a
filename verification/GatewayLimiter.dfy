/** The API gateway's sliding-window script. It differs from the rate limiter's in two ways:
    it builds the member itself, as the text `now-count`, and keeps the key for two windows. */
module GatewayLimiter {
  import opened SortedSets
  import SW = SlidingWindow

  function Digit(d: nat): char
    requires d < 10
  {
    '0' + (d as char)
  }

  function Decimal(n: nat): string {
    if n < 10 then [Digit(n)] else Decimal(n / 10) + [Digit(n % 10)]
  }

  lemma {:induction false} DecimalHasNoDash(n: nat)
    ensures Decimal(n) != "" && forall i | 0 <= i < |Decimal(n)| :: Decimal(n)[i] != '-'
  {
    if n >= 10 { DecimalHasNoDash(n / 10); }
  }

  lemma {:induction false} DecimalIsInjective(a: nat, b: nat)
    requires Decimal(a) == Decimal(b)
    ensures a == b
  {
    var s := Decimal(a);
    DecimalHasNoDash(a / 10);
    DecimalHasNoDash(b / 10);
    assert |Decimal(a)| > 1 <==> a >= 10;
    assert |Decimal(b)| > 1 <==> b >= 10;
    assert forall c: nat, d: nat | c < 10 && d < 10 && Digit(c) == Digit(d) :: c == d;
    if a >= 10 {
      assert s[..|s| - 1] == Decimal(a / 10) == Decimal(b / 10);
      assert s[|s| - 1] == Digit(a % 10) == Digit(b % 10);
      DecimalIsInjective(a / 10, b / 10);
    }
  }

  /** The number a text of digits stands for. */
  function Value(s: string): int {
    if s == "" then 0 else 10 * Value(s[..|s| - 1]) + (s[|s| - 1] as int - '0' as int)
  }

  /** It is the decimal notation: reading it back gives the number, and it has no leading zero. */
  lemma {:induction false} DecimalReadsBack(n: nat)
    ensures Value(Decimal(n)) == n
    ensures forall i | 0 <= i < |Decimal(n)| :: '0' <= Decimal(n)[i] <= '9'
    ensures n > 0 ==> Decimal(n)[0] != '0'
  {
    if n >= 10 {
      DecimalReadsBack(n / 10);
      assert Decimal(n)[..|Decimal(n)| - 1] == Decimal(n / 10);
    } else {
      assert Decimal(n)[..0] == "";
    }
  }

  /** The member text: `now .. '-' .. count`. */
  function Member(now: nat, count: nat): string {
    Decimal(now) + "-" + Decimal(count)
  }

  lemma MemberIsInjective(a: nat, i: nat, b: nat, j: nat)
    requires Member(a, i) == Member(b, j)
    ensures a == b && i == j
  {
    var s, p, q := Member(a, i), |Decimal(a)|, |Decimal(b)|;
    DecimalHasNoDash(a);
    DecimalHasNoDash(b);
    assert s[p] == '-' && s[q] == '-';
    assert forall k | 0 <= k < p :: s[k] == Decimal(a)[k];
    assert forall k | 0 <= k < q :: s[k] == Decimal(b)[k];
    assert p == q;
    assert s[..p] == Decimal(a) == Decimal(b);
    assert s[p + 1..] == Decimal(i) == Decimal(j);
    DecimalIsInjective(a, b);
    DecimalIsInjective(i, j);
  }

  function GatewayConfig(window: int, limit: int): SW.Config {
    SW.Config(window, window * 2, limit)
  }

  function NextMember(c: SW.Config, k: SW.Key, now: nat): string {
    Member(now, |SW.After(k.entries, now - c.window)|)
  }

  class GatewayKey {
    var entries: ZSet
    var expireAt: int

    constructor ()
      ensures State() == SW.Key(map[], 0)
    {
      entries, expireAt := map[], 0;
    }

    ghost function State(): SW.Key
      reads this
    {
      SW.Key(entries, expireAt)
    }

    /** `check` with the script it runs. */
    method Check(nowMS: nat, windowMS: int, limit: int) returns (isAllowed: bool, count: int)
      modifies this
      ensures var c := GatewayConfig(windowMS, limit);
              && State() == SW.Attempted(c, old(State()), nowMS, NextMember(c, old(State()), nowMS))
              && isAllowed == SW.Admits(c, old(State()), nowMS)
              && count == |SW.After(old(entries), nowMS - windowMS)| + if isAllowed then 1 else 0
    {
      var ttlMS := windowMS * 2;
      var windowStart := nowMS - windowMS;
      entries := SW.After(entries, windowStart);
      count := |entries|;
      if count < limit {
        entries := entries[Member(nowMS, count) := nowMS];
        expireAt := nowMS + ttlMS;
        return true, count + 1;
      } else {
        return false, count;
      }
    }
  }

  // ---- Runs of one key -------------------------------------------------------

  datatype Event = Check(now: nat) | Lapse(now: nat)

  /** The same event for the general window, with the member the script makes up. */
  function Translate(c: SW.Config, w: SW.World, e: Event): SW.Event {
    match e
    case Check(now) => SW.Attempt(now, NextMember(c, w.key, now))
    case Lapse(now) => SW.Lapse(now)
  }

  function TranslateAll(c: SW.Config, w: SW.World, es: seq<Event>): seq<SW.Event>
    decreases es
  {
    if es == [] then [] else
      var e := Translate(c, w, es[0]);
      [e] + TranslateAll(c, SW.Next(c, w, e), es[1..])
  }

  /** Only the clock and the key's lifetime are constrained; nothing is said of members. */
  predicate ClockOk(c: SW.Config, w: SW.World, es: seq<Event>)
    decreases es
  {
    es == [] ||
    (&& w.now <= es[0].now
     && (es[0].Lapse? && w.key.entries != map[] ==> w.key.expireAt <= es[0].now)
     && ClockOk(c, SW.Next(c, w, Translate(c, w, es[0])), es[1..]))
  }

  /** `m` is none of the members the script can still make up, from instant `now` and set
      size `size` on. */
  ghost predicate Spent(m: string, now: int, size: nat) {
    forall t: nat, count: nat | t > now || (t == now && count >= size) :: m != Member(t, count)
  }

  /** Every member is spent, and nothing present has aged out. */
  ghost predicate AllSpent(c: SW.Config, w: SW.World) {
    EntriesSpent(c.window, w.key.entries, w.now)
  }

  ghost predicate EntriesSpent(window: int, z: ZSet, now: int) {
    forall m | m in z :: z[m] <= now && Spent(m, now, |z|) && (window > 0 ==> z[m] > now - window)
  }

  lemma KeptIsSpent(c: SW.Config, w: SW.World, m: string, now: int)
    requires AllSpent(c, w) && w.now <= now
    requires m in SW.After(w.key.entries, now - c.window)
    ensures Spent(m, now, |SW.After(w.key.entries, now - c.window)|)
  {
    if now == w.now {
      assert SW.After(w.key.entries, now - c.window) == w.key.entries;
    }
  }

  lemma NewIsSpent(now: nat, count: nat)
    ensures Spent(Member(now, count), now, count + 1)
  {
    forall t: nat, i: nat | t > now || (t == now && i >= count + 1)
      ensures Member(now, count) != Member(t, i)
    {
      if Member(now, count) == Member(t, i) { MemberIsInjective(now, count, t, i); }
    }
  }

  /** The member is never one the set already holds, so ZADD always grows the set. */
  lemma MemberIsFresh(c: SW.Config, w: SW.World, now: nat)
    requires AllSpent(c, w) && w.now <= now
    ensures NextMember(c, w.key, now) !in SW.After(w.key.entries, now - c.window)
  {
    var m := NextMember(c, w.key, now);
    if m in SW.After(w.key.entries, now - c.window) {
      KeptIsSpent(c, w, m, now);
      assert false;
    }
  }

  lemma NextIsSpent(c: SW.Config, w: SW.World, e: Event)
    requires AllSpent(c, w) && w.now <= e.now
    ensures AllSpent(c, SW.Next(c, w, Translate(c, w, e)))
  {
    if e.Check? { CheckIsSpent(c, w, e.now, SW.Next(c, w, Translate(c, w, e))); }
  }

  lemma CheckIsSpent(c: SW.Config, w: SW.World, now: nat, w': SW.World)
    requires AllSpent(c, w) && w.now <= now && w'.now == now
    requires w'.key == SW.Attempted(c, w.key, now, NextMember(c, w.key, now))
    ensures AllSpent(c, w')
  {
    var kept := SW.After(w.key.entries, now - c.window);
    KeptAreSpent(c, w, now, kept);
    MemberIsFresh(c, w, now);
    AddedIsSpent(c.window, kept, now);
    assert w'.key.entries == if |kept| < c.limit then kept[Member(now, |kept|) := now] else kept;
  }

  lemma KeptAreSpent(c: SW.Config, w: SW.World, now: nat, kept: ZSet)
    requires AllSpent(c, w) && w.now <= now && kept == SW.After(w.key.entries, now - c.window)
    ensures EntriesSpent(c.window, kept, now)
  {
    forall m | m in kept ensures Spent(m, now, |kept|) { KeptIsSpent(c, w, m, now); }
  }

  lemma AddedIsSpent(window: int, kept: ZSet, now: nat)
    requires EntriesSpent(window, kept, now) && Member(now, |kept|) !in kept
    ensures EntriesSpent(window, kept[Member(now, |kept|) := now], now)
  {
    var id := Member(now, |kept|);
    NewIsSpent(now, |kept|);
    assert |kept[id := now]| == |kept| + 1;
  }

  /** What an admitted check adds: a member named after its time and the calls the window held before, in a
      key that stays for two windows from then. */
  lemma CheckKeepsTwoWindows(window: int, limit: int, w: SW.World, now: nat, next: SW.World)
    requires var c := GatewayConfig(window, limit);
             SW.Admits(c, w.key, now) && next == SW.Next(c, w, Translate(c, w, Check(now)))
    ensures next.key.expireAt == now + 2 * window
    ensures var member := Decimal(now) + "-" + Decimal(|SW.After(w.key.entries, now - window)|);
            member in next.key.entries && next.key.entries[member] == now
  {}

  /** Every gateway run is a legal run of the general window: fresh members come for free. */
  lemma {:induction false} GatewayRunIsLegal(c: SW.Config, w: SW.World, es: seq<Event>)
    requires AllSpent(c, w) && ClockOk(c, w, es)
    ensures SW.Legal(c, w, TranslateAll(c, w, es))
    decreases es
  {
    if es != [] {
      var e := Translate(c, w, es[0]);
      if es[0].Check? { MemberIsFresh(c, w, es[0].now); }
      NextIsSpent(c, w, es[0]);
      GatewayRunIsLegal(c, SW.Next(c, w, e), es[1..]);
      assert TranslateAll(c, w, es)[1..] == TranslateAll(c, SW.Next(c, w, e), es[1..]);
    }
  }

  /** The gateway lets through what a limiter with an unbounded log would, and no window of a
      run is overfull, with no assumption on members at all. */
  lemma GatewayRefinesLog(window: nat, limit: int, start: int, es: seq<Event>, end: int)
    requires ClockOk(GatewayConfig(window, limit), SW.Start(start), es)
    ensures var c := GatewayConfig(window, limit);
            var run := TranslateAll(c, SW.Start(start), es);
            && SW.Run(c, SW.Start(start), run).log == SW.ReferenceLog(c, [], run)
            && SW.InWindow(c, SW.Run(c, SW.Start(start), run).log, end) <= if limit < 0 then 0 else limit
  {
    var c := GatewayConfig(window, limit);
    GatewayRunIsLegal(c, SW.Start(start), es);
    var run := TranslateAll(c, SW.Start(start), es);
    SW.ScriptRefinesLog(c, start, run);
    SW.WindowNeverOverfull(c, start, run, end);
  }
}
