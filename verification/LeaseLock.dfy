/** The lease lock: set-if-absent with a time to live, and release and extension guarded by the
    holder's token. Durations are in nanoseconds, Redis times in milliseconds. */
module LeaseLock {

  const MILLISECOND := 1_000_000
  const DEFAULT_LOCK_TTL := 30_000 * MILLISECOND

  datatype Option<T> = None | Some(value: T)

  datatype Outcome = Ok | ErrLockNotAcquired | ErrLockNotOwned

  datatype Entry = Entry(token: string, deadline: int)

  type Keys = map<string, Entry>

  datatype Lock = Lock(key: string, token: string, ttl: int)

  /** The lease Redis is asked for: whole milliseconds, and at least one. */
  function LeaseMs(ttl: int): (ms: int)
    requires ttl > 0
    ensures ms >= 1 && (ttl >= MILLISECOND ==> ms * MILLISECOND <= ttl < (ms + 1) * MILLISECOND)
  {
    if ttl < MILLISECOND then 1 else ttl / MILLISECOND
  }

  function Ttl(ttl: int): (t: int)
    ensures t > 0
  {
    if ttl <= 0 then DEFAULT_LOCK_TTL else ttl
  }

  function Acquired(keys: Keys, now: int, key: string, token: string, ttl: int): Keys {
    if key in keys then keys else keys[key := Entry(token, now + LeaseMs(Ttl(ttl)))]
  }

  predicate Owns(keys: Keys, l: Lock) {
    l.key in keys && keys[l.key].token == l.token
  }

  function Released(keys: Keys, l: Lock): Keys {
    if Owns(keys, l) then keys - {l.key} else keys
  }

  /** PEXPIRE with nothing left to live deletes the key. */
  function Extended(keys: Keys, l: Lock, now: int): Keys {
    if !Owns(keys, l) then keys
    else if l.ttl / MILLISECOND > 0 then keys[l.key := Entry(l.token, now + l.ttl / MILLISECOND)]
    else keys - {l.key}
  }

  class Redis {
    var keys: Keys

    constructor ()
      ensures keys == map[]
    {
      keys := map[];
    }

    method AcquireLock(now: int, key: string, token: string, ttl: int) returns (r: Outcome, lock: Option<Lock>)
      modifies this
      ensures keys == Acquired(old(keys), now, key, token, ttl)
      ensures r == (if key in old(keys) then ErrLockNotAcquired else Ok)
      ensures lock == if r == Ok then Some(Lock(key, token, Ttl(ttl))) else None
      ensures ttl > 0 && r == Ok ==> keys[key].deadline == now + LeaseMs(ttl) && lock.value.ttl == ttl
      ensures ttl <= 0 && r == Ok ==>
                keys[key].deadline == now + 30_000 && lock.value.ttl == 30_000 * MILLISECOND
    {
      var lease := ttl;
      if lease <= 0 { lease := DEFAULT_LOCK_TTL; }
      if key in keys { return ErrLockNotAcquired, None; }
      keys := keys[key := Entry(token, now + LeaseMs(lease))];
      return Ok, Some(Lock(key, token, lease));
    }

    method Release(l: Lock) returns (r: Outcome)
      modifies this
      ensures keys == Released(old(keys), l)
      ensures r == (if Owns(old(keys), l) then Ok else ErrLockNotOwned)
    {
      var res := 0;
      if l.key in keys && keys[l.key].token == l.token {
        keys := keys - {l.key};
        res := 1;
      }
      return if res == 0 then ErrLockNotOwned else Ok;
    }

    method Extend(l: Lock, now: int) returns (r: Outcome)
      modifies this
      ensures keys == Extended(old(keys), l, now)
      ensures r == (if Owns(old(keys), l) then Ok else ErrLockNotOwned)
    {
      var ms := l.ttl / MILLISECOND;
      var res := 0;
      if l.key in keys && keys[l.key].token == l.token {
        if ms <= 0 {
          keys := keys - {l.key};
        } else {
          keys := keys[l.key := Entry(l.token, now + ms)];
        }
        res := 1;
      }
      return if res == 0 then ErrLockNotOwned else Ok;
    }
  }

  // ---- Runs ------------------------------------------------------------------

  /** What the holder of a lock handle knows: its lease runs until, exclusively, that time. */
  datatype Lease = Lease(lock: Lock, until: int)

  datatype Event =
    | Acquire(id: nat, key: string, token: string, ttl: int)
    | Release(id: nat)
    | Extend(id: nat)
    | Tick(later: int)
    | Lapse(key: string)

  datatype World = World(now: int, keys: Keys, leases: map<nat, Lease>, tokens: set<string>)

  function Start(now: int): World { World(now, map[], map[], {}) }

  /** Tokens are unique, handles are new, the clock does not run back, and Redis may drop a key
      at any time from its deadline on. */
  predicate Enabled(w: World, e: Event) {
    match e
    case Acquire(id, _, token, _) => id !in w.leases && token !in w.tokens
    case Release(id) => id in w.leases
    case Extend(id) => id in w.leases
    case Tick(later) => later >= w.now
    case Lapse(key) => key in w.keys && w.keys[key].deadline <= w.now
  }

  function Next(w: World, e: Event): World
    requires Enabled(w, e)
  {
    match e
    case Acquire(id, key, token, ttl) =>
      var lease := Lease(Lock(key, token, Ttl(ttl)), w.now + LeaseMs(Ttl(ttl)));
      World(w.now, Acquired(w.keys, w.now, key, token, ttl),
            if key in w.keys then w.leases else w.leases[id := lease], w.tokens + {token})
    case Release(id) =>
      var lease := w.leases[id];
      w.(keys := Released(w.keys, lease.lock), leases := w.leases[id := lease.(until := w.now)])
    case Extend(id) =>
      var lease := w.leases[id];
      var until := if Owns(w.keys, lease.lock) then w.now + lease.lock.ttl / MILLISECOND else w.now;
      w.(keys := Extended(w.keys, lease.lock, w.now), leases := w.leases[id := lease.(until := until)])
    case Tick(later) => w.(now := later)
    case Lapse(key) => w.(keys := w.keys - {key})
  }

  predicate Legal(w: World, es: seq<Event>)
    decreases es
  {
    es == [] || (Enabled(w, es[0]) && Legal(Next(w, es[0]), es[1..]))
  }

  function Run(w: World, es: seq<Event>): World
    requires Legal(w, es)
    decreases es
  {
    if es == [] then w else Run(Next(w, es[0]), es[1..])
  }

  /** An unexpired lease that its holder has not given up. */
  predicate Held(w: World, id: nat) {
    id in w.leases && w.now < w.leases[id].until
  }

  /** A held lease is what its key says, to the millisecond. */
  ghost predicate Backed(w: World, id: nat) {
    id in w.leases &&
    var l := w.leases[id];
    l.lock.key in w.keys && w.keys[l.lock.key] == Entry(l.lock.token, l.until)
  }

  ghost predicate Good(w: World) {
    && (forall id | Held(w, id) :: Backed(w, id))
    && (forall id | id in w.leases :: w.leases[id].lock.token in w.tokens && w.leases[id].lock.ttl > 0)
    && (forall a, b | a in w.leases && b in w.leases && w.leases[a].lock.token == w.leases[b].lock.token :: a == b)
  }

  lemma NextIsGood(w: World, e: Event)
    requires Good(w) && Enabled(w, e)
    ensures Good(Next(w, e))
  {
    var w' := Next(w, e);
    forall id | Held(w', id) ensures Backed(w', id) {
      if id in w.leases && w.leases[id] == w'.leases[id] { assert Backed(w, id); }
    }
  }

  lemma {:induction false} RunIsGood(w: World, es: seq<Event>)
    requires Good(w) && Legal(w, es)
    ensures Good(Run(w, es))
    decreases es
  {
    if es != [] {
      NextIsGood(w, es[0]);
      RunIsGood(Next(w, es[0]), es[1..]);
    }
  }

  /** After any interleaving at most one handle holds an unexpired lease on a key, whenever Redis
      drops the keys that are past their deadline. */
  lemma MutualExclusion(now: int, es: seq<Event>, a: nat, b: nat)
    requires Legal(Start(now), es)
    requires var w := Run(Start(now), es);
             Held(w, a) && Held(w, b) && w.leases[a].lock.key == w.leases[b].lock.key
    ensures a == b
  {
    RunIsGood(Start(now), es);
    var w := Run(Start(now), es);
    assert Backed(w, a) && Backed(w, b);
  }

  /** While a lease is held, nobody else acquires the key, every other handle's release and
      extension leave it alone, and the holder's own release or extension is granted. */
  lemma HolderIsServed(now: int, es: seq<Event>, a: nat, b: nat)
    requires Legal(Start(now), es) && Held(Run(Start(now), es), a) && b in Run(Start(now), es).leases
    ensures var w := Run(Start(now), es);
            var l, other := w.leases[a].lock, w.leases[b].lock;
            && l.key in w.keys && Owns(w.keys, l)
            && (a != b ==>
                  && Released(w.keys, other).Keys >= {l.key} && Released(w.keys, other)[l.key] == w.keys[l.key]
                  && Extended(w.keys, other, w.now).Keys >= {l.key}
                  && Extended(w.keys, other, w.now)[l.key] == w.keys[l.key])
  {
    RunIsGood(Start(now), es);
    assert Backed(Run(Start(now), es), a);
  }

  /** Releasing again is refused and changes nothing. */
  lemma ReleaseTwice(keys: Keys, l: Lock)
    ensures !Owns(Released(keys, l), l) && Released(Released(keys, l), l) == Released(keys, l)
  {}

  /** An owner's extension keeps the key, for a full lease from now, exactly if the lease is at
      least a millisecond; a shorter one is given up and yet reported as extended. */
  lemma ExtendKeepsIff(keys: Keys, l: Lock, now: int)
    requires Owns(keys, l) && l.ttl > 0
    ensures Owns(Extended(keys, l, now), l) <==> l.ttl >= MILLISECOND
    ensures Owns(Extended(keys, l, now), l) ==> Extended(keys, l, now)[l.key].deadline == now + LeaseMs(l.ttl)
  {}

  // ---- How long a handle holds its key -----------------------------------------

  /** How long a handle acquired for ttl is good for, in milliseconds. */
  function LastsMs(ttl: int): int {
    if ttl > 0 then LeaseMs(ttl) else 30_000
  }

  /** The handle's lease, and its key's deadline as long as the key is still its own. */
  ghost predicate LeaseStays(w: World, id: nat, l: Lock, until: int) {
    && id in w.leases && w.leases[id] == Lease(l, until)
    && (Owns(w.keys, l) ==> w.keys[l.key].deadline == until)
  }

  ghost predicate Touches(e: Event, id: nat) {
    (e.Release? || e.Extend?) && e.id == id
  }

  lemma {:induction false} StaysThroughout(w: World, es: seq<Event>, id: nat, l: Lock, until: int)
    requires Good(w) && Legal(w, es) && LeaseStays(w, id, l, until)
    requires forall e | e in es :: !Touches(e, id)
    ensures Good(Run(w, es)) && LeaseStays(Run(w, es), id, l, until)
    decreases es
  {
    if es != [] {
      assert es[0] in es;
      NextIsGood(w, es[0]);
      StaysThroughout(Next(w, es[0]), es[1..], id, l, until);
    }
  }

  /** A free key acquired at t in any run for a lease of `ttl`, and neither extended nor released by
      its holder since, is held exactly as long as the clock is before t + ttl, or t + 30 seconds
      if the lease asked for is not positive: until then the key is in Redis with the holder's
      token whatever anybody does, and Redis may drop the holder's key exactly from then on. */
  lemma HeldExactlyUntil(start: int, before: seq<Event>, w: World, id: nat, key: string, token: string, ttl: int,
                         after: seq<Event>, end: World)
    requires Legal(Start(start), before) && w == Run(Start(start), before)
    requires Enabled(w, Acquire(id, key, token, ttl)) && key !in w.keys
    requires Legal(Next(w, Acquire(id, key, token, ttl)), after)
    requires end == Run(Next(w, Acquire(id, key, token, ttl)), after)
    requires forall e | e in after :: !Touches(e, id)
    ensures Held(end, id) <==> end.now < w.now + LastsMs(ttl)
    ensures end.now < w.now + LastsMs(ttl) ==>
              key in end.keys && end.keys[key] == Entry(token, w.now + LastsMs(ttl))
    ensures key in end.keys && end.keys[key].token == token ==>
              (Enabled(end, Lapse(key)) <==> end.now >= w.now + LastsMs(ttl))
    ensures id in end.leases && end.leases[id].lock == Lock(key, token, if ttl > 0 then ttl else 30_000 * MILLISECOND)
  {
    RunIsGood(Start(start), before);
    NextIsGood(w, Acquire(id, key, token, ttl));
    var l := Lock(key, token, if ttl > 0 then ttl else 30_000 * MILLISECOND);
    StaysThroughout(Next(w, Acquire(id, key, token, ttl)), after, id, l, w.now + LastsMs(ttl));
    if Held(end, id) { assert Backed(end, id); }
  }

  /** The same after an extension at t by a holder whose key Redis has not dropped yet. */
  lemma ExtendedExactlyUntil(start: int, before: seq<Event>, w: World, id: nat, after: seq<Event>, end: World)
    requires Legal(Start(start), before) && w == Run(Start(start), before)
    requires id in w.leases && Owns(w.keys, w.leases[id].lock) && w.leases[id].lock.ttl >= MILLISECOND
    requires Legal(Next(w, Extend(id)), after) && end == Run(Next(w, Extend(id)), after)
    requires forall e | e in after :: !Touches(e, id)
    ensures var l, until := w.leases[id].lock, w.now + LeaseMs(w.leases[id].lock.ttl);
            && (Held(end, id) <==> end.now < until)
            && (end.now < until ==> l.key in end.keys && end.keys[l.key] == Entry(l.token, until))
            && (Owns(end.keys, l) ==> (Enabled(end, Lapse(l.key)) <==> end.now >= until))
  {
    RunIsGood(Start(start), before);
    NextIsGood(w, Extend(id));
    var l := w.leases[id].lock;
    StaysThroughout(Next(w, Extend(id)), after, id, l, w.now + LeaseMs(l.ttl));
    if Held(end, id) { assert Backed(end, id); }
  }
}
