/** Runs of the session store: any interleaving of whole operations, background clean-ups,
    prunes and clock ticks, with session ids and token ids never used before. */
module SessionRuns {
  import opened Sessions

  // ---- The remaining operations keep the invariant ---------------------------

  lemma {:induction false} AddRevokedExactly(s: Store, ids: seq<string>)
    requires TokensOk(s)
    ensures var r := AddRevoked(s.revoked, s, ids);
            && (forall j | j in s.revoked :: j in r && r[j] == s.revoked[j])
            && (forall id | id in ids && id in s.sessions ::
                  var d := s.sessions[id].value; d.jti in r && r[d.jti] == Unix(d.expiresAt))
            && (forall j | j in r && j !in s.revoked :: exists id :: TokenOf(s, ids, id, j))
  {
    if ids != [] {
      var front, last := ids[..|ids| - 1], ids[|ids| - 1];
      AddRevokedExactly(s, front);
      assert ids == front + [last];
      var r := AddRevoked(s.revoked, s, ids);
      forall j | j in r && j !in s.revoked ensures exists id :: TokenOf(s, ids, id, j) {
        if j in AddRevoked(s.revoked, s, front) {
          var id :| TokenOf(s, front, id, j);
          assert TokenOf(s, ids, id, j);
        } else {
          assert TokenOf(s, ids, last, j);
        }
      }
    }
  }

  ghost predicate TokenOf(s: Store, ids: seq<string>, id: string, jti: string) {
    id in ids && id in s.sessions && s.sessions[id].value.jti == jti
  }

  lemma RevokeAllKeeps(s: Store, user: string, ids: seq<string>)
    requires Ok(s) && IsListing(s, user, ids)
    ensures Ok(RevokeAll(s, user, ids)) && Keeps(s, RevokeAll(s, user, ids), {}, {})
  {
    if ids == [] {
    } else {
      assert ids[0] in ids;
      RevokeAllIndexOk(s, user, ids);
      RevokeAllTokens(s, user, ids);
    }
  }

  lemma RevokeAllIndexOk(s: Store, user: string, ids: seq<string>)
    requires Ok(s) && IsListing(s, user, ids) && ids != []
    ensures IndexOk(RevokeAll(s, user, ids))
  {
    var s' := RevokeAll(s, user, ids);
    forall k | k in s'.sessions ensures IndexedByAge(s', k) { assert IndexedByAge(s, k); }
  }

  lemma RevokeAllTokens(s: Store, user: string, ids: seq<string>)
    requires Ok(s) && IsListing(s, user, ids) && ids != []
    ensures TokensOk(RevokeAll(s, user, ids)) && Keeps(s, RevokeAll(s, user, ids), {}, {})
  {
    var s' := RevokeAll(s, user, ids);
    AddRevokedExactly(s, ids);
    forall k | k in s.sessions ensures KeepsOrRevokes(s, s', k) {}
    forall j | NotCurrent(s, j) ensures NotCurrent(s', j) && (j in s'.revoked ==> j in s.revoked) {
      assert forall id :: !TokenOf(s, ids, id, j);
    }
    forall k | k in s'.sessions ensures s'.sessions[k].value.jti !in s'.revoked {
      assert forall id :: !TokenOf(s, ids, id, s.sessions[k].value.jti);
    }
  }

  lemma PurgeKeeps(s: Store, user: string, ids: set<string>)
    requires Ok(s) && ids !! s.sessions.Keys
    ensures Ok(Purge(s, user, ids)) && Keeps(s, Purge(s, user, ids), {}, {})
  {
    var s' := Purge(s, user, ids);
    MembersGoneIndexOk(s, s', user, ids);
    forall k | k in s.sessions ensures KeepsOrRevokes(s, s', k) {}
    forall j | NotCurrent(s, j) ensures NotCurrent(s', j) {}
  }

  lemma TickOk(s: Store, now: int)
    requires Ok(s) && s.now <= now
    ensures Ok(Tick(s, now))
  {
    var s' := Tick(s, now);
    forall k | k in s'.sessions ensures IndexedByAge(s', k) { assert IndexedByAge(s, k); }
  }

  /** CreateSession as a whole. */
  function Create(s: Store, id: string, user: string, device: string, jti: string, order: seq<string>): Store {
    Enforce(Created(s, id, user, device, jti), order)
  }

  lemma ReleaseKeeps(s: Store, id: string, user: string, device: string, jti: string, r: Store)
    requires Ok(s) && IsNew(s, id, jti) && r == ReleaseDevice(s, user, device)
    ensures Ok(r) && IsNew(r, id, jti) && Keeps(s, r, {}, {})
  {
    if (user, device) in s.devices {
      RevokeKeeps(s, s.devices[(user, device)].value);
    }
  }

  lemma CreatedIs(s: Store, id: string, user: string, device: string, jti: string) returns (r: Store, c: Store)
    ensures r == ReleaseDevice(s, user, device) && c == Add(r, Fresh(r, id, user, device, jti))
    ensures c == Created(s, id, user, device, jti)
  {
    r := ReleaseDevice(s, user, device);
    c := Add(r, Fresh(r, id, user, device, jti));
  }

  lemma CreatedKeeps(s: Store, id: string, user: string, device: string, jti: string) returns (c: Store)
    requires Ok(s) && IsNew(s, id, jti)
    ensures c == Created(s, id, user, device, jti)
    ensures Ok(c) && Keeps(s, c, {id}, {jti})
  {
    var r;
    r, c := CreatedIs(s, id, user, device, jti);
    ReleaseThenAddKeeps(s, id, user, device, jti, r, c);
  }

  lemma ReleaseThenAddKeeps(s: Store, id: string, user: string, device: string, jti: string, r: Store, c: Store)
    requires Ok(s) && IsNew(s, id, jti)
    requires r == ReleaseDevice(s, user, device) && c == Add(r, Fresh(r, id, user, device, jti))
    ensures Ok(c) && Keeps(s, c, {id}, {jti})
  {
    ReleaseKeeps(s, id, user, device, jti, r);
    AddKeepsAll(s, r, Fresh(r, id, user, device, jti), c);
  }

  /** The new session added to a store that quietly came from `s`. */
  lemma AddKeepsAll(s: Store, r: Store, d: Session, c: Store)
    requires Ok(r) && Keeps(s, r, {}, {})
    requires d == Fresh(r, d.id, d.user, d.device, d.jti) && IsNew(r, d.id, d.jti) && c == Add(r, d)
    ensures Ok(c) && Keeps(s, c, {d.id}, {d.jti})
  {
    AddKeeps(r, d);
    QuietThen(s, r, c, {d.id}, {d.jti});
  }

  lemma QuietThen(a: Store, b: Store, c: Store, ids: set<string>, jtis: set<string>)
    requires Keeps(a, b, {}, {}) && Keeps(b, c, ids, jtis)
    ensures Keeps(a, c, ids, jtis)
  {
    KeepsTransitive(a, b, c, ids, jtis);
  }

  lemma ThenQuiet(a: Store, b: Store, c: Store, ids: set<string>, jtis: set<string>)
    requires Keeps(a, b, ids, jtis) && Keeps(b, c, {}, {})
    ensures Keeps(a, c, ids, jtis)
  {
    KeepsTransitive(a, b, c, ids, jtis);
  }

  lemma CreateKeeps(s: Store, id: string, user: string, device: string, jti: string, order: seq<string>)
    requires Ok(s) && IsNew(s, id, jti)
    ensures Ok(Create(s, id, user, device, jti, order))
    ensures Keeps(s, Create(s, id, user, device, jti, order), {id}, {jti})
  {
    var created := CreatedKeeps(s, id, user, device, jti);
    RevokeEachKeeps(created, order[..Surplus(order)]);
    ThenQuiet(s, created, Enforce(created, order), {id}, {jti});
  }

  // ---- The second recorded for a revoked token --------------------------------

  /** Whatever the step took away is recorded with that second; nothing recorded changes. */
  ghost predicate Records(a: Store, b: Store, second: int) {
    && (forall j | j in a.revoked :: j in b.revoked && b.revoked[j] == a.revoked[j])
    && (forall id | id in a.sessions :: KeptOrRecorded(a, b, id, second))
  }

  ghost predicate KeptOrRecorded(a: Store, b: Store, id: string, second: int) {
    id in a.sessions &&
    var jti := a.sessions[id].value.jti;
    || (id in b.sessions && b.sessions[id].value.jti == jti)
    || (jti in b.revoked && b.revoked[jti] == second)
  }

  lemma RecordsTransitive(a: Store, b: Store, c: Store, second: int)
    requires Records(a, b, second) && Records(b, c, second)
    ensures Records(a, c, second)
  {
    forall id | id in a.sessions ensures KeptOrRecorded(a, c, id, second) {
      assert KeptOrRecorded(a, b, id, second);
      if id in b.sessions { assert KeptOrRecorded(b, c, id, second); }
    }
  }

  lemma RevokeRecords(s: Store, id: string)
    requires SessionsOk(s) && TokensOk(s)
    ensures Records(s, Revoke(s, id), Unix(s.now + SESSION_TTL))
  {
    forall k | k in s.sessions ensures KeptOrRecorded(s, Revoke(s, id), k, Unix(s.now + SESSION_TTL)) {}
  }

  lemma RefreshRecords(s: Store, id: string, newJti: string)
    requires SessionsOk(s) && TokensOk(s)
    ensures Records(s, Refresh(s, id, newJti), Unix(s.now + SESSION_TTL))
  {
    var s' := Refresh(s, id, newJti);
    forall k | k in s.sessions ensures KeptOrRecorded(s, s', k, Unix(s.now + SESSION_TTL)) {}
  }

  lemma {:induction false} RevokeEachRecords(s: Store, ids: seq<string>)
    requires Ok(s)
    ensures Records(s, RevokeEach(s, ids), Unix(s.now + SESSION_TTL))
    decreases ids
  {
    if ids == [] {
      forall k | k in s.sessions ensures KeptOrRecorded(s, s, k, Unix(s.now + SESSION_TTL)) {}
    } else {
      var next := Revoke(s, ids[0]);
      RevokeKeeps(s, ids[0]);
      RevokeRecords(s, ids[0]);
      RevokeEachRecords(next, ids[1..]);
      RecordsTransitive(s, next, RevokeEach(next, ids[1..]), Unix(s.now + SESSION_TTL));
    }
  }

  lemma ReleaseRecords(s: Store, user: string, device: string, r: Store)
    requires Ok(s) && r == ReleaseDevice(s, user, device)
    ensures Records(s, r, Unix(s.now + SESSION_TTL))
  {
    if r == s {
      forall k | k in s.sessions ensures KeptOrRecorded(s, s, k, Unix(s.now + SESSION_TTL)) {}
    } else {
      RevokeRecords(s, s.devices[(user, device)].value);
    }
  }

  lemma CreateRecords(s: Store, id: string, user: string, device: string, jti: string, order: seq<string>,
                      e: Store)
    requires Ok(s) && IsNew(s, id, jti) && e == Create(s, id, user, device, jti, order)
    ensures Records(s, e, Unix(s.now + SESSION_TTL))
  {
    var r, c := CreatedIs(s, id, user, device, jti);
    ReleaseRecords(s, user, device, r);
    ReleaseKeeps(s, id, user, device, jti, r);
    ReleaseThenAddKeeps(s, id, user, device, jti, r, c);
    NewThenEvictionRecords(s, r, c, Fresh(r, id, user, device, jti), order, e);
  }

  lemma NewThenEvictionRecords(s: Store, r: Store, c: Store, d: Session, order: seq<string>, e: Store)
    requires Records(s, r, Unix(s.now + SESSION_TTL)) && r.now == s.now && d.id !in r.sessions
    requires c == Add(r, d) && Ok(c) && e == Enforce(c, order)
    ensures Records(s, e, Unix(s.now + SESSION_TTL))
  {
    RecordsTransitive(s, r, c, Unix(s.now + SESSION_TTL));
    RevokeEachRecords(c, order[..Surplus(order)]);
    RecordsTransitive(s, c, e, Unix(s.now + SESSION_TTL));
  }

  /** A revocation of everything writes down the expiry each session had. */
  lemma RevokeAllRecords(s: Store, user: string, ids: seq<string>, id: string)
    requires TokensOk(s) && id in s.sessions && id !in RevokeAll(s, user, ids).sessions
    ensures var d, r := s.sessions[id].value, RevokeAll(s, user, ids).revoked;
            d.jti in r && r[d.jti] == Unix(d.expiresAt)
  {
    AddRevokedExactly(s, ids);
  }

  // ---- Runs ------------------------------------------------------------------

  datatype Event =
    | CreateSession(id: string, user: string, device: string, jti: string, order: seq<string>)
    | GetSession(id: string)
    | RefreshSession(id: string, newJti: string)
    | RevokeSession(id: string)
    | RevokeAllSessions(user: string, ids: seq<string>)
    | PurgeStale(user: string, stale: set<string>)
    | PruneRevokedTokens
    | ClockTick(now: int)

  /** The store, the ids used so far, and every token retired so far with the expiry second
      recorded for it. */
  datatype World = World(store: Store, ids: set<string>, jtis: set<string>, retired: set<(string, int)>)

  function Empty(now: int): World {
    World(Store(map[], map[], map[], map[], now), {}, {}, {})
  }

  function Apply(s: Store, e: Event): Store {
    match e
    case CreateSession(id, user, device, jti, order) => Create(s, id, user, device, jti, order)
    case GetSession(id) => Get(s, id)
    case RefreshSession(id, newJti) => Refresh(s, id, newJti)
    case RevokeSession(id) => Revoke(s, id)
    case RevokeAllSessions(user, ids) => RevokeAll(s, user, ids)
    case PurgeStale(user, stale) => Purge(s, user, stale)
    case PruneRevokedTokens => Prune(s)
    case ClockTick(now) => Tick(s, now)
  }

  ghost predicate Enabled(w: World, e: Event) {
    match e
    case CreateSession(id, user, device, jti, order) =>
      && id != "" && id !in w.ids && jti !in w.jtis
      && IsOrder(Created(w.store, id, user, device, jti), user, order)
    case RefreshSession(_, newJti) => newJti !in w.jtis
    case RevokeAllSessions(user, ids) => IsListing(w.store, user, ids)
    case PurgeStale(_, stale) => stale !! w.store.sessions.Keys
    case ClockTick(now) => w.store.now <= now
    case _ => true
  }

  function NewIds(e: Event): set<string> { if e.CreateSession? then {e.id} else {} }

  function NewJtis(e: Event): set<string> {
    match e
    case CreateSession(_, _, _, jti, _) => {jti}
    case RefreshSession(_, newJti) => {newJti}
    case _ => {}
  }

  function Current(s: Store): set<string> {
    set id | id in s.sessions :: s.sessions[id].value.jti
  }

  /** The tokens current before and not after, with the seconds recorded for them. */
  function Retirees(s: Store, s': Store): set<(string, int)> {
    set id | id in s.sessions && s.sessions[id].value.jti !in Current(s') && s.sessions[id].value.jti in s'.revoked
      :: (s.sessions[id].value.jti, s'.revoked[s.sessions[id].value.jti])
  }

  function Next(w: World, e: Event): World {
    var s' := Apply(w.store, e);
    World(s', w.ids + NewIds(e), w.jtis + NewJtis(e),
          if e.ClockTick? then w.retired else w.retired + Retirees(w.store, s'))
  }

  function Run(w: World, es: seq<Event>): World
    decreases es
  {
    if es == [] then w else Run(Next(w, es[0]), es[1..])
  }

  ghost predicate Legal(w: World, es: seq<Event>)
    decreases es
  {
    es == [] || (Enabled(w, es[0]) && Legal(Next(w, es[0]), es[1..]))
  }

  ghost predicate UsedIdsOk(w: World) {
    && (forall id | id in w.store.sessions :: id in w.ids)
    && (forall u, id | u in w.store.index && id in w.store.index[u].value.members :: id in w.ids)
    && (forall j | j !in w.jtis :: NotCurrent(w.store, j) && j !in w.store.revoked)
  }

  /** A retired token is nobody's, and is either held revoked until the second recorded for it,
      or that second has begun. */
  ghost predicate Settled(w: World, j: string, second: int) {
    && j in w.jtis && NotCurrent(w.store, j)
    && if j in w.store.revoked then w.store.revoked[j] == second else second * SECOND <= w.store.now
  }

  ghost predicate Good(w: World) {
    && Ok(w.store) && UsedIdsOk(w)
    && forall j, second | (j, second) in w.retired :: Settled(w, j, second)
  }

  lemma EmptyIsGood(now: int)
    ensures Good(Empty(now))
  {}

  lemma IsNewHere(w: World, id: string, jti: string)
    requires UsedIdsOk(w) && id != "" && id !in w.ids && jti !in w.jtis
    ensures IsNew(w.store, id, jti)
  {}

  /** Every operation but prune and tick keeps the store's invariant and its promise. */
  lemma ApplyKeeps(w: World, e: Event)
    requires Good(w) && Enabled(w, e) && !e.ClockTick? && !e.PruneRevokedTokens?
    ensures Ok(Apply(w.store, e)) && Keeps(w.store, Apply(w.store, e), NewIds(e), NewJtis(e))
  {
    var s := w.store;
    match e
    case CreateSession(id, user, device, jti, order) =>
      IsNewHere(w, id, jti);
      CreateKeeps(s, id, user, device, jti, order);
    case GetSession(id) => GetKeeps(s, id);
    case RefreshSession(id, newJti) =>
      assert NotCurrent(s, newJti);
      RefreshKeeps(s, id, newJti);
    case RevokeSession(id) => RevokeKeeps(s, id);
    case RevokeAllSessions(user, ids) => RevokeAllKeeps(s, user, ids);
    case PurgeStale(user, stale) => PurgeKeeps(s, user, stale);
  }

  lemma RetireesSettle(w: World, w': World, newIds: set<string>, newJtis: set<string>)
    requires Good(w) && Keeps(w.store, w'.store, newIds, newJtis)
    requires newJtis !! w.jtis && w.jtis <= w'.jtis
    ensures forall j, second | (j, second) in w.retired + Retirees(w.store, w'.store) ::
              Settled(w', j, second)
  {
    forall j, second | (j, second) in w.retired + Retirees(w.store, w'.store)
      ensures Settled(w', j, second)
    {
      if (j, second) in w.retired {
        assert Settled(w, j, second);
      } else {
        var id :| id in w.store.sessions && w.store.sessions[id].value.jti == j
                  && j !in Current(w'.store) && j in w'.store.revoked && second == w'.store.revoked[j];
        assert !NotCurrent(w.store, j);
      }
    }
  }

  lemma UsedIdsStay(w: World, w': World, newIds: set<string>, newJtis: set<string>)
    requires UsedIdsOk(w) && Keeps(w.store, w'.store, newIds, newJtis)
    requires w'.ids == w.ids + newIds && w'.jtis == w.jtis + newJtis
    ensures UsedIdsOk(w')
  {
    forall j | j !in w'.jtis ensures NotCurrent(w'.store, j) && j !in w'.store.revoked {
      assert NotCurrent(w.store, j);
    }
  }

  lemma OperationIsGood(w: World, e: Event)
    requires Good(w) && Enabled(w, e) && !e.ClockTick? && !e.PruneRevokedTokens?
    ensures Good(Next(w, e))
  {
    var w' := Next(w, e);
    ApplyKeeps(w, e);
    UsedIdsStay(w, w', NewIds(e), NewJtis(e));
    RetireesSettle(w, w', NewIds(e), NewJtis(e));
  }

  lemma PruneIsGood(w: World)
    requires Good(w)
    ensures Good(Next(w, PruneRevokedTokens))
  {
    var w' := Next(w, PruneRevokedTokens);
    assert Retirees(w.store, w'.store) == {};
    forall j, second | (j, second) in w'.retired ensures Settled(w', j, second) {
      assert Settled(w, j, second);
    }
    forall k | k in w'.store.sessions ensures IndexedByAge(w'.store, k) {
      assert IndexedByAge(w.store, k);
    }
    forall j | j !in w'.jtis ensures NotCurrent(w'.store, j) { assert NotCurrent(w.store, j); }
  }

  lemma TickIsGood(w: World, now: int)
    requires Good(w) && w.store.now <= now
    ensures Good(Next(w, ClockTick(now)))
  {
    var w' := Next(w, ClockTick(now));
    TickOk(w.store, now);
    forall j, second | (j, second) in w'.retired ensures Settled(w', j, second) {
      assert Settled(w, j, second);
    }
    forall j | j !in w'.jtis ensures NotCurrent(w'.store, j) { assert NotCurrent(w.store, j); }
  }

  lemma NextIsGood(w: World, e: Event)
    requires Good(w) && Enabled(w, e)
    ensures Good(Next(w, e))
  {
    match e
    case ClockTick(now) => TickIsGood(w, now);
    case PruneRevokedTokens => PruneIsGood(w);
    case _ => OperationIsGood(w, e);
  }

  lemma {:induction false} RunIsGood(w: World, es: seq<Event>)
    requires Good(w) && Legal(w, es)
    ensures Good(Run(w, es))
    decreases es
  {
    if es != [] {
      NextIsGood(w, es[0]);
      RunIsGood(Next(w, es[0]), es[1..]);
    }
  }

  /** Every token that stops being current other than by its session's own expiry is recorded:
      for the life its session had left if all of a user's are revoked, and otherwise for a whole
      new one, because looking the session up slid it first. */
  lemma RetirementIsRecorded(w: World, e: Event, id: string)
    requires Good(w) && Enabled(w, e) && !e.ClockTick? && id in w.store.sessions
    requires w.store.sessions[id].value.jti !in Current(Next(w, e).store)
    ensures var d, w' := w.store.sessions[id].value, Next(w, e);
            && d.jti in w'.store.revoked && (d.jti, w'.store.revoked[d.jti]) in w'.retired
            && w'.store.revoked[d.jti] == Unix(RecordedExpiry(w.store, e, d))
            && d.expiresAt <= RecordedExpiry(w.store, e, d)
  {
    var s, s' := w.store, Apply(w.store, e);
    if e.RevokeAllSessions? {
      RevokeAllRecords(s, e.user, e.ids, id);
    } else {
      ApplyRecords(w, e, s');
      assert KeptOrRecorded(s, s', id, Unix(s.now + SESSION_TTL));
    }
  }

  function RecordedExpiry(s: Store, e: Event, d: Session): int {
    if e.RevokeAllSessions? then d.expiresAt else s.now + SESSION_TTL
  }

  lemma ApplyRecords(w: World, e: Event, s': Store)
    requires Good(w) && Enabled(w, e) && !e.ClockTick? && !e.RevokeAllSessions?
    requires s' == Apply(w.store, e) && s'.sessions != w.store.sessions
    ensures Records(w.store, s', Unix(w.store.now + SESSION_TTL))
  {
    match e
    case CreateSession(id, user, device, jti, order) =>
      IsNewHere(w, id, jti);
      CreateRecords(w.store, id, user, device, jti, order, s');
    case GetSession(_) =>
    case RefreshSession(id, newJti) => RefreshRecords(w.store, id, newJti);
    case RevokeSession(id) => RevokeRecords(w.store, id);
    case _ =>
  }

  lemma {:induction false} RetiredGrows(w: World, es: seq<Event>)
    ensures w.retired <= Run(w, es).retired
    decreases es
  {
    if es != [] { RetiredGrows(Next(w, es[0]), es[1..]); }
  }
}
