/** The session store: what every operation of the session cache does to the four linked
    Redis structures, and what every run of operations keeps. Times are nanoseconds; keys
    past their deadline are gone as soon as the clock has passed it. */
module Sessions {

  const SECOND := 1_000_000_000
  const SESSION_TTL := 7 * 24 * 3600 * SECOND
  const REFRESH_TTL := 30 * 24 * 3600 * SECOND
  const MAX_SESSIONS_PER_USER := 10

  datatype Session = Session(
    id: string, user: string, device: string, jti: string,
    createdAt: int, lastSeenAt: int, expiresAt: int, active: bool)

  /** A key's value and the last instant at which it is still there. */
  datatype Slot<T> = Slot(value: T, deadline: int)

  /** The ids of a user's sessions; `since` is when the present key came into being. */
  datatype Index = Index(members: set<string>, since: int)

  datatype Store = Store(
    sessions: map<string, Slot<Session>>,
    index: map<string, Slot<Index>>,
    devices: map<(string, string), Slot<string>>,
    revoked: map<string, int>,
    now: int)

  datatype Lookup = NotFound | Expired | Found(session: Session)

  function Unix(t: int): int { t / SECOND }

  // ---- Operations ------------------------------------------------------------

  function Peek(s: Store, id: string): Lookup {
    if id !in s.sessions then NotFound else
      var d := s.sessions[id].value;
      if !d.active || s.now > d.expiresAt then Expired else
        Found(d.(lastSeenAt := s.now, expiresAt := s.now + SESSION_TTL))
  }

  /** GetSession: a found session slides to a full lifetime from now. */
  function Get(s: Store, id: string): Store {
    match Peek(s, id)
    case Found(d) => s.(sessions := s.sessions[id := Slot(d, s.now + SESSION_TTL)])
    case _ => s
  }

  /** RefreshSession: the token id rotates and the old one is revoked until the new expiry. */
  function Refresh(s: Store, id: string, newJti: string): Store {
    match Peek(s, id)
    case Found(d) =>
      s.(sessions := s.sessions[id := Slot(d.(jti := newJti), s.now + SESSION_TTL)],
         revoked := s.revoked[d.jti := Unix(d.expiresAt)])
    case _ => s
  }

  function WithoutMembers(index: map<string, Slot<Index>>, user: string, ids: set<string>)
    : map<string, Slot<Index>>
  {
    if user !in index then index else
      var left := index[user].value.members - ids;
      if left == {} then index - {user}
      else index[user := Slot(index[user].value.(members := left), index[user].deadline)]
  }

  /** revokeSessionByID: the session, its index entry and its device binding go together. */
  function Revoke(s: Store, id: string): Store {
    match Peek(s, id)
    case Found(d) =>
      s.(sessions := s.sessions - {id},
         index := WithoutMembers(s.index, d.user, {id}),
         devices := s.devices - {(d.user, d.device)},
         revoked := s.revoked[d.jti := Unix(d.expiresAt)])
    case _ => s.(sessions := s.sessions - {id})
  }

  function RevokeEach(s: Store, ids: seq<string>): Store
    decreases ids
  {
    if ids == [] then s else RevokeEach(Revoke(s, ids[0]), ids[1..])
  }

  /** The first half of CreateSession: whatever session the device is bound to is revoked. */
  function ReleaseDevice(s: Store, user: string, device: string): Store {
    if (user, device) in s.devices && s.devices[(user, device)].value != ""
    then Revoke(s, s.devices[(user, device)].value) else s
  }

  function Fresh(s: Store, id: string, user: string, device: string, jti: string): Session {
    Session(id, user, device, jti, s.now, s.now, s.now + SESSION_TTL, true)
  }

  /** The transaction of CreateSession. */
  function Add(s: Store, d: Session): Store {
    var prior := if d.user in s.index then s.index[d.user].value else Index({}, s.now);
    s.(sessions := s.sessions[d.id := Slot(d, s.now + SESSION_TTL)],
       index := s.index[d.user := Slot(prior.(members := prior.members + {d.id}), s.now + REFRESH_TTL)],
       devices := s.devices[(d.user, d.device) := Slot(d.id, s.now + SESSION_TTL)])
  }

  /** The ids ListUserSessions returns. */
  function Listed(s: Store, user: string): set<string> {
    if user !in s.index then {} else
      set id | id in s.index[user].value.members && Peek(s, id).Found?
  }

  /** An order sort.Slice may produce: every listed session once, by creation time. */
  ghost predicate IsOrder(s: Store, user: string, order: seq<string>) {
    && (forall id :: id in order <==> id in Listed(s, user))
    && (forall i, j | 0 <= i < j < |order| ::
          order[i] != order[j] && CreatedAt(s, order[i]) <= CreatedAt(s, order[j]))
  }

  function CreatedAt(s: Store, id: string): int {
    if id in s.sessions then s.sessions[id].value.createdAt else 0
  }

  function Surplus(order: seq<string>): nat {
    if |order| <= MAX_SESSIONS_PER_USER then 0 else |order| - MAX_SESSIONS_PER_USER
  }

  function Enforce(s: Store, order: seq<string>): Store {
    RevokeEach(s, order[..Surplus(order)])
  }

  /** The store in which CreateSession calls enforceSessionLimit. */
  function Created(s: Store, id: string, user: string, device: string, jti: string): Store {
    Add(ReleaseDevice(s, user, device), Fresh(s, id, user, device, jti))
  }

  function AddRevoked(revoked: map<string, int>, s: Store, ids: seq<string>): map<string, int> {
    if ids == [] then revoked else
      var id := ids[|ids| - 1];
      var before := AddRevoked(revoked, s, ids[..|ids| - 1]);
      if id in s.sessions then before[s.sessions[id].value.jti := Unix(s.sessions[id].value.expiresAt)]
      else before
  }

  function BoundDevices(s: Store, user: string, ids: seq<string>): set<(string, string)> {
    set id | id in ids && id in s.sessions :: (user, s.sessions[id].value.device)
  }

  /** RevokeAllSessions, given the index members in the order SMEMBERS returned them. */
  function RevokeAll(s: Store, user: string, ids: seq<string>): Store {
    if ids == [] then s else
      s.(sessions := s.sessions - (set id | id in ids),
         index := s.index - {user},
         devices := s.devices - BoundDevices(s, user, ids),
         revoked := AddRevoked(s.revoked, s, ids))
  }

  ghost predicate IsListing(s: Store, user: string, ids: seq<string>) {
    && (forall id :: id in ids <==> user in s.index && id in s.index[user].value.members)
    && (forall i, j | 0 <= i < j < |ids| :: ids[i] != ids[j])
  }

  /** The clean-up ListUserSessions starts in the background for ids without a session. */
  function Purge(s: Store, user: string, ids: set<string>): Store {
    s.(index := WithoutMembers(s.index, user, ids))
  }

  function IsRevoked(s: Store, jti: string, now: int): bool {
    jti in s.revoked && !(s.revoked[jti] * SECOND < now)
  }

  function Prune(s: Store): Store {
    s.(revoked := map j | j in s.revoked && s.revoked[j] > Unix(s.now) :: s.revoked[j])
  }

  function Unexpired<K, V>(m: map<K, Slot<V>>, now: int): map<K, Slot<V>> {
    map k | k in m && m[k].deadline >= now :: m[k]
  }

  function Tick(s: Store, now: int): Store {
    Store(Unexpired(s.sessions, now), Unexpired(s.index, now), Unexpired(s.devices, now), s.revoked, now)
  }

  // ---- What every operation keeps --------------------------------------------

  ghost predicate SessionsOk(s: Store) {
    forall id | id in s.sessions ::
      var d := s.sessions[id].value;
      && d.id == id && d.active && d.createdAt <= s.now <= d.expiresAt
      && s.sessions[id].deadline == d.expiresAt <= s.now + SESSION_TTL
  }

  /** A live binding names a live session of that user on that device, and ends before it. */
  ghost predicate DevicesOk(s: Store) {
    forall u, d | (u, d) in s.devices ::
      var slot := s.devices[(u, d)];
      && slot.value in s.sessions && slot.value != ""
      && s.sessions[slot.value].value.user == u
      && s.sessions[slot.value].value.device == d
      && s.now <= slot.deadline <= s.sessions[slot.value].deadline
  }

  /** A live session is indexed exactly when it is no older than its user's index key, and
      an index holds no other user's live session. */
  ghost predicate IndexOk(s: Store) {
    && (forall u | u in s.index ::
          s.index[u].value.since <= s.now <= s.index[u].deadline)
    && (forall u, id | u in s.index && id in s.sessions && id in s.index[u].value.members ::
          s.sessions[id].value.user == u)
    && (forall id | id in s.sessions :: IndexedByAge(s, id))
  }

  ghost predicate IndexedByAge(s: Store, id: string) {
    id in s.sessions &&
    var d := s.sessions[id].value;
    if d.user in s.index then
      && (id in s.index[d.user].value.members <==> d.createdAt >= s.index[d.user].value.since)
      && d.createdAt + REFRESH_TTL <= s.index[d.user].deadline
    else
      d.createdAt < s.now
  }

  /** Token ids are never shared, and a live session's is not revoked. */
  ghost predicate TokensOk(s: Store) {
    && (forall i, j | i in s.sessions && j in s.sessions && i != j ::
          s.sessions[i].value.jti != s.sessions[j].value.jti)
    && (forall id | id in s.sessions :: s.sessions[id].value.jti !in s.revoked)
  }

  ghost predicate Ok(s: Store) {
    SessionsOk(s) && DevicesOk(s) && IndexOk(s) && TokensOk(s)
  }

  /** What one operation does to the sessions and tokens it found: it keeps a session and
      its token, without shortening its life, or revokes the token for at least that life;
      and it touches no session id or token id but those it found and the new ones. */
  ghost predicate Keeps(a: Store, b: Store, newIds: set<string>, newJtis: set<string>) {
    && a.now == b.now
    && (forall j | j in a.revoked :: j in b.revoked && b.revoked[j] == a.revoked[j])
    && (forall id | id in a.sessions :: KeepsOrRevokes(a, b, id))
    && (forall id | id in b.sessions :: id in a.sessions || id in newIds)
    && (forall u, id | u in b.index && id in b.index[u].value.members ::
          id in newIds || (u in a.index && id in a.index[u].value.members))
    && (forall j | j !in newJtis && NotCurrent(a, j) ::
          NotCurrent(b, j) && (j in b.revoked ==> j in a.revoked))
  }

  ghost predicate KeepsOrRevokes(a: Store, b: Store, id: string) {
    id in a.sessions &&
    var d := a.sessions[id].value;
    || (id in b.sessions && b.sessions[id].value.jti == d.jti && d.expiresAt <= b.sessions[id].value.expiresAt)
    || (d.jti in b.revoked && b.revoked[d.jti] >= Unix(d.expiresAt))
  }

  ghost predicate NotCurrent(s: Store, jti: string) {
    forall id | id in s.sessions :: s.sessions[id].value.jti != jti
  }

  lemma KeepsTransitive(a: Store, b: Store, c: Store, ids: set<string>, jtis: set<string>)
    requires Keeps(a, b, ids, jtis) && Keeps(b, c, ids, jtis)
    ensures Keeps(a, c, ids, jtis)
  {
    forall id | id in a.sessions ensures KeepsOrRevokes(a, c, id) { SessionKeptTwice(a, b, c, ids, jtis, id); }
    forall j | j !in jtis && NotCurrent(a, j)
      ensures NotCurrent(c, j) && (j in c.revoked ==> j in a.revoked)
    {
      assert NotCurrent(b, j);
    }
  }

  lemma SessionKeptTwice(a: Store, b: Store, c: Store, ids: set<string>, jtis: set<string>, id: string)
    requires Keeps(a, b, ids, jtis) && Keeps(b, c, ids, jtis) && id in a.sessions
    ensures KeepsOrRevokes(a, c, id)
  {
    assert KeepsOrRevokes(a, b, id);
    if id in b.sessions { assert KeepsOrRevokes(b, c, id); }
  }

  /** A session rewritten in place: same owner, device and age, a full lifetime from now. */
  ghost predicate Rewrites(s: Store, s': Store, id: string, d: Session) {
    && id in s.sessions && s.sessions[id].value.active
    && d == s.sessions[id].value.(jti := d.jti, lastSeenAt := d.lastSeenAt, expiresAt := s.now + SESSION_TTL)
    && s'.sessions == s.sessions[id := Slot(d, s.now + SESSION_TTL)]
    && s'.index == s.index && s'.devices == s.devices && s'.now == s.now
  }

  lemma RewriteDevicesOk(s: Store, s': Store, id: string, d: Session)
    requires SessionsOk(s) && DevicesOk(s) && Rewrites(s, s', id, d)
    ensures DevicesOk(s')
  {}

  lemma RewriteIndexOk(s: Store, s': Store, id: string, d: Session)
    requires IndexOk(s) && Rewrites(s, s', id, d)
    ensures IndexOk(s')
  {
    forall k | k in s'.sessions ensures IndexedByAge(s', k) { assert IndexedByAge(s, k); }
  }

  lemma GetKeeps(s: Store, id: string)
    requires Ok(s)
    ensures Ok(Get(s, id)) && Keeps(s, Get(s, id), {}, {})
  {
    if Peek(s, id).Found? {
      var s', d := Get(s, id), Peek(s, id).session;
      RewriteDevicesOk(s, s', id, d);
      RewriteIndexOk(s, s', id, d);
      GetTokensOk(s, id);
      GetKeepsTokens(s, id);
    }
  }

  lemma GetTokensOk(s: Store, id: string)
    requires SessionsOk(s) && TokensOk(s) && Peek(s, id).Found?
    ensures TokensOk(Get(s, id))
  {}

  lemma GetKeepsTokens(s: Store, id: string)
    requires SessionsOk(s) && Peek(s, id).Found?
    ensures Keeps(s, Get(s, id), {}, {})
  {
    var s' := Get(s, id);
    forall k | k in s.sessions ensures KeepsOrRevokes(s, s', k) {}
    forall j | NotCurrent(s, j) ensures NotCurrent(s', j) {}
  }

  lemma RefreshKeeps(s: Store, id: string, newJti: string)
    requires Ok(s) && newJti !in s.revoked
    requires NotCurrent(s, newJti)
    ensures Ok(Refresh(s, id, newJti)) && Keeps(s, Refresh(s, id, newJti), {}, {newJti})
  {
    if Peek(s, id).Found? {
      var s', d := Refresh(s, id, newJti), Peek(s, id).session.(jti := newJti);
      RewriteDevicesOk(s, s', id, d);
      RewriteIndexOk(s, s', id, d);
      RefreshTokensOk(s, id, newJti);
      RefreshKeepsTokens(s, id, newJti);
    }
  }

  lemma RefreshTokensOk(s: Store, id: string, newJti: string)
    requires SessionsOk(s) && TokensOk(s) && Peek(s, id).Found? && newJti !in s.revoked
    requires NotCurrent(s, newJti)
    ensures TokensOk(Refresh(s, id, newJti))
  {}

  lemma RefreshKeepsTokens(s: Store, id: string, newJti: string)
    requires SessionsOk(s) && TokensOk(s) && Peek(s, id).Found? && newJti !in s.revoked
    ensures Keeps(s, Refresh(s, id, newJti), {}, {newJti})
  {
    var s' := Refresh(s, id, newJti);
    forall k | k in s.sessions ensures KeepsOrRevokes(s, s', k) {}
    forall j | j != newJti && NotCurrent(s, j)
      ensures NotCurrent(s', j) && (j in s'.revoked ==> j in s.revoked)
    {
      assert s.sessions[id].value.jti != j;
    }
  }

  lemma RevokeKeeps(s: Store, id: string)
    requires Ok(s)
    ensures Ok(Revoke(s, id)) && Keeps(s, Revoke(s, id), {}, {})
  {
    if id in s.sessions {
      assert Peek(s, id).Found?;
      RevokeIndexOk(s, id);
      RevokeTokens(s, id);
    } else {
      assert s.sessions - {id} == s.sessions;
    }
  }

  lemma RevokeIndexOk(s: Store, id: string)
    requires SessionsOk(s) && IndexOk(s) && Peek(s, id).Found?
    ensures IndexOk(Revoke(s, id))
  {
    var user := s.sessions[id].value.user;
    MembersGoneIndexOk(s, Revoke(s, id), user, {id});
  }

  /** Taking index entries away is harmless once their sessions are gone. */
  lemma MembersGoneIndexOk(s: Store, s': Store, user: string, ids: set<string>)
    requires IndexOk(s) && s'.now == s.now
    requires s'.index == WithoutMembers(s.index, user, ids)
    requires forall k | k in s'.sessions :: k !in ids && k in s.sessions && s'.sessions[k] == s.sessions[k]
    ensures IndexOk(s')
  {
    forall k | k in s'.sessions ensures IndexedByAge(s', k) {
      assert IndexedByAge(s, k);
      if user in s.index && user !in s'.index && s'.sessions[k].value.user == user {
        assert k !in s.index[user].value.members - ids;
      }
    }
  }

  lemma RevokeTokens(s: Store, id: string)
    requires SessionsOk(s) && TokensOk(s) && Peek(s, id).Found?
    ensures TokensOk(Revoke(s, id)) && Keeps(s, Revoke(s, id), {}, {})
  {
    var s' := Revoke(s, id);
    forall k | k in s.sessions ensures KeepsOrRevokes(s, s', k) {}
    forall j | NotCurrent(s, j) ensures NotCurrent(s', j) && (j in s'.revoked ==> j in s.revoked) {
      assert s.sessions[id].value.jti != j;
    }
  }

  lemma {:induction false} RevokeEachKeeps(s: Store, ids: seq<string>)
    requires Ok(s)
    ensures Ok(RevokeEach(s, ids)) && Keeps(s, RevokeEach(s, ids), {}, {})
    decreases ids
  {
    if ids == [] {
    } else {
      var next := Revoke(s, ids[0]);
      RevokeKeeps(s, ids[0]);
      RevokeEachKeeps(next, ids[1..]);
      KeepsTransitive(s, next, RevokeEach(next, ids[1..]), {}, {});
    }
  }

  /** A new session's id and token id have not been used. */
  ghost predicate IsNew(s: Store, id: string, jti: string) {
    && id != "" && id !in s.sessions && jti !in s.revoked
    && (forall u | u in s.index :: id !in s.index[u].value.members)
    && NotCurrent(s, jti)
  }

  lemma AddKeeps(s: Store, d: Session)
    requires Ok(s) && d == Fresh(s, d.id, d.user, d.device, d.jti) && IsNew(s, d.id, d.jti)
    ensures Ok(Add(s, d)) && Keeps(s, Add(s, d), {d.id}, {d.jti})
  {
    AddDevicesOk(s, d);
    AddIndexOk(s, d);
    AddKeepsTokens(s, d);
  }

  lemma AddKeepsTokens(s: Store, d: Session)
    requires IsNew(s, d.id, d.jti)
    ensures Keeps(s, Add(s, d), {d.id}, {d.jti})
  {
    var s' := Add(s, d);
    forall k | k in s.sessions ensures KeepsOrRevokes(s, s', k) {}
    forall j | j != d.jti && NotCurrent(s, j) ensures NotCurrent(s', j) {}
  }

  lemma AddDevicesOk(s: Store, d: Session)
    requires SessionsOk(s) && DevicesOk(s)
    requires d == Fresh(s, d.id, d.user, d.device, d.jti) && IsNew(s, d.id, d.jti)
    ensures SessionsOk(Add(s, d)) && DevicesOk(Add(s, d))
  {}

  lemma AddIndexOk(s: Store, d: Session)
    requires SessionsOk(s) && IndexOk(s)
    requires d == Fresh(s, d.id, d.user, d.device, d.jti) && IsNew(s, d.id, d.jti)
    ensures IndexOk(Add(s, d))
  {
    var s' := Add(s, d);
    forall k | k in s'.sessions ensures IndexedByAge(s', k) {
      if k != d.id { assert IndexedByAge(s, k); }
    }
  }
}
