/** What each operation of the session cache leaves behind in any store a run can reach: the session,
    the indexes, the bindings and the tokens it changes, and that it changes nothing else. */
module SessionEffects {
  import opened Sessions
  import opened SessionRuns
  import SessionGuarantees
  import SortedSets

  /** The ids in a user's index. */
  function Members(s: Store, user: string): set<string> {
    if user in s.index then s.index[user].value.members else {}
  }

  /** The token is reported revoked up to and including the start of the second that t falls into. */
  ghost predicate RevokedUntil(s: Store, jti: string, t: int) {
    forall q :: IsRevoked(s, jti, q) <==> q <= t / SECOND * SECOND
  }

  ghost predicate NeverRevoked(s: Store, jti: string) {
    forall q :: !IsRevoked(s, jti, q)
  }

  /** One user's index loses `gone`, and its key if nothing is left; no other index changes. */
  ghost predicate IndexLoses(a: Store, b: Store, user: string, gone: set<string>) {
    && b.index - {user} == a.index - {user}
    && Members(b, user) == Members(a, user) - gone
    && (gone != {} ==> (user in b.index <==> Members(b, user) != {}))
    && (user in b.index ==> user in a.index && b.index[user].deadline == a.index[user].deadline
                            && b.index[user].value.since == a.index[user].value.since)
  }

  lemma SameTokens(a: Store, b: Store, jti: string, t: int)
    requires jti in a.revoked <==> jti in b.revoked
    requires jti in a.revoked ==> a.revoked[jti] == b.revoked[jti]
    ensures RevokedUntil(a, jti, t) <==> RevokedUntil(b, jti, t)
  {
    assert forall q :: IsRevoked(a, jti, q) == IsRevoked(b, jti, q);
  }

  // ---- One session -----------------------------------------------------------

  /** One session is rewritten to live a full lifetime from now; nothing else in the four structures but
      the revoked tokens changes. */
  ghost predicate Renews(s: Store, id: string, d: Session, s': Store) {
    && s'.sessions == s.sessions[id := Slot(d, s.now + SESSION_TTL)] && d.expiresAt == s.now + SESSION_TTL
    && d.lastSeenAt == s.now && s'.index == s.index && s'.devices == s.devices && s'.now == s.now
  }

  /** Reading a live session slides it to a full lifetime from now and changes nothing else. */
  lemma GetSlides(w: World, id: string, w': World)
    requires Good(w) && w' == Next(w, GetSession(id))
    ensures id !in w.store.sessions ==> w'.store == w.store
    ensures id in w.store.sessions ==> Slides(w.store, id, w'.store)
  {}

  ghost predicate Slides(s: Store, id: string, s': Store) {
    id in s.sessions &&
    var d := s.sessions[id].value;
    Renews(s, id, d.(lastSeenAt := s.now, expiresAt := s.now + SESSION_TTL), s') && s'.revoked == s.revoked
  }

  /** Rotation of a live session's token: the session holds the new token for a full lifetime from now,
      its former token is reported revoked for as long, the new one is not, and every other session,
      token, index and binding is as it was. */
  lemma RefreshRotates(w: World, id: string, newJti: string, w': World)
    requires Good(w) && Enabled(w, RefreshSession(id, newJti)) && w' == Next(w, RefreshSession(id, newJti))
    ensures id !in w.store.sessions ==> w'.store == w.store
    ensures id in w.store.sessions ==> Rotates(w.store, id, newJti, w'.store)
  {
    RefreshRotatesIt(w.store, id, newJti, w'.store);
  }

  ghost predicate Rotates(s: Store, id: string, newJti: string, s': Store) {
    id in s.sessions &&
    var d := s.sessions[id].value;
    && Renews(s, id, d.(jti := newJti, lastSeenAt := s.now, expiresAt := s.now + SESSION_TTL), s')
    && RevokedUntil(s', d.jti, s.now + SESSION_TTL) && NeverRevoked(s', newJti)
    && s'.revoked - {d.jti} == s.revoked - {d.jti}
  }

  lemma RefreshRotatesIt(s: Store, id: string, newJti: string, s': Store)
    requires SessionsOk(s) && NotCurrent(s, newJti) && newJti !in s.revoked && s' == Refresh(s, id, newJti)
    ensures id !in s.sessions ==> s' == s
    ensures id in s.sessions ==> Rotates(s, id, newJti, s')
  {}

  /** Revoking a live session ends it, takes it from its user's index, frees its device, and has its token
      reported revoked for a full lifetime from now; nothing else changes. */
  lemma RevokeEnds(w: World, id: string, w': World)
    requires Good(w) && w' == Next(w, RevokeSession(id))
    ensures id !in w.store.sessions ==> w'.store == w.store
    ensures id in w.store.sessions ==> Ends(w.store, id, w'.store)
  {
    RevokeEndsIt(w.store, id, w'.store);
  }

  ghost predicate Ends(s: Store, id: string, s': Store) {
    id in s.sessions &&
    var d := s.sessions[id].value;
    && s'.now == s.now && s'.sessions == s.sessions - {id}
    && IndexLoses(s, s', d.user, {id})
    && s'.devices == s.devices - {(d.user, d.device)}
    && RevokedUntil(s', d.jti, s.now + SESSION_TTL)
    && s'.revoked - {d.jti} == s.revoked - {d.jti}
  }

  lemma RevokeEndsIt(s: Store, id: string, s': Store)
    requires SessionsOk(s) && s' == Revoke(s, id)
    ensures id !in s.sessions ==> s' == s
    ensures id in s.sessions ==> Ends(s, id, s')
  {
    if id !in s.sessions { assert s.sessions - {id} == s.sessions; }
  }

  // ---- Many sessions -----------------------------------------------------------

  /** The current tokens of the live sessions among the ids. */
  function Tokens(s: Store, ids: set<string>): set<string> {
    set id | id in ids && id in s.sessions :: s.sessions[id].value.jti
  }

  /** The bindings of one user for the devices those sessions are on. */
  function BindingsOf(s: Store, user: string, ids: set<string>): set<(string, string)> {
    set id | id in ids && id in s.sessions :: (user, s.sessions[id].value.device)
  }

  /** Signing a user out everywhere ends every session the index names and removes the index and the
      bindings of their devices; each token is reported revoked until the end of the life its session
      had left. Nothing of anybody else changes, nor any other session or token. */
  lemma RevokeAllEnds(w: World, user: string, ids: seq<string>, w': World)
    requires Good(w) && Enabled(w, RevokeAllSessions(user, ids)) && w' == Next(w, RevokeAllSessions(user, ids))
    ensures w'.store.now == w.store.now && w'.store.sessions == w.store.sessions - Members(w.store, user)
    ensures Members(w'.store, user) == {} && w'.store.index - {user} == w.store.index - {user}
    ensures w'.store.devices == w.store.devices - BindingsOf(w.store, user, Members(w.store, user))
    ensures forall id | id in w.store.sessions && id in Members(w.store, user) ::
              RevokedUntil(w'.store, w.store.sessions[id].value.jti, w.store.sessions[id].value.expiresAt)
    ensures w'.store.revoked - Tokens(w.store, Members(w.store, user))
         == w.store.revoked - Tokens(w.store, Members(w.store, user))
  {
    var s, s' := w.store, w'.store;
    assert forall id :: id in ids <==> id in Members(s, user);
    if ids == [] {
      assert Members(s, user) == {};
      assert BindingsOf(s, user, {}) == {} && s.devices - {} == s.devices && s.sessions - {} == s.sessions;
    } else {
      assert ids[0] in ids;
      assert BoundDevices(s, user, ids) == BindingsOf(s, user, Members(s, user));
      assert (set id | id in ids) == Members(s, user);
      AllRecorded(s, user, ids);
    }
  }

  lemma AllRecorded(s: Store, user: string, ids: seq<string>)
    requires TokensOk(s) && forall id :: id in ids <==> id in Members(s, user)
    ensures var all, r := Tokens(s, Members(s, user)), AddRevoked(s.revoked, s, ids);
            && r - all == s.revoked - all
            && forall id | id in s.sessions && id in Members(s, user) ::
                 var d := s.sessions[id].value; d.jti in r && r[d.jti] == Unix(d.expiresAt)
  {
    AddRevokedExactly(s, ids);
    var all, r := Tokens(s, Members(s, user)), AddRevoked(s.revoked, s, ids);
    forall j | j in r && j !in s.revoked ensures j in all {
      var id :| TokenOf(s, ids, id, j);
      assert id in Members(s, user);
    }
  }

  /** The clean-up takes the ids it is given from the index, and nothing else changes. */
  lemma PurgeUnlists(w: World, user: string, stale: set<string>, w': World)
    requires Good(w) && Enabled(w, PurgeStale(user, stale)) && w' == Next(w, PurgeStale(user, stale))
    ensures w'.store == w.store.(index := w'.store.index)
    ensures user !in w.store.index ==> w'.store == w.store
    ensures IndexLoses(w.store, w'.store, user, stale)
  {}

  /** A prune forgets the tokens whose second has begun, and nothing else. */
  lemma PruneForgets(w: World, w': World)
    requires w' == Next(w, PruneRevokedTokens)
    ensures w'.store == w.store.(revoked := w'.store.revoked)
    ensures forall j :: j in w'.store.revoked <==> j in w.store.revoked && w.store.revoked[j] * SECOND > w.store.now
    ensures forall j | j in w'.store.revoked :: w'.store.revoked[j] == w.store.revoked[j]
  {}

  ghost predicate KeepsUpTo<K(!new), V>(a: map<K, Slot<V>>, b: map<K, Slot<V>>, now: int) {
    && (forall k :: k in b <==> k in a && a[k].deadline >= now)
    && (forall k | k in b :: b[k] == a[k])
  }

  /** As the clock moves exactly the keys past their deadline go; the list of tokens has none. */
  lemma TickDrops(w: World, later: int, w': World)
    requires w' == Next(w, ClockTick(later))
    ensures KeepsUpTo(w.store.sessions, w'.store.sessions, later) && KeepsUpTo(w.store.index, w'.store.index, later)
    ensures KeepsUpTo(w.store.devices, w'.store.devices, later)
    ensures w'.store.revoked == w.store.revoked && w'.store.now == later
  {}

  // ---- Creation ----------------------------------------------------------------

  function BoundIds(s: Store, user: string, device: string): set<string> {
    if (user, device) in s.devices then {s.devices[(user, device)].value} else {}
  }

  /** The user's index key outlives the release of the device. */
  predicate KeyStays(s: Store, user: string, device: string) {
    && user in s.index
    && (BoundIds(s, user, device) == {} || Members(s, user) - BoundIds(s, user, device) != {})
  }

  /** What CreateSession leaves before it evicts: the session as it was asked for, listed and bound to
      its device, each with its own lifetime; of what was there before only the session the device
      was bound to is gone, from the index too, and its token is revoked. */
  ghost predicate Adds(s: Store, id: string, user: string, device: string, jti: string, c: Store) {
    && c.now == s.now
    && id in c.sessions && c.sessions[id] == Slot(
         Session(id, user, device, jti, s.now, s.now, s.now + SESSION_TTL, true), s.now + SESSION_TTL)
    && c.sessions - {id} == s.sessions - BoundIds(s, user, device)
    && c.index - {user} == s.index - {user}
    && user in c.index && Members(c, user) == Members(s, user) - BoundIds(s, user, device) + {id}
    && c.index[user].deadline == s.now + REFRESH_TTL
    && c.index[user].value.since ==
         (if KeyStays(s, user, device) then s.index[user].value.since else s.now)
    && c.devices == s.devices[(user, device) := Slot(id, s.now + SESSION_TTL)]
    && TokensAdded(s, user, device, c)
  }

  ghost predicate TokensAdded(s: Store, user: string, device: string, c: Store) {
    && (forall x | x in BoundIds(s, user, device) && x in s.sessions ::
          RevokedUntil(c, s.sessions[x].value.jti, s.now + SESSION_TTL))
    && c.revoked - Tokens(s, BoundIds(s, user, device)) == s.revoked - Tokens(s, BoundIds(s, user, device))
  }

  /** CreateSession up to its call of enforceSessionLimit. */
  lemma CreatedAdds(s: Store, id: string, user: string, device: string, jti: string, c: Store)
    requires Ok(s) && IsNew(s, id, jti) && c == Created(s, id, user, device, jti)
    ensures Adds(s, id, user, device, jti, c)
  {
    var r, added := CreatedIs(s, id, user, device, jti);
    ReleaseReleases(s, user, device, r);
    AddsAfterRelease(s, id, user, device, jti, r, c);
  }

  ghost predicate Releases(s: Store, user: string, device: string, r: Store) {
    && r.now == s.now && r.sessions == s.sessions - BoundIds(s, user, device)
    && r.devices == s.devices - {(user, device)}
    && IndexLoses(s, r, user, BoundIds(s, user, device)) && (user in r.index <==> KeyStays(s, user, device))
    && TokensAdded(s, user, device, r)
  }

  lemma ReleaseReleases(s: Store, user: string, device: string, r: Store)
    requires SessionsOk(s) && DevicesOk(s) && r == ReleaseDevice(s, user, device)
    ensures Releases(s, user, device, r)
  {
    if (user, device) in s.devices {
      RevokeEndsIt(s, s.devices[(user, device)].value, r);
      assert BoundIds(s, user, device) == {s.devices[(user, device)].value};
    } else {
      assert s.sessions - {} == s.sessions && Members(s, user) - {} == Members(s, user);
    }
  }

  lemma AddsAfterRelease(s: Store, id: string, user: string, device: string, jti: string, r: Store, c: Store)
    requires Releases(s, user, device, r) && id !in s.sessions && c == Add(r, Fresh(r, id, user, device, jti))
    ensures Adds(s, id, user, device, jti, c)
  {
    assert c.sessions - {id} == r.sessions;
    forall x | x in BoundIds(s, user, device) && x in s.sessions
      ensures RevokedUntil(c, s.sessions[x].value.jti, s.now + SESSION_TTL)
    {
      SameTokens(r, c, s.sessions[x].value.jti, s.now + SESSION_TTL);
    }
  }

  /** The eviction ends exactly the front of the order, with the index entries, the device bindings and
      the tokens of those sessions, and touches nothing else of anybody. */
  ghost predicate Evicts(c: Store, user: string, gone: set<string>, e: Store) {
    && e.now == c.now && e.sessions == c.sessions - gone
    && IndexLoses(c, e, user, gone)
    && e.devices == c.devices - BindingsOf(c, user, gone)
    && (forall x | x in gone && x in c.sessions :: RevokedUntil(e, c.sessions[x].value.jti, c.now + SESSION_TTL))
    && e.revoked - Tokens(c, gone) == c.revoked - Tokens(c, gone)
  }

  lemma OutsideSame(a: map<string, int>, b: map<string, int>, gone: set<string>, k: string)
    requires a - gone == b - gone && k !in gone
    ensures k in a <==> k in b
    ensures k in a ==> a[k] == b[k]
  {
    assert k in a - gone <==> k in b - gone;
    assert k in a ==> (a - gone)[k] == (b - gone)[k];
  }

  lemma OutsideBoth(a: map<string, int>, b: map<string, int>, c: map<string, int>, x: set<string>, y: set<string>)
    requires a - x == b - x && b - y == c - y
    ensures a - (x + y) == c - (x + y)
  {
    forall k | k !in x + y
      ensures k in a <==> k in c
      ensures k in a ==> a[k] == c[k]
    {
      OutsideSame(a, b, x, k);
      OutsideSame(b, c, y, k);
    }
  }

  lemma TokensOfBoth(c: Store, user: string, first: string, rest: set<string>, next: Store, e: Store)
    requires TokensOk(c) && first in c.sessions && first !in rest && next.sessions == c.sessions - {first}
    requires next.now == c.now && RevokedUntil(next, c.sessions[first].value.jti, c.now + SESSION_TTL)
    requires next.revoked - {c.sessions[first].value.jti} == c.revoked - {c.sessions[first].value.jti}
    requires Evicts(next, user, rest, e)
    ensures forall x | x in {first} + rest && x in c.sessions ::
              RevokedUntil(e, c.sessions[x].value.jti, c.now + SESSION_TTL)
    ensures e.revoked - Tokens(c, {first} + rest) == c.revoked - Tokens(c, {first} + rest)
  {
    var jti := c.sessions[first].value.jti;
    assert jti !in Tokens(next, rest);
    OutsideSame(next.revoked, e.revoked, Tokens(next, rest), jti);
    SameTokens(next, e, jti, c.now + SESSION_TTL);
    assert Tokens(c, {first} + rest) == {jti} + Tokens(next, rest);
    OutsideBoth(c.revoked, next.revoked, e.revoked, {jti}, Tokens(next, rest));
    forall x | x in rest && x in c.sessions ensures RevokedUntil(e, c.sessions[x].value.jti, c.now + SESSION_TTL) {
      assert x in next.sessions && next.sessions[x] == c.sessions[x];
    }
  }

  lemma FirstEvicted(c: Store, user: string, first: string, rest: set<string>, next: Store, e: Store)
    requires TokensOk(c) && first in c.sessions && c.sessions[first].value.user == user && first !in rest
    requires Ends(c, first, next) && Evicts(next, user, rest, e)
    ensures Evicts(c, user, {first} + rest, e)
  {
    TokensOfBoth(c, user, first, rest, next, e);
    assert BindingsOf(c, user, {first} + rest)
        == {(user, c.sessions[first].value.device)} + BindingsOf(next, user, rest);
  }

  /** Live sessions of one user, each once. */
  ghost predicate LiveAndApart(c: Store, user: string, ids: seq<string>) {
    && (forall i | 0 <= i < |ids| :: ids[i] in c.sessions && c.sessions[ids[i]].value.user == user)
    && (forall i, j | 0 <= i < j < |ids| :: ids[i] != ids[j])
  }

  lemma {:induction false} EachEvicts(c: Store, user: string, ids: seq<string>, e: Store)
    requires Ok(c) && LiveAndApart(c, user, ids) && e == RevokeEach(c, ids)
    ensures Evicts(c, user, SortedSets.Members(ids), e)
    decreases ids
  {
    if ids == [] {
      assert SortedSets.Members(ids) == {};
    } else {
      OneThenRest(c, user, ids, Revoke(c, ids[0]), e);
    }
  }

  lemma {:induction false} OneThenRest(c: Store, user: string, ids: seq<string>, next: Store, e: Store)
    requires ids != [] && Ok(c) && LiveAndApart(c, user, ids) && next == Revoke(c, ids[0])
    requires e == RevokeEach(next, ids[1..])
    ensures Evicts(c, user, SortedSets.Members(ids), e)
    decreases ids, 0
  {
    SessionGuarantees.FirstApart(ids);
    assert Ends(c, ids[0], next) by { RevokeEndsIt(c, ids[0], next); }
    assert Ok(next) by { RevokeKeeps(c, ids[0]); }
    EachEvicts(next, user, ids[1..], e);
    FirstEvicted(c, user, ids[0], SortedSets.Members(ids[1..]), next, e);
  }

  /** CreateSession as a whole, in any run: the session is added, bound and listed, and then the surplus
      of the user's listed sessions, oldest first, is ended; everything else is as it was. */
  lemma CreateLeaves(w: World, id: string, user: string, device: string, jti: string, order: seq<string>,
                     w': World, c: Store)
    requires Good(w) && Enabled(w, CreateSession(id, user, device, jti, order))
    requires w' == Next(w, CreateSession(id, user, device, jti, order))
    requires c == Created(w.store, id, user, device, jti)
    ensures Adds(w.store, id, user, device, jti, c)
    ensures Evicts(c, user, SortedSets.Members(order[..Surplus(order)]), w'.store)
  {
    IsNewHere(w, id, jti);
    CreatedAdds(w.store, id, user, device, jti, c);
    assert Ok(c) by { var _ := CreatedKeeps(w.store, id, user, device, jti); }
    OrderIsLive(c, user, order);
    EachEvicts(c, user, order[..Surplus(order)], w'.store);
  }

  lemma OrderIsLive(c: Store, user: string, order: seq<string>)
    requires Ok(c) && IsOrder(c, user, order)
    ensures LiveAndApart(c, user, order[..Surplus(order)])
  {
    forall i | 0 <= i < |order| ensures order[i] in c.sessions && c.sessions[order[i]].value.user == user {
      assert order[i] in order && order[i] in Listed(c, user);
    }
  }
}
