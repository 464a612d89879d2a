/** What the session cache guarantees over every run, and exactly when its documented promises on
    devices, on signing out everywhere and on the number of sessions hold. */
module SessionGuarantees {
  import opened Sessions
  import opened SessionRuns
  import SortedSets

  // ---- Every run -------------------------------------------------------------

  /** In every reachable store a device binding names a live session of its user on its
      device, and that session outlives the binding. */
  lemma BindingsNameLiveSessions(start: int, es: seq<Event>, user: string, device: string)
    requires Legal(Empty(start), es)
    requires (user, device) in Run(Empty(start), es).store.devices
    ensures var s := Run(Empty(start), es).store;
            var id := s.devices[(user, device)].value;
            && id in s.sessions
            && s.sessions[id].value.user == user && s.sessions[id].value.device == device
            && s.devices[(user, device)].deadline <= s.sessions[id].deadline
  {
    EmptyIsGood(start);
    RunIsGood(Empty(start), es);
  }

  /** An index holds live sessions of its own user only, and a live session is missing from it
      exactly if the session is older than the present index key. */
  lemma IndexFollowsAge(start: int, es: seq<Event>, id: string)
    requires Legal(Empty(start), es) && id in Run(Empty(start), es).store.sessions
    ensures var s := Run(Empty(start), es).store;
            var d := s.sessions[id].value;
            && (forall u | u in s.index && id in s.index[u].value.members :: u == d.user)
            && (d.user in s.index ==>
                  (id in s.index[d.user].value.members <==> d.createdAt >= s.index[d.user].value.since))
            && (d.user !in s.index ==> d.createdAt < s.now)
  {
    EmptyIsGood(start);
    RunIsGood(Empty(start), es);
    assert IndexedByAge(Run(Empty(start), es).store, id);
  }

  /** The current token of a live session is never reported revoked. */
  lemma LiveTokenIsNotRevoked(start: int, es: seq<Event>, id: string, q: int)
    requires Legal(Empty(start), es) && id in Run(Empty(start), es).store.sessions
    ensures var s := Run(Empty(start), es).store;
            !IsRevoked(s, s.sessions[id].value.jti, q)
  {
    EmptyIsGood(start);
    RunIsGood(Empty(start), es);
  }

  /** A token once retired is reported revoked at every later instant before the expiry second
      that was recorded for it, whatever is pruned meanwhile. */
  lemma StaysRevoked(w: World, es: seq<Event>, jti: string, second: int, q: int)
    requires Good(w) && Legal(w, es) && (jti, second) in w.retired
    requires Run(w, es).store.now <= q < second * SECOND
    ensures IsRevoked(Run(w, es).store, jti, q)
  {
    RunIsGood(w, es);
    RetiredGrows(w, es);
    assert Settled(Run(w, es), jti, second);
  }

  /** In every run, a token that rotation, revocation or eviction takes from a live session is
      reported revoked from then on until the expiry second written for it, whatever comes
      after: a whole session lifetime away, or, when all of a user's sessions are revoked, the
      end of the life the session had left. */
  lemma RetiredTokenStaysRevoked(start: int, before: seq<Event>, w: World, e: Event, after: seq<Event>,
                                 id: string, q: int)
    requires Legal(Empty(start), before) && w == Run(Empty(start), before)
    requires Enabled(w, e) && !e.ClockTick? && id in w.store.sessions
    requires w.store.sessions[id].value.jti !in Current(Next(w, e).store)
    requires Legal(Next(w, e), after) && Run(Next(w, e), after).store.now <= q
    ensures var d, recorded := w.store.sessions[id].value, Next(w, e).store.revoked;
            && d.jti in recorded && recorded[d.jti] == Unix(RecordedExpiry(w.store, e, d))
            && d.expiresAt <= RecordedExpiry(w.store, e, d)
            && (q < recorded[d.jti] * SECOND ==> IsRevoked(Run(Next(w, e), after).store, d.jti, q))
  {
    assert Good(w) by {
      EmptyIsGood(start);
      RunIsGood(Empty(start), before);
    }
    RetiredFrom(w, e, after, id, q);
  }

  lemma RetiredFrom(w: World, e: Event, after: seq<Event>, id: string, q: int)
    requires Good(w) && Enabled(w, e) && !e.ClockTick? && id in w.store.sessions
    requires w.store.sessions[id].value.jti !in Current(Next(w, e).store)
    requires Legal(Next(w, e), after) && Run(Next(w, e), after).store.now <= q
    ensures var d, recorded := w.store.sessions[id].value, Next(w, e).store.revoked;
            && d.jti in recorded && recorded[d.jti] == Unix(RecordedExpiry(w.store, e, d))
            && d.expiresAt <= RecordedExpiry(w.store, e, d)
            && (q < recorded[d.jti] * SECOND ==> IsRevoked(Run(Next(w, e), after).store, d.jti, q))
  {
    RetirementIsRecorded(w, e, id);
    NextIsGood(w, e);
    var jti := w.store.sessions[id].value.jti;
    var second := Next(w, e).store.revoked[jti];
    if q < second * SECOND { StaysRevoked(Next(w, e), after, jti, second, q); }
  }

  /** Pruning at p changes an answer only if it is asked for the very instant p and the token's
      expiry second begins at p; at any later instant it changes nothing. */
  lemma PruneIsInvisible(s: Store, jti: string, q: int)
    requires q >= s.now
    ensures IsRevoked(Prune(s), jti, q) == IsRevoked(s, jti, q)
            <==> !(q == s.now && jti in s.revoked && s.revoked[jti] * SECOND == s.now)
  {
    if jti in s.revoked { SecondBounds(s.revoked[jti], s.now); }
  }

  lemma SecondBounds(second: int, t: int)
    ensures second <= Unix(t) <==> second * SECOND <= t
  {}

  // ---- The session cap -------------------------------------------------------

  lemma RevokeUnlists(s: Store, user: string, id: string)
    requires Ok(s) && id in Listed(s, user)
    ensures Listed(Revoke(s, id), user) == Listed(s, user) - {id}
    ensures Revoke(s, id).sessions == s.sessions - {id}
  {
    assert s.sessions[id].value.user == user;
  }

  lemma {:induction false} RevokeEachUnlists(s: Store, user: string, ids: seq<string>)
    requires Ok(s) && SortedSets.Members(ids) <= Listed(s, user)
    requires forall i, j | 0 <= i < j < |ids| :: ids[i] != ids[j]
    ensures Listed(RevokeEach(s, ids), user) == Listed(s, user) - SortedSets.Members(ids)
    ensures RevokeEach(s, ids).sessions.Keys == s.sessions.Keys - SortedSets.Members(ids)
    decreases ids
  {
    if ids != [] {
      var s' := Revoke(s, ids[0]);
      FirstApart(ids);
      RevokeUnlists(s, user, ids[0]);
      assert Ok(s') by { RevokeKeeps(s, ids[0]); }
      RevokeEachUnlists(s', user, ids[1..]);
    }
  }

  lemma FirstApart(ids: seq<string>)
    requires ids != [] && forall i, j | 0 <= i < j < |ids| :: ids[i] != ids[j]
    ensures SortedSets.Members(ids) == {ids[0]} + SortedSets.Members(ids[1..])
    ensures ids[0] in SortedSets.Members(ids) && ids[0] !in SortedSets.Members(ids[1..])
  {
    assert ids == [ids[0]] + ids[1..];
  }

  /** Cutting an order without repeats in two parts its members. */
  lemma CutParts(order: seq<string>, k: nat)
    requires k <= |order| && forall i, j | 0 <= i < j < |order| :: order[i] != order[j]
    ensures SortedSets.Members(order[..k]) + SortedSets.Members(order[k..]) == SortedSets.Members(order)
    ensures SortedSets.Members(order[..k]) !! SortedSets.Members(order[k..])
    ensures |SortedSets.Members(order)| == |order| && |SortedSets.Members(order[k..])| == |order| - k
  {
    var gone, left := order[..k], order[k..];
    assert order == gone + left;
    assert forall i | 0 <= i < |gone| :: gone[i] == order[i];
    assert forall j | 0 <= j < |left| :: left[j] == order[k + j];
    SortedSets.DistinctSize(order);
    SortedSets.DistinctSize(left);
  }

  /** enforceSessionLimit drops the front of the order it sorted and leaves the rest. */
  lemma SurvivorsAreTheNewest(s: Store, user: string, order: seq<string>)
    requires Ok(s) && IsOrder(s, user, order)
    ensures Listed(Enforce(s, order), user) == SortedSets.Members(order[Surplus(order)..])
    ensures Listed(s, user) - Listed(Enforce(s, order), user) == SortedSets.Members(order[..Surplus(order)])
    ensures Enforce(s, order).sessions.Keys == s.sessions.Keys - SortedSets.Members(order[..Surplus(order)])
  {
    var k := Surplus(order);
    CutParts(order, k);
    assert Listed(s, user) == SortedSets.Members(order);
    RevokeEachUnlists(s, user, order[..k]);
  }

  /** At most ten sessions stay listed, nothing is dropped that need not be, no dropped session
      is newer than one that stays, and each dropped one's token is revoked for a whole lifetime. */
  ghost predicate Capped(c: Store, e: Store, user: string) {
    && |Listed(e, user)| <= MAX_SESSIONS_PER_USER
    && Listed(e, user) <= Listed(c, user)
    && (|Listed(c, user)| <= MAX_SESSIONS_PER_USER ==> Listed(e, user) == Listed(c, user))
    && (|Listed(c, user)| > MAX_SESSIONS_PER_USER ==> |Listed(e, user)| == MAX_SESSIONS_PER_USER)
    && (forall x, y | x in Listed(e, user) && y in Listed(c, user) - Listed(e, user) ::
          CreatedAt(c, y) <= CreatedAt(c, x))
    && (forall y | y in Listed(c, user) - Listed(e, user) :: TokenRevoked(c, e, y))
  }

  lemma EnforceCaps(c: Store, user: string, order: seq<string>)
    requires Ok(c) && IsOrder(c, user, order)
    ensures Capped(c, Enforce(c, order), user)
  {
    var e := Enforce(c, order);
    SurvivorCounts(c, user, order);
    EvictedAreRevoked(c, e, user, order);
    FrontIsOlder(c, user, order);
  }

  lemma SurvivorCounts(c: Store, user: string, order: seq<string>)
    requires Ok(c) && IsOrder(c, user, order)
    ensures var before, after := Listed(c, user), Listed(Enforce(c, order), user);
            && after <= before
            && (|before| <= MAX_SESSIONS_PER_USER ==> after == before)
            && (|before| > MAX_SESSIONS_PER_USER ==> |after| == MAX_SESSIONS_PER_USER)
  {
    SurvivorsAreTheNewest(c, user, order);
    assert Listed(c, user) == SortedSets.Members(order);
    PartCounts(order);
  }

  lemma PartCounts(order: seq<string>)
    requires forall i, j | 0 <= i < j < |order| :: order[i] != order[j]
    ensures var before, after := SortedSets.Members(order), SortedSets.Members(order[Surplus(order)..]);
            && after <= before
            && (|before| <= MAX_SESSIONS_PER_USER ==> after == before)
            && (|before| > MAX_SESSIONS_PER_USER ==> |after| == MAX_SESSIONS_PER_USER)
  {
    CutParts(order, Surplus(order));
    if |order| <= MAX_SESSIONS_PER_USER {
      assert order[0..] == order;
    }
  }

  lemma FrontIsOlder(c: Store, user: string, order: seq<string>)
    requires Ok(c) && IsOrder(c, user, order)
    ensures forall x, y | x in Listed(Enforce(c, order), user)
                          && y in Listed(c, user) - Listed(Enforce(c, order), user) ::
              CreatedAt(c, y) <= CreatedAt(c, x)
  {
    var k := Surplus(order);
    SurvivorsAreTheNewest(c, user, order);
    forall x, y | x in Listed(Enforce(c, order), user)
                  && y in Listed(c, user) - Listed(Enforce(c, order), user)
      ensures CreatedAt(c, y) <= CreatedAt(c, x)
    {
      assert x in SortedSets.Members(order[k..]) && y in SortedSets.Members(order[..k]);
      var i :| 0 <= i < |order[k..]| && order[k..][i] == x;
      var j :| 0 <= j < k && order[..k][j] == y;
      assert order[k + i] == x && order[j] == y;
    }
  }

  /** What CreateSession leaves is capped, and the new session itself stays listed unless
      another of the user's was created at the same instant. */
  lemma SessionCap(s: Store, id: string, user: string, device: string, jti: string, order: seq<string>)
    requires Ok(s) && IsNew(s, id, jti)
    requires IsOrder(Created(s, id, user, device, jti), user, order)
    ensures Capped(Created(s, id, user, device, jti), Create(s, id, user, device, jti, order), user)
    ensures var c := Created(s, id, user, device, jti);
            (forall y | y in Listed(c, user) && y != id :: CreatedAt(c, y) < s.now)
            ==> id in Listed(Create(s, id, user, device, jti, order), user)
  {
    var c := Created(s, id, user, device, jti);
    var _ := CreatedKeeps(s, id, user, device, jti);
    EnforceCaps(c, user, order);
    if forall y | y in Listed(c, user) && y != id :: CreatedAt(c, y) < s.now {
      NewestSurvives(c, user, order, id);
    }
  }

  lemma NewestSurvives(c: Store, user: string, order: seq<string>, id: string)
    requires Ok(c) && IsOrder(c, user, order) && id in Listed(c, user)
    requires forall y | y in Listed(c, user) && y != id :: CreatedAt(c, y) < CreatedAt(c, id)
    ensures id in Listed(Enforce(c, order), user)
  {
    SurvivorsAreTheNewest(c, user, order);
    var left := order[Surplus(order)..];
    assert left[|left| - 1] == id;
  }

  ghost predicate TokenRevoked(c: Store, e: Store, y: string) {
    y in c.sessions &&
    var jti := c.sessions[y].value.jti;
    jti in e.revoked && e.revoked[jti] == Unix(c.now + SESSION_TTL)
  }

  lemma EvictedAreRevoked(c: Store, e: Store, user: string, order: seq<string>)
    requires Ok(c) && IsOrder(c, user, order) && e == Enforce(c, order)
    ensures forall y | y in Listed(c, user) - Listed(e, user) :: TokenRevoked(c, e, y)
  {
    RevokeEachRecords(c, order[..Surplus(order)]);
    SurvivorsAreTheNewest(c, user, order);
    forall y | y in Listed(c, user) - Listed(e, user) ensures TokenRevoked(c, e, y) {
      assert KeptOrRecorded(c, e, y, Unix(c.now + SESSION_TTL));
    }
  }

  // ---- Documented promises and when they hold ---------------------------------

  ghost predicate OnDevice(s: Store, id: string, user: string, device: string) {
    id in s.sessions && s.sessions[id].value.user == user && s.sessions[id].value.device == device
  }

  ghost predicate BoundTo(s: Store, user: string, device: string, id: string) {
    (user, device) in s.devices && s.devices[(user, device)].value == id
  }

  /** "If the same device already has a session it is replaced": CreateSession leaves no other
      session on the device exactly if each live one there is the one the device is bound to or
      one of the surplus evicted afterwards. */
  lemma DeviceIsReplacedIff(s: Store, id: string, user: string, device: string, jti: string, order: seq<string>,
                            c: Store, e: Store)
    requires Ok(s) && IsNew(s, id, jti)
    requires c == Created(s, id, user, device, jti) && IsOrder(c, user, order)
    requires e == Create(s, id, user, device, jti, order)
    ensures (forall x | OnDevice(e, x, user, device) :: x == id)
            <==> (forall x | OnDevice(s, x, user, device) ::
                    BoundTo(s, user, device, x) || x in order[..Surplus(order)])
  {
    assert Ok(c) by { var _ := CreatedKeeps(s, id, user, device, jti); }
    assert OthersMove(s, c, id, user, device);
    OnDeviceAfterEviction(c, user, device, order, e);
    AloneIff(s, c, e, id, user, device, order[..Surplus(order)]);
  }

  /** The bound session is gone from the device once the new one is there, and nothing else is. */
  ghost predicate OthersMove(s: Store, c: Store, id: string, user: string, device: string) {
    forall x | x != id :: OnDevice(c, x, user, device) <==>
      OnDevice(s, x, user, device) && !BoundTo(s, user, device, x)
  }

  lemma OnDeviceAfterEviction(c: Store, user: string, device: string, order: seq<string>, e: Store)
    requires Ok(c) && IsOrder(c, user, order) && e == Enforce(c, order)
    ensures forall x :: OnDevice(e, x, user, device) <==> OnDevice(c, x, user, device) && x !in order[..Surplus(order)]
  {
    SurvivorsAreTheNewest(c, user, order);
    EvictionMovesNothing(c, order[..Surplus(order)]);
    assert forall x :: x in e.sessions <==> x in c.sessions && x !in SortedSets.Members(order[..Surplus(order)]);
  }

  lemma {:induction false} EvictionMovesNothing(s: Store, ids: seq<string>)
    ensures forall x | x in RevokeEach(s, ids).sessions ::
              x in s.sessions && RevokeEach(s, ids).sessions[x] == s.sessions[x]
    decreases ids
  {
    if ids != [] { EvictionMovesNothing(Revoke(s, ids[0]), ids[1..]); }
  }

  lemma AloneIff(s: Store, c: Store, e: Store, id: string, user: string, device: string, gone: seq<string>)
    requires id !in s.sessions && OthersMove(s, c, id, user, device)
    requires forall x :: OnDevice(e, x, user, device) <==> OnDevice(c, x, user, device) && x !in gone
    ensures (forall x | OnDevice(e, x, user, device) :: x == id) <==>
            (forall x | OnDevice(s, x, user, device) :: BoundTo(s, user, device, x) || x in gone)
  {
    assert forall x | x != id :: OnDevice(e, x, user, device) <==>
      OnDevice(s, x, user, device) && !BoundTo(s, user, device, x) && x !in gone;
    assert !OnDevice(s, id, user, device);
  }

  /** "Invalidates every session for a user": a live session of the user survives exactly if
      its id is not in the user's index, that is, if it is older than the index key or the user
      has none. */
  lemma RevokeAllMissesTheUnindexed(s: Store, user: string, ids: seq<string>, id: string)
    requires Ok(s) && IsListing(s, user, ids)
    requires id in s.sessions && s.sessions[id].value.user == user
    ensures id in RevokeAll(s, user, ids).sessions <==> id !in ids
    ensures id !in ids <==> user !in s.index || s.sessions[id].value.createdAt < s.index[user].value.since
  {
    assert IndexedByAge(s, id);
  }

  function LiveSessions(s: Store, user: string): set<string> {
    set id | id in s.sessions && s.sessions[id].value.user == user
  }

  /** The user's live sessions that no index lists. */
  function Unlisted(s: Store, user: string): set<string> {
    LiveSessions(s, user) - Listed(s, user)
  }

  /** "Maximum number of concurrent sessions": CreateSession leaves the user at most ten live
      sessions exactly if there are no more than ten before the eviction, or all of those are
      listed (UnlistedAreLeftBehind says which are not). */
  lemma CapHoldsIff(s: Store, id: string, user: string, device: string, jti: string, order: seq<string>,
                    c: Store, e: Store)
    requires Ok(s) && IsNew(s, id, jti)
    requires c == Created(s, id, user, device, jti) && IsOrder(c, user, order)
    requires e == Create(s, id, user, device, jti, order)
    ensures |LiveSessions(e, user)| <= MAX_SESSIONS_PER_USER
            <==> |LiveSessions(c, user)| <= MAX_SESSIONS_PER_USER || Unlisted(c, user) == {}
  {
    assert Ok(c) by { var _ := CreatedKeeps(s, id, user, device, jti); }
    EvictionCounts(c, user, order, e);
  }

  /** The numbers behind it: at most ten sessions stay listed, and what is not listed stays. */
  lemma LiveBeyondTheCap(s: Store, id: string, user: string, device: string, jti: string, order: seq<string>,
                         c: Store, e: Store)
    requires Ok(s) && IsNew(s, id, jti)
    requires c == Created(s, id, user, device, jti) && IsOrder(c, user, order)
    requires e == Create(s, id, user, device, jti, order)
    ensures Unlisted(e, user) == Unlisted(c, user)
    ensures |LiveSessions(e, user)| == |Listed(e, user)| + |Unlisted(c, user)|
    ensures |Listed(e, user)| ==
            if |Listed(c, user)| <= MAX_SESSIONS_PER_USER then |Listed(c, user)| else MAX_SESSIONS_PER_USER
  {
    assert Ok(c) by { var _ := CreatedKeeps(s, id, user, device, jti); }
    EvictionCounts(c, user, order, e);
  }

  /** A live session of the user that the creation does not list: one that is not replaced, and
      older than the index key if there is one. */
  ghost predicate LeftBehind(s: Store, user: string, device: string, x: string) {
    && x in LiveSessions(s, user) && !BoundTo(s, user, device, x)
    && (user in s.index ==> s.sessions[x].value.createdAt < s.index[user].value.since)
  }

  lemma EvictionCounts(c: Store, user: string, order: seq<string>, e: Store)
    requires Ok(c) && IsOrder(c, user, order) && e == Enforce(c, order)
    ensures Unlisted(e, user) == Unlisted(c, user)
    ensures |LiveSessions(c, user)| == |Listed(c, user)| + |Unlisted(c, user)|
    ensures |LiveSessions(e, user)| == |Listed(e, user)| + |Unlisted(c, user)|
    ensures |Listed(e, user)| ==
            if |Listed(c, user)| <= MAX_SESSIONS_PER_USER then |Listed(c, user)| else MAX_SESSIONS_PER_USER
    ensures Unlisted(c, user) == {} <==> |Unlisted(c, user)| == 0
  {
    SurvivorCounts(c, user, order);
    LiveAfterEviction(c, user, order, e);
    assert Ok(e) by { RevokeEachKeeps(c, order[..Surplus(order)]); }
    LiveAreListedOrNot(c, user);
    LiveAreListedOrNot(e, user);
  }

  /** Eviction takes from the user's live sessions what it takes from the listed ones. */
  lemma LiveAfterEviction(c: Store, user: string, order: seq<string>, e: Store)
    requires Ok(c) && IsOrder(c, user, order) && e == Enforce(c, order)
    ensures Unlisted(e, user) == Unlisted(c, user)
  {
    var gone := SortedSets.Members(order[..Surplus(order)]);
    SurvivorsAreTheNewest(c, user, order);
    EvictionMovesNothing(c, order[..Surplus(order)]);
    assert gone == Listed(c, user) - Listed(e, user);
    SurvivorCounts(c, user, order);
    assert LiveSessions(e, user) == LiveSessions(c, user) - gone;
  }

  lemma LiveAreListedOrNot(s: Store, user: string)
    requires Ok(s)
    ensures |LiveSessions(s, user)| == |Listed(s, user)| + |Unlisted(s, user)|
  {
    assert LiveSessions(s, user) == Listed(s, user) + Unlisted(s, user);
  }

  /** Not listed, and so never evicted, are those the creation finds that are not bound to the device
      and are older than the index key, or found without one. */
  lemma UnlistedAreLeftBehind(s: Store, id: string, user: string, device: string, jti: string, c: Store)
    requires Ok(s) && IsNew(s, id, jti) && c == Created(s, id, user, device, jti)
    ensures forall x :: x in Unlisted(c, user) <==> LeftBehind(s, user, device, x)
    ensures forall x :: x in LiveSessions(c, user) <==>
              x == id || (x in LiveSessions(s, user) && !BoundTo(s, user, device, x))
  {
    var r, added := CreatedIs(s, id, user, device, jti);
    assert Ok(r) && id !in r.sessions by { ReleaseKeeps(s, id, user, device, jti, r); }
    forall x
      ensures x in Unlisted(c, user) <==> LeftBehind(s, user, device, x)
      ensures x in LiveSessions(c, user) <==> x == id || (x in LiveSessions(s, user) && !BoundTo(s, user, device, x))
    {
      UnlistedAfterAdd(r, Fresh(r, id, user, device, jti), added, x);
      ReleasedSessions(s, user, device, r, x);
    }
  }

  /** Adding a session lists it and no other. */
  lemma UnlistedAfterAdd(r: Store, d: Session, c: Store, x: string)
    requires SessionsOk(r) && d.id !in r.sessions && d == Fresh(r, d.id, d.user, d.device, d.jti) && c == Add(r, d)
    ensures x in Unlisted(c, d.user) <==>
            x in LiveSessions(r, d.user) && (d.user in r.index ==> x !in r.index[d.user].value.members)
    ensures x in LiveSessions(c, d.user) <==> x == d.id || x in LiveSessions(r, d.user)
  {}

  lemma ReleasedSessions(s: Store, user: string, device: string, r: Store, x: string)
    requires Ok(s) && r == ReleaseDevice(s, user, device)
    ensures x in LiveSessions(r, user) <==> x in LiveSessions(s, user) && !BoundTo(s, user, device, x)
    ensures !BoundTo(s, user, device, x) ==>
              ((user in r.index && x in r.index[user].value.members) <==>
               (user in s.index && x in s.index[user].value.members))
  {
    if (user, device) in s.devices && user in s.index && x in s.index[user].value.members {
      var bound := s.devices[(user, device)].value;
      assert x != bound ==> x in s.index[user].value.members - {bound};
    }
  }

  const DAY := 24 * 3600 * SECOND

  /** One user, one session created on day 0 and last used on day `day`. */
  function UsedOn(day: int, devices: map<(string, string), Slot<string>>): World {
    World(Store(map["a" := Slot(Session("a", "u", "d", "j", 0, day * DAY, (day + 7) * DAY, true), (day + 7) * DAY)],
                map["u" := Slot(Index({"a"}, 0), 30 * DAY)], devices, map[], day * DAY),
          {"a"}, {"j"}, {})
  }

  const BOUND := map[("u", "d") := Slot("a", 7 * DAY)]

  lemma OneStep(w: World, e: Event, es: seq<Event>)
    requires Enabled(w, e) && Legal(Next(w, e), es)
    ensures Legal(w, [e] + es) && Run(w, [e] + es) == Run(Next(w, e), es)
  {
    assert ([e] + es)[1..] == es;
  }

  lemma FirstLogin(es: seq<Event>)
    requires Legal(UsedOn(0, BOUND), es)
    ensures var e := CreateSession("a", "u", "d", "j", ["a"]);
            Legal(Empty(0), [e] + es) && Run(Empty(0), [e] + es) == Run(UsedOn(0, BOUND), es)
  {
    var e := CreateSession("a", "u", "d", "j", ["a"]);
    var c := Created(Empty(0).store, "a", "u", "d", "j");
    assert Listed(c, "u") == {"a"};
    assert ["a"][..0] == [] && RevokeEach(c, []) == c;
    var d := UsedOn(0, BOUND).store;
    assert ReleaseDevice(Empty(0).store, "u", "d") == Empty(0).store;
    assert c.sessions == d.sessions;
    assert {} + {"a"} == {"a"};
    assert c.index == d.index;
    assert c.devices == d.devices;
    assert c.revoked == d.revoked && c.now == d.now;
    assert Next(Empty(0), e).store == c && Next(Empty(0), e).retired == {};
    assert Next(Empty(0), e).ids == {"a"} && Next(Empty(0), e).jtis == {"j"};
    assert Next(Empty(0), e) == UsedOn(0, BOUND);
    OneStep(Empty(0), e, es);
  }

  /** Using the session again within its week slides it on; the index key does not move. */
  lemma UsedAgain(day: int, later: int, devices: map<(string, string), Slot<string>>, es: seq<Event>)
    requires 0 <= day <= later <= day + 7 && later <= 30
    requires Legal(UsedOn(later, Unexpired(devices, later * DAY)), es)
    ensures var use := [ClockTick(later * DAY), GetSession("a")];
            && Legal(UsedOn(day, devices), use + es)
            && Run(UsedOn(day, devices), use + es) == Run(UsedOn(later, Unexpired(devices, later * DAY)), es)
  {
    var w1 := Slides(day, later, devices);
    OneStep(w1, GetSession("a"), es);
    OneStep(UsedOn(day, devices), ClockTick(later * DAY), [GetSession("a")] + es);
    assert [ClockTick(later * DAY), GetSession("a")] + es == [ClockTick(later * DAY)] + ([GetSession("a")] + es);
  }

  lemma Slides(day: int, later: int, devices: map<(string, string), Slot<string>>) returns (w1: World)
    requires 0 <= day <= later <= day + 7 && later <= 30
    ensures w1 == Next(UsedOn(day, devices), ClockTick(later * DAY))
    ensures Next(w1, GetSession("a")) == UsedOn(later, Unexpired(devices, later * DAY))
  {
    var w := UsedOn(day, devices);
    w1 := Next(w, ClockTick(later * DAY));
    assert w1.store.sessions == w.store.sessions && w1.store.index == w.store.index;
    assert Next(w1, GetSession("a")).retired == {};
  }

  /** The day-8 login on a device whose binding lapsed on day 7 while its session was in use. */
  lemma SecondLogin() returns (w1: World, e: Event)
    ensures e == CreateSession("b", "u", "d", "k", ["a", "b"])
    ensures w1 == Next(UsedOn(6, BOUND), ClockTick(8 * DAY)) && Enabled(w1, e)
    ensures var s := Next(w1, e).store; OnDevice(s, "a", "u", "d") && OnDevice(s, "b", "u", "d")
  {
    e := CreateSession("b", "u", "d", "k", ["a", "b"]);
    w1 := Next(UsedOn(6, BOUND), ClockTick(8 * DAY));
    assert w1.store.devices == map[];
  }

  /** A session is used on day 6; its binding lapses on day 7; a second login on the same device
      on day 8 leaves both sessions live. */
  lemma TwoSessionsOnOneDevice()
    ensures var es := [CreateSession("a", "u", "d", "j", ["a"])] + ([ClockTick(6 * DAY), GetSession("a")]
                      + [ClockTick(8 * DAY), CreateSession("b", "u", "d", "k", ["a", "b"])]);
            var s := Run(Empty(0), es).store;
            Legal(Empty(0), es) && OnDevice(s, "a", "u", "d") && OnDevice(s, "b", "u", "d")
  {
    var w1, e := SecondLogin();
    assert Unexpired(BOUND, 6 * DAY) == BOUND;
    OneStep(w1, e, []);
    OneStep(UsedOn(6, BOUND), ClockTick(8 * DAY), [e]);
    assert [ClockTick(8 * DAY)] + [e] == [ClockTick(8 * DAY), e] && [e] + [] == [e];
    UsedAgain(0, 6, BOUND, [ClockTick(8 * DAY), e]);
    FirstLogin([ClockTick(6 * DAY), GetSession("a")] + [ClockTick(8 * DAY), e]);
  }

  function UsesEverySixDays(day: int): seq<Event>
    decreases 30 - day
  {
    if day >= 30 then [ClockTick(31 * DAY), RevokeAllSessions("u", [])]
    else [ClockTick((day + 6) * DAY), GetSession("a")] + UsesEverySixDays(day + 6)
  }

  lemma {:induction false} EscapesFrom(day: int, devices: map<(string, string), Slot<string>>)
    requires day in {0, 6, 12, 18, 24, 30}
    ensures Legal(UsedOn(day, devices), UsesEverySixDays(day))
    ensures "a" in Run(UsedOn(day, devices), UsesEverySixDays(day)).store.sessions
    decreases 30 - day
  {
    if day == 30 {
      var w := UsedOn(30, devices);
      var w1 := Next(w, ClockTick(31 * DAY));
      assert w1.store.sessions == w.store.sessions && w1.store.index == map[];
      OneStep(w1, RevokeAllSessions("u", []), []);
      OneStep(w, ClockTick(31 * DAY), [RevokeAllSessions("u", [])]);
      assert UsesEverySixDays(30) == [ClockTick(31 * DAY)] + ([RevokeAllSessions("u", [])] + []);
    } else {
      EscapesFrom(day + 6, Unexpired(devices, (day + 6) * DAY));
      UsedAgain(day, day + 6, devices, UsesEverySixDays(day + 6));
    }
  }

  /** A session used every six days outlives the index key of its user: signing the user out
      everywhere on day 31 leaves it live. */
  lemma SessionEscapesRevokeAll()
    ensures var es := [CreateSession("a", "u", "d", "j", ["a"])] + UsesEverySixDays(0);
            Legal(Empty(0), es) && "a" in Run(Empty(0), es).store.sessions
  {
    EscapesFrom(0, BOUND);
    FirstLogin(UsesEverySixDays(0));
  }
}
