/** The session cache as the service runs it: methods over the Redis keys they change, each
    tied to the store it leaves behind. */
module SessionCache {
  import opened Sessions
  import opened SessionRuns
  import SortedSets

  class Cache {
    var sessions: map<string, Slot<Session>>
    var index: map<string, Slot<Index>>
    var devices: map<(string, string), Slot<string>>
    var revoked: map<string, int>
    var now: int

    constructor (start: int)
      ensures State() == Store(map[], map[], map[], map[], start)
    {
      sessions, index, devices, revoked, now := map[], map[], map[], map[], start;
    }

    ghost function State(): Store
      reads this
    {
      Store(sessions, index, devices, revoked, now)
    }

    /** Redis dropping the keys whose time-to-live has passed. */
    method Expire(later: int)
      modifies this
      ensures State() == Tick(old(State()), later)
    {
      sessions := Unexpired(sessions, later);
      index := Unexpired(index, later);
      devices := Unexpired(devices, later);
      now := later;
    }

    method GetSession(id: string) returns (r: Lookup)
      modifies this`sessions
      ensures r == Peek(old(State()), id) && State() == Get(old(State()), id)
      ensures r.NotFound? <==> id !in old(sessions)
      ensures r.Expired? <==> id in old(sessions) && (!old(sessions)[id].value.active
                                                      || now > old(sessions)[id].value.expiresAt)
      ensures r.Found? ==> id in sessions && sessions[id].value == r.session
    {
      if id !in sessions { return NotFound; }
      var data := sessions[id].value;
      if !data.active { return Expired; }
      if now > data.expiresAt { return Expired; }
      data := data.(lastSeenAt := now, expiresAt := now + SESSION_TTL);
      sessions := sessions[id := Slot(data, now + SESSION_TTL)];
      return Found(data);
    }

    method RefreshSession(id: string, newJti: string) returns (r: Lookup)
      modifies this`sessions, this`revoked
      ensures r.Found? == Peek(old(State()), id).Found? && State() == Refresh(old(State()), id, newJti)
    {
      r := GetSession(id);
      if r.Found? {
        var sess := r.session;
        var oldJti := sess.jti;
        sess := sess.(jti := newJti, lastSeenAt := now, expiresAt := now + SESSION_TTL);
        sessions := sessions[id := Slot(sess, now + SESSION_TTL)];
        revoked := revoked[oldJti := Unix(sess.expiresAt)];
      }
    }

    method RemoveFromIndex(user: string, ids: set<string>)
      modifies this`index
      ensures index == WithoutMembers(old(index), user, ids)
    {
      if user in index {
        var left := index[user].value.members - ids;
        index := if left == {} then index - {user}
                 else index[user := Slot(index[user].value.(members := left), index[user].deadline)];
      }
    }

    method RevokeSessionByID(id: string)
      modifies this
      ensures State() == Revoke(old(State()), id)
    {
      var r := GetSession(id);
      if !r.Found? {
        sessions := sessions - {id};
        return;
      }
      var sess := r.session;
      sessions := sessions - {id};
      assert sessions == old(sessions) - {id};
      RemoveFromIndex(sess.user, {id});
      devices := devices - {(sess.user, sess.device)};
      revoked := revoked[sess.jti := Unix(sess.expiresAt)];
    }

    /** SMEMBERS user_sessions: every id once, in no particular order. */
    method MembersOf(user: string) returns (ids: seq<string>)
      ensures IsListing(State(), user, ids)
    {
      ids := [];
      if user !in index { return; }
      var rest := index[user].value.members;
      while rest != {}
        invariant rest <= index[user].value.members
        invariant forall id :: id in ids <==> id in index[user].value.members - rest
        invariant forall i, j | 0 <= i < j < |ids| :: ids[i] != ids[j]
        decreases rest
      {
        var id :| id in rest;
        assert id !in ids;
        rest := rest - {id};
        ids := ids + [id];
      }
    }

    /** The loop of RevokeAllSessions: collect session keys and tokens, unbind devices. */
    method CollectSessions(user: string, sessionIDs: seq<string>)
      returns (sessionKeys: set<string>, jtiEntries: seq<(string, int)>)
      modifies this`devices
      ensures devices == old(devices) - BoundDevices(old(State()), user, sessionIDs)
      ensures sessions - sessionKeys == sessions - (set id | id in sessionIDs)
      ensures Added(revoked, jtiEntries) == AddRevoked(revoked, old(State()), sessionIDs)
    {
      sessionKeys, jtiEntries := {}, [];
      ghost var s := State();
      for i := 0 to |sessionIDs|
        modifies this`devices
        invariant devices == s.devices - BoundDevices(s, user, sessionIDs[..i])
        invariant sessionKeys == set id | id in sessionIDs[..i] && id in sessions
        invariant Added(revoked, jtiEntries) == AddRevoked(s.revoked, s, sessionIDs[..i])
      {
        var sid := sessionIDs[i];
        TakeOneMore(sessionIDs, i);
        if sid in sessions {
          var sd := sessions[sid].value;
          sessionKeys := sessionKeys + {sid};
          jtiEntries := jtiEntries + [(sd.jti, Unix(sd.expiresAt))];
          devices := devices - {(user, sd.device)};
        }
      }
      assert sessionIDs[..|sessionIDs|] == sessionIDs;
    }

    method RevokeAllSessions(user: string) returns (ghost ids: seq<string>)
      modifies this
      ensures IsListing(old(State()), user, ids)
      ensures State() == RevokeAll(old(State()), user, ids)
    {
      var sessionIDs := MembersOf(user);
      ids := sessionIDs;
      if |sessionIDs| == 0 { return; }
      var sessionKeys, jtiEntries := CollectSessions(user, sessionIDs);
      sessions := sessions - sessionKeys;
      index := index - {user};
      revoked := AddAll(revoked, jtiEntries);
    }

    /** ZADD of several entries. */
    method AddAll(m: map<string, int>, entries: seq<(string, int)>) returns (r: map<string, int>)
      ensures r == Added(m, entries)
    {
      r := m;
      for i := 0 to |entries|
        invariant r == Added(m, entries[..i])
      {
        assert entries[..i + 1][..i] == entries[..i];
        r := r[entries[i].0 := entries[i].1];
      }
      assert entries[..|entries|] == entries;
    }

    /** `r` holds each of the user's listed sessions once. */
    ghost predicate Lists(user: string, r: seq<Session>)
      reads this
    {
      && (forall i | 0 <= i < |r| ::
            r[i].id in Listed(State(), user) && r[i].id in sessions && sessions[r[i].id].value == r[i])
      && (forall id | id in Listed(State(), user) :: exists i :: 0 <= i < |r| && r[i].id == id)
      && (forall i, j | 0 <= i < j < |r| :: r[i].id != r[j].id)
    }

    method ListUserSessions(user: string) returns (listed: seq<Session>, staleIDs: set<string>)
      requires SessionsOk(State())
      ensures Lists(user, listed)
      ensures staleIDs == (if user in index then index[user].value.members else {}) - Listed(State(), user)
      ensures staleIDs !! sessions.Keys
    {
      var sessionIDs := MembersOf(user);
      listed, staleIDs := [], {};
      for i := 0 to |sessionIDs|
        invariant listed == FoundAmong(State(), sessionIDs[..i])
        invariant staleIDs == set id | id in sessionIDs[..i] && id !in sessions
      {
        var sid := sessionIDs[i];
        TakeOneMore(sessionIDs, i);
        FoundGrows(State(), sessionIDs[..i], sid);
        if sid !in sessions {
          staleIDs := staleIDs + {sid};
        } else {
          var sd := sessions[sid].value;
          if !sd.active || now > sd.expiresAt {
            staleIDs := staleIDs + {sd.id};
          } else {
            listed := listed + [sd];
          }
        }
      }
      assert sessionIDs[..|sessionIDs|] == sessionIDs;
      FoundIsListed(user, sessionIDs);
    }

    lemma FoundIsListed(user: string, ids: seq<string>)
      requires SessionsOk(State()) && IsListing(State(), user, ids)
      ensures Lists(user, FoundAmong(State(), ids))
    {
      FoundExactly(State(), ids);
    }

    method EnforceSessionLimit(user: string) returns (ghost order: seq<string>)
      requires SessionsOk(State())
      modifies this
      ensures IsOrder(old(State()), user, order) && State() == Enforce(old(State()), order)
    {
      var listed, _ := ListUserSessions(user);
      var sorted := SortByCreation(listed);
      order := seq(|sorted|, i requires 0 <= i < |sorted| => sorted[i].id);
      SortedIsOrder(user, listed, sorted, order);
      if |sorted| <= MAX_SESSIONS_PER_USER {
        assert order[..0] == [];
        return;
      }
      var evictCount := |sorted| - MAX_SESSIONS_PER_USER;
      ghost var s, evicted := State(), order[..evictCount];
      for i := 0 to evictCount
        invariant RevokeEach(State(), evicted[i..]) == RevokeEach(s, evicted)
      {
        assert evicted[i] == sorted[i].id && evicted[i..][1..] == evicted[i + 1..];
        RevokeSessionByID(sorted[i].id);
      }
    }

    lemma SortedIsOrder(user: string, listed: seq<Session>, sorted: seq<Session>, order: seq<string>)
      requires SessionsOk(State()) && Lists(user, listed) && IsSorting(listed, sorted)
      requires |order| == |sorted| && forall i | 0 <= i < |order| :: order[i] == sorted[i].id
      ensures IsOrder(State(), user, order)
    {
      PermutationKeepsApart(listed, sorted);
      forall id ensures id in order <==> id in Listed(State(), user) {
        if id in Listed(State(), user) {
          var i :| 0 <= i < |listed| && listed[i].id == id;
          assert listed[i] in multiset(sorted);
          var j :| 0 <= j < |sorted| && sorted[j] == listed[i];
          assert order[j] == id;
        }
        if id in order {
          var j :| 0 <= j < |order| && order[j] == id;
          assert sorted[j] in multiset(listed);
        }
      }
      forall i | 0 <= i < |order| ensures CreatedAt(State(), order[i]) == sorted[i].createdAt {
        assert sorted[i] in multiset(listed);
      }
    }

    /** CreateSession up to its call of enforceSessionLimit. */
    method StoreSession(id: string, user: string, device: string, jti: string)
      modifies this
      ensures State() == Created(old(State()), id, user, device, jti)
    {
      ghost var s := State();
      var data := Session(id, user, device, jti, now, now, now + SESSION_TTL, true);
      if (user, device) in devices && devices[(user, device)].value != "" {
        RevokeSessionByID(devices[(user, device)].value);
      }
      ghost var released := State();
      assert released == ReleaseDevice(s, user, device);
      sessions := sessions[id := Slot(data, now + SESSION_TTL)];
      var members, since := {}, now;
      if user in index {
        members, since := index[user].value.members, index[user].value.since;
      }
      index := index[user := Slot(Index(members + {id}, since), now + REFRESH_TTL)];
      devices := devices[(user, device) := Slot(id, now + SESSION_TTL)];
      assert State() == Add(released, Fresh(released, id, user, device, jti));
    }

    method CreateSession(id: string, user: string, device: string, jti: string) returns (ghost order: seq<string>)
      requires SessionsOk(State())
      modifies this
      ensures IsOrder(Created(old(State()), id, user, device, jti), user, order)
      ensures State() == Create(old(State()), id, user, device, jti, order)
    {
      StoreSession(id, user, device, jti);
      order := EnforceSessionLimit(user);
    }

    method IsTokenRevoked(jti: string) returns (yes: bool)
      ensures yes == IsRevoked(State(), jti, now)
      ensures yes <==> jti in revoked && now <= revoked[jti] * SECOND
    {
      if jti !in revoked { return false; }
      if revoked[jti] * SECOND < now { return false; }
      return true;
    }

    method PruneRevokedTokens() returns (removed: int)
      modifies this`revoked
      ensures State() == Prune(old(State()))
      ensures removed == |old(revoked)| - |revoked| && removed >= 0
    {
      var maxScore := Unix(now);
      var left := map j | j in revoked && revoked[j] > maxScore :: revoked[j];
      SortedSets.SubsetSize(left.Keys, revoked.Keys);
      assert |left| == |left.Keys| && |revoked| == |revoked.Keys|;
      removed := |revoked| - |left|;
      revoked := left;
    }
  }

  // ---- Loops over lists ------------------------------------------------------

  lemma TakeOneMore<T>(s: seq<T>, i: nat)
    requires i < |s|
    ensures s[..i + 1] == s[..i] + [s[i]]
  {}

  function Added(m: map<string, int>, entries: seq<(string, int)>): map<string, int> {
    if entries == [] then m else
      Added(m, entries[..|entries| - 1])[entries[|entries| - 1].0 := entries[|entries| - 1].1]
  }

  /** The sessions among `ids` that are there and unexpired, in that order. */
  function FoundAmong(s: Store, ids: seq<string>): seq<Session> {
    if ids == [] then [] else
      var id := ids[|ids| - 1];
      FoundAmong(s, ids[..|ids| - 1]) + if Peek(s, id).Found? then [s.sessions[id].value] else []
  }

  lemma FoundGrows(s: Store, ids: seq<string>, id: string)
    ensures FoundAmong(s, ids + [id])
         == FoundAmong(s, ids) + if Peek(s, id).Found? then [s.sessions[id].value] else []
  {
    assert (ids + [id])[..|ids|] == ids;
  }

  lemma {:induction false} FoundExactly(s: Store, ids: seq<string>)
    requires SessionsOk(s) && forall i, j | 0 <= i < j < |ids| :: ids[i] != ids[j]
    ensures var r := FoundAmong(s, ids);
            && (forall i | 0 <= i < |r| ::
                  r[i].id in ids && Peek(s, r[i].id).Found? && s.sessions[r[i].id].value == r[i])
            && (forall id | id in ids && Peek(s, id).Found? :: exists i :: 0 <= i < |r| && r[i].id == id)
            && (forall i, j | 0 <= i < j < |r| :: r[i].id != r[j].id)
  {
    if ids != [] {
      var front, last := ids[..|ids| - 1], ids[|ids| - 1];
      FoundExactly(s, front);
      FoundGrows(s, front, last);
      assert ids == front + [last] && last !in front;
      var r, r' := FoundAmong(s, front), FoundAmong(s, ids);
      assert forall i | 0 <= i < |r| :: r'[i] == r[i];
      if Peek(s, last).Found? { assert r'[|r|].id == last; }
    }
  }

  ghost predicate IsSorting(list: seq<Session>, r: seq<Session>) {
    multiset(r) == multiset(list) && forall i, j | 0 <= i < j < |r| :: r[i].createdAt <= r[j].createdAt
  }

  lemma PermutationKeepsApart(list: seq<Session>, r: seq<Session>)
    requires multiset(r) == multiset(list)
    requires forall i, j | 0 <= i < j < |list| :: list[i].id != list[j].id
    ensures forall i, j | 0 <= i < j < |r| :: r[i].id != r[j].id
  {
    forall i, j | 0 <= i < j < |r| ensures r[i].id != r[j].id {
      assert r[i] in multiset(list) && r[j] in multiset(list);
      if r[i].id == r[j].id {
        OccursTwice(r, i, j);
        OccursOnce(list, r[i]);
        assert false;
      }
    }
  }

  lemma OccursTwice(r: seq<Session>, i: nat, j: nat)
    requires i < j < |r| && r[i] == r[j]
    ensures multiset(r)[r[i]] >= 2
  {
    assert r == r[..j] + r[j..];
    assert r[..j][i] == r[i] && r[j..][0] == r[i];
  }

  lemma {:induction false} OccursOnce(list: seq<Session>, x: Session)
    requires forall i, j | 0 <= i < j < |list| :: list[i].id != list[j].id
    ensures multiset(list)[x] <= 1
  {
    if list != [] {
      var front, last := list[..|list| - 1], list[|list| - 1];
      assert list == front + [last];
      OccursOnce(front, x);
      assert x == last ==> x !in front;
    }
  }

  lemma InsertedIsSorting(list: seq<Session>, r: seq<Session>, x: Session, p: nat)
    requires IsSorting(list, r) && p <= |r|
    requires p > 0 ==> r[p - 1].createdAt <= x.createdAt
    requires forall k | p <= k < |r| :: x.createdAt < r[k].createdAt
    ensures IsSorting(list + [x], r[..p] + [x] + r[p..])
  {
    var r' := r[..p] + [x] + r[p..];
    InsertedBag(r, x, p);
    forall i, j | 0 <= i < j < |r'| ensures r'[i].createdAt <= r'[j].createdAt {}
  }

  lemma InsertedBag(r: seq<Session>, x: Session, p: nat)
    requires p <= |r|
    ensures multiset(r[..p] + [x] + r[p..]) == multiset(r) + multiset{x}
  {
    assert r == r[..p] + r[p..];
  }

  /** sort.Slice by creation time; where times tie any order may come out. */
  method SortByCreation(list: seq<Session>) returns (r: seq<Session>)
    ensures IsSorting(list, r)
  {
    r := [];
    for i := 0 to |list|
      invariant IsSorting(list[..i], r)
    {
      var x, p := list[i], |r|;
      while p > 0 && x.createdAt < r[p - 1].createdAt
        invariant 0 <= p <= |r| && forall k | p <= k < |r| :: x.createdAt < r[k].createdAt
      {
        p := p - 1;
      }
      TakeOneMore(list, i);
      InsertedIsSorting(list[..i], r, x, p);
      r := r[..p] + [x] + r[p..];
    }
    assert list[..|list|] == list;
  }
}
