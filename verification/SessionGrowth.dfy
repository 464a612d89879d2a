/** The session cap bounds listed sessions only: a user who keeps all sessions in use and signs in
    anew less than once a month can hold any number of them. */
module SessionGrowth {
  import opened Sessions
  import opened SessionRuns
  import opened SessionGuarantees
  import SortedSets

  ghost predicate Reachable(w: World) {
    exists es :: Legal(Empty(0), es) && Run(Empty(0), es) == w
  }

  lemma {:induction false} RunAppend(w: World, es: seq<Event>, e: Event)
    requires Legal(w, es) && Enabled(Run(w, es), e)
    ensures Legal(w, es + [e]) && Run(w, es + [e]) == Next(Run(w, es), e)
    decreases es
  {
    if es == [] {
      assert (es + [e])[0] == e && (es + [e])[1..] == [];
    } else {
      assert (es + [e])[0] == es[0] && (es + [e])[1..] == es[1..] + [e];
      RunAppend(Next(w, es[0]), es[1..], e);
    }
  }

  lemma StepReaches(w: World, e: Event)
    requires Reachable(w) && Enabled(w, e)
    ensures Reachable(Next(w, e))
  {
    var es :| Legal(Empty(0), es) && Run(Empty(0), es) == w;
    RunAppend(Empty(0), es, e);
  }

  function Name(n: nat): string { seq(n, _ => 'x') }

  /** A live session of the user that lasts a whole lifetime from t at least. */
  predicate LastsFrom(s: Store, id: string, t: int) {
    id in s.sessions &&
    var d := s.sessions[id].value;
    d.active && d.user == "u" && d.expiresAt == s.sessions[id].deadline && t + SESSION_TTL <= d.expiresAt
  }

  ghost predicate AllLast(s: Store, n: nat, t: int) {
    forall i: nat | 1 <= i <= n :: LastsFrom(s, Name(i), t)
  }

  /** No id, token or device name is longer than n letters. */
  ghost predicate Short(w: World, n: nat) {
    && (forall x | x in w.ids :: |x| <= n)
    && (forall x | x in w.jtis :: |x| <= n)
    && (forall u, d | (u, d) in w.store.devices :: |d| <= n)
  }

  ghost predicate IndexEndsBy(s: Store, t: int) {
    "u" in s.index ==> s.index["u"].deadline <= t
  }

  /** n sessions in use since t, and an index key that does not outlive `end`. */
  ghost predicate InUse(w: World, n: nat, t: int, end: int) {
    Reachable(w) && AllLast(w.store, n, t) && Short(w, n) && IndexEndsBy(w.store, end)
  }

  lemma GetOne(w: World, n: nat, t: int, end: int, m: nat) returns (w': World)
    requires InUse(w, n, t, end) && t <= w.store.now <= t + SESSION_TTL && 1 <= m <= n
    ensures InUse(w', n, t, end) && w'.store.now == w.store.now
    ensures LastsFrom(w'.store, Name(m), w.store.now)
    ensures forall i: nat | i != m && LastsFrom(w.store, Name(i), w.store.now) ::
              LastsFrom(w'.store, Name(i), w.store.now)
  {
    w' := Next(w, GetSession(Name(m)));
    StepReaches(w, GetSession(Name(m)));
    assert LastsFrom(w.store, Name(m), t);
    forall i: nat | i != m ensures Name(i) != Name(m) { assert |Name(i)| == i && |Name(m)| == m; }
  }

  lemma {:induction false} GetAll(w: World, n: nat, t: int, end: int, m: nat) returns (w': World)
    requires InUse(w, n, t, end) && t <= w.store.now <= t + SESSION_TTL && m <= n
    ensures InUse(w', n, t, end) && w'.store.now == w.store.now && AllLast(w'.store, m, w.store.now)
  {
    if m == 0 {
      w' := w;
    } else {
      var w1 := GetAll(w, n, t, end, m - 1);
      w' := GetOne(w1, n, t, end, m);
    }
  }

  /** The clock moves on by up to a session's lifetime and every session is used. */
  lemma Round(w: World, n: nat, t: int, end: int, later: int) returns (w': World)
    requires InUse(w, n, t, end) && t <= w.store.now <= later <= t + SESSION_TTL
    ensures InUse(w', n, later, end) && w'.store.now == later
    ensures later > end ==> "u" !in w'.store.index
  {
    var w1 := Next(w, ClockTick(later));
    StepReaches(w, ClockTick(later));
    forall i: nat | 1 <= i <= n ensures LastsFrom(w1.store, Name(i), t) { assert LastsFrom(w.store, Name(i), t); }
    w' := GetAll(w1, n, t, if later > end then later - 1 else end, n);
    if later > end { assert "u" !in w'.store.index by { ReachableIsGood(w'); } }
  }

  lemma ReachableIsGood(w: World)
    requires Reachable(w)
    ensures Good(w)
  {
    var es :| Legal(Empty(0), es) && Run(Empty(0), es) == w;
    EmptyIsGood(0);
    RunIsGood(Empty(0), es);
  }

  /** Some rounds of six days each. */
  lemma {:induction false} Rounds(w: World, n: nat, t: int, end: int, r: nat) returns (w': World)
    requires InUse(w, n, t, end) && t == w.store.now
    ensures w'.store.now == t + 6 * r * DAY && InUse(w', n, w'.store.now, end)
    ensures r > 0 && w'.store.now > end ==> "u" !in w'.store.index
  {
    if r == 0 {
      w' := w;
    } else {
      var w1 := Rounds(w, n, t, end, r - 1);
      assert 6 * r * DAY == 6 * (r - 1) * DAY + 6 * DAY;
      w' := Round(w1, n, w1.store.now, end, w1.store.now + 6 * DAY);
    }
  }

  /** A sign-in from a new device when the user has no index key: nothing is evicted. */
  lemma SignIn(w: World, n: nat, end: int) returns (w': World)
    requires InUse(w, n, w.store.now, end) && "u" !in w.store.index
    ensures w'.store.now == w.store.now && InUse(w', n + 1, w.store.now, w.store.now + REFRESH_TTL)
  {
    var id := Name(n + 1);
    assert |id| == n + 1 && id != "";
    var s := w.store;
    var d := Fresh(s, id, "u", id, id);
    var c := Created(s, id, "u", id, id);
    var e := CreateSession(id, "u", id, id, [id]);
    assert ReleaseDevice(s, "u", id) == s && c == Add(s, d);
    assert c.index["u"].value.members == {id} && Listed(c, "u") == {id};
    assert [id][..0] == [] && RevokeEach(c, []) == c;
    w' := Next(w, e);
    assert w'.store == c;
    StepReaches(w, e);
  }

  /** After thirty-six days of use the index key is gone and there is room for one more. */
  lemma {:induction false} Grown(n: nat) returns (w: World)
    ensures InUse(w, n, w.store.now, w.store.now + REFRESH_TTL)
  {
    if n == 0 {
      w := Empty(0);
      assert Legal(w, []) && Run(w, []) == w;
    } else {
      var before := Grown(n - 1);
      var later := Rounds(before, n - 1, before.store.now, before.store.now + REFRESH_TTL, 6);
      w := SignIn(later, n - 1, before.store.now + REFRESH_TTL);
    }
  }

  function Names(n: nat): set<string> {
    if n == 0 then {} else Names(n - 1) + {Name(n)}
  }

  lemma {:induction false} NamesAreMany(n: nat)
    ensures |Names(n)| == n && forall x | x in Names(n) :: 1 <= |x| <= n && x == Name(|x|)
  {
    if n > 0 {
      NamesAreMany(n - 1);
      assert |Name(n)| == n;
    }
  }

  /** There is no bound on a user's live sessions: for every n some run ends with n of them. */
  lemma AnyNumberOfSessions(n: nat) returns (es: seq<Event>)
    ensures Legal(Empty(0), es) && |LiveSessions(Run(Empty(0), es).store, "u")| >= n
  {
    var w := Grown(n);
    es :| Legal(Empty(0), es) && Run(Empty(0), es) == w;
    NamesAreMany(n);
    forall x | x in Names(n) ensures x in LiveSessions(w.store, "u") {
      assert LastsFrom(w.store, Name(|x|), w.store.now);
    }
    SortedSets.SubsetSize(Names(n), LiveSessions(w.store, "u"));
  }
}
