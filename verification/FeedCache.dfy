/** Video feeds: chunked fan-out into bounded sorted sets. */
module FeedCache {
  import opened SortedSets
  import opened Boards

  const FEED_WINDOW_SIZE := 200
  const FAN_OUT_CHUNK_SIZE := 200

  // ---- Fan-out ---------------------------------------------------------------

  function FeedOf(feeds: map<string, ZSet>, user: string): ZSet {
    if user in feeds then feeds[user] else map[]
  }

  /** One follower's feed after one insertion. */
  function PushOne(feeds: map<string, ZSet>, user: string, w: Write): map<string, ZSet> {
    feeds[user := Upsert(FeedOf(feeds, user), FEED_WINDOW_SIZE, w)]
  }

  function PushEach(feeds: map<string, ZSet>, users: seq<string>, w: Write): map<string, ZSet> {
    if users == [] then feeds else
      PushOne(PushEach(feeds, users[..|users| - 1], w), users[|users| - 1], w)
  }

  class Feeds {
    var feeds: map<string, ZSet>

    constructor ()
      ensures feeds == map[]
    {
      feeds := map[];
    }

    /** The Lua script: ZADD and trim each key of the chunk. */
    method FanOut(keys: seq<string>, score: int, vid: string, window: nat) returns (updated: nat)
      requires window == FEED_WINDOW_SIZE
      modifies this
      ensures feeds == PushEach(old(feeds), keys, Write(vid, score)) && updated == |keys|
    {
      updated := 0;
      for i := 0 to |keys|
        invariant updated == i && feeds == PushEach(old(feeds), keys[..i], Write(vid, score))
      {
        assert keys[..i + 1][..i] == keys[..i];
        var feed := if keys[i] in feeds then feeds[keys[i]] else map[];
        feed := feed[vid := score];
        feed := Top(feed, window);
        feeds := feeds[keys[i] := feed];
        updated := updated + 1;
      }
      assert keys[..|keys|] == keys;
    }

    method PushToFollowingFeed(followerIDs: seq<string>, score: int, vid: string)
      modifies this
      ensures feeds == PushEach(old(feeds), followerIDs, Write(vid, score))
    {
      var start := 0;
      while start < |followerIDs|
        invariant 0 <= start <= |followerIDs|
        invariant feeds == PushEach(old(feeds), followerIDs[..start], Write(vid, score))
      {
        var end := start + FAN_OUT_CHUNK_SIZE;
        if end > |followerIDs| { end := |followerIDs|; }
        var chunk := followerIDs[start..end];
        PushInChunks(old(feeds), followerIDs[..start], chunk, Write(vid, score));
        assert followerIDs[..start] + chunk == followerIDs[..end];
        var _ := FanOut(chunk, score, vid, FEED_WINDOW_SIZE);
        start := end;
      }
      assert followerIDs[..|followerIDs|] == followerIDs;
    }

    method AppendToForYouFeed(user: string, score: int, vid: string)
      modifies this
      ensures feeds == PushOne(old(feeds), user, Write(vid, score))
    {
      var feed := if user in feeds then feeds[user] else map[];
      feed := feed[vid := score];
      feed := Top(feed, FEED_WINDOW_SIZE);
      feeds := feeds[user := feed];
    }
  }

  lemma {:induction false} PushInChunks(feeds: map<string, ZSet>, a: seq<string>, b: seq<string>, w: Write)
    ensures PushEach(feeds, a + b, w) == PushEach(PushEach(feeds, a, w), b, w)
  {
    if b == [] {
      assert a + b == a;
    } else {
      assert (a + b)[..|a + b| - 1] == a + b[..|b| - 1];
      PushInChunks(feeds, a, b[..|b| - 1], w);
    }
  }

  lemma UpsertTwice(z: ZSet, w: Write)
    ensures Upsert(Upsert(z, FEED_WINDOW_SIZE, w), FEED_WINDOW_SIZE, w) == Upsert(z, FEED_WINDOW_SIZE, w)
  {
    TrimEachWrite(z[w.member := w.score], FEED_WINDOW_SIZE, w.member, w.score);
    assert z[w.member := w.score][w.member := w.score] == z[w.member := w.score];
  }

  /** However the followers are chunked, ordered or repeated, each listed one's feed gets the
      video once and every other feed is left alone. */
  lemma {:induction false} FanOutReachesEach(feeds: map<string, ZSet>, users: seq<string>, w: Write, user: string)
    ensures FeedOf(PushEach(feeds, users, w), user) ==
            if user in users then Upsert(FeedOf(feeds, user), FEED_WINDOW_SIZE, w) else FeedOf(feeds, user)
    ensures user in PushEach(feeds, users, w) <==> user in feeds || user in users
  {
    if users != [] {
      var front, last := users[..|users| - 1], users[|users| - 1];
      FanOutReachesEach(feeds, front, w, user);
      assert users == front + [last];
      UpsertTwice(FeedOf(feeds, user), w);
    }
  }

  /** A video pushed to followers, or one user's feed dropped (invalidated or expired). */
  datatype Event = Push(followers: seq<string>, w: Write) | Drop(user: string)

  function Run(es: seq<Event>): map<string, ZSet> {
    if es == [] then map[] else
      var feeds, e := Run(es[..|es| - 1]), es[|es| - 1];
      match e
      case Push(followers, w) => PushEach(feeds, followers, w)
      case Drop(user) => feeds - {user}
  }

  /** Every video pushed to the user since the feed was last dropped. */
  function Pushed(es: seq<Event>, user: string): set<string> {
    if es == [] then {} else
      var before, e := Pushed(es[..|es| - 1], user), es[|es| - 1];
      match e
      case Push(followers, w) => if user in followers then before + {w.member} else before
      case Drop(u) => if u == user then {} else before
  }

  /** In every run in which a video keeps its creation time, each feed is the 200 latest of the
      videos pushed to it since it was last dropped, although each insertion trims it. */
  lemma {:induction false} FeedIsTheLatest(es: seq<Event>, created: map<string, int>, user: string)
    requires forall e | e in es && e.Push? :: e.w.member in created && e.w.score == created[e.w.member]
    ensures Pushed(es, user) <= created.Keys
    ensures FeedOf(Run(es), user) == Top(map v | v in Pushed(es, user) :: created[v], FEED_WINDOW_SIZE)
  {
    if es == [] {
      assert Top(map[], FEED_WINDOW_SIZE) == map[];
    } else {
      var pre, e := es[..|es| - 1], es[|es| - 1];
      assert e in es && forall x | x in pre :: x in es;
      FeedIsTheLatest(pre, created, user);
      var all := map v | v in Pushed(pre, user) :: created[v];
      match e
      case Push(followers, w) =>
        FanOutReachesEach(Run(pre), followers, w, user);
        TrimEachWrite(all, FEED_WINDOW_SIZE, w.member, w.score);
        if user in followers {
          assert (map v | v in Pushed(es, user) :: created[v]) == all[w.member := w.score];
        }
      case Drop(u) =>
        assert Top(map[], FEED_WINDOW_SIZE) == map[];
    }
  }
}
