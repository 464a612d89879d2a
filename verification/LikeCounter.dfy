/** Likes kept three times: the table of likes, the counter row of each video, and the counter
    Redis keeps in front of that row. */
module LikeCounter {

  datatype Like = Like(user: string, video: string)

  datatype Outcome = Done | ErrAlreadyLiked | ErrNotFound

  datatype State = State(likes: set<Like>, counts: map<string, int>, cache: map<string, int>)

  function Empty(): State { State({}, map[], map[]) }

  function LikesOf(s: State, video: string): set<Like> {
    set l | l in s.likes && l.video == video
  }

  function ValueOf(counts: map<string, int>, video: string): int {
    if video in counts then counts[video] else 0
  }

  function Liked(s: State, l: Like): State {
    if l in s.likes then s else
      State(s.likes + {l},
            s.counts[l.video := ValueOf(s.counts, l.video) + 1],
            s.cache[l.video := ValueOf(s.cache, l.video) + 1])
  }

  /** GREATEST(like_count - 1, 0), on a row that exists. */
  function Lowered(counts: map<string, int>, video: string): map<string, int> {
    if video !in counts then counts
    else counts[video := if counts[video] - 1 >= 0 then counts[video] - 1 else 0]
  }

  function Unliked(s: State, l: Like): State {
    if l !in s.likes then s else
      State(s.likes - {l}, Lowered(s.counts, l.video), s.cache[l.video := ValueOf(s.cache, l.video) - 1])
  }

  function Counted(s: State, video: string): State {
    if video in s.cache then s else s.(cache := s.cache[video := ValueOf(s.counts, video)])
  }

  class LikeService {
    var likes: set<Like>
    var counts: map<string, int>
    var cache: map<string, int>

    constructor ()
      ensures Contents() == Empty()
    {
      likes, counts, cache := {}, map[], map[];
    }

    ghost function Contents(): State
      reads this
    {
      State(likes, counts, cache)
    }

    /** The repository: INSERT .. ON CONFLICT DO NOTHING, then the counter row. */
    method InsertLike(l: Like) returns (r: Outcome)
      modifies this`likes, this`counts
      ensures r == (if l in old(likes) then ErrAlreadyLiked else Done)
      ensures likes == old(likes) + {l}
      ensures counts == if r == Done then old(counts)[l.video := ValueOf(old(counts), l.video) + 1] else old(counts)
    {
      if l in likes { return ErrAlreadyLiked; }
      likes := likes + {l};
      if l.video in counts {
        counts := counts[l.video := counts[l.video] + 1];
      } else {
        counts := counts[l.video := 1];
      }
      return Done;
    }

    method DeleteLike(l: Like) returns (r: Outcome)
      modifies this`likes, this`counts
      ensures r == (if l in old(likes) then Done else ErrNotFound)
      ensures likes == old(likes) - {l}
      ensures counts == if r == Done then Lowered(old(counts), l.video) else old(counts)
      ensures r == Done && l.video in counts ==>
                counts[l.video] == if old(counts)[l.video] <= 0 then 0 else old(counts)[l.video] - 1
    {
      if l !in likes { return ErrNotFound; }
      likes := likes - {l};
      if l.video in counts {
        var lower := counts[l.video] - 1;
        if lower < 0 { lower := 0; }
        counts := counts[l.video := lower];
      }
      return Done;
    }

    method LikeVideo(l: Like) returns (r: Outcome)
      modifies this
      ensures r == (if l in old(likes) then ErrAlreadyLiked else Done)
      ensures Contents() == Liked(old(Contents()), l)
    {
      r := InsertLike(l);
      if r != Done { return; }
      cache := cache[l.video := (if l.video in cache then cache[l.video] else 0) + 1];
    }

    method UnlikeVideo(l: Like) returns (r: Outcome)
      modifies this
      ensures r == (if l in old(likes) then Done else ErrNotFound)
      ensures Contents() == Unliked(old(Contents()), l)
    {
      r := DeleteLike(l);
      if r != Done { return; }
      cache := cache[l.video := (if l.video in cache then cache[l.video] else 0) - 1];
    }

    method GetLikeCount(video: string) returns (count: int)
      modifies this`cache
      ensures Contents() == Counted(old(Contents()), video) && count == cache[video]
    {
      if video in cache { return cache[video]; }
      count := if video in counts then counts[video] else 0;
      cache := cache[video := count];
    }
  }

  // ---- Runs ------------------------------------------------------------------

  datatype Event = Add(l: Like) | Remove(l: Like) | Count(video: string) | Forget(video: string)

  function Next(s: State, e: Event): State {
    match e
    case Add(l) => Liked(s, l)
    case Remove(l) => Unliked(s, l)
    case Count(video) => Counted(s, video)
    case Forget(video) => s.(cache := s.cache - {video})
  }

  function Run(es: seq<Event>): State {
    if es == [] then Empty() else Next(Run(es[..|es| - 1]), es[|es| - 1])
  }

  ghost predicate StillLiked(es: seq<Event>, l: Like) {
    exists i :: 0 <= i < |es| && LikedLast(es, l, i)
  }

  /** The like was given at i and not taken back since. */
  ghost predicate LikedLast(es: seq<Event>, l: Like, i: nat) {
    i < |es| && es[i] == Add(l) && forall j | i < j < |es| :: es[j] != Remove(l)
  }

  /** In every run the table holds exactly the likes given and not taken back since. */
  lemma {:induction false} TableIsTheLastWord(es: seq<Event>, l: Like)
    ensures l in Run(es).likes <==> StillLiked(es, l)
  {
    if es != [] {
      var front, n := es[..|es| - 1], |es| - 1;
      TableIsTheLastWord(front, l);
      if StillLiked(front, l) && es[n] != Remove(l) {
        var i :| 0 <= i < |front| && LikedLast(front, l, i);
        assert LikedLast(es, l, i);
      }
      if es[n] == Add(l) { assert LikedLast(es, l, n); }
      if StillLiked(es, l) && es[n] != Add(l) {
        var i :| 0 <= i < |es| && LikedLast(es, l, i);
        assert LikedLast(front, l, i);
      }
    }
  }

  /** How many likes a video has once one more is there, or one fewer. */
  lemma LikesChange(s: State, l: Like, video: string)
    ensures var more := s.(likes := s.likes + {l});
            |LikesOf(more, video)| == |LikesOf(s, video)| + if l !in s.likes && l.video == video then 1 else 0
    ensures var fewer := s.(likes := s.likes - {l});
            |LikesOf(fewer, video)| == |LikesOf(s, video)| - if l in s.likes && l.video == video then 1 else 0
  {
    var more, fewer := s.(likes := s.likes + {l}), s.(likes := s.likes - {l});
    if l.video == video {
      assert LikesOf(more, video) == LikesOf(s, video) + {l};
      assert LikesOf(fewer, video) == LikesOf(s, video) - {l};
    } else {
      assert LikesOf(more, video) == LikesOf(s, video) == LikesOf(fewer, video);
    }
  }

  ghost predicate RowsAgree(s: State) {
    forall video: string :: RowAgrees(s, video)
  }

  ghost predicate RowAgrees(s: State, video: string) {
    ValueOf(s.counts, video) == |LikesOf(s, video)|
  }

  lemma NextAgrees(s: State, e: Event, video: string)
    requires RowsAgree(s)
    ensures RowAgrees(Next(s, e), video)
    ensures LikesOf(Next(s, e), video) == LikesOf(s, video) || (!e.Count? && !e.Forget? && e.l.video == video)
  {
    assert RowAgrees(s, video);
    match e
    case Add(l) =>
      LikesChange(s, l, video);
      assert LikesOf(Next(s, e), video) == LikesOf(s.(likes := s.likes + {l}), video);
    case Remove(l) =>
      LikesChange(s, l, video);
      assert LikesOf(Next(s, e), video) == LikesOf(s.(likes := s.likes - {l}), video);
      assert RowAgrees(s, l.video);
      if l in s.likes { assert l in LikesOf(s, l.video); }
    case _ =>
      assert LikesOf(Next(s, e), video) == LikesOf(s, video);
  }

  /** In every run, whatever Redis forgets, each counter row is the number of likes; so a row
      that an unlike lowers is at least 1 and the clamp at zero never fires. */
  lemma {:induction false} RowIsCardinality(es: seq<Event>)
    ensures RowsAgree(Run(es))
    ensures forall l | l in Run(es).likes :: l.video in Run(es).counts && Run(es).counts[l.video] >= 1
  {
    if es == [] {
      forall video: string ensures RowAgrees(Run(es), video) { assert LikesOf(Run(es), video) == {}; }
    } else {
      RowIsCardinality(es[..|es| - 1]);
      forall video: string ensures RowAgrees(Run(es), video) {
        NextAgrees(Run(es[..|es| - 1]), es[|es| - 1], video);
      }
    }
    forall l | l in Run(es).likes ensures l.video in Run(es).counts && Run(es).counts[l.video] >= 1 {
      assert RowAgrees(Run(es), l.video) && l in LikesOf(Run(es), l.video);
    }
  }

  /** Without key loss all three agree, so what GetLikeCount returns is the number of likes. */
  lemma {:induction false} ThreeWayAgreement(es: seq<Event>, video: string)
    requires forall e | e in es :: !e.Forget?
    ensures |LikesOf(Run(es), video)| == ValueOf(Run(es).counts, video) == ValueOf(Run(es).cache, video)
    ensures Counted(Run(es), video).cache[video] == |LikesOf(Run(es), video)|
  {
    RowIsCardinality(es);
    assert RowAgrees(Run(es), video);
    if es != [] {
      var before, e := Run(es[..|es| - 1]), es[|es| - 1];
      assert e in es;
      ThreeWayAgreement(es[..|es| - 1], video);
      RowIsCardinality(es[..|es| - 1]);
      if e.Remove? && e.l in before.likes { assert e.l.video in before.counts; }
    }
  }

  // ---- What a lost key costs ---------------------------------------------------

  /** The likes Redis does not know of if event e is what brings a lost key back: none if it is
      a read, and otherwise all there were. */
  function Unseen(s: State, e: Event, video: string): nat {
    if e.Count? then 0 else |LikesOf(s, video)|
  }

  /** From the event i that last brought the key into being, Redis is short by what it did not see
      then, and nothing repairs it. So later counts are right exactly if that event was a read or
      found the video without likes. */
  lemma {:induction false} DriftIsConstant(es: seq<Event>, video: string, i: nat)
    requires i < |es| && video !in Run(es[..i]).cache
    requires forall j | i < j <= |es| :: video in Run(es[..j]).cache
    ensures video in Run(es).cache
    ensures Run(es).cache[video] == |LikesOf(Run(es), video)| - Unseen(Run(es[..i]), es[i], video)
  {
    var front, e := es[..|es| - 1], es[|es| - 1];
    assert es[..|es|] == es;
    RowIsCardinality(front);
    assert RowAgrees(Run(front), video);
    NextAgrees(Run(front), e, video);
    if i < |front| {
      assert front[..i] == es[..i];
      forall j | i < j <= |front| ensures video in Run(front[..j]).cache { assert front[..j] == es[..j]; }
      DriftIsConstant(front, video, i);
    }
    if e.Add? { LikesChange(Run(front), e.l, video); }
    if e.Remove? { LikesChange(Run(front), e.l, video); }
  }

  /** A lost key can make the reported count negative. */
  lemma CountCanBeNegative(l: Like)
    ensures var es := [Add(l), Forget(l.video), Remove(l)];
            Counted(Run(es), l.video).cache[l.video] == -1 && |LikesOf(Run(es), l.video)| == 0
  {
    var es := [Add(l), Forget(l.video), Remove(l)];
    assert es[..2][..1] == [Add(l)] && [Add(l)][..0] == [];
    assert Run(es[..2][..1]) == State({l}, map[l.video := 1], map[l.video := 1]);
    assert Run(es[..2]) == State({l}, map[l.video := 1], map[]);
    assert Run(es) == State({}, map[l.video := 0], map[l.video := -1]);
    assert LikesOf(Run(es), l.video) == {};
  }
}
