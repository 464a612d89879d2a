/** Boards kept by writing a score and trimming to the top n at every write, compared with
    one trim of everything ever written. */
module Boards {
  import opened SortedSets

  datatype Write = Write(member: string, score: int)

  /** ZADD followed by ZREMRANGEBYRANK key 0 -(n+1). */
  function Upsert(board: ZSet, n: nat, w: Write): ZSet {
    Top(board[w.member := w.score], n)
  }

  /** The board after a history of writes. */
  function Board(ws: seq<Write>, n: nat): ZSet {
    if ws == [] then map[] else Upsert(Board(ws[..|ws| - 1], n), n, ws[|ws| - 1])
  }

  /** The latest score of everything ever written. */
  function Latest(ws: seq<Write>): ZSet {
    if ws == [] then map[] else Latest(ws[..|ws| - 1])[ws[|ws| - 1].member := ws[|ws| - 1].score]
  }

  ghost predicate Drops(ws: seq<Write>, n: nat, i: nat) {
    i < |ws| && DropsBelowCut(Latest(ws[..i]), n, ws[i].member, ws[i].score)
  }

  ghost predicate ExactAt(ws: seq<Write>, n: nat, i: nat) {
    i <= |ws| && Board(ws[..i], n) == Top(Latest(ws[..i]), n)
  }

  /** A board that is exact so far stays exact exactly if the write drops no listed member
      below one that was cut. */
  lemma OneMoreWrite(ws: seq<Write>, n: nat, i: nat)
    requires i < |ws| && ExactAt(ws, n, i)
    ensures ExactAt(ws, n, i + 1) <==> !Drops(ws, n, i)
  {
    assert ws[..i + 1][..i] == ws[..i];
    TrimEachWriteExact(Latest(ws[..i]), n, ws[i].member, ws[i].score);
  }

  /** Where exactness is lost at a step exactly if the step breaks it, it holds throughout exactly
      if no step breaks it. */
  lemma {:induction false} ThroughoutIff(exact: nat -> bool, breaks: nat -> bool, k: nat)
    requires exact(0) && forall i: nat | i < k && exact(i) :: exact(i + 1) <==> !breaks(i)
    ensures (forall i: nat | i <= k :: exact(i)) <==> (forall i: nat | i < k :: !breaks(i))
  {
    if k > 0 {
      ThroughoutIff(exact, breaks, k - 1);
      assert breaks(k - 1) || !breaks(k - 1);
      assert exact(k) || !exact(k);
      assert exact(k - 1) ==> (exact(k - 1 + 1) <==> !breaks(k - 1));
    }
  }

  /** Trimming at every write shows the top n of all latest scores throughout a history exactly
      if no write of it drops a listed member below one that was cut. */
  lemma BoardIsExactIff(ws: seq<Write>, n: nat, k: nat)
    requires k <= |ws|
    ensures (forall i | 0 <= i <= k :: ExactAt(ws, n, i)) <==> (forall i | 0 <= i < k :: !Drops(ws, n, i))
  {
    var exact := (i: nat) => i <= |ws| && ExactAt(ws, n, i);
    var breaks := (i: nat) => i < |ws| && Drops(ws, n, i);
    forall i: nat | i < k && exact(i) ensures exact(i + 1) <==> !breaks(i) { OneMoreWrite(ws, n, i); }
    ThroughoutIff(exact, breaks, k);
    assert forall i | 0 <= i <= k :: exact(i) == ExactAt(ws, n, i);
    assert forall i | 0 <= i < k :: breaks(i) == Drops(ws, n, i);
  }

  /** No write lowers the score its member has. */
  ghost predicate Growing(ws: seq<Write>) {
    forall i | 0 <= i < |ws| :: Raises(Latest(ws[..i]), ws[i])
  }

  ghost predicate Raises(z: ZSet, w: Write) {
    w.member in z ==> z[w.member] <= w.score
  }

  lemma {:induction false} GrowingBoardIsExact(ws: seq<Write>, n: nat)
    requires Growing(ws)
    ensures Board(ws, n) == Top(Latest(ws), n)
  {
    if ws == [] {
      assert Top(map[], n) == map[];
    } else {
      var pre, w := ws[..|ws| - 1], ws[|ws| - 1];
      forall i | 0 <= i < |pre| ensures Raises(Latest(pre[..i]), pre[i]) {
        assert pre[..i] == ws[..i] && Raises(Latest(ws[..i]), ws[i]);
      }
      GrowingBoardIsExact(pre, n);
      assert Raises(Latest(ws[..|ws| - 1]), w);
      TrimEachWrite(Latest(pre), n, w.member, w.score);
    }
  }
}
