/** Gifter boards, which add to a score and trim to the top 100 at every gift, compared with what
    every sender gave in all. */
module Leaderboard {
  import Boards
  import opened SortedSets

  const LEADERBOARD_TOP_N := 100

  datatype Gift = Gift(sender: string, diamonds: int)

  function ScoreOf(board: ZSet, user: string): int {
    if user in board then board[user] else 0
  }

  function Raised(board: ZSet, g: Gift): int {
    ScoreOf(board, g.sender) + g.diamonds
  }

  /** ZINCRBY followed by ZREMRANGEBYRANK key 0 -(n+1). */
  function Credit(board: ZSet, g: Gift): ZSet {
    Top(board[g.sender := Raised(board, g)], LEADERBOARD_TOP_N)
  }

  lemma CreditIsBounded(board: ZSet, g: Gift)
    ensures |Credit(board, g)| <= LEADERBOARD_TOP_N
  {
    TopIsRankingPrefix(board[g.sender := Raised(board, g)], LEADERBOARD_TOP_N);
  }

  // ---- The four boards -------------------------------------------------------

  datatype Period = Daily | Weekly | Monthly | AllTime

  const ALL_PERIODS := [Daily, Weekly, Monthly, AllTime]

  function Index(p: Period): (i: nat)
    ensures i < |ALL_PERIODS| && ALL_PERIODS[i] == p
    ensures forall j | 0 <= j < |ALL_PERIODS| && ALL_PERIODS[j] == p :: j == i
  {
    match p case Daily => 0 case Weekly => 1 case Monthly => 2 case AllTime => 3
  }

  function Credited(boards: map<Period, ZSet>, g: Gift): map<Period, ZSet> {
    map p | p in boards :: Credit(boards[p], g)
  }

  class Gifters {
    var boards: map<Period, ZSet>

    constructor ()
      ensures boards == NoGifts()
    {
      boards := NoGifts();
    }

    /** The script: the scores it returns are those before the trim. */
    method RecordGift(g: Gift) returns (scores: seq<int>)
      requires boards.Keys == {Daily, Weekly, Monthly, AllTime}
      modifies this
      ensures boards == Credited(old(boards), g)
      ensures |scores| == |ALL_PERIODS|
      ensures forall i | 0 <= i < |ALL_PERIODS| ::
                scores[i] == Raised(old(boards)[ALL_PERIODS[i]], g)
    {
      scores := [];
      ghost var was := boards;
      for i := 0 to |ALL_PERIODS|
        invariant boards == CreditedUpTo(was, g, i)
        invariant scores == ScoresUpTo(was, g, i)
      {
        var period := ALL_PERIODS[i];
        CreditOneMore(was, g, i);
        var score, board := IncrAndTrim(boards[period], g);
        boards := boards[period := board];
        scores := scores + [score];
      }
      assert boards == Credited(was, g);
    }
  }

  /** The boards and the scores after the first n turns of the script's loop. */
  function CreditedUpTo(boards: map<Period, ZSet>, g: Gift, n: nat): map<Period, ZSet> {
    map p | p in boards :: if Index(p) < n then Credit(boards[p], g) else boards[p]
  }

  function ScoresUpTo(boards: map<Period, ZSet>, g: Gift, n: nat): seq<int>
    requires n <= |ALL_PERIODS| && boards.Keys == {Daily, Weekly, Monthly, AllTime}
  {
    seq(n, i requires 0 <= i < n => Raised(boards[ALL_PERIODS[i]], g))
  }

  lemma CreditOneMore(boards: map<Period, ZSet>, g: Gift, n: nat)
    requires n < |ALL_PERIODS| && boards.Keys == {Daily, Weekly, Monthly, AllTime}
    ensures var p := ALL_PERIODS[n];
            && p in CreditedUpTo(boards, g, n) && CreditedUpTo(boards, g, n)[p] == boards[p]
            && CreditedUpTo(boards, g, n + 1) == CreditedUpTo(boards, g, n)[p := Credit(boards[p], g)]
            && ScoresUpTo(boards, g, n + 1) == ScoresUpTo(boards, g, n) + [Raised(boards[p], g)]
  {
    assert Index(ALL_PERIODS[n]) == n;
    assert forall p | p in boards && p != ALL_PERIODS[n] :: Index(p) != n;
  }

  /** One turn of the script's loop, on the sorted set of one key. */
  method IncrAndTrim(z: ZSet, g: Gift) returns (score: int, board: ZSet)
    ensures score == Raised(z, g) && board == Credit(z, g)
  {
    score := if g.sender in z then z[g.sender] + g.diamonds else g.diamonds;
    board := z[g.sender := score];
    board := Top(board, LEADERBOARD_TOP_N);
  }

  function NoGifts(): map<Period, ZSet> {
    map[Daily := map[], Weekly := map[], Monthly := map[], AllTime := map[]]
  }

  /** A gift recorded, or one board gone: reset, or expired. */
  datatype Event = Give(gift: Gift) | Drop(period: Period)

  function After(es: seq<Event>): map<Period, ZSet> {
    if es == [] then NoGifts() else
      var boards, e := After(es[..|es| - 1]), es[|es| - 1];
      match e
      case Give(g) => Credited(boards, g)
      case Drop(p) => boards[p := map[]]
  }

  function GiftsSince(es: seq<Event>, p: Period): seq<Gift> {
    if es == [] then [] else
      var before, e := GiftsSince(es[..|es| - 1], p), es[|es| - 1];
      match e
      case Give(g) => before + [g]
      case Drop(q) => if q == p then [] else before
  }

  /** One board after a history of gifts. */
  function Board(gs: seq<Gift>): ZSet {
    if gs == [] then map[] else Credit(Board(gs[..|gs| - 1]), gs[|gs| - 1])
  }

  /** Each period's board depends on nothing but the gifts since that board was last dropped. */
  lemma {:induction false} EachBoardIsItsGifts(es: seq<Event>, p: Period)
    ensures p in After(es) && After(es)[p] == Board(GiftsSince(es, p))
  {
    if es != [] {
      EachBoardIsItsGifts(es[..|es| - 1], p);
      var before, e := GiftsSince(es[..|es| - 1], p), es[|es| - 1];
      if e.Give? { assert (before + [e.gift])[..|before|] == before; }
    }
  }

  // ---- Scores against true totals --------------------------------------------

  function Total(gs: seq<Gift>, user: string): int {
    if gs == [] then 0 else
      var g := gs[|gs| - 1];
      Total(gs[..|gs| - 1], user) + if g.sender == user then g.diamonds else 0
  }

  function Senders(gs: seq<Gift>): set<string> {
    set i | 0 <= i < |gs| :: gs[i].sender
  }

  ghost predicate ListedAt(gs: seq<Gift>, user: string, i: nat)
    requires i <= |gs|
  {
    user in Board(gs[..i])
  }

  /** The length of the longest prefix of the history after which the user was not listed. */
  ghost function LastAbsence(gs: seq<Gift>, user: string): (i: nat)
    ensures i <= |gs| && !ListedAt(gs, user, i)
    ensures forall j | i < j <= |gs| :: ListedAt(gs, user, j)
  {
    assert gs[..|gs|] == gs;
    if user !in Board(gs) then |gs| else
      var front := gs[..|gs| - 1];
      assert forall j | 0 <= j <= |front| :: ListedAt(front, user, j) == ListedAt(gs, user, j) by {
        assert forall j | 0 <= j <= |front| :: front[..j] == gs[..j];
      }
      LastAbsence(front, user)
  }

  lemma ScoreStep(gs: seq<Gift>, g: Gift, user: string, missed: int)
    requires ScoreOf(Board(gs), user) == Total(gs, user) - missed && user in Board(gs + [g])
    ensures ScoreOf(Board(gs + [g]), user) == Total(gs + [g], user) - missed
  {}

  lemma {:induction false} ScoreGrowsFromAbsence(gs: seq<Gift>, user: string, i: nat, k: nat)
    requires i <= k <= |gs| && !ListedAt(gs, user, i)
    requires forall j | i < j <= k :: ListedAt(gs, user, j)
    ensures ScoreOf(Board(gs[..k]), user) == Total(gs[..k], user) - Total(gs[..i], user)
  {
    if i < k {
      ScoreGrowsFromAbsence(gs, user, i, k - 1);
      assert ListedAt(gs, user, k);
      assert gs[..k] == gs[..k - 1] + [gs[k - 1]];
      ScoreStep(gs[..k - 1], gs[k - 1], user, Total(gs[..i], user));
    }
  }

  lemma {:induction false} TotalGrows(gs: seq<Gift>, user: string, i: nat)
    requires i <= |gs| && forall g | g in gs :: g.diamonds >= 0
    ensures 0 <= Total(gs[..i], user) <= Total(gs, user)
  {
    if i < |gs| {
      assert gs[..|gs| - 1][..i] == gs[..i];
      TotalGrows(gs[..|gs| - 1], user, i);
    } else {
      assert gs[..i] == gs;
      if gs != [] { TotalGrows(gs[..|gs| - 1], user, |gs| - 1); }
    }
  }

  /** A listed score is what its sender gave since last not listed. So with gifts that are never
      negative no board overstates anyone, and a score is the sender's true total exactly if the
      sender had given nothing by the time of the last absence. */
  lemma NeverOverstated(gs: seq<Gift>, user: string)
    requires user in Board(gs)
    ensures |Board(gs)| <= LEADERBOARD_TOP_N
    ensures var missed := Total(gs[..LastAbsence(gs, user)], user);
            && Board(gs)[user] == Total(gs, user) - missed
            && ((forall g | g in gs :: g.diamonds >= 0) ==>
                  && 0 <= Board(gs)[user] <= Total(gs, user)
                  && missed >= 0)
  {
    var i := LastAbsence(gs, user);
    assert gs[..|gs|] == gs;
    ScoreGrowsFromAbsence(gs, user, i, |gs|);
    if forall g | g in gs :: g.diamonds >= 0 { TotalGrows(gs, user, i); }
    BoardIsBounded(gs);
  }

  lemma BoardIsBounded(gs: seq<Gift>)
    ensures |Board(gs)| <= LEADERBOARD_TOP_N
  {
    if gs != [] { CreditIsBounded(Board(gs[..|gs| - 1]), gs[|gs| - 1]); }
  }

  function Totals(gs: seq<Gift>): ZSet {
    map u | u in Senders(gs) :: Total(gs, u)
  }

  lemma OneMoreSender(gs: seq<Gift>)
    requires gs != []
    ensures Senders(gs) == Senders(gs[..|gs| - 1]) + {gs[|gs| - 1].sender}
  {
    var front, g := gs[..|gs| - 1], gs[|gs| - 1];
    forall u | u in Senders(front) + {g.sender} ensures u in Senders(gs) {
      if u in Senders(front) {
        var i :| 0 <= i < |front| && front[i].sender == u;
        assert gs[i].sender == u;
      }
    }
  }

  lemma {:induction false} StrangerGaveNothing(gs: seq<Gift>, user: string)
    requires user !in Senders(gs)
    ensures Total(gs, user) == 0
  {
    if gs != [] {
      OneMoreSender(gs);
      StrangerGaveNothing(gs[..|gs| - 1], user);
    }
  }

  lemma NothingToTrim(z: ZSet, n: nat)
    requires |z| <= n
    ensures Top(z, n) == z
  {
    forall m | m in z ensures m in Top(z, n) {
      OutranksTotal(z, m, m);
      assert Above(z, m) <= z.Keys - {m};
      SubsetSize(Above(z, m), z.Keys - {m});
    }
  }

  /** The board shows every sender's true total exactly if it never had to choose: if no more
      than 100 people have sent anything. */
  lemma {:induction false} ExactForAllIff(gs: seq<Gift>)
    ensures Board(gs) == Totals(gs) <==> |Senders(gs)| <= LEADERBOARD_TOP_N
  {
    BoardIsBounded(gs);
    TotalsSize(gs);
    if gs != [] && |Senders(gs)| <= LEADERBOARD_TOP_N {
      OneMoreSender(gs);
      SubsetSize(Senders(gs[..|gs| - 1]), Senders(gs));
      ExactForAllIff(gs[..|gs| - 1]);
      StillExact(gs[..|gs| - 1], gs);
    }
  }

  lemma TotalsSize(gs: seq<Gift>)
    ensures |Totals(gs)| == |Senders(gs)|
  {
    assert Totals(gs).Keys == Senders(gs);
    assert |Totals(gs)| == |Totals(gs).Keys|;
  }

  lemma OneMoreTotal(front: seq<Gift>, gs: seq<Gift>)
    requires gs != [] && front == gs[..|gs| - 1]
    ensures var g := gs[|gs| - 1]; Totals(gs) == Totals(front)[g.sender := Raised(Totals(front), g)]
  {
    var g := gs[|gs| - 1];
    OneMoreSender(gs);
    if g.sender !in Senders(front) { StrangerGaveNothing(front, g.sender); }
    assert Raised(Totals(front), g) == Total(gs, g.sender);
  }

  lemma StillExact(front: seq<Gift>, gs: seq<Gift>)
    requires gs != [] && front == gs[..|gs| - 1] && |Senders(gs)| <= LEADERBOARD_TOP_N
    requires Board(front) == Totals(front)
    ensures Board(gs) == Totals(gs)
  {
    OneMoreTotal(front, gs);
    TotalsSize(gs);
    NothingToTrim(Totals(gs), LEADERBOARD_TOP_N);
    assert Board(gs) == Credit(Totals(front), gs[|gs| - 1]);
  }

  // ---- Senders who are never listed ------------------------------------------

  /** Every entry stands above a newcomer with d diamonds. */
  ghost predicate ShutsOut(board: ZSet, user: string, d: int) {
    forall m | m in board :: board[m] > d || (board[m] == d && LexLess(user, m))
  }

  /** A newcomer who does not make a full board leaves it as it was. */
  lemma CutAtOnce(board: ZSet, user: string, score: int)
    requires |board| == LEADERBOARD_TOP_N && user !in board
    requires user !in Top(board[user := score], LEADERBOARD_TOP_N)
    ensures Top(board[user := score], LEADERBOARD_TOP_N) == board
  {
    var full := board[user := score];
    assert full.Keys == board.Keys + {user};
    TopIsRankingPrefix(full, LEADERBOARD_TOP_N);
    SubsetSize(Top(full, LEADERBOARD_TOP_N).Keys, board.Keys);
  }

  /** A gift from someone not listed leaves a full board as it was exactly if every entry stands
      above that one gift, however much the sender gave before. */
  lemma ShutOutIff(board: ZSet, user: string, d: int)
    requires |board| == LEADERBOARD_TOP_N && user !in board
    ensures Credit(board, Gift(user, d)) == board <==> ShutsOut(board, user, d)
  {
    var full := board[user := d];
    OutranksTotal(full, user, user);
    if ShutsOut(board, user, d) {
      forall m | m in board ensures m in Above(full, user) {}
      assert Above(full, user) == board.Keys;
      CutAtOnce(board, user, d);
    } else if Top(full, LEADERBOARD_TOP_N) == board {
      CutMeansFull(full, LEADERBOARD_TOP_N, user);
      forall m | m in board ensures board[m] > d || (board[m] == d && LexLess(user, m)) {
        assert m in Above(full, user);
      }
    }
  }

  /** The history followed by k more gifts of the same kind. */
  function Again(gs: seq<Gift>, g: Gift, k: nat): seq<Gift> {
    if k == 0 then gs else Again(gs, g, k - 1) + [g]
  }

  lemma {:induction false} TotalsAgain(gs: seq<Gift>, g: Gift, k: nat, user: string)
    ensures Total(Again(gs, g, k), user) == Total(gs, user) + if g.sender == user then k * g.diamonds else 0
  {
    if k > 0 {
      TotalsAgain(gs, g, k - 1, user);
      assert k * g.diamonds == (k - 1) * g.diamonds + g.diamonds;
    }
  }

  lemma {:induction false} BoardAgain(gs: seq<Gift>, g: Gift, k: nat, board: ZSet)
    requires Board(gs) == board && Credit(board, g) == board
    ensures Board(Again(gs, g, k)) == board
  {
    if k > 0 {
      BoardAgain(gs, g, k - 1, board);
    }
  }

  /** So a sender can give any number of times and reach any total without ever being listed. */
  lemma GivesUnseen(gs: seq<Gift>, user: string, d: int, k: nat)
    requires |Board(gs)| == LEADERBOARD_TOP_N && user !in Board(gs) && ShutsOut(Board(gs), user, d)
    ensures Board(Again(gs, Gift(user, d), k)) == Board(gs)
    ensures Total(Again(gs, Gift(user, d), k), user) == Total(gs, user) + k * d
  {
    ShutOutIff(Board(gs), user, d);
    BoardAgain(gs, Gift(user, d), k, Board(gs));
    TotalsAgain(gs, Gift(user, d), k, user);
  }

  // ---- When the board is the top of the true totals ---------------------------

  /** The gift is from someone who had been cut with a score, and who belongs on the board now,
      or gets there: the score that was cut is missing. */
  ghost predicate Forgets(z: ZSet, g: Gift) {
    && g.sender in z && g.sender !in Top(z, LEADERBOARD_TOP_N) && z[g.sender] != 0
    && (|| g.sender in Top(z[g.sender := Raised(z, g)], LEADERBOARD_TOP_N)
        || g.sender in Top(Top(z, LEADERBOARD_TOP_N)[g.sender := g.diamonds], LEADERBOARD_TOP_N))
  }

  ghost predicate Parts(z: ZSet, g: Gift) {
    DropsBelowCut(z, LEADERBOARD_TOP_N, g.sender, Raised(z, g)) || Forgets(z, g)
  }

  /** A board that is the top of the totals `z` stays so exactly if the gift neither lowers a
      listed sender below one who was cut nor comes from one whose score was cut and now counts. */
  lemma CreditExactIff(z: ZSet, g: Gift)
    ensures Credit(Top(z, LEADERBOARD_TOP_N), g) == Top(z[g.sender := Raised(z, g)], LEADERBOARD_TOP_N)
            <==> !Parts(z, g)
  {
    var t, u, s := Top(z, LEADERBOARD_TOP_N), g.sender, Raised(z, g);
    TrimEachWriteExact(z, LEADERBOARD_TOP_N, u, s);
    if u in z && u !in t {
      CutMeansFull(z, LEADERBOARD_TOP_N, u);
      CutSenderGives(z, t, u, g.diamonds, s);
    } else {
      assert Raised(t, g) == s;
    }
  }

  lemma CutSenderGives(z: ZSet, t: ZSet, u: string, d: int, s: int)
    requires |t| == LEADERBOARD_TOP_N && u !in t
    requires Top(t[u := s], LEADERBOARD_TOP_N) == Top(z[u := s], LEADERBOARD_TOP_N)
    ensures Top(t[u := d], LEADERBOARD_TOP_N) == Top(z[u := s], LEADERBOARD_TOP_N)
            <==> s == d || (u !in Top(z[u := s], LEADERBOARD_TOP_N) && u !in Top(t[u := d], LEADERBOARD_TOP_N))
  {
    var credited, exact := Top(t[u := d], LEADERBOARD_TOP_N), Top(z[u := s], LEADERBOARD_TOP_N);
    if u !in exact { CutAtOnce(t, u, s); }
    if u !in credited { CutAtOnce(t, u, d); }
    assert u in credited ==> credited[u] == d;
    assert u in exact ==> exact[u] == s;
  }

  /** The sender had been cut, had given something, and with this gift belongs in the top 100. */
  ghost predicate ComesBack(z: ZSet, g: Gift) {
    && g.sender in z && z[g.sender] > 0 && g.sender !in Top(z, LEADERBOARD_TOP_N)
    && g.sender in Top(z[g.sender := Raised(z, g)], LEADERBOARD_TOP_N)
  }

  /** Among gifts that are never negative that is the one way to go wrong. */
  lemma OnlyComebacksPart(z: ZSet, g: Gift)
    requires g.diamonds >= 0 && (g.sender in z ==> z[g.sender] >= 0)
    ensures Parts(z, g) <==> ComesBack(z, g)
  {
    var t, u, s := Top(z, LEADERBOARD_TOP_N), g.sender, Raised(z, g);
    TrimEachWrite(z, LEADERBOARD_TOP_N, u, s);
    TrimEachWriteExact(z, LEADERBOARD_TOP_N, u, s);
    if u in Top(t[u := g.diamonds], LEADERBOARD_TOP_N) { RaisedStays(t, u, g.diamonds, s); }
  }

  lemma RaisedStays(z: ZSet, u: string, low: int, high: int)
    requires low <= high && u in Top(z[u := low], LEADERBOARD_TOP_N)
    ensures u in Top(z[u := high], LEADERBOARD_TOP_N)
  {
    OutranksTotal(z[u := high], u, u);
    SubsetSize(Above(z[u := high], u), Above(z[u := low], u));
  }

  ghost predicate TopAt(gs: seq<Gift>, i: nat) {
    i <= |gs| && Board(gs[..i]) == Top(Totals(gs[..i]), LEADERBOARD_TOP_N)
  }

  ghost predicate PartsAt(gs: seq<Gift>, i: nat) {
    i < |gs| && Parts(Totals(gs[..i]), gs[i])
  }

  lemma OneMoreTopAt(gs: seq<Gift>, i: nat)
    requires i < |gs| && TopAt(gs, i)
    ensures TopAt(gs, i + 1) <==> !PartsAt(gs, i)
  {
    assert gs[..i + 1][..i] == gs[..i];
    OneMoreTotal(gs[..i], gs[..i + 1]);
    CreditExactIff(Totals(gs[..i]), gs[i]);
  }

  /** Trimming at every gift shows the top 100 of the true totals throughout a history exactly if
      no gift of it goes wrong in that way. */
  lemma BoardIsTopIff(gs: seq<Gift>, k: nat)
    requires k <= |gs|
    ensures (forall i | 0 <= i <= k :: TopAt(gs, i)) <==> (forall i | 0 <= i < k :: !PartsAt(gs, i))
  {
    var exact := (i: nat) => i <= |gs| && TopAt(gs, i);
    var breaks := (i: nat) => i < |gs| && PartsAt(gs, i);
    forall i: nat | i < k && exact(i) ensures exact(i + 1) <==> !breaks(i) { OneMoreTopAt(gs, i); }
    Boards.ThroughoutIff(exact, breaks, k);
    assert forall i | 0 <= i <= k :: exact(i) == TopAt(gs, i);
    assert forall i | 0 <= i < k :: breaks(i) == PartsAt(gs, i);
  }

  /** For gifts that are never negative: exactly if nobody who had been cut ever gave enough to
      belong there again. */
  lemma BoardIsTopUntilComeback(gs: seq<Gift>)
    requires forall g | g in gs :: g.diamonds >= 0
    ensures (forall i | 0 <= i <= |gs| :: TopAt(gs, i))
            <==> (forall i | 0 <= i < |gs| :: !ComesBack(Totals(gs[..i]), gs[i]))
  {
    BoardIsTopIff(gs, |gs|);
    forall i | 0 <= i < |gs| ensures PartsAt(gs, i) <==> ComesBack(Totals(gs[..i]), gs[i]) {
      assert gs[i] in gs;
      TotalGrows(gs[..i], gs[i].sender, i);
      OnlyComebacksPart(Totals(gs[..i]), gs[i]);
    }
  }

  // ---- A sender above everyone and not listed ----------------------------------

  function Name(n: nat): string { seq(n, _ => 'x') }

  /** n people give two diamonds each. */
  function Crowd(n: nat): seq<Gift> {
    if n == 0 then [] else Crowd(n - 1) + [Gift(Name(n), 2)]
  }

  lemma {:induction false} CrowdTotals(n: nat)
    ensures |Senders(Crowd(n))| == n && "y" !in Senders(Crowd(n))
    ensures forall u | u in Senders(Crowd(n)) :: |u| <= n && Total(Crowd(n), u) == 2
  {
    if n > 0 {
      CrowdTotals(n - 1);
      assert Crowd(n)[..|Crowd(n)| - 1] == Crowd(n - 1);
      OneMoreSender(Crowd(n));
      assert |Name(n)| == n && Name(n)[0] == 'x';
      StrangerGaveNothing(Crowd(n - 1), Name(n));
    }
  }

  lemma {:induction false} SendersAgain(gs: seq<Gift>, g: Gift, k: nat)
    ensures Senders(Again(gs, g, k)) == Senders(gs) + if k > 0 then {g.sender} else {}
  {
    if k > 0 {
      SendersAgain(gs, g, k - 1);
      SendersAfter(Again(gs, g, k - 1), g);
    }
  }

  lemma SendersAfter(gs: seq<Gift>, g: Gift)
    ensures Senders(gs + [g]) == Senders(gs) + {g.sender}
  {
    assert (gs + [g])[..|gs|] == gs;
    OneMoreSender(gs + [g]);
  }

  /** After a hundred gifts of two diamonds someone sends one diamond three times: the highest
      total of all, and not on the board. */
  lemma TopSenderUnseen()
    ensures var gs := Again(Crowd(100), Gift("y", 1), 3);
            && (forall u | u in Totals(gs) && u != "y" :: Totals(gs)[u] < Totals(gs)["y"])
            && "y" in Top(Totals(gs), LEADERBOARD_TOP_N) && "y" !in Board(gs)
            && !TopAt(gs, |gs|)
  {
    var gs := Again(Crowd(100), Gift("y", 1), 3);
    assert "y" !in Board(gs) by { NeverListed(gs); }
    forall u | u in Totals(gs) && u != "y" ensures Totals(gs)[u] == 2 { OthersGaveTwo(u); }
    assert "y" in Totals(gs) && Totals(gs)["y"] == 3 by {
      SendersAgain(Crowd(100), Gift("y", 1), 3);
      NeverListed(gs);
    }
    HighestIsTop(Totals(gs), "y");
    assert gs[..|gs|] == gs;
  }

  lemma HighestIsTop(z: ZSet, u: string)
    requires u in z && forall m | m in z && m != u :: z[m] < z[u]
    ensures u in Top(z, LEADERBOARD_TOP_N)
  {
    OutranksTotal(z, u, u);
    assert Above(z, u) == {};
  }

  lemma NeverListed(gs: seq<Gift>)
    requires gs == Again(Crowd(100), Gift("y", 1), 3)
    ensures "y" !in Board(gs) && Total(gs, "y") == 3
  {
    CrowdTotals(100);
    ExactForAllIff(Crowd(100));
    TotalsSize(Crowd(100));
    GivesUnseen(Crowd(100), "y", 1, 3);
    StrangerGaveNothing(Crowd(100), "y");
  }

  lemma OthersGaveTwo(u: string)
    requires u in Senders(Again(Crowd(100), Gift("y", 1), 3)) && u != "y"
    ensures Total(Again(Crowd(100), Gift("y", 1), 3), u) == 2
  {
    CrowdTotals(100);
    SendersAgain(Crowd(100), Gift("y", 1), 3);
    TotalsAgain(Crowd(100), Gift("y", 1), 3, u);
  }
}
