/** Live-stream boards: the viewers of each active stream and the peak each reached. Both keys
    have a time to live that every report renews, whichever stream it is about. */
module LiveStreams {
  import opened SortedSets

  const ACTIVE_REFRESH_SECONDS := 300
  const TTL_DAILY_SECONDS := 93600

  /** A key lasts up to and including its deadline. */
  datatype Board = Board(scores: ZSet, deadline: int)

  function At(b: Board, now: int): ZSet {
    if now <= b.deadline then b.scores else map[]
  }

  datatype State = State(active: Board, today: Board)

  function Reported(s: State, now: int, stream: string, viewers: int): State {
    var active, today := At(s.active, now), At(s.today, now);
    State(Board(active[stream := viewers], now + ACTIVE_REFRESH_SECONDS),
          Board(if stream in today && today[stream] >= viewers then today else today[stream := viewers],
                now + TTL_DAILY_SECONDS))
  }

  function Ended(s: State, now: int, stream: string): State {
    s.(active := Board(At(s.active, now) - {stream}, s.active.deadline))
  }

  class Rankings {
    var active: Board
    var today: Board

    constructor ()
      ensures Contents() == Start()
    {
      active, today := Board(map[], 0), Board(map[], 0);
    }

    ghost function Contents(): State
      reads this
    {
      State(active, today)
    }

    method UpdateLiveStreamViewers(now: int, stream: string, viewers: int)
      modifies this
      ensures Contents() == Reported(old(Contents()), now, stream, viewers)
    {
      var scores := if now <= active.deadline then active.scores else map[];
      scores := scores[stream := viewers];
      var peaks := if now <= today.deadline then today.scores else map[];
      if stream !in peaks || peaks[stream] < viewers { peaks := peaks[stream := viewers]; }
      active := Board(scores, now + ACTIVE_REFRESH_SECONDS);
      today := Board(peaks, now + TTL_DAILY_SECONDS);
    }

    method EndLiveStream(now: int, stream: string)
      modifies this
      ensures Contents() == Ended(old(Contents()), now, stream)
    {
      if now <= active.deadline {
        active := active.(scores := active.scores - {stream});
      } else {
        active := active.(scores := map[]);
      }
    }
  }

  function Start(): State {
    State(Board(map[], 0), Board(map[], 0))
  }

  datatype Event =
    | Report(time: int, stream: string, viewers: int)
    | End(time: int, stream: string)

  function Next(s: State, e: Event): State {
    match e
    case Report(now, stream, viewers) => Reported(s, now, stream, viewers)
    case End(now, stream) => Ended(s, now, stream)
  }

  function Run(es: seq<Event>): State {
    if es == [] then Start() else Next(Run(es[..|es| - 1]), es[|es| - 1])
  }

  ghost predicate InOrder(es: seq<Event>) {
    && (forall i | 0 <= i < |es| :: es[i].time > 0)
    && (forall i, j | 0 <= i < j < |es| :: es[i].time <= es[j].time)
  }

  // ---- When a stream is shown as active ---------------------------------------

  /** The time at which the keys were last renewed, by a report of any stream; `none` before the first. */
  function LatestReport(es: seq<Event>, none: int): int {
    if es == [] then none else
      var e := es[|es| - 1];
      if e.Report? then e.time else LatestReport(es[..|es| - 1], none)
  }

  function TimeOf(es: seq<Event>, now: int, j: nat): int
    requires j <= |es|
  {
    if j < |es| then es[j].time else now
  }

  /** After event i the key was never left unrenewed for longer than its time to live. */
  ghost predicate KeptAlive(es: seq<Event>, now: int, i: nat) {
    forall j | i < j <= |es| :: Renewed(es, now, j)
  }

  ghost predicate Renewed(es: seq<Event>, now: int, j: nat) {
    j <= |es| && TimeOf(es, now, j) - LatestReport(es[..j], -ACTIVE_REFRESH_SECONDS) <= ACTIVE_REFRESH_SECONDS
  }

  lemma {:induction false} DeadlineFollowsReports(es: seq<Event>)
    ensures Run(es).active.deadline == LatestReport(es, -ACTIVE_REFRESH_SECONDS) + ACTIVE_REFRESH_SECONDS
  {
    if es != [] { DeadlineFollowsReports(es[..|es| - 1]); }
  }

  /** A stream whose last event is the report at i is shown as active exactly if, ever since, the
      reports of all streams together renewed the key in time. */
  lemma {:induction false} ActiveIff(es: seq<Event>, now: int, i: nat)
    requires i < |es| && es[i].Report?
    requires forall j | i < j < |es| :: es[j].stream != es[i].stream
    ensures es[i].stream in At(Run(es).active, now) <==> KeptAlive(es, now, i)
    ensures es[i].stream in At(Run(es).active, now) ==> At(Run(es).active, now)[es[i].stream] == es[i].viewers
    decreases |es|
  {
    DeadlineFollowsReports(es);
    assert es[..|es|] == es;
    assert Renewed(es, now, |es|) <==> now <= Run(es).active.deadline;
    var front, e := es[..|es| - 1], es[|es| - 1];
    if i < |front| {
      assert front[i] == es[i];
      ActiveIff(front, e.time, i);
      assert forall j | i < j <= |front| :: Renewed(front, e.time, j) == Renewed(es, now, j) by {
        assert forall j | 0 <= j <= |front| :: front[..j] == es[..j];
      }
    }
  }

  /** A stream whose last event is the end of its broadcast is not shown. */
  lemma {:induction false} EndedIsGone(es: seq<Event>, now: int, i: nat)
    requires i < |es| && es[i].End?
    requires forall j | i < j < |es| :: es[j].stream != es[i].stream
    ensures es[i].stream !in At(Run(es).active, now)
    decreases |es|
  {
    var front, e := es[..|es| - 1], es[|es| - 1];
    if i < |front| {
      assert front[i] == es[i];
      EndedIsGone(front, e.time, i);
    }
  }

  /** So a stream that stops reporting does not drop off within the refresh interval: another
      stream's reports keep it there. */
  lemma StaleStreamStays()
    ensures var es := [Report(1, "a", 7), Report(300, "b", 1)];
            && InOrder(es) && 600 - es[0].time > ACTIVE_REFRESH_SECONDS
            && "a" in At(Run(es).active, 600)
  {
    var es := [Report(1, "a", 7), Report(300, "b", 1)];
    assert es[..1] == [Report(1, "a", 7)] && es[..1][..0] == [];
  }

  /** The peak board lasts 26 hours from the latest report of any stream, and ending a broadcast does not
      renew it. */
  lemma {:induction false} PeaksLastFromReports(es: seq<Event>)
    ensures Run(es).today.deadline == LatestReport(es, -93600) + 93600
  {
    if es != [] { PeaksLastFromReports(es[..|es| - 1]); }
  }

  // ---- Peaks -----------------------------------------------------------------

  /** From event `from` on the peak board starts empty and is renewed in time throughout. */
  ghost predicate DayFrom(es: seq<Event>, now: int, from: nat) {
    && from <= |es|
    && At(Run(es[..from]).today, TimeOf(es, now, from)) == map[]
    && forall j | from < j <= |es| :: RenewedToday(es, now, j)
  }

  ghost predicate RenewedToday(es: seq<Event>, now: int, j: nat) {
    j <= |es| && TimeOf(es, now, j) <= Run(es[..j]).today.deadline
  }

  ghost predicate IsReport(e: Event, stream: string) {
    e.Report? && e.stream == stream
  }

  /** The board holds the stream exactly if it reported from event `from` on, with its highest
      count. */
  ghost predicate HoldsPeak(peaks: ZSet, es: seq<Event>, from: nat, stream: string) {
    && (stream !in peaks ==> forall i | from <= i < |es| :: !IsReport(es[i], stream))
    && (stream in peaks ==>
          && (exists i :: from <= i < |es| && IsReport(es[i], stream) && es[i].viewers == peaks[stream])
          && (forall i | from <= i < |es| && IsReport(es[i], stream) :: es[i].viewers <= peaks[stream]))
  }

  /** Through a stretch without a lapse the board holds, for exactly the streams that reported,
      the highest count each reported. */
  lemma {:induction false} PeakIsHighest(es: seq<Event>, now: int, from: nat, stream: string)
    requires InOrder(es) && (es != [] ==> now >= es[|es| - 1].time) && DayFrom(es, now, from)
    ensures HoldsPeak(At(Run(es).today, now), es, from, stream)
    decreases |es|
  {
    assert es[..|es|] == es;
    if from < |es| {
      var front, e := es[..|es| - 1], es[|es| - 1];
      forall j | from < j <= |front| ensures RenewedToday(front, e.time, j) {
        assert RenewedToday(es, now, j) && front[..j] == es[..j];
        assert TimeOf(front, e.time, j) == TimeOf(es, now, j);
      }
      assert front[..from] == es[..from];
      assert RenewedToday(es, now, |es|);
      PeakIsHighest(front, e.time, from, stream);
      if from < |front| { assert RenewedToday(front, e.time, |front|); }
      OneMoreEvent(Run(front), es, from, stream, now);
    }
  }

  lemma OneMoreEvent(s: State, es: seq<Event>, from: nat, stream: string, now: int)
    requires from < |es| && now <= Next(s, es[|es| - 1]).today.deadline
    requires HoldsPeak(At(s.today, es[|es| - 1].time), es[..|es| - 1], from, stream)
    requires es[|es| - 1].End? ==> es[|es| - 1].time <= now
    requires es[|es| - 1].End? ==> At(s.today, es[|es| - 1].time) == At(s.today, now)
    ensures HoldsPeak(At(Next(s, es[|es| - 1]).today, now), es, from, stream)
  {
    var front, e := es[..|es| - 1], es[|es| - 1];
    var before, after := At(s.today, e.time), At(Next(s, e).today, now);
    if stream in before {
      var i :| from <= i < |front| && IsReport(front[i], stream) && front[i].viewers == before[stream];
      assert es[i] == front[i];
    }
    forall i | from <= i < |es| && IsReport(es[i], stream)
      ensures stream in after && es[i].viewers <= after[stream]
    {
      if i < |front| { assert front[i] == es[i]; }
    }
  }

  /** What a stream is shown to have now never exceeds its peak. */
  lemma {:induction false} ActiveWithinPeak(es: seq<Event>, now: int, stream: string)
    requires InOrder(es) && now > 0 && (es != [] ==> now >= es[|es| - 1].time)
    requires stream in At(Run(es).active, now)
    ensures stream in At(Run(es).today, now)
    ensures At(Run(es).active, now)[stream] <= At(Run(es).today, now)[stream]
  {
    if es != [] {
      var front, e := es[..|es| - 1], es[|es| - 1];
      if stream in At(Run(front).active, e.time) { ActiveWithinPeak(front, e.time, stream); }
      DeadlinesAreNested(es);
    }
  }

  lemma {:induction false} DeadlinesAreNested(es: seq<Event>)
    ensures Run(es).active.deadline <= Run(es).today.deadline
  {
    if es != [] { DeadlinesAreNested(es[..|es| - 1]); }
  }
}
