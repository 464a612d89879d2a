/** The trending boards of hashtags and sounds: optimistic transactions over the stored counts,
    interleaved in any way, each committing the counts and three trimmed boards. */
module TrendingCache {
  import opened SortedSets
  import Boards

  datatype Counts = Counts(views: int, videos: int)

  /** How a board weighs the counts (sounds in thousandths of a point) and how many it keeps. */
  datatype Kind = Hashtags | Sounds

  function TopN(k: Kind): nat { if k.Hashtags? then 200 else 100 }

  function TrendScore(k: Kind, n: Counts): int {
    if k.Hashtags? then n.views + 5 * n.videos else n.views + 10000 * n.videos
  }

  datatype Window = Hourly | Daily | Weekly

  const ALL_WINDOWS := [Hourly, Daily, Weekly]

  /** The metadata keys, how often each was written (what WATCH observes), and the boards. */
  datatype Store = Store(meta: map<string, Counts>, writes: map<string, nat>, boards: map<Window, ZSet>)

  /** A transaction between its WATCH and its GET, or between its GET and its EXEC. */
  datatype Tx =
    | Watching(tag: string, viewDelta: int, videoDelta: int, watched: nat)
    | Ready(tag: string, viewDelta: int, videoDelta: int, watched: nat, updated: Counts)

  function CountsOf(s: Store, tag: string): Counts {
    if tag in s.meta then s.meta[tag] else Counts(0, 0)
  }

  function WritesOf(s: Store, tag: string): nat {
    if tag in s.writes then s.writes[tag] else 0
  }

  function Plus(n: Counts, viewDelta: int, videoDelta: int): Counts {
    Counts(n.views + viewDelta, n.videos + videoDelta)
  }

  function Watched(s: Store, tag: string, viewDelta: int, videoDelta: int): Tx {
    Watching(tag, viewDelta, videoDelta, WritesOf(s, tag))
  }

  /** The new counts, from what is stored by then. */
  function HavingRead(s: Store, tx: Tx): Tx {
    Ready(tx.tag, tx.viewDelta, tx.videoDelta, tx.watched, Plus(CountsOf(s, tx.tag), tx.viewDelta, tx.videoDelta))
  }

  function Committed(k: Kind, s: Store, tx: Tx): Store
    requires tx.Ready?
  {
    if WritesOf(s, tx.tag) != tx.watched then s else
      Store(s.meta[tx.tag := tx.updated],
            s.writes[tx.tag := tx.watched + 1],
            UpsertedBoards(s.boards, TopN(k), Boards.Write(tx.tag, TrendScore(k, tx.updated))))
  }

  function UpsertedBoards(boards: map<Window, ZSet>, n: nat, write: Boards.Write): map<Window, ZSet> {
    map w | w in boards :: Boards.Upsert(boards[w], n, write)
  }

  class Trending {
    const kind: Kind
    var meta: map<string, Counts>
    var writes: map<string, nat>
    var boards: map<Window, ZSet>

    constructor (kind: Kind)
      ensures this.kind == kind && State() == Empty()
    {
      this.kind := kind;
      meta, writes := map[], map[];
      boards := map[Hourly := map[], Daily := map[], Weekly := map[]];
    }

    ghost function State(): Store
      reads this
    {
      Store(meta, writes, boards)
    }

    method Watch(tag: string, viewDelta: int, videoDelta: int) returns (tx: Tx)
      ensures tx == Watched(State(), tag, viewDelta, videoDelta)
    {
      return Watching(tag, viewDelta, videoDelta, if tag in writes then writes[tag] else 0);
    }

    /** GET, and the new counts worked out from what it returns. */
    method Get(tx: Tx) returns (ready: Tx)
      requires tx.Watching?
      ensures ready == HavingRead(State(), tx)
    {
      var counts := Counts(0, 0);
      if tx.tag in meta { counts := meta[tx.tag]; }
      counts := Counts(counts.views + tx.viewDelta, counts.videos + tx.videoDelta);
      return Ready(tx.tag, tx.viewDelta, tx.videoDelta, tx.watched, counts);
    }

    /** EXEC: refused if the watched key was written meanwhile. */
    method Exec(tx: Tx) returns (ok: bool)
      requires tx.Ready? && boards.Keys == {Hourly, Daily, Weekly}
      modifies this
      ensures ok == (WritesOf(old(State()), tx.tag) == tx.watched)
      ensures State() == Committed(kind, old(State()), tx)
    {
      if (if tx.tag in writes then writes[tx.tag] else 0) != tx.watched { return false; }
      meta := meta[tx.tag := tx.updated];
      writes := writes[tx.tag := tx.watched + 1];
      UpsertAll(tx.tag, TrendScore(kind, tx.updated));
      return true;
    }

    method UpsertAll(tag: string, score: int)
      requires boards.Keys == {Hourly, Daily, Weekly}
      modifies this`boards
      ensures boards == UpsertedBoards(old(boards), TopN(kind), Boards.Write(tag, score))
    {
      ghost var was, write := boards, Boards.Write(tag, score);
      for i := 0 to |ALL_WINDOWS|
        invariant boards.Keys == was.Keys
        invariant forall w | w in was ::
          boards[w] == if w in ALL_WINDOWS[..i] then Boards.Upsert(was[w], TopN(kind), write) else was[w]
      {
        var window := ALL_WINDOWS[i];
        assert ALL_WINDOWS[..i + 1] == ALL_WINDOWS[..i] + [window];
        assert window !in ALL_WINDOWS[..i];
        var board := boards[window];
        board := board[tag := score];
        board := Top(board, TopN(kind));
        boards := boards[window := board];
      }
      assert ALL_WINDOWS[..|ALL_WINDOWS|] == ALL_WINDOWS;
      assert ALL_WINDOWS[0] == Hourly && ALL_WINDOWS[1] == Daily && ALL_WINDOWS[2] == Weekly;
    }
  }

  // ---- Interleavings ---------------------------------------------------------

  /** A process watches a key, reads it, or tries to commit; or Redis drops a metadata key, which a
      transaction watching it notices, or a board. */
  datatype Event =
    | Watch(process: nat, tag: string, viewDelta: int, videoDelta: int)
    | Get(process: nat)
    | Commit(process: nat)
    | LapseMeta(tag: string)
    | LapseBoard(window: Window)

  datatype Entry = Delta(tag: string, views: int, videos: int) | Gone(tag: string)

  /** The store, each process's open transaction, every delta committed and every metadata key
      lost so far, and what was written to each board since it was last dropped. */
  datatype World = World(
    store: Store, open: map<nat, Tx>, log: seq<Entry>, written: map<Window, seq<Boards.Write>>)

  function Empty(): Store {
    Store(map[], map[], map[Hourly := map[], Daily := map[], Weekly := map[]])
  }

  function Start(): World {
    World(Empty(), map[], [], map[Hourly := [], Daily := [], Weekly := []])
  }

  predicate Succeeds(w: World, process: nat) {
    && process in w.open && w.open[process].Ready?
    && WritesOf(w.store, w.open[process].tag) == w.open[process].watched
  }

  predicate Enabled(w: World, e: Event) {
    && (e.Get? ==> e.process in w.open && w.open[e.process].Watching?)
    && (e.Commit? ==> e.process in w.open && w.open[e.process].Ready?)
    && (e.LapseMeta? ==> e.tag in w.store.meta)
    && (e.LapseBoard? ==> e.window in w.store.boards)
  }

  function WrittenTo(written: map<Window, seq<Boards.Write>>, write: Boards.Write)
    : map<Window, seq<Boards.Write>>
  {
    map win | win in written :: written[win] + [write]
  }

  function Done(k: Kind, w: World, p: nat): World
    requires Succeeds(w, p)
  {
    var tx := w.open[p];
    World(Committed(k, w.store, tx), w.open - {p}, w.log + [Delta(tx.tag, tx.viewDelta, tx.videoDelta)],
          WrittenTo(w.written, Boards.Write(tx.tag, TrendScore(k, tx.updated))))
  }

  function Next(k: Kind, w: World, e: Event): World
    requires Enabled(w, e)
  {
    match e
    case Watch(p, tag, viewDelta, videoDelta) =>
      w.(open := w.open[p := Watched(w.store, tag, viewDelta, videoDelta)])
    case Get(p) => w.(open := w.open[p := HavingRead(w.store, w.open[p])])
    case Commit(p) => if Succeeds(w, p) then Done(k, w, p) else w.(open := w.open - {p})
    case LapseMeta(tag) =>
      w.(store := w.store.(meta := w.store.meta - {tag}, writes := w.store.writes[tag := WritesOf(w.store, tag) + 1]),
         log := w.log + [Gone(tag)])
    case LapseBoard(window) =>
      w.(store := w.store.(boards := w.store.boards[window := map[]]), written := w.written[window := []])
  }

  predicate Legal(k: Kind, w: World, es: seq<Event>)
    decreases es
  {
    es == [] || (Enabled(w, es[0]) && Legal(k, Next(k, w, es[0]), es[1..]))
  }

  function Run(k: Kind, w: World, es: seq<Event>): World
    requires Legal(k, w, es)
    decreases es
  {
    if es == [] then w else Run(k, Next(k, w, es[0]), es[1..])
  }

  // ---- No update is lost -----------------------------------------------------

  /** What the committed deltas of a tag add up to since its metadata was last lost. */
  function Total(log: seq<Entry>, tag: string): Counts {
    if log == [] then Counts(0, 0) else
      var e, before := log[|log| - 1], Total(log[..|log| - 1], tag);
      if e.tag != tag then before
      else if e.Gone? then Counts(0, 0) else Plus(before, e.views, e.videos)
  }

  /** Whether anything was committed for a tag since then. */
  predicate Alive(log: seq<Entry>, tag: string) {
    log != [] &&
    var e := log[|log| - 1];
    if e.tag == tag then e.Delta? else Alive(log[..|log| - 1], tag)
  }

  /** A transaction whose key nobody wrote since it began to watch holds, once it has read, the
      present counts plus its deltas. */
  ghost predicate TxOk(s: Store, tx: Tx) {
    && tx.watched <= WritesOf(s, tx.tag)
    && (tx.Ready? && tx.watched == WritesOf(s, tx.tag) ==>
          tx.updated == Plus(CountsOf(s, tx.tag), tx.viewDelta, tx.videoDelta))
  }

  ghost predicate Conserved(w: World) {
    && (forall tag :: Summed(w, tag))
    && (forall p | p in w.open :: TxOk(w.store, w.open[p]))
  }

  ghost predicate Summed(w: World, tag: string) {
    CountsOf(w.store, tag) == Total(w.log, tag) && (tag in w.store.meta <==> Alive(w.log, tag))
  }

  lemma NextIsConserved(k: Kind, w: World, e: Event)
    requires Conserved(w) && Enabled(w, e)
    ensures Conserved(Next(k, w, e))
  {
    match e
    case Watch(_, _, _, _) =>
      forall tag ensures Summed(Next(k, w, e), tag) { assert Summed(w, tag); }
    case Get(p) =>
      assert TxOk(w.store, w.open[p]);
      forall tag ensures Summed(Next(k, w, e), tag) { assert Summed(w, tag); }
    case Commit(p) => if Succeeds(w, p) { DoneIsConserved(k, w, p); } else { RefusedIsConserved(k, w, p); }
    case LapseMeta(tag) =>
      forall t ensures Summed(Next(k, w, e), t) {
        assert Summed(w, t);
      }
    case LapseBoard(_) =>
      forall tag ensures Summed(Next(k, w, e), tag) { assert Summed(w, tag); }
  }

  lemma RefusedIsConserved(k: Kind, w: World, p: nat)
    requires Conserved(w) && p in w.open && w.open[p].Ready? && !Succeeds(w, p)
    ensures Conserved(Next(k, w, Commit(p)))
  {
    forall tag ensures Summed(Next(k, w, Commit(p)), tag) { assert Summed(w, tag); }
  }

  lemma DoneIsConserved(k: Kind, w: World, p: nat)
    requires Conserved(w) && Succeeds(w, p)
    ensures Conserved(Done(k, w, p))
  {
    var tx := w.open[p];
    assert TxOk(w.store, tx);
    forall tag ensures Summed(Done(k, w, p), tag) {
      assert Summed(w, tag);
    }
    forall q | q in w.open ensures TxOk(Committed(k, w.store, tx), w.open[q]) {}
  }

  lemma {:induction false} RunIsConserved(k: Kind, w: World, es: seq<Event>)
    requires Conserved(w) && Legal(k, w, es)
    ensures Conserved(Run(k, w, es))
    decreases es
  {
    if es != [] {
      NextIsConserved(k, w, es[0]);
      RunIsConserved(k, Next(k, w, es[0]), es[1..]);
    }
  }

  /** Under every interleaving of watches, reads, commits and lapses, whatever the deltas, the stored counts
      are the sums of the deltas committed since the tag's metadata was last lost: no update is
      lost and no aborted one leaks in. */
  lemma CountsAreSums(k: Kind, es: seq<Event>, tag: string)
    requires Legal(k, Start(), es)
    ensures var w := Run(k, Start(), es);
            CountsOf(w.store, tag) == Total(w.log, tag) && (tag in w.store.meta <==> Alive(w.log, tag))
  {
    RunIsConserved(k, Start(), es);
    assert Summed(Run(k, Start(), es), tag);
  }

  // ---- When a transaction commits ---------------------------------------------

  /** How many commits and losses of a tag's metadata there were. */
  function Writes(log: seq<Entry>, tag: string): nat {
    if log == [] then 0 else
      Writes(log[..|log| - 1], tag) + if log[|log| - 1].tag == tag then 1 else 0
  }

  /** What WATCH observes is how often the log says the tag's metadata was written. */
  ghost predicate Counted(w: World, tag: string) {
    WritesOf(w.store, tag) == Writes(w.log, tag)
  }

  lemma NextIsCounted(k: Kind, w: World, e: Event, tag: string, next: World)
    requires Counted(w, tag) && Enabled(w, e) && next == Next(k, w, e)
    ensures Counted(next, tag) && w.log <= next.log
  {
    match e
    case Commit(p) =>
      if Succeeds(w, p) {
        var tx := w.open[p];
        OneMoreLogged(w, Delta(tx.tag, tx.viewDelta, tx.videoDelta), tag, next);
      }
    case LapseMeta(t) => OneMoreLogged(w, Gone(t), tag, next);
    case _ =>
  }

  lemma OneMoreLogged(w: World, e: Entry, tag: string, next: World)
    requires Counted(w, tag) && next.log == w.log + [e]
    requires next.store.writes == w.store.writes[e.tag := WritesOf(w.store, e.tag) + 1]
    ensures Counted(next, tag) && w.log <= next.log
  {}

  lemma {:induction false} RunIsCounted(k: Kind, w: World, es: seq<Event>, tag: string, end: World)
    requires Counted(w, tag) && Legal(k, w, es) && end == Run(k, w, es)
    ensures Counted(end, tag) && w.log <= end.log
    decreases es
  {
    if es != [] {
      NextIsCounted(k, w, es[0], tag, Next(k, w, es[0]));
      RunIsCounted(k, Next(k, w, es[0]), es[1..], tag, end);
    }
  }

  /** Nothing happened to the tag's metadata since the log was `before`. */
  ghost predicate Untouched(before: seq<Entry>, log: seq<Entry>, tag: string) {
    forall i | |before| <= i < |log| :: log[i].tag != tag
  }

  lemma {:induction false} UntouchedIff(before: seq<Entry>, log: seq<Entry>, tag: string)
    requires before <= log
    ensures Writes(before, tag) <= Writes(log, tag)
    ensures Writes(before, tag) == Writes(log, tag) <==> Untouched(before, log, tag)
    decreases |log|
  {
    if |before| == |log| {
      assert before == log;
    } else {
      var front, e := log[..|log| - 1], log[|log| - 1];
      assert log == front + [e] && before <= front;
      UntouchedIff(before, front, tag);
      assert Untouched(before, log, tag) <==> Untouched(before, front, tag) && e.tag != tag;
    }
  }

  /** The open transaction of a process is the one it began when the log was `before`. */
  ghost predicate Began(w: World, p: nat, tag: string, viewDelta: int, videoDelta: int, before: seq<Entry>) {
    p in w.open ==>
      var tx := w.open[p];
      tx.tag == tag && tx.viewDelta == viewDelta && tx.videoDelta == videoDelta && tx.watched == Writes(before, tag)
  }

  lemma {:induction false} StillBegan(k: Kind, w: World, es: seq<Event>, p: nat, tag: string, viewDelta: int,
                                      videoDelta: int, before: seq<Entry>)
    requires Began(w, p, tag, viewDelta, videoDelta, before) && Legal(k, w, es)
    requires forall e | e in es :: !(e.Watch? && e.process == p)
    ensures Began(Run(k, w, es), p, tag, viewDelta, videoDelta, before)
    decreases es
  {
    if es != [] {
      assert es[0] in es;
      StillBegan(k, Next(k, w, es[0]), es[1..], p, tag, viewDelta, videoDelta, before);
    }
  }

  /** A transaction of `p`, begun at w0 of any run and committed at w after any interleaving `mid`. */
  ghost predicate IsTransaction(k: Kind, es: seq<Event>, w0: World, p: nat, tag: string, viewDelta: int,
                                videoDelta: int, mid: seq<Event>, w: World)
  {
    && Legal(k, Start(), es) && w0 == Run(k, Start(), es)
    && (forall e | e in mid :: !(e.Watch? && e.process == p))
    && var begun := Next(k, w0, Watch(p, tag, viewDelta, videoDelta));
       Legal(k, begun, mid) && w == Run(k, begun, mid) && Enabled(w, Commit(p))
  }

  /** Over all interleavings: a commit is let through exactly if since its own WATCH no commit of the same
      tag was let through and its metadata was not lost. Then it adds its deltas to the stored counts;
      otherwise nothing is recorded and everything stored stays as it is. */
  lemma CommitsIff(k: Kind, es: seq<Event>, w0: World, p: nat, tag: string, viewDelta: int, videoDelta: int,
                   mid: seq<Event>, w: World, after: World)
    requires IsTransaction(k, es, w0, p, tag, viewDelta, videoDelta, mid, w) && after == Next(k, w, Commit(p))
    ensures w0.log <= w.log
    ensures after.log == if Untouched(w0.log, w.log, tag) then w.log + [Delta(tag, viewDelta, videoDelta)] else w.log
    ensures Untouched(w0.log, w.log, tag) ==>
              CountsOf(after.store, tag) == Plus(CountsOf(w.store, tag), viewDelta, videoDelta)
    ensures !Untouched(w0.log, w.log, tag) ==> after.store == w.store
    ensures forall other | other != tag :: CountsOf(after.store, other) == CountsOf(w.store, other)
  {
    var watch := Watch(p, tag, viewDelta, videoDelta);
    var begun := Next(k, w0, watch);
    RunIsCounted(k, Start(), es, tag, w0);
    NextIsCounted(k, w0, watch, tag, begun);
    RunIsCounted(k, begun, mid, tag, w);
    StillBegan(k, begun, mid, p, tag, viewDelta, videoDelta, w0.log);
    UntouchedIff(w0.log, w.log, tag);
    RunIsConserved(k, Start(), es);
    NextIsConserved(k, w0, watch);
    RunIsConserved(k, begun, mid);
    assert TxOk(w.store, w.open[p]);
  }

  /** So a transaction that nothing interrupts adds exactly its deltas, from any reachable store. */
  lemma UninterruptedCommits(k: Kind, es: seq<Event>, p: nat, tag: string, viewDelta: int, videoDelta: int, w: World)
    requires Legal(k, Start(), es) && w == Run(k, Start(), es)
    ensures var three := [Watch(p, tag, viewDelta, videoDelta), Get(p), Commit(p)];
            && Legal(k, w, three) && Run(k, w, three).log == w.log + [Delta(tag, viewDelta, videoDelta)]
            && CountsOf(Run(k, w, three).store, tag) == Plus(CountsOf(w.store, tag), viewDelta, videoDelta)
  {
    var watch := Watch(p, tag, viewDelta, videoDelta);
    var begun := Next(k, w, watch);
    var ready := Next(k, begun, Get(p));
    RunOfOne(k, begun, Get(p), ready);
    RunOfThree(k, w, watch, Get(p), Commit(p), begun, ready);
    CommitsIff(k, es, w, p, tag, viewDelta, videoDelta, [Get(p)], ready, Next(k, ready, Commit(p)));
  }

  lemma RunOfOne(k: Kind, w: World, e: Event, next: World)
    requires Enabled(w, e) && next == Next(k, w, e)
    ensures Legal(k, w, [e]) && Run(k, w, [e]) == next
  {
    assert [e][1..] == [];
  }

  lemma RunOfThree(k: Kind, w: World, a: Event, b: Event, c: Event, w1: World, w2: World)
    requires Enabled(w, a) && w1 == Next(k, w, a) && Enabled(w1, b) && w2 == Next(k, w1, b) && Enabled(w2, c)
    ensures Legal(k, w, [a, b, c]) && Run(k, w, [a, b, c]) == Next(k, w2, c)
  {
    assert [a, b, c][1..] == [b, c] && [b, c][1..] == [c];
    RunOfOne(k, w2, c, Next(k, w2, c));
  }

  // ---- When the boards are exact ------------------------------------------------

  /** Each board is what its writes make of it, and where a tag's metadata is there the latest
      score written for it is that of its counts. */
  ghost predicate Tracked(k: Kind, w: World) {
    && w.store.boards.Keys == w.written.Keys == {Hourly, Daily, Weekly}
    && (forall win | win in w.written :: w.store.boards[win] == Boards.Board(w.written[win], TopN(k)))
    && (forall win | win in w.written :: UpToDate(k, w.store, w.written[win]))
  }

  ghost predicate UpToDate(k: Kind, s: Store, ws: seq<Boards.Write>) {
    forall tag | tag in s.meta && tag in Boards.Latest(ws) :: Boards.Latest(ws)[tag] == TrendScore(k, s.meta[tag])
  }

  lemma NextIsTracked(k: Kind, w: World, e: Event)
    requires Tracked(k, w) && Enabled(w, e)
    ensures Tracked(k, Next(k, w, e))
  {
    match e
    case Commit(p) => if Succeeds(w, p) { DoneIsTracked(k, w, p); }
    case _ =>
  }

  lemma DoneIsTracked(k: Kind, w: World, p: nat)
    requires Tracked(k, w) && Succeeds(w, p)
    ensures Tracked(k, Done(k, w, p))
  {
    var tx, w' := w.open[p], Done(k, w, p);
    var write := Boards.Write(tx.tag, TrendScore(k, tx.updated));
    forall win | win in w.written
      ensures w'.store.boards[win] == Boards.Board(w'.written[win], TopN(k))
      ensures UpToDate(k, w'.store, w'.written[win])
    {
      assert UpToDate(k, w.store, w.written[win]);
    }
  }

  lemma {:induction false} RunIsTracked(k: Kind, w: World, es: seq<Event>)
    requires Tracked(k, w) && Legal(k, w, es)
    ensures Tracked(k, Run(k, w, es))
    decreases es
  {
    if es != [] {
      NextIsTracked(k, w, es[0]);
      RunIsTracked(k, Next(k, w, es[0]), es[1..]);
    }
  }

  /** Under every interleaving, lapses included, a board was the top of all latest scores written
      since it was last dropped, at every moment since, exactly if no write since dropped a
      listed tag below one that was cut. */
  lemma BoardIsExactIff(k: Kind, es: seq<Event>, window: Window)
    requires Legal(k, Start(), es)
    ensures var w := Run(k, Start(), es);
            && window in w.written && window in w.store.boards
            && w.store.boards[window] == Boards.Board(w.written[window], TopN(k))
            && ((forall i | 0 <= i <= |w.written[window]| :: Boards.ExactAt(w.written[window], TopN(k), i))
                <==> forall i | 0 <= i < |w.written[window]| :: !Boards.Drops(w.written[window], TopN(k), i))
  {
    assert Tracked(k, Start());
    RunIsTracked(k, Start(), es);
    var ws := Run(k, Start(), es).written[window];
    Boards.BoardIsExactIff(ws, TopN(k), |ws|);
  }

  /** A commit keeps a board that is the top of all latest scores so exactly if its new score does
      not drop the tag from the board below one that had been cut. */
  lemma CommitKeepsExactIff(k: Kind, w: World, p: nat, window: Window)
    requires Tracked(k, w) && Succeeds(w, p) && window in w.written
    requires w.store.boards[window] == Top(Boards.Latest(w.written[window]), TopN(k))
    ensures var tx, w' := w.open[p], Done(k, w, p);
            w'.store.boards[window] == Top(Boards.Latest(w'.written[window]), TopN(k))
            <==> !DropsBelowCut(Boards.Latest(w.written[window]), TopN(k), tx.tag, TrendScore(k, tx.updated))
  {
    var tx := w.open[p];
    var write := Boards.Write(tx.tag, TrendScore(k, tx.updated));
    TrimEachWriteExact(Boards.Latest(w.written[window]), TopN(k), tx.tag, write.score);
  }

  /** A commit with deltas that are not negative drops one only if the tag's metadata had lapsed and
      left its old score on the board. */
  lemma OnlyLapsedTagsDrop(k: Kind, w: World, p: nat, window: Window)
    requires Tracked(k, w) && Conserved(w) && Succeeds(w, p) && window in w.written
    requires w.open[p].viewDelta >= 0 && w.open[p].videoDelta >= 0
    ensures var tx := w.open[p];
            DropsBelowCut(Boards.Latest(w.written[window]), TopN(k), tx.tag, TrendScore(k, tx.updated))
            ==> tx.tag !in w.store.meta && tx.tag in Boards.Latest(w.written[window])
  {
    var tx := w.open[p];
    var z, score := Boards.Latest(w.written[window]), TrendScore(k, tx.updated);
    assert TxOk(w.store, tx) && UpToDate(k, w.store, w.written[window]);
    if tx.tag in w.store.meta {
      TrimEachWrite(z, TopN(k), tx.tag, score);
      TrimEachWriteExact(z, TopN(k), tx.tag, score);
    }
  }

  ghost predicate NonNegative(w: World, es: seq<Event>) {
    && (forall p | p in w.open :: w.open[p].viewDelta >= 0 && w.open[p].videoDelta >= 0)
    && (forall e | e in es && e.Watch? :: e.viewDelta >= 0 && e.videoDelta >= 0)
  }

  /** Every tag ever written to a board that is still there has its metadata, and no write lowered
      a score. */
  ghost predicate Unlapsed(w: World) {
    forall win | win in w.written ::
      Boards.Latest(w.written[win]).Keys <= w.store.meta.Keys && Boards.Growing(w.written[win])
  }

  lemma StillGrowing(ws: seq<Boards.Write>, write: Boards.Write)
    requires Boards.Growing(ws) && Boards.Raises(Boards.Latest(ws), write)
    ensures Boards.Growing(ws + [write])
  {
    var all := ws + [write];
    forall i | 0 <= i < |all| ensures Boards.Raises(Boards.Latest(all[..i]), all[i]) {
      if i < |ws| {
        assert all[..i] == ws[..i] && all[i] == ws[i];
        assert Boards.Raises(Boards.Latest(ws[..i]), ws[i]);
      } else {
        assert all[..i] == ws;
      }
    }
  }

  lemma DoneIsUnlapsed(k: Kind, w: World, p: nat)
    requires Conserved(w) && Tracked(k, w) && Unlapsed(w) && Succeeds(w, p)
    requires w.open[p].viewDelta >= 0 && w.open[p].videoDelta >= 0
    ensures Unlapsed(Done(k, w, p))
  {
    var tx := w.open[p];
    var write := Boards.Write(tx.tag, TrendScore(k, tx.updated));
    assert TxOk(w.store, tx);
    forall win | win in w.written
      ensures Boards.Latest(w.written[win] + [write]).Keys <= w.store.meta.Keys + {tx.tag}
      ensures Boards.Growing(w.written[win] + [write])
    {
      assert UpToDate(k, w.store, w.written[win]);
      StillGrowing(w.written[win], write);
    }
  }

  lemma {:induction false} RunIsUnlapsed(k: Kind, w: World, es: seq<Event>)
    requires Conserved(w) && Tracked(k, w) && Unlapsed(w) && Legal(k, w, es) && NonNegative(w, es)
    requires forall e | e in es :: !e.LapseMeta?
    ensures Unlapsed(Run(k, w, es))
    decreases es
  {
    if es != [] {
      assert es[0] in es;
      NextIsConserved(k, w, es[0]);
      NextIsTracked(k, w, es[0]);
      NextIsUnlapsed(k, w, es[0], Next(k, w, es[0]));
      StillNonNegative(k, w, es, Next(k, w, es[0]));
      RunIsUnlapsed(k, Next(k, w, es[0]), es[1..]);
    }
  }

  lemma NextIsUnlapsed(k: Kind, w: World, e: Event, next: World)
    requires Conserved(w) && Tracked(k, w) && Unlapsed(w) && Enabled(w, e) && next == Next(k, w, e)
    requires !e.LapseMeta? && NonNegative(w, [])
    ensures Unlapsed(next)
  {
    if e.Commit? && Succeeds(w, e.process) { DoneIsUnlapsed(k, w, e.process); }
    if e.LapseBoard? { assert Boards.Growing([]); }
  }

  lemma StillNonNegative(k: Kind, w: World, es: seq<Event>, next: World)
    requires es != [] && NonNegative(w, es) && Enabled(w, es[0]) && next == Next(k, w, es[0])
    ensures NonNegative(next, es[1..]) && NonNegative(w, [])
  {
    assert es[0] in es && forall e | e in es[1..] :: e in es;
  }

  lemma RunHolds(k: Kind, es: seq<Event>, w: World)
    requires Legal(k, Start(), es) && NonNegative(Start(), es) && w == Run(k, Start(), es)
    requires forall e | e in es :: !e.LapseMeta?
    ensures Conserved(w) && Tracked(k, w) && Unlapsed(w)
  {
    assert Tracked(k, Start()) && Unlapsed(Start());
    RunIsTracked(k, Start(), es);
    RunIsConserved(k, Start(), es);
    RunIsUnlapsed(k, Start(), es);
  }

  /** A video of a hashtag weighs as much as five views, one of a sound as ten thousand. */
  function Weighed(k: Kind, n: Counts): int {
    match k
    case Hashtags => n.views + 5 * n.videos
    case Sounds => n.views + 10_000 * n.videos
  }

  /** The scores, worked out from the deltas alone, of the tags written to a board since it was
      last dropped. */
  function Scores(k: Kind, log: seq<Entry>, ws: seq<Boards.Write>): ZSet {
    map tag | tag in Boards.Latest(ws) :: Weighed(k, Total(log, tag))
  }

  /** Under every interleaving of non-negative updates in which no metadata lapses, each board,
      whenever it was last dropped, is the top of the true scores of all tags updated since,
      although it is trimmed at every write. */
  lemma BoardsAreExact(k: Kind, es: seq<Event>, window: Window)
    requires Legal(k, Start(), es) && NonNegative(Start(), es) && forall e | e in es :: !e.LapseMeta?
    ensures var w := Run(k, Start(), es);
            && window in w.store.boards && window in w.written
            && w.store.boards[window] == Top(Scores(k, w.log, w.written[window]), if k.Hashtags? then 200 else 100)
  {
    var w := Run(k, Start(), es);
    RunHolds(k, es, w);
    TrueScores(k, w, window);
    Boards.GrowingBoardIsExact(w.written[window], TopN(k));
  }

  lemma TrueScores(k: Kind, w: World, window: Window)
    requires Tracked(k, w) && Conserved(w) && Unlapsed(w) && window in w.written
    ensures Boards.Latest(w.written[window]) == Scores(k, w.log, w.written[window])
  {
    forall tag | tag in Boards.Latest(w.written[window])
      ensures Boards.Latest(w.written[window])[tag] == Weighed(k, Total(w.log, tag))
    {
      TrueScore(k, w, w.written[window], tag);
    }
  }

  lemma TrueScore(k: Kind, w: World, ws: seq<Boards.Write>, tag: string)
    requires UpToDate(k, w.store, ws) && Conserved(w) && tag in w.store.meta && tag in Boards.Latest(ws)
    ensures Boards.Latest(ws)[tag] == Weighed(k, Total(w.log, tag))
  {
    assert Summed(w, tag);
  }

  /** For a board that never lapsed these are all tags ever updated. */
  lemma BoardCoversEverything(k: Kind, es: seq<Event>, window: Window)
    requires Legal(k, Start(), es) && NonNegative(Start(), es) && LapseBoard(window) !in es
    requires forall e | e in es :: !e.LapseMeta?
    ensures var w := Run(k, Start(), es);
            && window in w.written
            && forall tag :: tag in Scores(k, w.log, w.written[window]) <==> Alive(w.log, tag)
  {
    var w := Run(k, Start(), es);
    RunHolds(k, es, w);
    NothingDropped(k, Start(), es, window);
    forall tag | tag in Boards.Latest(w.written[window]) ensures Alive(w.log, tag) { assert Summed(w, tag); }
  }

  lemma {:induction false} NothingDropped(k: Kind, w: World, es: seq<Event>, window: Window)
    requires Legal(k, w, es) && window in w.written && LapseBoard(window) !in es
    requires forall tag :: Alive(w.log, tag) ==> tag in Boards.Latest(w.written[window])
    ensures window in Run(k, w, es).written
    ensures forall tag :: Alive(Run(k, w, es).log, tag) ==> tag in Boards.Latest(Run(k, w, es).written[window])
    decreases es
  {
    if es != [] {
      assert es[0] in es && forall e | e in es[1..] :: e in es;
      OneStepListed(k, w, es[0], window);
      NothingDropped(k, Next(k, w, es[0]), es[1..], window);
    }
  }

  lemma OneStepListed(k: Kind, w: World, e: Event, window: Window)
    requires Enabled(w, e) && window in w.written && e != LapseBoard(window)
    requires forall tag :: Alive(w.log, tag) ==> tag in Boards.Latest(w.written[window])
    ensures window in Next(k, w, e).written
    ensures forall tag :: Alive(Next(k, w, e).log, tag) ==> tag in Boards.Latest(Next(k, w, e).written[window])
  {
    match e
    case Commit(p) =>
      if Succeeds(w, p) {
        var tx := w.open[p];
        forall tag | Alive(Next(k, w, e).log, tag) ensures tag in Boards.Latest(Next(k, w, e).written[window]) {}
      }
    case LapseMeta(t) =>
      forall tag | Alive(Next(k, w, e).log, tag) ensures Alive(w.log, tag) {}
    case _ =>
  }
}
