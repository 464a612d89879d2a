/** The asynchronous collector of view events: a bounded channel, a buffer private to the running
    loop, and the batches handed to the database client. */
module ViewBatcher {
  import opened Retries

  datatype View = View(userID: string, videoID: string)

  datatype Phase = Running | Draining | Stopped

  /** What can happen next: a producer offers a view, or the select statement takes a branch. */
  datatype Event = Offer(v: View) | Receive | Tick | Close | Cancel | Default

  /** The channel, the buffer, the batches handed over, and every view Enqueue accepted. */
  datatype World = World(phase: Phase, ch: seq<View>, buf: seq<View>, sent: seq<seq<View>>, accepted: seq<View>)

  function Start(): World { World(Running, [], [], [], []) }

  function Capacity(batchSize: nat): nat { 2 * batchSize }

  function Flushed(w: World): World {
    if w.buf == [] then w else w.(sent := w.sent + [w.buf], buf := [])
  }

  /** The drain loop takes its default branch only when nothing can be received. */
  predicate Enabled(w: World, e: Event) {
    match e
    case Offer(_) => true
    case Receive => w.phase != Stopped && w.ch != []
    case Tick => w.phase == Running
    case Close => w.phase == Running && w.ch == []
    case Cancel => w.phase == Running
    case Default => w.phase == Draining && w.ch == []
  }

  function Next(batchSize: nat, w: World, e: Event): World
    requires Enabled(w, e)
  {
    match e
    case Offer(v) =>
      if |w.ch| < Capacity(batchSize) then w.(ch := w.ch + [v], accepted := w.accepted + [v]) else w
    case Receive =>
      var w' := w.(ch := w.ch[1..], buf := w.buf + [w.ch[0]]);
      if w.phase == Running && |w'.buf| >= batchSize then Flushed(w') else w'
    case Tick => Flushed(w)
    case Cancel => w.(phase := Draining)
    case Close => Flushed(w).(phase := Stopped)
    case Default => Flushed(w).(phase := Stopped)
  }

  predicate Legal(batchSize: nat, es: seq<Event>)
    decreases es, 0
  {
    es == [] || (Legal(batchSize, es[..|es| - 1]) && Enabled(Run(batchSize, es[..|es| - 1]), es[|es| - 1]))
  }

  function Run(batchSize: nat, es: seq<Event>): World
    requires Legal(batchSize, es)
    decreases es, 1
  {
    if es == [] then Start() else Next(batchSize, Run(batchSize, es[..|es| - 1]), es[|es| - 1])
  }

  /** The first n events of a schedule lead to w. */
  ghost predicate Reached(batchSize: nat, es: seq<Event>, n: nat, w: World) {
    n <= |es| && Legal(batchSize, es) && Legal(batchSize, es[..n]) && w == Run(batchSize, es[..n])
  }

  /** What the database makes of one batch: how each attempt ends, and whether the context ends
      during the wait before it. */
  datatype Insert = Insert(outcome: nat -> Outcome, cancelled: nat -> bool)

  ghost predicate Stores(maxRetries: int, insert: Insert) {
    exists calls: nat :: IsRun(maxRetries, insert.outcome, insert.cancelled, calls) && SucceedsAt(insert.outcome, calls)
  }

  /** The batches that were stored, and those that were given up. */
  ghost function StoredOf(sent: seq<seq<View>>, maxRetries: int, inserts: nat -> Insert, ok: bool): seq<seq<View>> {
    if sent == [] then [] else
      var k := |sent| - 1;
      StoredOf(sent[..k], maxRetries, inserts, ok) + if Stores(maxRetries, inserts(k)) == ok then [sent[k]] else []
  }

  class Batcher {
    const batchSize: nat
    const maxRetries: int
    const inserts: nat -> Insert
    var ch: seq<View>
    var sent: seq<seq<View>>
    var stored: seq<seq<View>>

    constructor (batchSize: nat, maxRetries: int, inserts: nat -> Insert)
      ensures this.batchSize == batchSize && this.maxRetries == maxRetries && this.inserts == inserts
      ensures ch == [] && sent == [] && stored == []
    {
      this.batchSize, this.maxRetries, this.inserts := batchSize, maxRetries, inserts;
      ch, sent, stored := [], [], [];
    }

    method Enqueue(v: View) returns (ok: bool)
      modifies this`ch
      ensures ok == (|old(ch)| < 2 * batchSize)
      ensures ch == if ok then old(ch) + [v] else old(ch)
    {
      if |ch| < 2 * batchSize {
        ch := ch + [v];
        return true;
      }
      return false;
    }

    ghost predicate StoredOk()
      reads this`sent, this`stored
    {
      stored == StoredOf(sent, maxRetries, inserts, true)
    }

    /** A failed insert is logged and its rows are gone. */
    method Flush(buf: seq<View>) returns (rest: seq<View>)
      requires StoredOk()
      modifies this`sent, this`stored
      ensures rest == [] && sent == if buf == [] then old(sent) else old(sent) + [buf]
      ensures StoredOk()
    {
      if |buf| == 0 { return buf; }
      var insert := inserts(|sent|);
      var ok, calls := WithRetry(maxRetries, insert.outcome, insert.cancelled);
      StoresIff(maxRetries, insert, calls);
      assert (sent + [buf])[..|sent|] == sent;
      sent := sent + [buf];
      if ok { stored := stored + [buf]; }
      return [];
    }

    ghost predicate At(w: World, phase: Phase, buf: seq<View>)
      reads this
    {
      w.phase == phase && w.ch == ch && w.buf == buf && w.sent == sent
    }

    /** The loop against a schedule of what happens to it, up to the n-th event; it stops early if
        it returns. */
    method RunLoop(es: seq<Event>) returns (n: nat, phase: Phase, buf: seq<View>, ghost w: World)
      requires ch == [] && sent == [] && stored == [] && Legal(batchSize, es)
      modifies this
      ensures Reached(batchSize, es, n, w)
      ensures At(w, phase, buf) && StoredOk()
      ensures n < |es| ==> phase == Stopped
    {
      n, phase, buf, w := 0, Running, [], Start();
      assert Reached(batchSize, es, n, w);
      while n < |es|
        decreases |es| - n
        invariant Reached(batchSize, es, n, w)
        invariant phase == Running && At(w, phase, buf) && StoredOk()
      {
        var e := es[n];
        w := OneMore(batchSize, es, n, w);
        if e.Cancel? {
          n, phase, buf, w := Drain(es, n + 1, buf, w);
          return;
        }
        match e {
        case Offer(v) =>
          var _ := Enqueue(v);
        case Receive =>
          buf := buf + [ch[0]];
          ch := ch[1..];
          if |buf| >= batchSize { buf := Flush(buf); }
        case Tick =>
          buf := Flush(buf);
        case Close =>
          buf := Flush(buf);
          return n + 1, Stopped, buf, w;
        }
        n := n + 1;
      }
    }

    /** The inner loop, entered once the context is cancelled. */
    method Drain(es: seq<Event>, from: nat, before: seq<View>, ghost at: World)
      returns (n: nat, phase: Phase, buf: seq<View>, ghost w: World)
      requires Reached(batchSize, es, from, at)
      requires At(at, Draining, before) && StoredOk()
      modifies this
      ensures Reached(batchSize, es, n, w)
      ensures At(w, phase, buf) && StoredOk()
      ensures n < |es| ==> phase == Stopped
    {
      n, phase, buf, w := from, Draining, before, at;
      while n < |es|
        decreases |es| - n
        invariant Reached(batchSize, es, n, w)
        invariant phase == Draining && At(w, phase, buf) && StoredOk()
      {
        var e := es[n];
        w := OneMore(batchSize, es, n, w);
        match e {
        case Offer(v) =>
          var _ := Enqueue(v);
        case Receive =>
          buf := buf + [ch[0]];
          ch := ch[1..];
        case Default =>
          buf := Flush(buf);
          return n + 1, Stopped, buf, w;
        }
        n := n + 1;
      }
    }
  }

  /** Whether a batch is stored is settled by the attempts the retry loop makes. */
  lemma StoresIff(maxRetries: int, insert: Insert, calls: nat)
    requires IsRun(maxRetries, insert.outcome, insert.cancelled, calls)
    ensures Stores(maxRetries, insert) <==> SucceedsAt(insert.outcome, calls)
  {
    if Stores(maxRetries, insert) {
      var c: nat :| IsRun(maxRetries, insert.outcome, insert.cancelled, c) && SucceedsAt(insert.outcome, c);
    }
  }

  lemma {:induction false} PrefixIsLegal(batchSize: nat, es: seq<Event>, n: nat)
    requires n <= |es| && Legal(batchSize, es)
    ensures Legal(batchSize, es[..n])
  {
    if n < |es| {
      PrefixIsLegal(batchSize, es[..|es| - 1], n);
      assert es[..|es| - 1][..n] == es[..n];
    } else {
      assert es[..n] == es;
    }
  }

  lemma OneMore(batchSize: nat, es: seq<Event>, n: nat, w: World) returns (w': World)
    requires n < |es| && Reached(batchSize, es, n, w)
    ensures Enabled(w, es[n]) && w' == Next(batchSize, w, es[n]) && Reached(batchSize, es, n + 1, w')
  {
    PrefixIsLegal(batchSize, es, n + 1);
    assert es[..n + 1][..n] == es[..n];
    w' := Next(batchSize, w, es[n]);
  }

  // ---- Nothing is lost, repeated or reordered ----------------------------------

  function Flatten(batches: seq<seq<View>>): seq<View> {
    if batches == [] then [] else Flatten(batches[..|batches| - 1]) + batches[|batches| - 1]
  }

  ghost predicate Conserved(w: World) {
    w.accepted == Flatten(w.sent) + w.buf + w.ch
  }

  lemma FlushConserves(w: World)
    requires Conserved(w)
    ensures Conserved(Flushed(w))
  {
    assert (w.sent + [w.buf])[..|w.sent|] == w.sent;
  }

  lemma NextIsConserved(batchSize: nat, w: World, e: Event)
    requires Conserved(w) && Enabled(w, e)
    ensures Conserved(Next(batchSize, w, e))
  {
    match e
    case Offer(v) =>
    case Receive =>
      var w' := w.(ch := w.ch[1..], buf := w.buf + [w.ch[0]]);
      FlushConserves(w');
    case _ => FlushConserves(w);
  }

  /** At every step of every run the accepted views are those handed over, then those buffered,
      then those in the channel, in the order they were accepted. */
  lemma {:induction false} Conservation(batchSize: nat, es: seq<Event>)
    requires Legal(batchSize, es)
    ensures Conserved(Run(batchSize, es))
  {
    if es != [] {
      Conservation(batchSize, es[..|es| - 1]);
      NextIsConserved(batchSize, Run(batchSize, es[..|es| - 1]), es[|es| - 1]);
    }
  }

  /** Batches are never empty and never over the batch size, the one sent last by a run that
      has stopped excepted; the channel never exceeds its capacity. */
  ghost predicate Bounded(batchSize: nat, w: World) {
    && |w.ch| <= Capacity(batchSize)
    && (w.phase == Running ==> |w.buf| < batchSize)
    && (w.phase == Stopped ==> w.buf == [])
    && (forall k | 0 <= k < |w.sent| :: 1 <= |w.sent[k]|)
    && (forall k | 0 <= k < |w.sent| :: |w.sent[k]| <= batchSize || (w.phase == Stopped && k == |w.sent| - 1))
  }

  lemma {:induction false} BatchesAreBounded(batchSize: nat, es: seq<Event>)
    requires batchSize >= 1 && Legal(batchSize, es)
    ensures Bounded(batchSize, Run(batchSize, es))
  {
    if es != [] {
      BatchesAreBounded(batchSize, es[..|es| - 1]);
    }
  }

  // ---- When a batch is sent ----------------------------------------------------------

  /** What a running loop hands over at an event: everything buffered at a tick or a close, unless that
      is nothing, and a whole batch with the view that completes it; at nothing else anything. */
  lemma SentExactly(batchSize: nat, es: seq<Event>, e: Event, w: World, next: World)
    requires batchSize >= 1 && Legal(batchSize, es) && w == Run(batchSize, es) && w.phase == Running
    requires Enabled(w, e) && next == Next(batchSize, w, e)
    ensures e.Tick? || e.Close? ==> next.buf == [] && next.sent == if w.buf == [] then w.sent else w.sent + [w.buf]
    ensures e.Receive? && |w.buf| + 1 == batchSize ==> next.buf == [] && next.sent == w.sent + [w.buf + [w.ch[0]]]
    ensures e.Receive? && |w.buf| + 1 != batchSize ==> next.buf == w.buf + [w.ch[0]]
    ensures next.sent != w.sent <==> Flushes(batchSize, w, e)
  {
    BatchesAreBounded(batchSize, es);
    assert e.Receive? ==> |w.sent + [w.buf + [w.ch[0]]]| > |w.sent|;
  }

  predicate Flushes(batchSize: nat, w: World, e: Event) {
    || ((e.Tick? || e.Close?) && w.buf != [])
    || (e.Receive? && |w.buf| + 1 == batchSize)
  }

  /** Right after a tick, in any run, everything the loop has received so far has been handed over:
      the accepted views are those in the batches and then those still in the channel. */
  lemma TickHandsOver(batchSize: nat, es: seq<Event>)
    requires Legal(batchSize, es) && es != [] && es[|es| - 1] == Tick
    ensures Run(batchSize, es).buf == []
    ensures Run(batchSize, es).accepted == Flatten(Run(batchSize, es).sent) + Run(batchSize, es).ch
  {
    var w := Run(batchSize, es);
    Conservation(batchSize, es);
    assert Flatten(w.sent) + w.buf == Flatten(w.sent);
  }

  /** So no view waits in the buffer for longer than until the next tick: whatever had been received by
      then is in a batch from that tick on, in every continuation. */
  lemma StaysHandedOver(batchSize: nat, es: seq<Event>, rest: seq<Event>, w: World, later: World)
    requires Legal(batchSize, es) && w == Run(batchSize, es) && es != [] && es[|es| - 1] == Tick
    requires Legal(batchSize, es + rest) && later == Run(batchSize, es + rest)
    ensures |w.ch| <= |w.accepted| && w.accepted[..|w.accepted| - |w.ch|] <= Flatten(later.sent)
  {
    TickHandsOver(batchSize, es);
    SentGrows(batchSize, es, rest, w, later);
    assert w.accepted[..|w.accepted| - |w.ch|] == Flatten(w.sent);
  }

  lemma {:induction false} SentGrows(batchSize: nat, es: seq<Event>, rest: seq<Event>, w: World, later: World)
    requires Legal(batchSize, es) && w == Run(batchSize, es)
    requires Legal(batchSize, es + rest) && later == Run(batchSize, es + rest)
    ensures Flatten(w.sent) <= Flatten(later.sent)
    decreases |rest|
  {
    if rest == [] {
      assert es + rest == es;
    } else {
      var front, e, before := LastStep(batchSize, es, rest, later);
      SentGrows(batchSize, es, front, w, before);
      assert later.sent == before.sent || later.sent[..|later.sent| - 1] == before.sent;
    }
  }

  // ---- The batch sent at shutdown --------------------------------------------------

  /** The views accepted after w. */
  function Since(w: World, now: World): seq<View> {
    if |w.accepted| <= |now.accepted| then now.accepted[|w.accepted|..] else []
  }

  /** Where a drain that began at w stands, whatever producers do meanwhile: `left` is what was
      there when it began and what came since. */
  ghost predicate DrainedSoFar(w: World, now: World, left: seq<View>) {
    && now.accepted == w.accepted + Since(w, now)
    && left == w.buf + w.ch + Since(w, now)
    && (now.phase == Draining ==> now.sent == w.sent && now.buf + now.ch == left)
    && (now.phase == Stopped ==> HandedOver(w, now, left))
  }

  /** One batch, unless it is empty, of all that is left but the channel. */
  ghost predicate HandedOver(w: World, now: World, left: seq<View>) {
    && now.buf == [] && |now.ch| <= |left|
    && var batch := left[..|left| - |now.ch|];
       left == batch + now.ch && now.sent == w.sent + if batch == [] then [] else [batch]
  }

  /** Without offers each step of the drain receives a view, and the one after that ends it. */
  ghost predicate QuietSoFar(w: World, now: World, steps: nat) {
    && now.accepted == w.accepted
    && (now.phase == Draining ==> steps + |now.ch| == |w.ch|)
    && (now.phase == Stopped ==> steps == |w.ch| + 1 && now.ch == [])
  }

  lemma {:induction false} DrainSteps(batchSize: nat, es: seq<Event>, rest: seq<Event>, w: World, now: World)
    requires Legal(batchSize, es + rest) && Legal(batchSize, es) && w == Run(batchSize, es)
    requires w.phase == Draining && now == Run(batchSize, es + rest)
    ensures now.phase != Running && DrainedSoFar(w, now, w.buf + w.ch + Since(w, now))
    decreases |rest|
  {
    if rest == [] {
      assert es + rest == es;
    } else {
      var front, e, before := LastStep(batchSize, es, rest, now);
      DrainSteps(batchSize, es, front, w, before);
      DrainStep(batchSize, w, before, w.buf + w.ch + Since(w, before), e);
    }
  }

  lemma {:induction false} QuietSteps(batchSize: nat, es: seq<Event>, rest: seq<Event>, w: World, now: World)
    requires Legal(batchSize, es + rest) && Legal(batchSize, es) && w == Run(batchSize, es)
    requires w.phase == Draining && now == Run(batchSize, es + rest) && forall e | e in rest :: !e.Offer?
    ensures now.phase != Running && QuietSoFar(w, now, |rest|)
    decreases |rest|
  {
    if rest == [] {
      assert es + rest == es;
    } else {
      var front, e, before := LastStep(batchSize, es, rest, now);
      QuietSteps(batchSize, es, front, w, before);
    }
  }

  lemma LastStep(batchSize: nat, es: seq<Event>, rest: seq<Event>, now: World)
    returns (front: seq<Event>, e: Event, before: World)
    requires rest != [] && Legal(batchSize, es + rest) && now == Run(batchSize, es + rest)
    ensures |front| < |rest| && rest == front + [e] && e in rest && forall x | x in front :: x in rest
    ensures Legal(batchSize, es + front) && before == Run(batchSize, es + front)
    ensures Enabled(before, e) && now == Next(batchSize, before, e)
  {
    front, e := rest[..|rest| - 1], rest[|rest| - 1];
    assert (es + rest)[..|es + rest| - 1] == es + front;
    before := Run(batchSize, es + front);
  }

  lemma DrainStep(batchSize: nat, w: World, now: World, left: seq<View>, e: Event)
    requires DrainedSoFar(w, now, left) && now.phase != Running && Enabled(now, e)
    ensures var next := Next(batchSize, now, e);
            DrainedSoFar(w, next, w.buf + w.ch + Since(w, next))
  {
    var next := Next(batchSize, now, e);
    if e.Offer? {
      if |now.ch| < Capacity(batchSize) { OfferedInDrain(w, now, left, e.v, next); }
    } else if e.Receive? {
      assert now.ch == [now.ch[0]] + now.ch[1..];
      assert now.buf + now.ch == now.buf + [now.ch[0]] + now.ch[1..];
    } else {
      assert now.buf + now.ch == now.buf && left[..|left| - |next.ch|] == left;
    }
  }

  lemma OfferedInDrain(w: World, now: World, left: seq<View>, v: View, next: World)
    requires DrainedSoFar(w, now, left) && now.phase != Running
    requires next == now.(ch := now.ch + [v], accepted := now.accepted + [v])
    ensures DrainedSoFar(w, next, w.buf + w.ch + Since(w, next))
  {
    var more := left + [v];
    assert next.accepted == w.accepted + (Since(w, now) + [v]);
    assert Since(w, next) == Since(w, now) + [v];
    assert w.buf + w.ch + Since(w, next) == more;
    if now.phase == Draining {
      assert next.buf + next.ch == now.buf + now.ch + [v];
    } else {
      assert more[..|more| - |next.ch|] == left[..|left| - |now.ch|];
    }
  }

  ghost predicate KeepsBatchSize(batchSize: nat, w: World) {
    forall k | 0 <= k < |w.sent| :: |w.sent[k]| <= batchSize
  }

  /** Whatever producers do while the loop drains, a run stopped by a cancellation has sent one batch
      since, unless there was nothing to send: what was buffered and queued then and everything
      accepted since, but for what came after the return and is still in the channel. The run
      keeps the batch size exactly if that is no more than one batch. */
  lemma ShutdownBatchIs(batchSize: nat, es: seq<Event>, rest: seq<Event>)
    requires batchSize >= 1 && Legal(batchSize, es + [Cancel] + rest)
    requires Legal(batchSize, es + [Cancel]) && Legal(batchSize, es)
    requires Run(batchSize, es + [Cancel] + rest).phase == Stopped
    ensures var w, last := Run(batchSize, es), Run(batchSize, es + [Cancel] + rest);
            var left := w.buf + w.ch + Since(w, last);
            && last.accepted == w.accepted + Since(w, last) == Flatten(last.sent) + last.ch
            && HandedOver(w, last, left)
            && (KeepsBatchSize(batchSize, last) <==> |left| - |last.ch| <= batchSize)
  {
    assert (es + [Cancel])[..|es|] == es;
    var w, last := Run(batchSize, es), Run(batchSize, es + [Cancel] + rest);
    DrainSteps(batchSize, es + [Cancel], rest, w.(phase := Draining), last);
    Conservation(batchSize, es + [Cancel] + rest);
    assert Flatten(last.sent) + [] == Flatten(last.sent);
    BatchesAreBounded(batchSize, es);
    OversizedIff(batchSize, w, last, w.buf + w.ch + Since(w, last));
  }

  lemma OversizedIff(batchSize: nat, w: World, last: World, left: seq<View>)
    requires KeepsBatchSize(batchSize, w) && HandedOver(w, last, left)
    ensures KeepsBatchSize(batchSize, last) <==> |left| - |last.ch| <= batchSize
  {
    var batch := left[..|left| - |last.ch|];
    assert forall k | 0 <= k < |w.sent| :: last.sent[k] == w.sent[k];
    if batch != [] { assert last.sent[|w.sent|] == batch; }
  }

  /** Once the context is cancelled and producers are quiet, the loop goes on until it has received
      what the channel held, stops at the step after that and at no other, and has then handed
      over every accepted view exactly once: what was left, in order, as one last batch of almost
      three times the batch size at most. */
  lemma ShutdownHandsOverEverything(batchSize: nat, es: seq<Event>, rest: seq<Event>)
    requires batchSize >= 1 && Legal(batchSize, es + [Cancel] + rest) && forall e | e in rest :: !e.Offer?
    requires Legal(batchSize, es + [Cancel]) && Legal(batchSize, es)
    ensures var w, last := Run(batchSize, es), Run(batchSize, es + [Cancel] + rest);
            && |rest| <= |w.ch| + 1 && (last.phase == Stopped <==> |rest| == |w.ch| + 1)
            && (last.phase != Stopped ==> Enabled(last, Receive) || Enabled(last, Default))
            && |w.buf + w.ch| <= 3 * batchSize - 1
            && (last.phase == Stopped ==>
                  && last.sent == w.sent + (if w.buf + w.ch == [] then [] else [w.buf + w.ch])
                  && Flatten(last.sent) == last.accepted == w.accepted)
  {
    assert (es + [Cancel])[..|es|] == es;
    var w, last := Run(batchSize, es), Run(batchSize, es + [Cancel] + rest);
    QuietSteps(batchSize, es + [Cancel], rest, w.(phase := Draining), last);
    BatchesAreBounded(batchSize, es);
    if last.phase == Stopped {
      ShutdownBatchIs(batchSize, es, rest);
      assert Since(w, last) == [] && w.buf + w.ch + [] == w.buf + w.ch;
      assert (w.buf + w.ch)[..|w.buf + w.ch|] == w.buf + w.ch;
    }
  }

  /** A producer whose views are received as fast as it offers them. */
  function KeepUp(v: View, n: nat): seq<Event> {
    if n == 0 then [] else KeepUp(v, n - 1) + [Offer(v), Receive]
  }

  function Copies(v: View, n: nat): (copies: seq<View>)
    ensures |copies| == n
  {
    seq(n, _ => v)
  }

  lemma {:induction false} KeepsUp(batchSize: nat, v: View, n: nat) returns (es: seq<Event>)
    requires batchSize >= 1
    ensures es == [Cancel] + KeepUp(v, n) && Legal(batchSize, es)
    ensures Run(batchSize, es) == World(Draining, [], Copies(v, n), [], Copies(v, n))
  {
    if n == 0 {
      es := Step(batchSize, [], Cancel);
    } else {
      var shorter := KeepsUp(batchSize, v, n - 1);
      es := Step(batchSize, Step(batchSize, shorter, Offer(v)), Receive);
      assert es == [Cancel] + KeepUp(v, n);
      assert Copies(v, n) == Copies(v, n - 1) + [v];
    }
  }

  /** Nothing bounds that batch while producers keep enqueuing: for every batch size and every n
      there is a run whose batch at shutdown has n rows. */
  lemma UnboundedShutdownBatch(batchSize: nat, v: View, n: nat)
    requires batchSize >= 1 && n >= 1
    ensures var es := [Cancel] + KeepUp(v, n) + [Default];
            Legal(batchSize, es) && Run(batchSize, es) == World(Stopped, [], [], [Copies(v, n)], Copies(v, n))
  {
    var es := KeepsUp(batchSize, v, n);
    es := Step(batchSize, es, Default);
  }

  function Receives(n: nat): seq<Event> { seq(n, _ => Receive) }

  /** The buffer one short of a batch and the channel full. */
  function Load(batchSize: nat, v: View, buffered: nat, queued: nat): seq<Event> {
    if queued > 0 then Load(batchSize, v, buffered, queued - 1) + [Offer(v)]
    else if buffered > 0 then Load(batchSize, v, buffered - 1, 0) + [Offer(v), Receive]
    else []
  }

  ghost predicate Leads(batchSize: nat, es: seq<Event>, w: World) {
    Legal(batchSize, es) && Run(batchSize, es) == w
  }

  lemma LeadsOn(batchSize: nat, es: seq<Event>, w: World, e: Event, next: World) returns (longer: seq<Event>)
    requires Leads(batchSize, es, w) && Enabled(w, e) && next == Next(batchSize, w, e)
    ensures longer == es + [e] && Leads(batchSize, longer, next)
  {
    longer := Step(batchSize, es, e);
  }

  function Holding(v: View, phase: Phase, queued: nat, buffered: nat, total: nat): World {
    World(phase, Copies(v, queued), Copies(v, buffered), [], Copies(v, total))
  }

  lemma OneMoreOffered(batchSize: nat, v: View, queued: nat, buffered: nat, total: nat)
    requires queued < 2 * batchSize
    ensures Next(batchSize, Holding(v, Running, queued, buffered, total), Offer(v))
         == Holding(v, Running, queued + 1, buffered, total + 1)
  {}

  lemma {:induction false} Loaded(batchSize: nat, v: View, buffered: nat, queued: nat) returns (es: seq<Event>)
    requires buffered < batchSize && queued <= 2 * batchSize
    ensures es == Load(batchSize, v, buffered, queued)
    ensures Leads(batchSize, es, Holding(v, Running, queued, buffered, buffered + queued))
    decreases buffered + queued
  {
    if queued > 0 {
      var less := Loaded(batchSize, v, buffered, queued - 1);
      OneMoreOffered(batchSize, v, queued - 1, buffered, buffered + queued - 1);
      es := LeadsOn(batchSize, less, Holding(v, Running, queued - 1, buffered, buffered + queued - 1), Offer(v),
                    Holding(v, Running, queued, buffered, buffered + queued));
    } else if buffered > 0 {
      var less := Loaded(batchSize, v, buffered - 1, 0);
      es := BufferedOneMore(batchSize, v, buffered, less);
    } else {
      es := [];
    }
  }

  lemma BufferedOneMore(batchSize: nat, v: View, buffered: nat, less: seq<Event>) returns (es: seq<Event>)
    requires 0 < buffered < batchSize && Leads(batchSize, less, Holding(v, Running, 0, buffered - 1, buffered - 1))
    ensures es == less + [Offer(v), Receive] && Leads(batchSize, es, Holding(v, Running, 0, buffered, buffered))
  {
    var offered := Holding(v, Running, 1, buffered - 1, buffered);
    OneMoreOffered(batchSize, v, 0, buffered - 1, buffered - 1);
    es := LeadsOn(batchSize, less, Holding(v, Running, 0, buffered - 1, buffered - 1), Offer(v), offered);
    es := LeadsOn(batchSize, es, offered, Receive, Holding(v, Running, 0, buffered, buffered));
  }

  lemma {:induction false} Emptied(batchSize: nat, v: View, queued: nat, buffered: nat, total: nat, es: seq<Event>,
                                   n: nat)
    returns (longer: seq<Event>)
    requires n <= queued && Leads(batchSize, es, Holding(v, Draining, queued, buffered, total))
    ensures longer == es + Receives(n)
    ensures Leads(batchSize, longer, Holding(v, Draining, queued - n, buffered + n, total))
    decreases n
  {
    if n == 0 {
      longer := es;
      assert es + Receives(0) == es;
    } else {
      var less := Emptied(batchSize, v, queued, buffered, total, es, n - 1);
      longer := LeadsOn(batchSize, less, Holding(v, Draining, queued - n + 1, buffered + n - 1, total), Receive,
                        Holding(v, Draining, queued - n, buffered + n, total));
      assert Receives(n) == Receives(n - 1) + [Receive];
    }
  }

  /** The bound for quiet producers is reached, for every batch size: all that the buffer and the channel
      hold at most, in one batch. */
  lemma WorstShutdownBatch(batchSize: nat, v: View, es: seq<Event>)
    requires batchSize >= 1
    requires es == Load(batchSize, v, batchSize - 1, 2 * batchSize) + [Cancel] + Receives(2 * batchSize) + [Default]
    ensures Legal(batchSize, es) && Run(batchSize, es).sent == [Copies(v, 3 * batchSize - 1)]
  {
    var n := 3 * batchSize - 1;
    var run := Loaded(batchSize, v, batchSize - 1, 2 * batchSize);
    var draining := Holding(v, Draining, 2 * batchSize, batchSize - 1, n);
    run := LeadsOn(batchSize, run, Holding(v, Running, 2 * batchSize, batchSize - 1, n), Cancel, draining);
    run := Emptied(batchSize, v, 2 * batchSize, batchSize - 1, n, run, 2 * batchSize);
    var emptied := Holding(v, Draining, 0, n, n);
    run := LeadsOn(batchSize, run, emptied, Default, Next(batchSize, emptied, Default));
  }

  /** The batch size does not bound the batch sent at shutdown. */
  lemma ShutdownBatchCanExceed(a: View, b: View)
    ensures var es := [Offer(a), Offer(b), Cancel, Receive, Receive, Default];
            Legal(1, es) && Run(1, es).sent == [[a, b]]
  {
    var offered := Step(1, Step(1, [], Offer(a)), Offer(b));
    assert Run(1, offered) == World(Running, [a, b], [], [], [a, b]);
    var drained := Step(1, Step(1, Step(1, offered, Cancel), Receive), Receive);
    assert Run(1, drained) == World(Draining, [], [a, b], [], [a, b]);
    var stopped := Step(1, drained, Default);
    assert stopped == [Offer(a), Offer(b), Cancel, Receive, Receive, Default];
  }

  function Step(batchSize: nat, es: seq<Event>, e: Event): (longer: seq<Event>)
    requires Legal(batchSize, es) && Enabled(Run(batchSize, es), e)
    ensures Legal(batchSize, longer) && Run(batchSize, longer) == Next(batchSize, Run(batchSize, es), e)
  {
    assert (es + [e])[..|es|] == es;
    es + [e]
  }

  /** Views accepted after the loop has returned stay in the channel for good. */
  lemma {:induction false} AcceptedTooLate(batchSize: nat, es: seq<Event>, rest: seq<Event>)
    requires Legal(batchSize, es) && Legal(batchSize, es + rest) && Run(batchSize, es).phase == Stopped
    ensures var w, later := Run(batchSize, es), Run(batchSize, es + rest);
            && later.phase == Stopped && later.sent == w.sent
            && |later.ch| - |w.ch| == |later.accepted| - |w.accepted| >= 0
  {
    if rest == [] {
      assert es + rest == es;
    } else {
      assert (es + rest)[..|es + rest| - 1] == es + rest[..|rest| - 1];
      AcceptedTooLate(batchSize, es, rest[..|rest| - 1]);
    }
  }

  // ---- What the database has in the end -------------------------------------------

  /** How often a view occurs in the batches. */
  function Count(batches: seq<seq<View>>, v: View): nat {
    multiset(Flatten(batches))[v]
  }

  /** In increasing order exactly the batches whose insert succeeds, or fails. */
  ghost predicate Sifts(sent: seq<seq<View>>, maxRetries: int, inserts: nat -> Insert, ok: bool, ks: seq<nat>) {
    && (forall i, j | 0 <= i < j < |ks| :: ks[i] < ks[j])
    && (forall k: nat :: k in ks <==> k < |sent| && Stores(maxRetries, inserts(k)) == ok)
  }

  /** The batches stored are those whose own insert succeeds, in the order they were sent; those given up
      are the others. */
  lemma {:induction false} StoredAreThose(sent: seq<seq<View>>, maxRetries: int, inserts: nat -> Insert, ok: bool)
    returns (ks: seq<nat>)
    ensures Sifts(sent, maxRetries, inserts, ok, ks) && |StoredOf(sent, maxRetries, inserts, ok)| == |ks|
    ensures forall j | 0 <= j < |ks| :: ks[j] < |sent| && StoredOf(sent, maxRetries, inserts, ok)[j] == sent[ks[j]]
  {
    ks := [];
    if sent != [] {
      var n := |sent| - 1;
      ks := StoredAreThose(sent[..n], maxRetries, inserts, ok);
      if Stores(maxRetries, inserts(n)) == ok {
        OneMoreSifted(sent, maxRetries, inserts, ok, n, ks);
        ks := ks + [n];
      }
    }
  }

  lemma OneMoreSifted(sent: seq<seq<View>>, maxRetries: int, inserts: nat -> Insert, ok: bool, n: nat, ks: seq<nat>)
    requires |sent| == n + 1 && Stores(maxRetries, inserts(n)) == ok
    requires Sifts(sent[..n], maxRetries, inserts, ok, ks)
    ensures Sifts(sent, maxRetries, inserts, ok, ks + [n])
  {
    forall i | 0 <= i < |ks| ensures ks[i] < n { assert ks[i] in ks; }
    forall k: nat ensures k in ks + [n] <==> k < |sent| && Stores(maxRetries, inserts(k)) == ok {
      assert k in ks + [n] <==> k in ks || k == n;
    }
  }

  lemma {:induction false} StoredOrLost(sent: seq<seq<View>>, maxRetries: int, inserts: nat -> Insert, v: View)
    ensures Count(sent, v) ==
            Count(StoredOf(sent, maxRetries, inserts, true), v) + Count(StoredOf(sent, maxRetries, inserts, false), v)
  {
    if sent != [] {
      var front, b := sent[..|sent| - 1], sent[|sent| - 1];
      StoredOrLost(front, maxRetries, inserts, v);
      OneMoreStored(sent, front, b, maxRetries, inserts, true, v);
      OneMoreStored(sent, front, b, maxRetries, inserts, false, v);
      assert sent == front + [b];
    }
  }

  lemma OneMoreStored(sent: seq<seq<View>>, front: seq<seq<View>>, b: seq<View>, maxRetries: int,
                      inserts: nat -> Insert, ok: bool, v: View)
    requires sent != [] && front == sent[..|sent| - 1] && b == sent[|sent| - 1]
    ensures Count(StoredOf(sent, maxRetries, inserts, ok), v) ==
            Count(StoredOf(front, maxRetries, inserts, ok), v)
            + (if Stores(maxRetries, inserts(|sent| - 1)) == ok then multiset(b)[v] else 0)
  {
    assert StoredOf(front, maxRetries, inserts, ok) + [] == StoredOf(front, maxRetries, inserts, ok);
  }

  /** At every step of every run each accepted view is, as often as it was accepted, in a batch that
      was stored, in one whose insert failed, in the buffer or in the channel. */
  lemma EveryViewOnce(batchSize: nat, es: seq<Event>, maxRetries: int, inserts: nat -> Insert, v: View)
    requires Legal(batchSize, es)
    ensures var w := Run(batchSize, es);
            multiset(w.accepted)[v] == Count(StoredOf(w.sent, maxRetries, inserts, true), v)
                                     + Count(StoredOf(w.sent, maxRetries, inserts, false), v)
                                     + multiset(w.buf)[v] + multiset(w.ch)[v]
  {
    Conservation(batchSize, es);
    StoredOrLost(Run(batchSize, es).sent, maxRetries, inserts, v);
  }

  /** The batch sent after the cancellation has one attempt, on a context that has ended, however
      many retries are configured: it is stored exactly if that attempt succeeds. */
  lemma ShutdownBatchStoredIff(maxRetries: nat, insert: Insert)
    requires insert.cancelled(1)
    ensures Stores(maxRetries, insert) <==> insert.outcome(0) == Succeeded
  {
    assert IsRun(maxRetries, insert.outcome, insert.cancelled, 1);
    StoresIff(maxRetries, insert, 1);
  }
}
