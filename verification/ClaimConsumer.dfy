/** The consumer of one partition claim: retries, the dead-letter topic, marks and commits. */
module ClaimConsumer {
  import opened Retries

  datatype Message = Message(topic: string, partition: int, offset: int, key: string, value: string)

  /** A message together with what its environment does: whether each attempt of the handler
      succeeds, and whether the session ends during the wait before an attempt. */
  datatype Delivery = Delivery(msg: Message, succeeds: nat -> bool, cancelled: nat -> bool)

  /** The handler is retried whatever error it returns. */
  function Outcomes(d: Delivery): nat -> Outcome {
    (k: nat) => if d.succeeds(k) then Succeeded else Failed
  }

  datatype Config = Config(maxRetries: int, dlqTopic: string, hasProducer: bool)

  function Defaults(cfg: Config): (c: Config)
    ensures c.maxRetries != 0
  {
    if cfg.maxRetries == 0 then cfg.(maxRetries := 3) else cfg
  }

  datatype Reason = SessionEnded | Exhausted(attempts: int)

  /** What the outside sees, in order. */
  datatype Action =
    | Handle(msg: Message)
    | DeadLetter(topic: string, key: string, value: string, original: (string, int, int), reason: Reason)
    | Mark(msg: Message)
    | Commit

  // ---- What a claim should do -------------------------------------------------

  /** How often the handler is called, given that attempts before k were made and failed. */
  function Calls(maxRetries: int, d: Delivery, k: nat): nat
    decreases maxRetries - k
  {
    if k > maxRetries || (k > 0 && d.cancelled(k)) then k
    else if d.succeeds(k) then k + 1
    else Calls(maxRetries, d, k + 1)
  }

  predicate Succeeds(maxRetries: int, d: Delivery) {
    var calls := Calls(maxRetries, d, 0);
    calls > 0 && d.succeeds(calls - 1)
  }

  function Repeat(a: Action, n: nat): seq<Action> {
    if n == 0 then [] else Repeat(a, n - 1) + [a]
  }

  function ReasonFor(maxRetries: int, d: Delivery): Reason {
    if Calls(maxRetries, d, 0) <= maxRetries then SessionEnded else Exhausted(maxRetries + 1)
  }

  function LetterFor(cfg: Config, m: Message, reason: Reason): seq<Action> {
    if cfg.dlqTopic == "" || !cfg.hasProducer then [] else
      [DeadLetter(cfg.dlqTopic, m.key, m.value, (m.topic, m.partition, m.offset), reason)]
  }

  /** The dead letter the message is owed, if any. */
  function LetterOwed(cfg: Config, d: Delivery): (r: seq<Action>)
    ensures forall a | a in r :: a.DeadLetter?
    ensures |r| <= 1
  {
    if Succeeds(cfg.maxRetries, d) then [] else LetterFor(cfg, d.msg, ReasonFor(cfg.maxRetries, d))
  }

  function Segment(cfg: Config, d: Delivery): seq<Action> {
    Repeat(Handle(d.msg), Calls(cfg.maxRetries, d, 0))
    + LetterOwed(cfg, d) + [Mark(d.msg), Commit]
  }

  function Claim(cfg: Config, ds: seq<Delivery>): seq<Action> {
    if ds == [] then [] else Claim(cfg, ds[..|ds| - 1]) + Segment(cfg, ds[|ds| - 1])
  }

  lemma Regrouped(t: seq<Action>, claim: seq<Action>, handles: seq<Action>, letter: seq<Action>, m: Message)
    ensures t + claim + handles + letter + [Mark(m)] + [Commit]
            == t + (claim + (handles + letter + [Mark(m), Commit]))
  {}

  // ---- What the code does -----------------------------------------------------

  class GroupHandler {
    const cfg: Config
    var trace: seq<Action>

    constructor (cfg: Config)
      ensures this.cfg == Defaults(cfg) && trace == []
      ensures this.cfg == cfg.(maxRetries := if cfg.maxRetries == 0 then 3 else cfg.maxRetries)
    {
      this.cfg := Defaults(cfg);
      trace := [];
    }

    method ConsumeClaim(ds: seq<Delivery>)
      modifies this
      ensures trace == old(trace) + Claim(cfg, ds)
    {
      for i := 0 to |ds|
        invariant trace == old(trace) + Claim(cfg, ds[..i])
      {
        var d := ds[i];
        assert ds[..i + 1][..i] == ds[..i];
        ghost var before, handles := trace, Repeat(Handle(d.msg), Calls(cfg.maxRetries, d, 0));
        var ok, reason := ProcessWithRetry(d);
        if !ok { SendToDLQ(d.msg, reason); }
        assert trace == before + handles + LetterOwed(cfg, d);
        trace := trace + [Mark(d.msg)];
        trace := trace + [Commit];
        Regrouped(old(trace), Claim(cfg, ds[..i]), handles, LetterOwed(cfg, d), d.msg);
      }
      assert ds[..|ds|] == ds;
    }

    method ProcessWithRetry(d: Delivery) returns (ok: bool, reason: Reason)
      modifies this
      ensures trace == old(trace) + Repeat(Handle(d.msg), Calls(cfg.maxRetries, d, 0))
      ensures ok == Succeeds(cfg.maxRetries, d)
      ensures !ok ==> reason == ReasonFor(cfg.maxRetries, d)
    {
      var attempt := 0;
      while attempt <= cfg.maxRetries
        invariant trace == old(trace) + Repeat(Handle(d.msg), attempt)
        invariant Calls(cfg.maxRetries, d, 0) == Calls(cfg.maxRetries, d, attempt)
        invariant attempt > 0 ==> !d.succeeds(attempt - 1) && attempt <= cfg.maxRetries + 1
      {
        if attempt > 0 && d.cancelled(attempt) { return false, SessionEnded; }
        trace := trace + [Handle(d.msg)];
        assert Repeat(Handle(d.msg), attempt + 1) == Repeat(Handle(d.msg), attempt) + [Handle(d.msg)];
        if d.succeeds(attempt) { return true, SessionEnded; }
        attempt := attempt + 1;
      }
      return false, Exhausted(cfg.maxRetries + 1);
    }

    method SendToDLQ(m: Message, reason: Reason)
      modifies this
      ensures trace == old(trace) + LetterFor(cfg, m, reason)
    {
      if cfg.dlqTopic == "" || !cfg.hasProducer { return; }
      trace := trace + [DeadLetter(cfg.dlqTopic, m.key, m.value, (m.topic, m.partition, m.offset), reason)];
    }
  }

  // ---- Every message is accounted for ------------------------------------------

  lemma {:induction false} CallsFrom(maxRetries: int, d: Delivery, k: nat)
    requires k > 0 ==> k <= maxRetries + 1
    requires forall i: nat | i < k :: !d.succeeds(i)
    requires forall i: nat | 0 < i < k :: !d.cancelled(i)
    ensures IsRun(maxRetries, Outcomes(d), d.cancelled, Calls(maxRetries, d, k))
    decreases maxRetries - k
  {
    if k <= maxRetries && !(k > 0 && d.cancelled(k)) && !d.succeeds(k) {
      CallsFrom(maxRetries, d, k + 1);
    }
  }

  /** The handler is called at most MaxRetries + 1 times, never again after a success, and stops
      short only when the session ends during a wait. */
  lemma HandlerIsBounded(cfg: Config, d: Delivery)
    ensures IsRun(cfg.maxRetries, Outcomes(d), d.cancelled, Calls(cfg.maxRetries, d, 0))
    ensures Succeeds(cfg.maxRetries, d) <==> exists k: nat :: SucceedsWithin(cfg.maxRetries, d, k)
    ensures !Succeeds(cfg.maxRetries, d) && ReasonFor(cfg.maxRetries, d) == SessionEnded ==>
              d.cancelled(Calls(cfg.maxRetries, d, 0))
    ensures !Succeeds(cfg.maxRetries, d) && ReasonFor(cfg.maxRetries, d) != SessionEnded ==>
              forall k: nat | k <= cfg.maxRetries :: !d.succeeds(k)
  {
    CallsFrom(cfg.maxRetries, d, 0);
    var calls := Calls(cfg.maxRetries, d, 0);
    assert forall i: nat | i + 1 < calls :: Outcomes(d)(i) == Failed && !d.succeeds(i);
    if Succeeds(cfg.maxRetries, d) {
      assert SucceedsWithin(cfg.maxRetries, d, calls - 1);
    }
    forall k: nat | SucceedsWithin(cfg.maxRetries, d, k) ensures Succeeds(cfg.maxRetries, d) {
      SuccessIsFound(cfg.maxRetries, Outcomes(d), d.cancelled, calls, k);
    }
  }

  /** A handler is called MaxRetries + 1 times exactly if every call before the last fails and the
      session does not end during a wait. */
  lemma AllAttemptsIff(cfg: Config, d: Delivery)
    requires cfg.maxRetries >= 0
    ensures Calls(cfg.maxRetries, d, 0) == cfg.maxRetries + 1 <==>
            && (forall k: nat | k < cfg.maxRetries :: !d.succeeds(k))
            && (forall k: nat | 0 < k <= cfg.maxRetries :: !d.cancelled(k))
  {
    CallsFrom(cfg.maxRetries, d, 0);
    AllCallsIff(cfg.maxRetries, Outcomes(d), d.cancelled, Calls(cfg.maxRetries, d, 0));
    assert forall k: nat | k < cfg.maxRetries :: Outcomes(d)(k) == Failed <==> !d.succeeds(k);
  }

  /** The attempts up to k are made, and k is the first that succeeds. */
  ghost predicate SucceedsWithin(maxRetries: int, d: Delivery, k: nat) {
    && k <= maxRetries && d.succeeds(k)
    && (forall i: nat | i < k :: !d.succeeds(i))
    && (forall i: nat | 0 < i <= k :: !d.cancelled(i))
  }

  function Marked(trace: seq<Action>): seq<Message> {
    if trace == [] then [] else
      var a := trace[|trace| - 1];
      Marked(trace[..|trace| - 1]) + if a.Mark? then [a.msg] else []
  }

  function Letters(trace: seq<Action>): seq<Action> {
    if trace == [] then [] else
      var a := trace[|trace| - 1];
      Letters(trace[..|trace| - 1]) + if a.DeadLetter? then [a] else []
  }

  function HandledTimes(trace: seq<Action>, m: Message): nat {
    if trace == [] then 0 else
      HandledTimes(trace[..|trace| - 1], m) + if trace[|trace| - 1] == Handle(m) then 1 else 0
  }

  lemma Appended(t: seq<Action>, a: Action, m: Message)
    ensures Marked(t + [a]) == Marked(t) + if a.Mark? then [a.msg] else []
    ensures Letters(t + [a]) == Letters(t) + if a.DeadLetter? then [a] else []
    ensures HandledTimes(t + [a], m) == HandledTimes(t, m) + if a == Handle(m) then 1 else 0
  {
    assert (t + [a])[..|t|] == t;
  }

  lemma {:induction false} ProjectionsJoin(a: seq<Action>, b: seq<Action>, m: Message)
    ensures Marked(a + b) == Marked(a) + Marked(b)
    ensures Letters(a + b) == Letters(a) + Letters(b)
    ensures HandledTimes(a + b, m) == HandledTimes(a, m) + HandledTimes(b, m)
  {
    if b == [] {
      assert a + b == a;
    } else {
      var front, last := b[..|b| - 1], b[|b| - 1];
      assert a + b == (a + front) + [last];
      ProjectionsJoin(a, front, m);
      Appended(a + front, last, m);
    }
  }

  lemma {:induction false} RepeatedHandles(m: Message, n: nat, other: Message)
    ensures var r := Repeat(Handle(m), n);
            && Marked(r) == [] && Letters(r) == []
            && HandledTimes(r, other) == if m == other then n else 0
  {
    if n > 0 {
      RepeatedHandles(m, n - 1, other);
      Appended(Repeat(Handle(m), n - 1), Handle(m), other);
    }
  }

  /** The front of a segment, before its mark. */
  lemma BeforeMark(cfg: Config, d: Delivery, m: Message) returns (front: seq<Action>)
    ensures Segment(cfg, d) == front + [Mark(d.msg)] + [Commit]
    ensures Marked(front) == [] && Letters(front) == LetterOwed(cfg, d)
    ensures HandledTimes(front, m) == if d.msg == m then Calls(cfg.maxRetries, d, 0) else 0
  {
    var handles := Repeat(Handle(d.msg), Calls(cfg.maxRetries, d, 0));
    var letter := LetterOwed(cfg, d);
    ProjectionsJoin(handles, letter, m);
    RepeatedHandles(d.msg, Calls(cfg.maxRetries, d, 0), m);
    front := handles + letter;
    assert Segment(cfg, d) == front + [Mark(d.msg), Commit];
  }

  lemma SegmentProjections(cfg: Config, d: Delivery, m: Message)
    ensures Marked(Segment(cfg, d)) == [d.msg]
    ensures Letters(Segment(cfg, d)) == LetterOwed(cfg, d)
    ensures HandledTimes(Segment(cfg, d), m) == if d.msg == m then Calls(cfg.maxRetries, d, 0) else 0
  {
    var front := BeforeMark(cfg, d, m);
    Appended(front, Mark(d.msg), m);
    Appended(front + [Mark(d.msg)], Commit, m);
  }

  /** Marks and commits alternate: a commit follows each mark at once, and nothing else. */
  ghost predicate CommitsFollowMarks(t: seq<Action>) {
    forall i | 0 <= i < |t| :: MarkedAndCommitted(t, i)
  }

  ghost predicate MarkedAndCommitted(t: seq<Action>, i: nat) {
    && i < |t|
    && (t[i].Mark? ==> i + 1 < |t| && t[i + 1] == Commit)
    && (t[i] == Commit ==> i > 0 && t[i - 1].Mark?)
  }

  lemma {:induction false} EachMarkIsCommitted(cfg: Config, ds: seq<Delivery>)
    ensures CommitsFollowMarks(Claim(cfg, ds))
  {
    if ds != [] {
      EachMarkIsCommitted(cfg, ds[..|ds| - 1]);
      var d := ds[|ds| - 1];
      NoMarkBefore(d.msg, Calls(cfg.maxRetries, d, 0));
      JoinFollows(Claim(cfg, ds[..|ds| - 1]), Repeat(Handle(d.msg), Calls(cfg.maxRetries, d, 0)) + LetterOwed(cfg, d),
                  d.msg, Segment(cfg, d));
    }
  }

  lemma {:induction false} NoMarkBefore(m: Message, n: nat)
    ensures forall a | a in Repeat(Handle(m), n) :: a.Handle?
  {
    if n > 0 { NoMarkBefore(m, n - 1); }
  }

  lemma JoinFollows(t: seq<Action>, front: seq<Action>, m: Message, segment: seq<Action>)
    requires CommitsFollowMarks(t) && forall a | a in front :: a.Handle? || a.DeadLetter?
    requires segment == front + [Mark(m), Commit]
    ensures CommitsFollowMarks(t + segment)
  {
    var all := t + segment;
    forall i | 0 <= i < |all| ensures MarkedAndCommitted(all, i) {
      if i < |t| {
        assert MarkedAndCommitted(t, i);
      } else if i < |t| + |front| {
        assert all[i] == front[i - |t|] && front[i - |t|] in front;
      }
    }
  }

  /** A dead letter says that the session ended if it ended during a wait, and otherwise after how many
      attempts the message was given up. */
  lemma LetterTellsWhy(cfg: Config, d: Delivery, a: Action)
    requires a in LetterOwed(cfg, d)
    ensures a.DeadLetter?
    ensures a.reason == if forall k: nat | 0 < k <= cfg.maxRetries :: !d.cancelled(k)
                        then Exhausted(cfg.maxRetries + 1) else SessionEnded
  {
    var calls := Calls(cfg.maxRetries, d, 0);
    CallsFrom(cfg.maxRetries, d, 0);
    assert calls > 0 ==> (Outcomes(d)(calls - 1) == Failed <==> !d.succeeds(calls - 1));
  }

  function Messages(ds: seq<Delivery>): seq<Message> {
    if ds == [] then [] else Messages(ds[..|ds| - 1]) + [ds[|ds| - 1].msg]
  }

  /** The dead letters owed: one for each message, in order, none of whose attempts succeeded. */
  function Owed(cfg: Config, ds: seq<Delivery>): seq<Action> {
    if ds == [] then [] else
      var d := ds[|ds| - 1];
      Owed(cfg, ds[..|ds| - 1]) + LetterOwed(cfg, d)
  }

  function CallsFor(cfg: Config, ds: seq<Delivery>, m: Message): nat {
    if ds == [] then 0 else
      var d := ds[|ds| - 1];
      CallsFor(cfg, ds[..|ds| - 1], m) + if d.msg == m then Calls(cfg.maxRetries, d, 0) else 0
  }

  /** Over a whole claim each message is marked exactly once, in order; each one's handler runs as
      often as its own deliveries call for; and the dead letters are exactly those owed. */
  lemma {:induction false} ClaimIsAccounted(cfg: Config, ds: seq<Delivery>, m: Message)
    ensures Marked(Claim(cfg, ds)) == Messages(ds)
    ensures Letters(Claim(cfg, ds)) == Owed(cfg, ds)
    ensures HandledTimes(Claim(cfg, ds), m) == CallsFor(cfg, ds, m)
  {
    if ds != [] {
      var front, d := ds[..|ds| - 1], ds[|ds| - 1];
      ClaimIsAccounted(cfg, front, m);
      ProjectionsJoin(Claim(cfg, front), Segment(cfg, d), m);
      SegmentProjections(cfg, d, m);
    }
  }

  /** The messages none of whose attempts succeeded, in order. */
  function Failing(cfg: Config, ds: seq<Delivery>): seq<Message> {
    if ds == [] then [] else
      var d := ds[|ds| - 1];
      Failing(cfg, ds[..|ds| - 1]) + if Succeeds(cfg.maxRetries, d) then [] else [d.msg]
  }

  /** The messages that letters are about, read back from their contents and headers. */
  function Originals(letters: seq<Action>): seq<Message>
    requires forall a | a in letters :: a.DeadLetter?
  {
    if letters == [] then [] else
      var a := letters[|letters| - 1];
      Originals(letters[..|letters| - 1]) + [Message(a.original.0, a.original.1, a.original.2, a.key, a.value)]
  }

  lemma {:induction false} OwedAreLetters(cfg: Config, ds: seq<Delivery>)
    ensures forall a | a in Owed(cfg, ds) :: a.DeadLetter? && a.topic == cfg.dlqTopic
  {
    if ds != [] { OwedAreLetters(cfg, ds[..|ds| - 1]); }
  }

  /** From the dead-letter topic every failed message can be restored, in order; with no topic or
      no producer nothing is sent, and a failed message is marked and lost. */
  lemma {:induction false} FailedAreRestored(cfg: Config, ds: seq<Delivery>)
    ensures Letters(Claim(cfg, ds)) == Owed(cfg, ds) && forall a | a in Owed(cfg, ds) :: a.DeadLetter?
    ensures Originals(Owed(cfg, ds)) == if cfg.dlqTopic != "" && cfg.hasProducer then Failing(cfg, ds) else []
  {
    OwedAreLetters(cfg, ds);
    if ds != [] {
      var front, d := ds[..|ds| - 1], ds[|ds| - 1];
      ClaimIsAccounted(cfg, ds, d.msg);
      FailedAreRestored(cfg, front);
      var letter := LetterOwed(cfg, d);
      if letter == [] {
        assert Owed(cfg, ds) == Owed(cfg, front);
      } else {
        assert Owed(cfg, ds)[..|Owed(cfg, ds)| - 1] == Owed(cfg, front);
      }
    }
  }

  lemma {:induction false} MessagesCount(ds: seq<Delivery>)
    ensures |Messages(ds)| == |ds|
  {
    if ds != [] { MessagesCount(ds[..|ds| - 1]); }
  }

  /** Wherever a claim is cut off, what it marked is the first k messages, and all that these k
      are owed, handler calls and dead letters, was done before the cut. */
  ghost predicate Settled(cfg: Config, ds: seq<Delivery>, t: seq<Action>, m: Message, k: nat) {
    && k <= |ds| && Marked(t) == Messages(ds[..k])
    && Owed(cfg, ds[..k]) <= Letters(t)
    && CallsFor(cfg, ds[..k], m) <= HandledTimes(t, m)
  }

  lemma {:induction false} MarkedIsSettled(cfg: Config, ds: seq<Delivery>, n: nat, m: Message) returns (k: nat)
    requires n <= |Claim(cfg, ds)|
    ensures k == |Marked(Claim(cfg, ds)[..n])| && Settled(cfg, ds, Claim(cfg, ds)[..n], m, k)
  {
    if ds == [] {
      k := 0;
    } else {
      var front, d := ds[..|ds| - 1], ds[|ds| - 1];
      var done := Claim(cfg, front);
      if n <= |done| {
        k := MarkedIsSettled(cfg, front, n, m);
        assert Claim(cfg, ds)[..n] == done[..n] && front[..k] == ds[..k];
      } else {
        assert Claim(cfg, ds)[..n] == done + Segment(cfg, d)[..n - |done|];
        k := CutInSegment(cfg, ds, n - |done|, m);
      }
    }
  }

  lemma CutInSegment(cfg: Config, ds: seq<Delivery>, n: nat, m: Message) returns (k: nat)
    requires ds != [] && n <= |Segment(cfg, ds[|ds| - 1])|
    ensures var t := Claim(cfg, ds[..|ds| - 1]) + Segment(cfg, ds[|ds| - 1])[..n];
            k == |Marked(t)| && Settled(cfg, ds, t, m, k)
  {
    var front, d := ds[..|ds| - 1], ds[|ds| - 1];
    var part := Segment(cfg, d)[..n];
    ClaimIsAccounted(cfg, front, m);
    PartOfSegment(cfg, d, n, m, part);
    k := SettledSoFar(cfg, ds, front, Claim(cfg, front), part, m);
  }

  lemma SettledSoFar(cfg: Config, ds: seq<Delivery>, front: seq<Delivery>, done: seq<Action>, part: seq<Action>,
                     m: Message)
    returns (k: nat)
    requires ds != [] && front == ds[..|ds| - 1]
    requires Marked(done) == Messages(front) && Letters(done) == Owed(cfg, front)
    requires HandledTimes(done, m) == CallsFor(cfg, front, m)
    requires Marked(part) == [] || MarksIt(cfg, ds[|ds| - 1], part, m)
    ensures k == |Marked(done + part)| && Settled(cfg, ds, done + part, m, k)
  {
    ProjectionsJoin(done, part, m);
    MessagesCount(front);
    k := |Marked(done + part)|;
    if Marked(part) == [] {
      assert ds[..k] == front;
    } else {
      assert ds[..k] == ds;
    }
  }

  ghost predicate MarksIt(cfg: Config, d: Delivery, part: seq<Action>, m: Message) {
    && Marked(part) == [d.msg] && Letters(part) == LetterOwed(cfg, d)
    && HandledTimes(part, m) == if d.msg == m then Calls(cfg.maxRetries, d, 0) else 0
  }

  lemma PartOfSegment(cfg: Config, d: Delivery, n: nat, m: Message, part: seq<Action>)
    requires n <= |Segment(cfg, d)| && part == Segment(cfg, d)[..n]
    ensures Marked(part) == [] || MarksIt(cfg, d, part, m)
  {
    var front := BeforeMark(cfg, d, m);
    PartBeforeMark(front, d.msg, n, m, part);
  }

  lemma PartBeforeMark(front: seq<Action>, msg: Message, n: nat, m: Message, part: seq<Action>)
    requires Marked(front) == [] && n <= |front| + 2 && part == (front + [Mark(msg)] + [Commit])[..n]
    ensures || Marked(part) == []
            || (&& Marked(part) == [msg] && Letters(part) == Letters(front)
                && HandledTimes(part, m) == HandledTimes(front, m))
  {
    Appended(front, Mark(msg), m);
    Appended(front + [Mark(msg)], Commit, m);
    if n <= |front| {
      assert part == front[..n] && front == front[..n] + front[n..];
      ProjectionsJoin(front[..n], front[n..], m);
    } else if n == |front| + 1 {
      assert part == front + [Mark(msg)];
    } else {
      assert part == front + [Mark(msg)] + [Commit];
    }
  }
}
