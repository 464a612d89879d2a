/** Score-cursor paging over one fixed feed, with metadata that may be missing. */
module FeedPaging {
  import opened SortedSets
  import opened FeedCache

  const FEED_PAGE_SIZE := 20

  /** One result of ZREVRANGEBYSCORE .. WITHSCORES. */
  datatype Entry = Entry(id: string, score: int)

  /** A feed from the highest rank to the lowest. */
  function Entries(z: ZSet): (s: seq<Entry>)
    ensures |s| == |z|
  {
    var r := Ranking(z);
    seq(|r|, i requires 0 <= i < |r| => Entry(r[i], z[r[i]]))
  }

  /** What ZREVRANGEBYSCORE admits: scores strictly below a positive cursor, or everything. */
  function Admitted(s: seq<Entry>, cursor: int): (a: seq<Entry>)
    ensures |a| <= |s|
  {
    if s == [] || cursor <= 0 then s else
      (if s[0].score < cursor then [s[0]] else []) + Admitted(s[1..], cursor)
  }

  function Take(s: seq<Entry>, n: nat): seq<Entry> {
    if n <= |s| then s[..n] else s
  }

  /** The ids of the entries whose metadata is there. */
  function Hydrated(results: seq<Entry>, meta: set<string>): seq<string> {
    if results == [] then [] else
      var last := results[|results| - 1].id;
      Hydrated(results[..|results| - 1], meta) + if last in meta then [last] else []
  }

  /** In increasing order exactly the positions whose entries have metadata. */
  ghost predicate Picks(results: seq<Entry>, meta: set<string>, ks: seq<nat>) {
    && (forall i, j | 0 <= i < j < |ks| :: ks[i] < ks[j])
    && (forall k: nat :: k in ks <==> k < |results| && results[k].id in meta)
  }

  ghost predicate IdsAt(results: seq<Entry>, ks: seq<nat>, items: seq<string>) {
    |items| == |ks| && forall j | 0 <= j < |ks| :: ks[j] < |results| && items[j] == results[ks[j]].id
  }

  /** The ids at the positions that have metadata, in the order of the results. */
  ghost predicate AreItems(results: seq<Entry>, meta: set<string>, items: seq<string>) {
    exists ks: seq<nat> :: Picks(results, meta, ks) && IdsAt(results, ks, items)
  }

  lemma {:induction false} HydratedPicks(results: seq<Entry>, meta: set<string>) returns (ks: seq<nat>)
    ensures Picks(results, meta, ks) && IdsAt(results, ks, Hydrated(results, meta))
  {
    ks := [];
    if results != [] {
      var n := |results| - 1;
      ks := HydratedPicks(results[..n], meta);
      if results[n].id in meta {
        OneMorePick(results, meta, n, ks, Hydrated(results[..n], meta));
        ks := ks + [n];
      } else {
        assert Hydrated(results[..n], meta) + [] == Hydrated(results[..n], meta);
      }
    }
  }

  lemma OneMorePick(results: seq<Entry>, meta: set<string>, n: nat, ks: seq<nat>, items: seq<string>)
    requires |results| == n + 1 && results[n].id in meta
    requires Picks(results[..n], meta, ks) && IdsAt(results[..n], ks, items)
    ensures Picks(results, meta, ks + [n]) && IdsAt(results, ks + [n], items + [results[n].id])
  {
    forall i | 0 <= i < |ks| ensures ks[i] < n { assert ks[i] in ks; }
    forall k: nat ensures k in ks + [n] <==> k < |results| && results[k].id in meta {
      assert k in ks + [n] <==> k in ks || k == n;
      if k < n { assert results[..n][k] == results[k]; }
    }
  }

  lemma HydratedAreItems(results: seq<Entry>, meta: set<string>)
    ensures AreItems(results, meta, Hydrated(results, meta))
  {
    var ks := HydratedPicks(results, meta);
  }

  /** What is among the items: the ids of results whose metadata is there, and no others. */
  lemma ItemsHaveMetadata(results: seq<Entry>, meta: set<string>, items: seq<string>, id: string)
    requires AreItems(results, meta, items)
    ensures id in items <==> id in meta && exists e :: e in results && e.id == id
  {
    var ks: seq<nat> :| Picks(results, meta, ks) && IdsAt(results, ks, items);
    if id in items {
      var j :| 0 <= j < |items| && items[j] == id;
      assert ks[j] in ks && results[ks[j]] in results;
    }
    if id in meta && exists e :: e in results && e.id == id {
      var e :| e in results && e.id == id;
      var k: nat :| k < |results| && results[k] == e;
      assert k in ks;
      var j :| 0 <= j < |ks| && ks[j] == k;
      assert items[j] == id;
    }
  }

  /** There is only one such list. */
  lemma ItemsAreUnique(results: seq<Entry>, meta: set<string>, a: seq<string>, b: seq<string>)
    requires AreItems(results, meta, a) && AreItems(results, meta, b)
    ensures a == b
  {
    var ks: seq<nat> :| Picks(results, meta, ks) && IdsAt(results, ks, a);
    var js: seq<nat> :| Picks(results, meta, js) && IdsAt(results, js, b);
    SameIncreasing(ks, js);
  }

  /** An increasing list is determined by what is in it. */
  lemma {:induction false} SameIncreasing(ks: seq<nat>, js: seq<nat>)
    requires forall i, j | 0 <= i < j < |ks| :: ks[i] < ks[j]
    requires forall i, j | 0 <= i < j < |js| :: js[i] < js[j]
    requires forall k: nat :: k in ks <==> k in js
    ensures ks == js
  {
    FirstIsIn(ks);
    FirstIsIn(js);
    if ks != [] && js != [] {
      assert ks[0] == js[0];
      forall k: nat ensures k in ks[1..] <==> k in js[1..] {
        assert k in ks[1..] <==> k in ks && k != ks[0];
        assert k in js[1..] <==> k in js && k != js[0];
      }
      SameIncreasing(ks[1..], js[1..]);
    }
  }

  lemma FirstIsIn(ks: seq<nat>)
    ensures ks != [] ==> ks[0] in ks
  {}

  /** The score of the last entry returned, or 0 for an empty page. */
  function NextCursor(results: seq<Entry>): int {
    if results == [] then 0 else results[|results| - 1].score
  }

  function PageLimit(limit: int): (n: nat)
    ensures 1 <= n <= FEED_WINDOW_SIZE
  {
    if limit <= 0 || limit > FEED_WINDOW_SIZE then FEED_PAGE_SIZE else limit
  }

  method HydrateResults(results: seq<Entry>, meta: set<string>) returns (items: seq<string>, lowestScore: int)
    ensures items == Hydrated(results, meta) && lowestScore == NextCursor(results)
    ensures AreItems(results, meta, items)
  {
    HydratedAreItems(results, meta);
    if |results| == 0 { return [], 0; }
    items, lowestScore := [], 0;
    for i := 0 to |results|
      invariant items == Hydrated(results[..i], meta) && lowestScore == NextCursor(results[..i])
    {
      assert results[..i + 1][..i] == results[..i];
      lowestScore := results[i].score;
      if results[i].id !in meta { continue; }
      items := items + [results[i].id];
    }
    assert results[..|results|] == results;
  }

  /** The entries ZREVRANGEBYSCORE returned, the ids with metadata, and the next cursor. */
  datatype Page = Page(results: seq<Entry>, items: seq<string>, nextCursor: int, total: nat)

  /** GetForYouPage and GetFollowingPage, which differ only in the key they read. */
  method GetPage(z: ZSet, cursor: int, limit: int, meta: set<string>) returns (page: Page)
    ensures page.results == Take(Admitted(Entries(z), cursor), PageLimit(limit))
    ensures IsPage(z, cursor, limit, page.results)
    ensures page.items == Hydrated(page.results, meta) && AreItems(page.results, meta, page.items)
    ensures page.nextCursor == NextCursor(page.results) && page.total == |z|
  {
    var count := limit;
    if count <= 0 || count > FEED_WINDOW_SIZE { count := FEED_PAGE_SIZE; }
    var results := Take(Admitted(Entries(z), cursor), count);
    PageIsPage(z, cursor, limit, results);
    var items, nextCursor := HydrateResults(results, meta);
    return Page(results, items, nextCursor, |z|);
  }

  // ---- What a cursor admits ----------------------------------------------------

  /** Scores that never rise along the list. */
  predicate Descending(s: seq<Entry>) {
    |s| <= 1 || (s[0].score >= s[1].score && Descending(s[1..]))
  }

  predicate Distinct(s: seq<Entry>) {
    s == [] || (s[0] !in s[1..] && Distinct(s[1..]))
  }

  ghost predicate InOrder(s: seq<Entry>) {
    forall i, j | 0 <= i < j < |s| :: s[i].score >= s[j].score
  }

  ghost predicate Apart(s: seq<Entry>) {
    forall i, j | 0 <= i < j < |s| :: s[i] != s[j]
  }

  lemma {:induction false} DescendingIff(s: seq<Entry>)
    ensures Descending(s) <==> InOrder(s)
  {
    if |s| > 1 {
      DescendingIff(s[1..]);
      assert forall i | 1 <= i < |s| :: s[i] == s[1..][i - 1];
    }
  }

  lemma {:induction false} DistinctIff(s: seq<Entry>)
    ensures Distinct(s) <==> Apart(s)
  {
    if s != [] {
      DistinctIff(s[1..]);
      assert forall i | 1 <= i < |s| :: s[i] == s[1..][i - 1];
    }
  }

  lemma EntriesDescend(z: ZSet)
    ensures Descending(Entries(z)) && Distinct(Entries(z))
  {
    RankingIsRanking(z);
    var r, s := Ranking(z), Entries(z);
    forall i, j | 0 <= i < j < |s| ensures s[i].score >= s[j].score && s[i] != s[j] {
      assert r[i] != r[j] && Outranks(z, r[i], r[j]);
    }
    DescendingIff(s);
    DistinctIff(s);
  }

  lemma LowestEntry(z: ZSet)
    requires z != map[]
    ensures Entries(z) != []
    ensures Entries(z)[|z| - 1].score >= 0 <==> forall m | m in z :: z[m] >= 0
  {
    RankingIsRanking(z);
    var r, last := Ranking(z), |z| - 1;
    forall m | m in z ensures z[m] >= z[r[last]] {
      var i :| 0 <= i < |r| && r[i] == m;
      if i < last { assert Outranks(z, r[i], r[last]); }
    }
  }

  lemma {:induction false} AdmittedExactly(s: seq<Entry>, cursor: int)
    requires cursor > 0
    ensures forall e :: e in Admitted(s, cursor) <==> e in s && e.score < cursor
    ensures (exists e :: e in s && e.score >= cursor) ==> |Admitted(s, cursor)| < |s|
  {
    if s != [] {
      AdmittedExactly(s[1..], cursor);
      assert s == [s[0]] + s[1..];
    }
  }

  lemma {:induction false} AdmittedTwice(s: seq<Entry>, a: int, b: int)
    requires b > 0 && (a > 0 ==> b <= a)
    ensures Admitted(s, b) == Admitted(Admitted(s, a), b)
  {
    if s != [] && a > 0 {
      AdmittedTwice(s[1..], a, b);
      var rest := Admitted(s[1..], a);
      assert Admitted(s, a) == rest || Admitted(s, a)[1..] == rest;
    }
  }

  lemma {:induction false} AdmittedDescends(s: seq<Entry>, cursor: int)
    requires Descending(s)
    ensures Descending(Admitted(s, cursor))
  {
    if s != [] && cursor > 0 {
      AdmittedDescends(s[1..], cursor);
      NextIsNoHigher(s, cursor);
      OnTop(s[0], Admitted(s[1..], cursor));
    }
  }

  lemma OnTop(e: Entry, rest: seq<Entry>)
    requires Descending(rest) && (rest != [] ==> rest[0].score <= e.score)
    ensures Descending([e] + rest) && [] + rest == rest
  {
    assert ([e] + rest)[1..] == rest;
  }

  lemma NextIsNoHigher(s: seq<Entry>, cursor: int)
    requires cursor > 0 && s != [] && Descending(s)
    ensures var rest := Admitted(s[1..], cursor); rest != [] ==> rest[0].score <= s[0].score
  {
    DescendingIff(s);
    AdmittedExactly(s[1..], cursor);
    var rest := Admitted(s[1..], cursor);
    if rest != [] { assert rest[0] in s[1..]; }
  }

  lemma {:induction false} NobodyAdmitted(s: seq<Entry>, cursor: int)
    requires cursor > 0 && forall i | 0 <= i < |s| :: s[i].score >= cursor
    ensures Admitted(s, cursor) == []
  {
    if s != [] { NobodyAdmitted(s[1..], cursor); }
  }

  lemma {:induction false} EverybodyAdmitted(s: seq<Entry>, cursor: int)
    requires forall i | 0 <= i < |s| :: s[i].score < cursor
    ensures Admitted(s, cursor) == s
  {
    if s != [] && cursor > 0 { EverybodyAdmitted(s[1..], cursor); }
  }

  lemma {:induction false} AdmittedJoins(a: seq<Entry>, b: seq<Entry>, cursor: int)
    requires cursor > 0
    ensures Admitted(a + b, cursor) == Admitted(a, cursor) + Admitted(b, cursor)
  {
    if a == [] {
      assert a + b == b;
    } else {
      assert (a + b)[1..] == a[1..] + b;
      AdmittedJoins(a[1..], b, cursor);
    }
  }

  /** What a full page's cursor still admits: the rest, if the page does not end inside a tie. */
  lemma AfterPage(s: seq<Entry>, n: nat, next: int)
    requires Descending(s) && 1 <= n <= |s| && next == s[n - 1].score > 0
    ensures n == |s| ==> Admitted(s, next) == []
    ensures n < |s| && s[n].score < next ==> Admitted(s, next) == s[n..]
  {
    DescendingIff(s);
    assert s == s[..n] + s[n..];
    AdmittedJoins(s[..n], s[n..], next);
    NobodyAdmitted(s[..n], next);
    if n < |s| && s[n].score < next { EverybodyAdmitted(s[n..], next); }
  }

  /** A positive cursor admits strictly less than its page was taken from. */
  lemma PageAdvances(s: seq<Entry>, n: nat)
    requires n >= 1 && NextCursor(Take(s, n)) > 0
    ensures |Admitted(s, NextCursor(Take(s, n)))| < |s|
  {
    var page := Take(s, n);
    AdmittedExactly(s, NextCursor(page));
    assert page[|page| - 1] in s;
  }

  /** Each entry stands above all that follow. */
  ghost predicate Ranked(z: ZSet, s: seq<Entry>) {
    forall i, j | 0 <= i < j < |s| :: Higher(z, s[i], s[j])
  }

  ghost predicate Higher(z: ZSet, a: Entry, b: Entry) {
    a.id in z && b.id in z && a.score == z[a.id] && b.score == z[b.id] && Outranks(z, a.id, b.id)
  }

  lemma EntriesAreRanked(z: ZSet)
    ensures Ranked(z, Entries(z))
  {
    RankingIsRanking(z);
  }

  lemma PositionOf(z: ZSet, m: string) returns (i: nat)
    requires m in z
    ensures i < |z| && Entries(z)[i] == Entry(m, z[m])
  {
    RankingIsRanking(z);
    i :| 0 <= i < |z| && Ranking(z)[i] == m;
  }

  lemma EntriesAreAll(z: ZSet)
    ensures forall e: Entry :: e in Entries(z) <==> e.id in z && e.score == z[e.id]
  {
    forall e: Entry | e.id in z && e.score == z[e.id] ensures e in Entries(z) {
      var i := PositionOf(z, e.id);
    }
  }

  lemma {:induction false} AdmittedIsRanked(z: ZSet, s: seq<Entry>, cursor: int)
    requires Ranked(z, s)
    ensures Ranked(z, Admitted(s, cursor))
  {
    if s != [] && cursor > 0 {
      var rest := Admitted(s[1..], cursor);
      AdmittedIsRanked(z, s[1..], cursor);
      AdmittedExactly(s[1..], cursor);
      forall j | 0 <= j < |rest| ensures Higher(z, s[0], rest[j]) {
        assert rest[j] in s[1..];
      }
    }
  }

  ghost predicate Below(e: Entry, cursor: int) {
    cursor > 0 ==> e.score < cursor
  }

  /** What a page holds, whatever the cursor and the limit: entries of the feed below the cursor, from
      the highest rank down, as many as asked for, or 20 if that is not from 1 to 200; and an
      entry below the cursor is left to later pages only if the page is full of higher ones. */
  ghost predicate IsPage(z: ZSet, cursor: int, limit: int, page: seq<Entry>) {
    var n := if 1 <= limit <= 200 then limit else 20;
    && |page| <= n && Ranked(z, page)
    && (forall e | e in page :: e.id in z && e.score == z[e.id] && Below(e, cursor))
    && (forall m | m in z && Below(Entry(m, z[m]), cursor) && Entry(m, z[m]) !in page :: LeftOut(z, n, page, m))
  }

  ghost predicate LeftOut(z: ZSet, n: nat, page: seq<Entry>, m: string) {
    |page| == n && forall x | x in page :: m in z && Higher(z, x, Entry(m, z[m]))
  }

  lemma PageIsPage(z: ZSet, cursor: int, limit: int, page: seq<Entry>)
    requires page == Take(Admitted(Entries(z), cursor), PageLimit(limit))
    ensures IsPage(z, cursor, limit, page)
  {
    EntriesAreRanked(z);
    EntriesAreAll(z);
    var a := Admitted(Entries(z), cursor);
    AdmittedIsRanked(z, Entries(z), cursor);
    AdmittedAreBelow(Entries(z), cursor);
    assert forall e | e in page :: e in a;
    forall m | m in z && Below(Entry(m, z[m]), cursor) && Entry(m, z[m]) !in page
      ensures LeftOut(z, PageLimit(limit), page, m)
    {}
  }

  lemma AdmittedAreBelow(s: seq<Entry>, cursor: int)
    ensures forall e :: e in Admitted(s, cursor) <==> e in s && Below(e, cursor)
  {
    if cursor > 0 { AdmittedExactly(s, cursor); }
  }

  // ---- Following the cursor ------------------------------------------------------

  /** What a client has been shown, and whether it was told to stop. */
  datatype Walk = Walk(shown: seq<Entry>, done: bool)

  /** The first k requests of a client that starts at a cursor and follows NextCursor until it
      is 0. Nothing makes such a walk end. */
  function Follow(feed: seq<Entry>, cursor: int, n: nat, k: nat): Walk
    decreases k
  {
    if k == 0 then Walk([], false) else
      var page := Take(Admitted(feed, cursor), n);
      if NextCursor(page) == 0 then Walk(page, true) else
        var rest := Follow(feed, NextCursor(page), n, k - 1);
        Walk(page + rest.shown, rest.done)
  }

  /** The items it is shown. */
  function Items(feed: seq<Entry>, cursor: int, n: nat, meta: set<string>, k: nat): (seq<string>, bool)
    decreases k
  {
    if k == 0 then ([], false) else
      var page := Take(Admitted(feed, cursor), n);
      if NextCursor(page) == 0 then (Hydrated(page, meta), true) else
        var rest := Items(feed, NextCursor(page), n, meta, k - 1);
        (Hydrated(page, meta) + rest.0, rest.1)
  }

  /** No page of n ends between two entries of the same score. */
  predicate CleanCuts(s: seq<Entry>, n: nat)
    requires n >= 1
    decreases |s|
  {
    |s| <= n || (s[n - 1].score > s[n].score && CleanCuts(s[n..], n))
  }

  /** Clean cuts and, where scores never rise, none below zero. */
  predicate Sound(s: seq<Entry>, n: nat)
    requires n >= 1
    decreases |s|
  {
    if |s| <= n then s == [] || s[|s| - 1].score >= 0
    else s[n - 1].score > s[n].score && Sound(s[n..], n)
  }

  lemma {:induction false} SoundIff(s: seq<Entry>, n: nat)
    requires n >= 1
    ensures Sound(s, n) <==> CleanCuts(s, n) && (s == [] || s[|s| - 1].score >= 0)
    decreases |s|
  {
    if |s| > n { SoundIff(s[n..], n); }
  }

  /** The pages a walk through `s` takes until its cursor is 0, or below zero and so a cursor for
      the first page of the feed again. */
  datatype Course = End(page: seq<Entry>) | StartsOver(page: seq<Entry>) | Goes(page: seq<Entry>, on: Course)

  function CourseOf(s: seq<Entry>, n: nat): Course
    requires n >= 1
    decreases |s|
  {
    var page := Take(s, n);
    var next := NextCursor(page);
    if next == 0 then End(page)
    else if next < 0 then StartsOver(page)
    else
      PageAdvances(s, n);
      Goes(page, CourseOf(Admitted(s, next), n))
  }

  predicate Loops(c: Course) {
    c.StartsOver? || (c.Goes? && Loops(c.on))
  }

  function Shown(c: Course): seq<Entry> {
    if c.Goes? then c.page + Shown(c.on) else c.page
  }

  function Requests(c: Course): nat {
    if c.Goes? then 1 + Requests(c.on) else 1
  }

  /** The first page of a course, and what is left when it goes on. */
  lemma FirstPage(s: seq<Entry>, n: nat, c: Course) returns (next: int, left: seq<Entry>)
    requires n >= 1 && c == CourseOf(s, n)
    ensures c.page == Take(s, n) && next == NextCursor(c.page)
    ensures c.End? <==> next == 0
    ensures c.StartsOver? <==> next < 0
    ensures c.Goes? ==> next > 0 && left == Admitted(s, next) && |left| < |s| && c.on == CourseOf(left, n)
  {
    next := NextCursor(Take(s, n));
    left := Admitted(s, next);
    if next > 0 { PageAdvances(s, n); }
  }

  /** A walk is told to stop exactly if its course does not start over, after as many requests as
      the course has pages, and has then been shown those pages. */
  ghost predicate Agrees(w: Walk, c: Course, k: nat) {
    && (w.done <==> !Loops(c) && k >= Requests(c))
    && (w.done ==> w.shown == Shown(c))
  }

  /** Requests from the cursor on return the pages of the course. */
  ghost predicate Tracks(feed: seq<Entry>, cursor: int, n: nat, c: Course)
    decreases c
  {
    var next := NextCursor(c.page);
    && c.page == Take(Admitted(feed, cursor), n)
    && (match c
        case End(_) => next == 0
        case StartsOver(_) => next < 0
        case Goes(_, on) => next > 0 && Tracks(feed, next, n, on))
  }

  lemma {:induction false} CourseTracks(feed: seq<Entry>, cursor: int, n: nat, s: seq<Entry>, c: Course)
    requires n >= 1 && s == Admitted(feed, cursor) && c == CourseOf(s, n)
    ensures Tracks(feed, cursor, n, c)
    decreases c
  {
    var next, left := FirstPage(s, n, c);
    if c.Goes? {
      NextAdmitsLeft(feed, cursor, s, n, next);
      CourseTracks(feed, next, n, left, c.on);
    }
  }

  lemma {:induction false} FollowsCourse(feed: seq<Entry>, cursor: int, n: nat, k: nat, c: Course, again: Course)
    requires Tracks(feed, cursor, n, c) && Tracks(feed, 0, n, again) && (Loops(c) ==> Loops(again))
    ensures Agrees(Follow(feed, cursor, n, k), c, k)
    decreases k
  {
    if k > 0 {
      var next := NextCursor(c.page);
      var rest := OneRequest(feed, cursor, n, k, c.page);
      if c.StartsOver? {
        FollowsCourse(feed, next, n, k - 1, again, again);
      } else if c.Goes? {
        FollowsCourse(feed, next, n, k - 1, c.on, again);
      }
    }
  }

  lemma OneRequest(feed: seq<Entry>, cursor: int, n: nat, k: nat, page: seq<Entry>) returns (rest: Walk)
    requires k >= 1 && page == Take(Admitted(feed, cursor), n)
    ensures rest == Follow(feed, NextCursor(page), n, k - 1)
    ensures Follow(feed, cursor, n, k) ==
            if NextCursor(page) == 0 then Walk(page, true) else Walk(page + rest.shown, rest.done)
  {
    rest := Follow(feed, NextCursor(page), n, k - 1);
  }

  lemma NextAdmitsLeft(feed: seq<Entry>, cursor: int, s: seq<Entry>, n: nat, next: int)
    requires n >= 1 && s == Admitted(feed, cursor) && next == NextCursor(Take(s, n)) > 0
    ensures Admitted(feed, next) == Admitted(s, next)
  {
    var page := Take(s, n);
    if cursor > 0 {
      AdmittedExactly(feed, cursor);
      assert page[|page| - 1] in s;
    }
    AdmittedTwice(feed, cursor, next);
  }

  /** What is left after a page with a positive cursor. */
  lemma AfterOnePage(s: seq<Entry>, n: nat, next: int, left: seq<Entry>)
    requires n >= 1 && Descending(s) && next == NextCursor(Take(s, n)) > 0 && left == Admitted(s, next)
    ensures Descending(left)
    ensures |s| <= n ==> left == []
    ensures |s| > n && s[n].score < next ==> left == s[n..]
  {
    AdmittedDescends(s, next);
    AfterPage(s, if n <= |s| then n else |s|, next);
  }

  // ---- When the walk shows everything --------------------------------------------

  /** Clean cuts and no negative score: everything is shown once, in order. */
  lemma {:induction false} SoundCourse(s: seq<Entry>, n: nat, c: Course)
    requires n >= 1 && Descending(s) && Sound(s, n) && c == CourseOf(s, n)
    ensures !Loops(c) && Shown(c) == s
    decreases c
  {
    var next, left := FirstPage(s, n, c);
    SoundPage(s, n, next, left);
    if c.Goes? { SoundCourse(left, n, c.on); }
  }

  lemma SoundPage(s: seq<Entry>, n: nat, next: int, left: seq<Entry>)
    requires n >= 1 && Descending(s) && Sound(s, n) && next == NextCursor(Take(s, n))
    requires next > 0 ==> left == Admitted(s, next)
    ensures next >= 0 && (next == 0 ==> Take(s, n) == s)
    ensures next > 0 ==> Descending(left) && Sound(left, n) && Take(s, n) + left == s
  {
    if |s| > n { SoundIsHigh(s, n); }
    if next > 0 { AfterOnePage(s, n, next, left); }
  }

  lemma SoundIsHigh(s: seq<Entry>, n: nat)
    requires n >= 1 && |s| > n && Descending(s) && Sound(s, n)
    ensures s[n - 1].score > s[n].score >= 0 && s[..n] + s[n..] == s
  {
    SoundIff(s, n);
    DescendingIff(s);
  }

  /** Nothing is shown but what was still to be shown. */
  lemma {:induction false} ShownIsLeft(s: seq<Entry>, n: nat, c: Course, e: Entry)
    requires n >= 1 && c == CourseOf(s, n) && e in Shown(c)
    ensures e in s
    decreases c
  {
    var next, left := FirstPage(s, n, c);
    if e !in c.page {
      ShownIsLeft(left, n, c.on, e);
      AdmittedExactly(s, next);
    }
  }

  /** Some entry is never shown. */
  ghost predicate Misses(s: seq<Entry>, shown: seq<Entry>) {
    exists e :: e in s && e !in shown
  }

  /** A course that ends without clean cuts, or with negative scores, has missed an entry. */
  lemma {:induction false} UnsoundMisses(s: seq<Entry>, n: nat, c: Course)
    requires n >= 1 && Descending(s) && Distinct(s) && !Sound(s, n) && c == CourseOf(s, n) && !Loops(c)
    ensures Misses(s, Shown(c))
    decreases c
  {
    var next, left := FirstPage(s, n, c);
    if c.End? {
      FirstCutMissed(s, n, []);
    } else if s[n].score < next {
      AfterOnePage(s, n, next, left);
      UnsoundRest(s, n);
      UnsoundMisses(left, n, c.on);
      MissedLater(s, n, Shown(c.on));
    } else {
      AdmittedExactly(s, next);
      if s[n] in Shown(c.on) { ShownIsLeft(left, n, c.on, s[n]); }
      FirstCutMissed(s, n, Shown(c.on));
    }
  }

  lemma UnsoundRest(s: seq<Entry>, n: nat)
    requires n >= 1 && Distinct(s) && |s| > n && s[n - 1].score > s[n].score && !Sound(s, n)
    ensures Distinct(s[n..]) && !Sound(s[n..], n)
  {
    DistinctIff(s);
    DistinctIff(s[n..]);
  }

  lemma MissedLater(s: seq<Entry>, n: nat, shown: seq<Entry>)
    requires Distinct(s) && n < |s| && Misses(s[n..], shown)
    ensures Misses(s, Take(s, n) + shown)
  {
    var e :| e in s[n..] && e !in shown;
    NotInFront(s, n, e);
  }

  lemma FirstCutMissed(s: seq<Entry>, n: nat, shown: seq<Entry>)
    requires Distinct(s) && n < |s| && s[n] !in shown
    ensures Misses(s, Take(s, n) + shown) && Misses(s, Take(s, n))
  {
    assert s[n..][0] == s[n];
    NotInFront(s, n, s[n]);
  }

  lemma NotInFront(s: seq<Entry>, n: nat, e: Entry)
    requires Distinct(s) && n <= |s| && e in s[n..]
    ensures e in s && e !in s[..n]
  {
    DistinctIff(s);
    var j :| 0 <= j < |s[n..]| && s[n..][j] == e;
    assert s[n + j] == e;
  }

  /** The first k requests of a walk from 0 through a feed. */
  function FeedWalk(z: ZSet, limit: int, k: nat): Walk {
    Follow(Entries(z), 0, PageLimit(limit), k)
  }

  function FeedCourse(z: ZSet, limit: int): Course {
    CourseOf(Entries(z), PageLimit(limit))
  }

  lemma FeedFollowsCourse(z: ZSet, limit: int, k: nat)
    ensures Agrees(FeedWalk(z, limit, k), FeedCourse(z, limit), k)
  {
    CourseTracks(Entries(z), 0, PageLimit(limit), Entries(z), FeedCourse(z, limit));
    FollowsCourse(Entries(z), 0, PageLimit(limit), k, FeedCourse(z, limit), FeedCourse(z, limit));
  }

  /** Such a walk is told to stop at some request. */
  ghost predicate Ends(z: ZSet, limit: int) {
    exists k: nat :: FeedWalk(z, limit, k).done
  }

  /** It is exactly if no page it reaches ends below zero. */
  lemma WalkEndsIff(z: ZSet, limit: int)
    ensures Ends(z, limit) <==> !Loops(FeedCourse(z, limit))
  {
    FeedFollowsCourse(z, limit, Requests(FeedCourse(z, limit)));
    forall k: nat | FeedWalk(z, limit, k).done ensures !Loops(FeedCourse(z, limit)) {
      FeedFollowsCourse(z, limit, k);
    }
  }

  /** Where no score is below zero, ties included, no page starts the walk over. */
  lemma {:induction false} HighCourseEnds(s: seq<Entry>, n: nat, c: Course)
    requires n >= 1 && c == CourseOf(s, n) && forall e | e in s :: e.score >= 0
    ensures !Loops(c)
    decreases c
  {
    var next, left := FirstPage(s, n, c);
    if c.page != [] { assert c.page[|c.page| - 1] in s; }
    if c.Goes? {
      AdmittedExactly(s, next);
      HighCourseEnds(left, n, c.on);
    }
  }

  ghost predicate NoneNegative(z: ZSet) {
    forall m | m in z :: z[m] >= 0
  }

  /** A walk through a feed without negative scores ends, ties or not. */
  lemma NonNegativeEnds(z: ZSet, limit: int)
    requires NoneNegative(z)
    ensures Ends(z, limit)
  {
    RankingIsRanking(z);
    HighCourseEnds(Entries(z), PageLimit(limit), FeedCourse(z, limit));
    WalkEndsIff(z, limit);
  }

  /** Of a feed no longer than a window, which is all a push leaves, every walk ends exactly if no
      score is negative. */
  lemma EveryWalkEndsIff(z: ZSet)
    requires |z| <= FEED_WINDOW_SIZE
    ensures (forall limit: int :: Ends(z, limit)) <==> NoneNegative(z)
  {
    if NoneNegative(z) {
      forall limit: int ensures Ends(z, limit) { NonNegativeEnds(z, limit); }
    } else {
      LowestEntry(z);
      var s, n := Entries(z), |z|;
      assert Take(s, n) == s && PageLimit(n) == n;
      WalkEndsIff(z, n);
      assert FeedCourse(z, n).StartsOver?;
    }
  }

  /** No page of the feed ends inside a tie and no score is below zero. */
  ghost predicate ShowsAll(z: ZSet, limit: int) {
    CleanCuts(Entries(z), PageLimit(limit)) && NoneNegative(z)
  }

  /** The walk is told to stop having been shown the whole feed in order. */
  ghost predicate ShownWhole(z: ZSet, limit: int) {
    exists k: nat :: FeedWalk(z, limit, k) == Walk(Entries(z), true)
  }

  /** Whatever the scores: a client that follows the cursor from 0 is told to stop having seen the
      whole feed, each entry once and from the highest rank to the lowest, exactly if no page
      ends inside a tie and no score is below zero. If it is told to stop otherwise, it has
      missed an entry. */
  lemma PagingIsComplete(z: ZSet, limit: int)
    ensures ShowsAll(z, limit) <==> ShownWhole(z, limit)
    ensures !ShowsAll(z, limit) ==>
              forall k: nat | FeedWalk(z, limit, k).done :: Misses(Entries(z), FeedWalk(z, limit, k).shown)
  {
    var c := FeedCourse(z, limit);
    EntriesDescend(z);
    ShowsAllIffSound(z, limit);
    if ShowsAll(z, limit) {
      SoundCourse(Entries(z), PageLimit(limit), c);
      FeedFollowsCourse(z, limit, Requests(c));
      assert FeedWalk(z, limit, Requests(c)) == Walk(Entries(z), true);
    } else {
      forall k: nat | FeedWalk(z, limit, k).done ensures Misses(Entries(z), FeedWalk(z, limit, k).shown) {
        FeedFollowsCourse(z, limit, k);
        UnsoundMisses(Entries(z), PageLimit(limit), c);
      }
    }
  }

  lemma ShowsAllIffSound(z: ZSet, limit: int)
    ensures ShowsAll(z, limit) <==> Sound(Entries(z), PageLimit(limit))
  {
    SoundIff(Entries(z), PageLimit(limit));
    if z != map[] { LowestEntry(z); }
  }

  lemma {:induction false} HydratedJoins(a: seq<Entry>, b: seq<Entry>, meta: set<string>)
    ensures Hydrated(a + b, meta) == Hydrated(a, meta) + Hydrated(b, meta)
  {
    if b == [] {
      assert a + b == a;
    } else {
      assert (a + b)[..|a + b| - 1] == a + b[..|b| - 1];
      HydratedJoins(a, b[..|b| - 1], meta);
    }
  }

  lemma {:induction false} WalkIsHydrated(feed: seq<Entry>, cursor: int, n: nat, meta: set<string>, k: nat)
    ensures var walk := Follow(feed, cursor, n, k);
            Items(feed, cursor, n, meta, k) == (Hydrated(walk.shown, meta), walk.done)
    decreases k
  {
    if k > 0 {
      var page := Take(Admitted(feed, cursor), n);
      WalkIsHydrated(feed, NextCursor(page), n, meta, k - 1);
      OneMorePage(feed, cursor, n, meta, k, page, Follow(feed, NextCursor(page), n, k - 1));
    }
  }

  lemma OneMorePage(feed: seq<Entry>, cursor: int, n: nat, meta: set<string>, k: nat, page: seq<Entry>, rest: Walk)
    requires k >= 1 && page == Take(Admitted(feed, cursor), n)
    requires rest == Follow(feed, NextCursor(page), n, k - 1)
    requires Items(feed, NextCursor(page), n, meta, k - 1) == (Hydrated(rest.shown, meta), rest.done)
    ensures var walk := Follow(feed, cursor, n, k);
            Items(feed, cursor, n, meta, k) == (Hydrated(walk.shown, meta), walk.done)
  {
    HydratedJoins(page, rest.shown, meta);
  }

  /** Missing metadata hides an entry and nothing else: the walk takes the same course, and over the
      whole of it the items are the ids of those entries shown whose metadata is there, in order. */
  lemma ItemsAreVisited(feed: seq<Entry>, cursor: int, n: nat, meta: set<string>, k: nat, walk: Walk)
    requires walk == Follow(feed, cursor, n, k)
    ensures Items(feed, cursor, n, meta, k).1 == walk.done
    ensures AreItems(walk.shown, meta, Items(feed, cursor, n, meta, k).0)
  {
    WalkIsHydrated(feed, cursor, n, meta, k);
    HydratedAreItems(walk.shown, meta);
  }

  /** Distinct scores leave no tie to cut, whatever the page size. */
  lemma {:induction false} DistinctScoresCutCleanly(s: seq<Entry>, n: nat)
    requires n >= 1 && forall i, j | 0 <= i < j < |s| :: s[i].score > s[j].score
    ensures CleanCuts(s, n)
    decreases |s|
  {
    if |s| > n { DistinctScoresCutCleanly(s[n..], n); }
  }

  ghost predicate NoTies(z: ZSet) {
    forall m, other | m in z && other in z && m != other :: z[m] != z[other]
  }

  lemma StrictlyFalling(z: ZSet)
    requires NoTies(z)
    ensures forall i, j | 0 <= i < j < |z| :: Entries(z)[i].score > Entries(z)[j].score
  {
    RankingIsRanking(z);
    var r := Ranking(z);
    forall i, j | 0 <= i < j < |z| ensures Entries(z)[i].score > Entries(z)[j].score {
      assert r[i] != r[j] && Outranks(z, r[i], r[j]);
    }
  }

  /** A feed of distinct scores, none negative, is shown whole by pages of any size. */
  lemma DistinctFeedIsShown(z: ZSet, limit: int)
    requires NoTies(z) && NoneNegative(z)
    ensures ShownWhole(z, limit)
  {
    StrictlyFalling(z);
    DistinctScoresCutCleanly(Entries(z), PageLimit(limit));
    PagingIsComplete(z, limit);
  }

  /** Of a feed no longer than a window, pages of every size show the whole exactly if no two
      scores are the same and none is negative. */
  lemma EveryPageSizeShowsAllIff(z: ZSet)
    requires |z| <= FEED_WINDOW_SIZE
    ensures (forall limit: int :: ShownWhole(z, limit)) <==> NoTies(z) && NoneNegative(z)
  {
    if NoTies(z) && NoneNegative(z) {
      forall limit: int ensures ShownWhole(z, limit) { DistinctFeedIsShown(z, limit); }
    } else if NoneNegative(z) {
      var i := TiedNeighbours(z);
      PagingIsComplete(z, i + 1);
    } else {
      PagingIsComplete(z, 1);
    }
  }

  /** Where two scores are the same, two neighbours in rank have the same. */
  lemma TiedNeighbours(z: ZSet) returns (i: nat)
    requires !NoTies(z)
    ensures i + 1 < |z| && Entries(z)[i].score == Entries(z)[i + 1].score
  {
    var m, other :| m in z && other in z && m != other && z[m] == z[other];
    var a := PositionOf(z, m);
    var b := PositionOf(z, other);
    i := if a < b then a else b;
    EntriesDescend(z);
    NextIsTied(Entries(z), i, if a < b then b else a);
  }

  lemma NextIsTied(s: seq<Entry>, i: nat, j: nat)
    requires Descending(s) && i < j < |s| && s[i].score == s[j].score
    ensures s[i].score == s[i + 1].score
  {
    DescendingIff(s);
  }

  // ---- Three feeds that are not shown ----------------------------------------------

  lemma RankingIsUnique(z: ZSet, r: seq<string>)
    requires IsRanking(z, r)
    ensures r == Ranking(z)
  {
    RankingIsRanking(z);
    var t := Ranking(z);
    forall i | 0 <= i < |r| ensures r[i] == t[i] {
      var j :| 0 <= j < |t| && t[j] == r[i];
      AboveIsPrefix(z, r, i);
      AboveIsPrefix(z, t, j);
    }
  }

  lemma EntriesOfThree(z: ZSet, a: string, b: string, c: string)
    requires z.Keys == {a, b, c} && Outranks(z, a, b) && Outranks(z, b, c)
    ensures Entries(z) == [Entry(a, z[a]), Entry(b, z[b]), Entry(c, z[c])]
  {
    RankingOfThree(z, a, b, c);
    RankingIsUnique(z, [a, b, c]);
    assert Ranking(z) == [a, b, c];
  }

  lemma RankingOfThree(z: ZSet, a: string, b: string, c: string)
    requires z.Keys == {a, b, c} && Outranks(z, a, b) && Outranks(z, b, c)
    ensures IsRanking(z, [a, b, c])
  {
    OutranksTotal(z, a, a);
    OutranksTotal(z, b, b);
    OutranksTotal(z, c, c);
    OutranksTransitive(z, a, b, c);
    assert |z| == |z.Keys| == 3;
    var r := [a, b, c];
    assert r[0] == a && r[1] == b && r[2] == c;
  }

  /** Two entries of one score across the end of a page of two: the second is skipped. */
  lemma TieIsSkipped()
    ensures var z: ZSet := map["a" := 2, "c" := 1, "b" := 1];
            && Entries(z) == [Entry("a", 2), Entry("c", 1), Entry("b", 1)]
            && FeedWalk(z, 2, 2) == Walk([Entry("a", 2), Entry("c", 1)], true)
  {
    var z: ZSet := map["a" := 2, "c" := 1, "b" := 1];
    assert LexLess("b", "c");
    EntriesOfThree(z, "a", "c", "b");
    var s := Entries(z);
    var page := Take(s, 2);
    assert page == [Entry("a", 2), Entry("c", 1)] && NextCursor(page) == 1;
    NobodyAdmitted(s, 1);
    assert Follow(s, 1, 2, 1) == Walk([], true);
  }

  /** A page of two that ends at score 0 means the end to the client, though an entry is left. */
  lemma ZeroEndsTooEarly()
    ensures var z: ZSet := map["a" := 2, "b" := 0, "c" := -1];
            && Entries(z) == [Entry("a", 2), Entry("b", 0), Entry("c", -1)]
            && FeedWalk(z, 2, 1) == Walk([Entry("a", 2), Entry("b", 0)], true)
  {
    var z: ZSet := map["a" := 2, "b" := 0, "c" := -1];
    EntriesOfThree(z, "a", "b", "c");
    var page := Take(Entries(z), 2);
    assert page == [Entry("a", 2), Entry("b", 0)] && NextCursor(page) == 0;
  }

  /** A page that ends below zero hands back a cursor for the first page: the walk never ends. */
  lemma NegativeNeverEnds(k: nat)
    ensures var z: ZSet := map["a" := 2, "b" := 1, "c" := -1];
            && Entries(z) == [Entry("a", 2), Entry("b", 1), Entry("c", -1)] && !FeedWalk(z, 3, k).done
  {
    var z: ZSet := map["a" := 2, "b" := 1, "c" := -1];
    EntriesOfThree(z, "a", "b", "c");
    var page := Take(Entries(z), 3);
    assert page == Entries(z) && NextCursor(page) == -1;
    FeedFollowsCourse(z, 3, k);
  }
}
