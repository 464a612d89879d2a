/** Redis sorted sets: a finite map from members to scores, ranked by score and,
    within one score, by the byte order of the members. */
module SortedSets {

  type ZSet = map<string, int>

  predicate LexLess(a: string, b: string) {
    if b == "" then false
    else if a == "" then true
    else a[0] < b[0] || (a[0] == b[0] && LexLess(a[1..], b[1..]))
  }

  lemma LexTotal(a: string, b: string)
    ensures !LexLess(a, a)
    ensures LexLess(a, b) || LexLess(b, a) || a == b
    ensures !(LexLess(a, b) && LexLess(b, a))
  {
    if a != "" && b != "" && a[0] == b[0] {
      LexTotal(a[1..], b[1..]);
      assert a == [a[0]] + a[1..] && b == [b[0]] + b[1..];
    } else if a != "" {
      LexTotal(a[1..], a[1..]);
    }
  }

  lemma LexTransitive(a: string, b: string, c: string)
    requires LexLess(a, b) && LexLess(b, c)
    ensures LexLess(a, c)
  {
    if a != "" && a[0] == b[0] == c[0] {
      LexTransitive(a[1..], b[1..], c[1..]);
    }
  }

  /** `a` stands strictly above `b`: a higher score, or the later member on a tie. */
  predicate Outranks(z: ZSet, a: string, b: string)
    requires a in z && b in z
  {
    z[a] > z[b] || (z[a] == z[b] && LexLess(b, a))
  }

  lemma OutranksTotal(z: ZSet, a: string, b: string)
    requires a in z && b in z
    ensures !Outranks(z, a, a)
    ensures a == b || Outranks(z, a, b) || Outranks(z, b, a)
    ensures !(Outranks(z, a, b) && Outranks(z, b, a))
  {
    LexTotal(a, b);
  }

  lemma OutranksTransitive(z: ZSet, a: string, b: string, c: string)
    requires a in z && b in z && c in z
    requires Outranks(z, a, b) && Outranks(z, b, c)
    ensures Outranks(z, a, c)
  {
    if z[a] == z[b] == z[c] {
      LexTransitive(c, b, a);
    }
  }

  predicate IsBest(z: ZSet, m: string) {
    m in z && forall k | k in z && k != m :: Outranks(z, m, k)
  }

  lemma BestExists(z: ZSet)
    requires z != map[]
    ensures exists m :: IsBest(z, m)
  {
    var k :| k in z;
    var rest := z - {k};
    if rest == map[] {
      assert z.Keys == {k} + rest.Keys;
      assert IsBest(z, k);
    } else {
      BestExists(rest);
      var b :| IsBest(rest, b);
      OutranksTotal(z, b, k);
      var m := if Outranks(z, b, k) then b else k;
      forall j | j in z && j != m ensures Outranks(z, m, j) {
        if j != k && j != b {
          assert Outranks(rest, b, j);
          if m == k { OutranksTransitive(z, k, b, j); }
        } else if j == b {
          assert m == k;
        }
      }
      assert IsBest(z, m);
    }
  }

  function Best(z: ZSet): (m: string)
    requires z != map[]
    ensures IsBest(z, m)
  {
    BestExists(z);
    assert forall a, b | IsBest(z, a) && IsBest(z, b) :: a == b by {
      forall a, b | IsBest(z, a) && IsBest(z, b) ensures a == b { OutranksTotal(z, a, b); }
    }
    var m :| IsBest(z, m);
    m
  }

  /** All members from the highest rank to the lowest, as ZREVRANGE lists them. */
  function Ranking(z: ZSet): (r: seq<string>)
    ensures |r| == |z|
    ensures forall i | 0 <= i < |r| :: r[i] in z
  {
    if z == map[] then [] else
      var b := Best(z);
      [b] + Ranking(z - {b})
  }

  /** `r` lists the members of `z` from the highest rank to the lowest. */
  ghost predicate IsRanking(z: ZSet, r: seq<string>) {
    && |r| == |z|
    && (forall i | 0 <= i < |r| :: r[i] in z)
    && (forall m | m in z :: m in r)
    && (forall i, j | 0 <= i < j < |r| :: r[i] != r[j] && Outranks(z, r[i], r[j]))
  }

  lemma {:induction false} RankingIsRanking(z: ZSet)
    ensures IsRanking(z, Ranking(z))
  {
    if z != map[] {
      var b := Best(z);
      RankingIsRanking(z - {b});
      BestFirst(z, b, z - {b}, Ranking(z - {b}));
    }
  }

  lemma BestFirst(z: ZSet, b: string, rest: ZSet, r: seq<string>)
    requires IsBest(z, b) && rest == z - {b} && IsRanking(rest, r)
    ensures IsRanking(z, [b] + r)
  {
    var all := [b] + r;
    forall i, j | 0 <= i < j < |all| ensures all[i] != all[j] && Outranks(z, all[i], all[j]) {
      assert all[j] == r[j - 1] && r[j - 1] in rest;
      if i > 0 {
        assert all[i] == r[i - 1] && Outranks(rest, r[i - 1], r[j - 1]);
      }
    }
    forall m | m in z ensures m in all {
      if m == b {
        assert all[0] == b;
      } else {
        assert m in rest && m in r;
      }
    }
  }

  /** The members ranked above `m`. */
  function Above(z: ZSet, m: string): set<string>
    requires m in z
  {
    set k | k in z && Outranks(z, k, m)
  }

  /** What ZREMRANGEBYRANK key 0 -(n+1) leaves: the `n` highest-ranked entries. */
  function Top(z: ZSet, n: nat): ZSet {
    map m | m in z && |Above(z, m)| < n :: z[m]
  }

  function Members(s: seq<string>): set<string> {
    set k | k in s
  }

  lemma {:induction false} DistinctSize(s: seq<string>)
    requires forall i, j | 0 <= i < j < |s| :: s[i] != s[j]
    ensures |Members(s)| == |s|
  {
    if s == [] {
      assert Members(s) == {};
    } else {
      var front, last := s[..|s| - 1], s[|s| - 1];
      DistinctSize(front);
      assert s == front + [last];
      assert Members(s) == Members(front) + {last};
      assert last !in Members(front);
    }
  }

  /** The entry at position i of the ranking has exactly the i entries before it above it. */
  lemma AboveIsPrefix(z: ZSet, r: seq<string>, i: nat)
    requires IsRanking(z, r) && i < |r|
    ensures Above(z, r[i]) == Members(r[..i])
    ensures |Above(z, r[i])| == i
  {
    forall k | k in z ensures Outranks(z, k, r[i]) <==> k in r[..i] {
      var j :| 0 <= j < |r| && r[j] == k;
      OutranksTotal(z, k, r[i]);
      if j < i { assert r[..i][j] == k; }
      if k in r[..i] {
        var l :| 0 <= l < i && r[..i][l] == k;
        assert Outranks(z, r[l], r[i]);
      }
    }
    assert Above(z, r[i]) == Members(r[..i]);
    DistinctSize(r[..i]);
  }

  /** Trimming by rank keeps exactly the first n positions of the ranking. */
  lemma TopIsRankingPrefix(z: ZSet, n: nat)
    ensures Top(z, n).Keys == Members(if n <= |z| then Ranking(z)[..n] else Ranking(z))
    ensures |Top(z, n)| == if |z| < n then |z| else n
  {
    RankingIsRanking(z);
    TopIsPrefix(z, Ranking(z), n);
  }

  lemma TopIsPrefix(z: ZSet, r: seq<string>, n: nat)
    requires IsRanking(z, r)
    ensures Top(z, n).Keys == Members(if n <= |r| then r[..n] else r)
    ensures |Top(z, n)| == if |z| < n then |z| else n
  {
    var p := if n <= |r| then r[..n] else r;
    forall k | k in z ensures k in Top(z, n) <==> k in p { TopMember(z, r, n, p, k); }
    assert Top(z, n).Keys == Members(p);
    DistinctSize(p);
    assert |Top(z, n)| == |Top(z, n).Keys|;
  }

  lemma TopMember(z: ZSet, r: seq<string>, n: nat, p: seq<string>, k: string)
    requires IsRanking(z, r) && k in z && p == if n <= |r| then r[..n] else r
    ensures k in Top(z, n) <==> k in p
  {
    var i :| 0 <= i < |r| && r[i] == k;
    AboveIsPrefix(z, r, i);
    if i < n { assert p[i] == k; }
    if k in p {
      var l :| 0 <= l < |p| && p[l] == k;
      assert r[l] == k;
    }
  }

  lemma TopUpward(z: ZSet, n: nat, k: string, j: string)
    requires k in Top(z, n) && j in z && Outranks(z, j, k)
    ensures j in Top(z, n)
  {
    forall x | x in Above(z, j) ensures x in Above(z, k) { OutranksTransitive(z, x, j, k); }
    SubsetSize(Above(z, j), Above(z, k));
  }

  /** Once an entry has been cut, the board is full and stands above it. */
  lemma CutMeansFull(z: ZSet, n: nat, k: string)
    requires k in z && k !in Top(z, n)
    ensures |Top(z, n)| == n
    ensures Top(z, n).Keys <= Above(z, k)
  {
    TopIsRankingPrefix(z, n);
    if |z| < n {
      assert Top(z, n).Keys <= z.Keys;
      SubsetSize(Above(z, k), z.Keys);
      assert false;
    }
    forall j | j in Top(z, n) ensures j in Above(z, k) {
      OutranksTotal(z, j, k);
      if Outranks(z, k, j) { TopUpward(z, n, j, k); }
    }
  }

  lemma SubsetSize<T>(a: set<T>, b: set<T>)
    requires a <= b
    ensures |a| <= |b|
    ensures |a| == |b| ==> a == b
  {
    assert b == a + (b - a);
  }

  /** A write that drops `m` from the board below an entry that had already been cut. */
  ghost predicate DropsBelowCut(z: ZSet, n: nat, m: string, s: int) {
    m in Top(z, n) && exists k | k in z && k !in Top(z, n) :: Outranks(z[m := s], k, m)
  }

  /** Trimming at every write gives what one trim of the untrimmed map gives, except
      exactly when the write drops a listed member below an entry that was cut earlier. */
  lemma TrimEachWriteExact(z: ZSet, n: nat, m: string, s: int)
    ensures Top(Top(z, n)[m := s], n) == Top(z[m := s], n) <==> !DropsBelowCut(z, n, m, s)
  {
    var t := Top(z, n);
    var full, cut := z[m := s], t[m := s];
    if DropsBelowCut(z, n, m, s) {
      var k :| k in z && k !in t && Outranks(full, k, m);
      DroppedMember(z, n, m, s, k);
    } else {
      forall k | k in full ensures k in Top(full, n) <==> k in Top(cut, n) {
        if k !in cut {
          CutMeansFull(z, n, k);
          OutranksTotal(full, m, k);
          forall j | j in t ensures j in Above(full, k) {
            assert j in Above(z, k);
          }
          SubsetSize(t.Keys, Above(full, k));
        } else if k != m {
          forall j | j in Above(full, k) && j != m ensures j in Above(cut, k) {
            TopUpward(z, n, k, j);
          }
          assert Above(full, k) == Above(cut, k);
        } else {
          WrittenMember(z, n, m, s);
        }
      }
    }
  }

  /** The case every caller with growing scores is in: the write lowers no score. */
  lemma TrimEachWrite(z: ZSet, n: nat, m: string, s: int)
    requires m in z ==> z[m] <= s
    ensures Top(Top(z, n)[m := s], n) == Top(z[m := s], n)
  {
    var t := Top(z, n);
    if DropsBelowCut(z, n, m, s) {
      var k :| k in z && k !in t && Outranks(z[m := s], k, m);
      CutMeansFull(z, n, k);
      assert m in Above(z, k);
      OutranksTotal(z, k, m);
      assert false;
    }
    TrimEachWriteExact(z, n, m, s);
  }

  lemma DroppedMember(z: ZSet, n: nat, m: string, s: int, k: string)
    requires m in Top(z, n) && k in z && k !in Top(z, n)
    requires Outranks(z[m := s], k, m)
    ensures m in Top(Top(z, n)[m := s], n) && m !in Top(z[m := s], n)
  {
    var t := Top(z, n);
    var full, cut := z[m := s], t[m := s];
    CutMeansFull(z, n, k);
    OutranksTotal(full, m, m);
    assert Above(cut, m) <= t.Keys - {m};
    SubsetSize(Above(cut, m), t.Keys - {m});
    forall j | j in t.Keys - {m} + {k} ensures j in Above(full, m) {
      if j != k {
        assert j in Above(z, k);
        OutranksTransitive(full, j, k, m);
      }
    }
    SubsetSize(t.Keys - {m} + {k}, Above(full, m));
  }

  lemma WrittenMember(z: ZSet, n: nat, m: string, s: int)
    requires !DropsBelowCut(z, n, m, s)
    ensures m in Top(z[m := s], n) <==> m in Top(Top(z, n)[m := s], n)
  {
    var t := Top(z, n);
    var full, cut := z[m := s], t[m := s];
    assert Above(cut, m) <= Above(full, m);
    SubsetSize(Above(cut, m), Above(full, m));
    OutranksTotal(full, m, m);
    if j :| j in Above(full, m) && j !in t {
      CutMeansFull(z, n, j);
      forall k | k in t ensures k in Above(cut, m) {
        assert k in Above(z, j);
        OutranksTransitive(full, k, j, m);
      }
      SubsetSize(t.Keys, Above(cut, m));
    } else {
      assert Above(full, m) == Above(cut, m);
    }
  }

  /** Trimming twice to the same size changes nothing more. */
  lemma TopIdempotent(z: ZSet, n: nat)
    ensures Top(Top(z, n), n) == Top(z, n)
  {
    forall k | k in Top(z, n) ensures k in Top(Top(z, n), n) {
      SubsetSize(Above(Top(z, n), k), Above(z, k));
    }
  }
}
