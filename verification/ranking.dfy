/** The ordering step of the fallback recommender: catalogue positions arranged by
    descending score, equal scores kept in catalogue order. This is what
    `Array.prototype.sort` with the comparator `(a, b) => b.score - a.score` must produce,
    because ECMAScript 2019 and later require the sort to be stable
    (section 23.1.3.30 of ECMA-262, 2023 edition). Positions are sorted rather than
    careers, so that "catalogue order" is a plain comparison of positions. */
module Ranking {
  import opened Lists

  /** Every position is a valid index into `scores`. */
  predicate InRange(scores: seq<int>, s: seq<nat>)
  {
    forall k :: 0 <= k < |s| ==> s[k] < |scores|
  }

  /** Position `i` is ranked strictly ahead of position `j`: a higher score, or the same
      score and an earlier catalogue position. A strict total order on positions. */
  predicate Before(scores: seq<int>, i: nat, j: nat)
    requires i < |scores| && j < |scores|
  {
    scores[i] > scores[j] || (scores[i] == scores[j] && i < j)
  }

  /** Each position is ranked ahead of every later one. */
  predicate Chain(scores: seq<int>, s: seq<nat>)
    requires InRange(scores, s)
  {
    forall p, q :: 0 <= p < q < |s| ==> Before(scores, s[p], s[q])
  }

  /** A chain stays a chain without its head. */
  lemma ChainTail(scores: seq<int>, s: seq<nat>)
    requires InRange(scores, s) && s != [] && Chain(scores, s)
    ensures InRange(scores, s[1..]) && Chain(scores, s[1..])
  {
    forall p, q | 0 <= p < q < |s[1..]| ensures Before(scores, s[1..][p], s[1..][q]) {
      assert s[1..][p] == s[p + 1] && s[1..][q] == s[q + 1];
    }
  }

  /** A chain with a head ranked ahead of all of it is a chain. */
  lemma ChainCons(scores: seq<int>, h: nat, t: seq<nat>)
    requires h < |scores| && InRange(scores, t) && Chain(scores, t)
    requires forall k :: 0 <= k < |t| ==> Before(scores, h, t[k])
    ensures InRange(scores, [h] + t) && Chain(scores, [h] + t)
  {
    var r := [h] + t;
    forall p, q | 0 <= p < q < |r| ensures Before(scores, r[p], r[q]) {
      assert r[q] == t[q - 1];
      if p > 0 {
        assert r[p] == t[p - 1];
      }
    }
  }

  /** Putting `x` in front of a chain whose head it is ranked ahead of keeps a chain. */
  lemma InsertFront(scores: seq<int>, x: nat, s: seq<nat>)
    requires x < |scores| && InRange(scores, s) && Chain(scores, s)
    requires s != [] && Before(scores, x, s[0])
    ensures InRange(scores, [x] + s) && Chain(scores, [x] + s)
  {
    forall k | 0 <= k < |s| ensures Before(scores, x, s[k]) {
      if k > 0 {
        assert Before(scores, s[0], s[k]);
      }
    }
    ChainCons(scores, x, s);
  }

  /** Keeping the head of a chain in front of the insertion into its tail keeps a chain,
      when `x` is not ranked ahead of that head. */
  lemma InsertBehind(scores: seq<int>, x: nat, s: seq<nat>, rest: seq<nat>)
    requires x < |scores| && InRange(scores, s) && Chain(scores, s) && x !in s
    requires s != [] && !Before(scores, x, s[0])
    requires InRange(scores, rest) && Chain(scores, rest)
    requires multiset(rest) == multiset(s[1..]) + multiset{x}
    ensures InRange(scores, [s[0]] + rest) && Chain(scores, [s[0]] + rest)
  {
    forall k | 0 <= k < |rest| ensures Before(scores, s[0], rest[k]) {
      var y := rest[k];
      assert y in multiset(rest);
      if y != x {
        assert y in multiset(s[1..]);
        var j :| 0 <= j < |s[1..]| && s[1..][j] == y;
        assert Before(scores, s[0], s[j + 1]);
      } else {
        assert s[0] in s;
      }
    }
    ChainCons(scores, s[0], rest);
  }

  /** Inserts `x` in front of the first position it is ranked ahead of. */
  function Insert(scores: seq<int>, x: nat, s: seq<nat>): (r: seq<nat>)
    requires x < |scores| && InRange(scores, s)
    ensures multiset(r) == multiset(s) + multiset{x}
    ensures InRange(scores, r)
    ensures Chain(scores, s) && x !in s ==> Chain(scores, r)
  {
    if s == [] then [x]
    else if Before(scores, x, s[0]) then
      if Chain(scores, s) then InsertFront(scores, x, s); [x] + s
      else [x] + s
    else
      var rest := Insert(scores, x, s[1..]);
      assert s == [s[0]] + s[1..];
      if Chain(scores, s) && x !in s then
        ChainTail(scores, s);
        InsertBehind(scores, x, s, rest);
        [s[0]] + rest
      else
        [s[0]] + rest
  }

  /** Insertion sort of positions by `Before`. */
  function Sort(scores: seq<int>, s: seq<nat>): (r: seq<nat>)
    requires InRange(scores, s)
    ensures multiset(r) == multiset(s)
    ensures InRange(scores, r)
    ensures NoDup(s) ==> Chain(scores, r)
  {
    if s == [] then []
    else
      var rest := Sort(scores, s[1..]);
      assert s == [s[0]] + s[1..];
      assert NoDup(s) ==> NoDup(s[1..]) && s[0] !in rest by {
        if NoDup(s) {
          forall i, j | 0 <= i < j < |s[1..]| ensures s[1..][i] != s[1..][j] {
            assert s[1..][i] == s[i + 1] && s[1..][j] == s[j + 1];
          }
          assert s[0] !in multiset(s[1..]) by {
            forall k | 0 <= k < |s[1..]| ensures s[1..][k] != s[0] {
              assert s[1..][k] == s[k + 1];
            }
          }
        }
      }
      Insert(scores, s[0], rest)
  }

  /** The positions 0, 1, ..., n-1 in catalogue order. */
  function Positions(n: nat): (r: seq<nat>)
    ensures |r| == n
    ensures forall k :: 0 <= k < n ==> r[k] == k
  {
    seq(n, k requires 0 <= k < n => k as nat)
  }

  /** A chain never repeats a position, because `Before` is irreflexive. */
  lemma ChainNoDup(scores: seq<int>, s: seq<nat>)
    requires InRange(scores, s) && Chain(scores, s)
    ensures NoDup(s)
  {
    forall i, j | 0 <= i < j < |s| ensures s[i] != s[j] {
      assert Before(scores, s[i], s[j]);
    }
  }

  /** The ranking of a scored catalogue: every position exactly once, scores
      non-increasing, and equal scores in catalogue order. */
  function Rank(scores: seq<int>): (r: seq<nat>)
    ensures |r| == |scores|
    ensures InRange(scores, r)
    ensures forall i :: 0 <= i < |scores| ==> i in r
    ensures NoDup(r)
    ensures forall p, q :: 0 <= p < q < |r| ==> scores[r[p]] >= scores[r[q]]
    ensures forall p, q :: 0 <= p < q < |r| && scores[r[p]] == scores[r[q]] ==> r[p] < r[q]
  {
    var all := Positions(|scores|);
    assert NoDup(all);
    var r := Sort(scores, all);
    assert |r| == |multiset(r)| == |multiset(all)| == |scores|;
    ChainNoDup(scores, r);
    forall i | 0 <= i < |scores| ensures i in r {
      assert all[i] == i;
      assert i in multiset(all);
    }
    forall p, q | 0 <= p < q < |r| ensures scores[r[p]] >= scores[r[q]] {
      assert Before(scores, r[p], r[q]);
    }
    r
  }

  /** A position outside the first `k` of a chain scores no more than any of them:
      cutting the ranking at `k` keeps the best `k`. */
  lemma PrefixIsBest(scores: seq<int>, s: seq<nat>, k: nat, i: nat)
    requires InRange(scores, s) && Chain(scores, s)
    requires k <= |s|
    requires i in s && i !in s[..k]
    ensures forall p :: 0 <= p < k ==> scores[s[p]] >= scores[i]
  {
    var q :| 0 <= q < |s| && s[q] == i;
    assert forall m :: 0 <= m < k ==> s[..k][m] == s[m];
    forall p | 0 <= p < k ensures scores[s[p]] >= scores[i] {
      assert Before(scores, s[p], s[q]);
    }
  }

  /** Two chains with the same members and the same head have tails with the same members. */
  lemma SameTailMembers(scores: seq<int>, a: seq<nat>, b: seq<nat>)
    requires InRange(scores, a) && InRange(scores, b)
    requires Chain(scores, a) && Chain(scores, b)
    requires a != [] && b != [] && a[0] == b[0]
    requires forall x :: x in a <==> x in b
    ensures forall x :: x in a[1..] <==> x in b[1..]
  {
    ChainNoDup(scores, a);
    ChainNoDup(scores, b);
    assert a == [a[0]] + a[1..];
    assert b == [b[0]] + b[1..];
    forall x ensures x in a[1..] <==> x in b[1..] {
      if x in a[1..] {
        var k :| 0 <= k < |a[1..]| && a[1..][k] == x;
        assert a[k + 1] == x && a[0] != x;
      }
      if x in b[1..] {
        var k :| 0 <= k < |b[1..]| && b[1..][k] == x;
        assert b[k + 1] == x && b[0] != x;
      }
      assert x in a <==> x == a[0] || x in a[1..];
      assert x in b <==> x == b[0] || x in b[1..];
    }
  }

  /** Two chains holding the same positions are equal: the ranking is the only
      arrangement that is sorted by descending score and keeps ties in catalogue order. */
  lemma {:induction false} ChainUnique(scores: seq<int>, a: seq<nat>, b: seq<nat>)
    requires InRange(scores, a) && InRange(scores, b)
    requires Chain(scores, a) && Chain(scores, b)
    requires forall x :: x in a <==> x in b
    ensures a == b
  {
    if a == [] {
      assert forall k :: 0 <= k < |b| ==> b[k] in b;
    } else {
      assert a[0] in a;
      assert a[0] in b;
      assert b[0] in b;
      assert b[0] in a;
      var i :| 0 <= i < |b| && b[i] == a[0];
      var j :| 0 <= j < |a| && a[j] == b[0];
      assert a[0] == b[0];
      SameTailMembers(scores, a, b);
      ChainTail(scores, a);
      ChainTail(scores, b);
      ChainUnique(scores, a[1..], b[1..]);
      assert a == [a[0]] + a[1..] && b == [b[0]] + b[1..];
    }
  }

  /** Any arrangement of catalogue positions that contains every position, is sorted by
      descending score and keeps equal scores in catalogue order is exactly `Rank`: the
      result does not depend on which stable sorting algorithm the engine uses. */
  lemma StableSortIsRank(scores: seq<int>, s: seq<nat>)
    requires InRange(scores, s)
    requires forall i :: 0 <= i < |scores| ==> i in s
    requires forall p, q :: 0 <= p < q < |s| ==> scores[s[p]] >= scores[s[q]]
    requires forall p, q :: 0 <= p < q < |s| && scores[s[p]] == scores[s[q]] ==> s[p] < s[q]
    ensures s == Rank(scores)
  {
    var r := Rank(scores);
    assert Chain(scores, s);
    assert Chain(scores, r) by {
      forall p, q | 0 <= p < q < |r| ensures Before(scores, r[p], r[q]) {
        assert r[p] != r[q];
      }
    }
    forall x ensures x in s <==> x in r {
      if x in s {
        var k :| 0 <= k < |s| && s[k] == x;
      }
      if x in r {
        var k :| 0 <= k < |r| && r[k] == x;
      }
    }
    ChainUnique(scores, s, r);
  }
}
