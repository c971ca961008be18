/**
 * The order in which one velocity pass visits pairs of particle indices.
 * For a system of `n` particles the outer loop runs `i` over 0 .. n-2 and
 * the inner loop runs `j` over 1 .. n-1, so the pass includes self pairs
 * `(m, m)` and visits most unordered pairs twice, once in each order.
 */
module PairSchedule {

  type Pair = (nat, nat)

  /** The inner loop for row `i` from column `j` on: (i, j), (i, j+1), ..., (i, n-1). */
  function Row(i: nat, j: nat, n: nat): (r: seq<Pair>)
    ensures |r| == if j < n then n - j else 0
    ensures forall k :: 0 <= k < |r| ==> r[k] == (i, j + k)
    decreases n - j
  {
    if j < n then [(i, j)] + Row(i, j + 1, n) else []
  }

  /** The outer loop from row `i` on: rows i, i+1, ..., n-2, each from column 1. */
  function PairsFrom(i: nat, n: nat): (r: seq<Pair>)
    ensures |r| == RowsFrom(i, n) * (n - 1)
    decreases n - i
  {
    if i + 1 < n then Row(i, 1, n) + PairsFrom(i + 1, n) else []
  }

  /** The whole pass; an empty system returns before either loop starts. */
  function Pairs(n: nat): (r: seq<Pair>)
    ensures n > 0 ==> |r| == (n - 1) * (n - 1)
    ensures n == 0 ==> r == []
  {
    if n == 0 then [] else PairsFrom(0, n)
  }

  /** `p` comes strictly before `q` in row-major order. */
  predicate Before(p: Pair, q: Pair) {
    p.0 < q.0 || (p.0 == q.0 && p.1 < q.1)
  }

  /** Every pair of the sequence comes strictly before every later one. */
  predicate RowMajor(ps: seq<Pair>) {
    forall a, b :: 0 <= a < b < |ps| ==> Before(ps[a], ps[b])
  }

  /** How often one pair touches index `m`: once as its first index, once as its second. */
  function Touches(p: Pair, m: nat): nat {
    (if p.0 == m then 1 else 0) + (if p.1 == m then 1 else 0)
  }

  /** How often a sequence of pairs touches index `m`. */
  function Visits(ps: seq<Pair>, m: nat): nat {
    if ps == [] then 0 else Touches(ps[0], m) + Visits(ps[1..], m)
  }

  /** How often one pair touches index `m` while joining two different indices; a self pair counts for nothing. */
  function CrossTouches(p: Pair, m: nat): nat {
    if p.0 == p.1 then 0 else Touches(p, m)
  }

  /** How often the pairs of two different indices in a sequence touch index `m`. */
  function CrossVisits(ps: seq<Pair>, m: nat): nat {
    if ps == [] then 0 else CrossTouches(ps[0], m) + CrossVisits(ps[1..], m)
  }

  /** The number of rows the outer loop still runs from row `i` on. */
  function RowsFrom(i: nat, n: nat): nat {
    if i + 1 < n then n - 1 - i else 0
  }

  /**
   * The number of visits of index `m` in a pass over `n` particles: a full
   * row of n - 1 pairs when `m` is an outer index, plus one pair per row when
   * `m` is an inner index.
   */
  function VisitBound(n: nat, m: nat): nat {
    (if m + 1 < n then n - 1 else 0) + (if 1 <= m < n then n - 1 else 0)
  }

  /**
   * The number of visits of index `m` by pairs of two different indices:
   * the visits less the two of the self pair `(m, m)`, which the pass
   * includes exactly for the indices strictly inside 0 .. n-1.
   */
  function CrossBound(n: nat, m: nat): (r: nat)
    ensures m < n && 2 <= n && (m == 0 || m + 1 == n) ==> r == n - 1
    ensures 1 <= m && m + 1 < n ==> r == 2 * (n - 2)
    ensures n <= m ==> r == 0
  {
    VisitBound(n, m) - (if 1 <= m && m + 1 < n then 2 else 0)
  }

  lemma {:induction false} RowMembers(i: nat, j: nat, n: nat, p: Pair)
    ensures p in Row(i, j, n) <==> p.0 == i && j <= p.1 < n
    decreases n - j
  {
    if j < n {
      RowMembers(i, j + 1, n, p);
    }
  }

  lemma {:induction false} PairsFromMembers(i: nat, n: nat, p: Pair)
    ensures p in PairsFrom(i, n) <==> i <= p.0 && p.0 + 1 < n && 1 <= p.1 < n
    decreases n - i
  {
    if i + 1 < n {
      RowMembers(i, 1, n, p);
      PairsFromMembers(i + 1, n, p);
    }
  }

  /** The pass visits exactly the pairs with first index below n - 1 and second index from 1 to n - 1. */
  lemma PairsMembers(n: nat, p: Pair)
    ensures p in Pairs(n) <==> p.0 + 1 < n && 1 <= p.1 < n
  {
    if n > 0 {
      PairsFromMembers(0, n, p);
    }
  }

  /** Systems of fewer than two particles have no pairs at all. */
  lemma PairsSmall(n: nat)
    ensures n <= 1 <==> Pairs(n) == []
  {
    if n >= 2 {
      PairsMembers(n, (0, 1));
    }
  }

  /** A self pair `(m, m)` is visited exactly for the indices strictly inside 0 .. n-1. */
  lemma SelfPairs(n: nat, m: nat)
    ensures (m, m) in Pairs(n) <==> 1 <= m && m + 1 < n
  {
    PairsMembers(n, (m, m));
  }

  /**
   * Two distinct indices are visited in both orders exactly when both lie
   * strictly inside 0 .. n-1; two distinct particles one of which is the
   * first or the last are visited in exactly one order.
   */
  lemma BothOrders(n: nat, a: nat, b: nat)
    requires a != b
    ensures (a, b) in Pairs(n) && (b, a) in Pairs(n) <==> 1 <= a && a + 1 < n && 1 <= b && b + 1 < n
    ensures a < n && b < n && (a == 0 || a + 1 == n || b == 0 || b + 1 == n) ==> ((a, b) in Pairs(n) <==> (b, a) !in Pairs(n))
  {
    PairsMembers(n, (a, b));
    PairsMembers(n, (b, a));
  }

  lemma {:induction false} RowOrdered(i: nat, j: nat, n: nat)
    ensures RowMajor(Row(i, j, n))
    decreases n - j
  {
    if j < n {
      RowOrdered(i, j + 1, n);
      var r := Row(i, j, n);
      forall a, b | 0 <= a < b < |r|
        ensures Before(r[a], r[b])
      {
        if a == 0 {
          RowMembers(i, j + 1, n, r[b]);
        } else {
          assert r[a] == Row(i, j + 1, n)[a - 1];
        }
      }
    }
  }

  lemma {:induction false} PairsFromOrdered(i: nat, n: nat)
    ensures RowMajor(PairsFrom(i, n))
    decreases n - i
  {
    if i + 1 < n {
      RowOrdered(i, 1, n);
      PairsFromOrdered(i + 1, n);
      var row, rest := Row(i, 1, n), PairsFrom(i + 1, n);
      var ps := row + rest;
      forall a, b | 0 <= a < b < |ps|
        ensures Before(ps[a], ps[b])
      {
        if b < |row| {
          assert ps[a] == row[a] && ps[b] == row[b];
        } else if a < |row| {
          RowMembers(i, 1, n, row[a]);
          PairsFromMembers(i + 1, n, rest[b - |row|]);
          assert ps[a] == row[a] && ps[b] == rest[b - |row|];
        } else {
          assert ps[a] == rest[a - |row|] && ps[b] == rest[b - |row|];
        }
      }
    }
  }

  /** The pass runs through its pairs in strictly increasing row-major order, so it visits no pair twice. */
  lemma PairsOrdered(n: nat)
    ensures RowMajor(Pairs(n))
  {
    if n > 0 {
      PairsFromOrdered(0, n);
    }
  }

  lemma {:induction false} VisitsAppend(xs: seq<Pair>, ys: seq<Pair>, m: nat)
    ensures Visits(xs + ys, m) == Visits(xs, m) + Visits(ys, m)
  {
    if xs != [] {
      assert (xs + ys)[0] == xs[0];
      assert (xs + ys)[1..] == xs[1..] + ys;
      VisitsAppend(xs[1..], ys, m);
    } else {
      assert xs + ys == ys;
    }
  }

  lemma {:induction false} VisitsRow(i: nat, j: nat, n: nat, m: nat)
    ensures Visits(Row(i, j, n), m)
         == (if i == m && j < n then n - j else 0) + (if j <= m < n then 1 else 0)
    decreases n - j
  {
    if j < n {
      var r := Row(i, j, n);
      assert r[1..] == Row(i, j + 1, n);
      VisitsRow(i, j + 1, n, m);
    }
  }

  lemma {:induction false} VisitsPairsFrom(i: nat, n: nat, m: nat)
    ensures Visits(PairsFrom(i, n), m)
         == (if i <= m && m + 1 < n then n - 1 else 0) + (if 1 <= m < n then RowsFrom(i, n) else 0)
    decreases n - i
  {
    if i + 1 < n {
      VisitsAppend(Row(i, 1, n), PairsFrom(i + 1, n), m);
      VisitsRow(i, 1, n, m);
      VisitsPairsFrom(i + 1, n, m);
    }
  }

  /** Over a whole pass, index `m` is touched exactly `VisitBound(n, m)` times. */
  lemma VisitsPairs(n: nat, m: nat)
    ensures Visits(Pairs(n), m) == VisitBound(n, m)
  {
    if n > 0 {
      VisitsPairsFrom(0, n, m);
    }
  }

  lemma {:induction false} CrossVisitsAppend(xs: seq<Pair>, ys: seq<Pair>, m: nat)
    ensures CrossVisits(xs + ys, m) == CrossVisits(xs, m) + CrossVisits(ys, m)
  {
    if xs != [] {
      assert (xs + ys)[0] == xs[0];
      assert (xs + ys)[1..] == xs[1..] + ys;
      CrossVisitsAppend(xs[1..], ys, m);
    } else {
      assert xs + ys == ys;
    }
  }

  lemma {:induction false} CrossVisitsRow(i: nat, j: nat, n: nat, m: nat)
    ensures CrossVisits(Row(i, j, n), m) as int
         == if i == m then (if j < n then n - j else 0) - (if j <= m < n then 1 else 0)
            else (if j <= m < n then 1 else 0)
    decreases n - j
  {
    if j < n {
      var r := Row(i, j, n);
      assert r[1..] == Row(i, j + 1, n);
      CrossVisitsRow(i, j + 1, n, m);
    }
  }

  lemma {:induction false} CrossVisitsPairsFrom(i: nat, n: nat, m: nat)
    ensures CrossVisits(PairsFrom(i, n), m) as int
         == (if i <= m && m + 1 < n then n - 1 - (if 1 <= m then 1 else 0) else 0)
          + (if 1 <= m < n then RowsFrom(i, n) - (if i <= m && m + 1 < n then 1 else 0) else 0)
    decreases n - i
  {
    if i + 1 < n {
      CrossVisitsAppend(Row(i, 1, n), PairsFrom(i + 1, n), m);
      CrossVisitsRow(i, 1, n, m);
      CrossVisitsPairsFrom(i + 1, n, m);
    }
  }

  /**
   * Over a whole pass, the pairs of two different indices touch index `m`
   * exactly `CrossBound(n, m)` times: n - 1 times for the first and the last
   * particle, 2 (n - 2) times for the others.
   */
  lemma CrossVisitsPairs(n: nat, m: nat)
    ensures CrossVisits(Pairs(n), m) == CrossBound(n, m)
  {
    if n > 0 {
      CrossVisitsPairsFrom(0, n, m);
    }
  }

  /** Two particles make a single pair, (0, 1). */
  lemma TwoParticlePairs()
    ensures Pairs(2) == [(0, 1)]
  {
    assert Row(0, 2, 2) == [];
    assert Row(0, 1, 2) == [(0, 1)];
    assert PairsFrom(1, 2) == [];
  }
}
