/**
 * The generators' working list of nine integers: 1 for X, 0 for O and -1 for
 * an empty cell; how it is written onto the board and returned as a 3x3
 * matrix; and the line facts the generators test on it.
 */
module Positions {
  import opened Board

  predicate IsPositions(p: seq<int>)
  {
    |p| == 9 && forall i :: 0 <= i < 9 ==> p[i] == 1 || p[i] == 0 || p[i] == -1
  }

  /** The integer code of a mark: 1 for X, 0 for O. */
  function Piece(pl: Player): (v: int)
    ensures v == 0 || v == 1
  {
    if pl == X then 1 else 0
  }

  function Count(p: seq<int>, v: int): nat
  {
    multiset(p)[v]
  }

  /** The board the generators produce by writing X and O onto a reset board. */
  function BoardOf(p: seq<int>): (b: seq<Cell>)
    requires IsPositions(p)
    ensures WellFormed(b)
    ensures forall i :: 0 <= i < 9 ==> (b[i] == Mark(X) <==> p[i] == 1)
    ensures forall i :: 0 <= i < 9 ==> (b[i] == Mark(O) <==> p[i] == 0)
    ensures forall i :: 0 <= i < 9 ==> (b[i].Mark? <==> p[i] != -1)
  {
    seq(9, i requires 0 <= i < 9 => if p[i] == 1 then Mark(X) else if p[i] == 0 then Mark(O) else Num(i + 1))
  }

  /** The 3x3 matrix the generators return: rows of three consecutive cells. */
  function Rows(p: seq<int>): (m: seq<seq<int>>)
    requires |p| == 9
    ensures |m| == 3 && forall r :: 0 <= r < 3 ==> |m[r]| == 3
    ensures forall r, c :: 0 <= r < 3 && 0 <= c < 3 ==> m[r][c] == p[3 * r + c]
  {
    [p[0..3], p[3..6], p[6..9]]
  }

  /** The matrix read back row by row. */
  function Flat(m: seq<seq<int>>): seq<int>
    requires |m| == 3
  {
    m[0] + m[1] + m[2]
  }

  /** Reading the matrix back row by row gives the list it was made from. */
  lemma RowsFlatten(p: seq<int>)
    requires |p| == 9
    ensures Flat(Rows(p)) == p
  {
    assert p == p[0..3] + p[3..6] + p[6..9];
  }

  /** Line j is filled with v. */
  predicate Complete(p: seq<int>, j: int, v: int)
    requires |p| == 9 && 0 <= j < 8
  {
    p[LineAt(j).0] == v && p[LineAt(j).1] == v && p[LineAt(j).2] == v
  }

  /** How many cells of line j hold v. */
  function CountOn(p: seq<int>, j: int, v: int): (n: int)
    requires |p| == 9 && 0 <= j < 8
    ensures 0 <= n <= 3
    ensures n == 3 <==> Complete(p, j, v)
  {
    var l := LineAt(j);
    (if p[l.0] == v then 1 else 0) + (if p[l.1] == v then 1 else 0) + (if p[l.2] == v then 1 else 0)
  }

  /** CountOn is the number of occurrences of v among the three cells of line j. */
  lemma CountOnCounts(p: seq<int>, j: int, v: int)
    requires |p| == 9 && 0 <= j < 8
    ensures CountOn(p, j, v) == multiset([p[LineAt(j).0], p[LineAt(j).1], p[LineAt(j).2]])[v]
  {
  }

  /** Line j holds two v's and one empty cell: v wins by playing there. */
  predicate Threat(p: seq<int>, j: int, v: int)
    requires |p| == 9 && 0 <= j < 8
  {
    CountOn(p, j, v) == 2 && CountOn(p, j, -1) == 1
  }

  predicate Threatened(p: seq<int>, v: int)
    requires |p| == 9
  {
    exists j :: 0 <= j < 8 && Threat(p, j, v)
  }

  predicate NoLine(p: seq<int>, v: int)
    requires |p| == 9
  {
    forall j :: 0 <= j < 8 ==> !Complete(p, j, v)
  }

  /** v has neither a filled line nor a line one move from filled. */
  predicate Safe(p: seq<int>, v: int)
    requires |p| == 9
  {
    !Threatened(p, v) && NoLine(p, v)
  }

  /** Placing v on the empty cell k completes a line through k. */
  predicate Wins(p: seq<int>, k: int, v: int)
    requires |p| == 9 && 0 <= k < 9
  {
    p[k] == -1 && exists j :: 0 <= j < 8 && OnLine(k, j) && Complete(p[k := v], j, v)
  }

  /**
   * The threat test of the defender loop: scan the lines in order and stop at
   * the first holding two v's and one empty cell.
   */
  method HasThreat(p: seq<int>, v: int) returns (t: bool)
    requires |p| == 9
    ensures t <==> Threatened(p, v)
  {
    t := false;
    var j := 0;
    while j < 8
      invariant 0 <= j <= 8
      invariant forall j' :: 0 <= j' < j ==> !Threat(p, j', v)
    {
      var count := CountOn(p, j, v);
      var empty := CountOn(p, j, -1);
      if count == 2 && empty == 1 {
        assert Threat(p, j, v);
        t := true;
        return;
      }
      j := j + 1;
    }
  }

  /**
   * On the board written from a position list, a line is equal exactly when
   * it is filled with X's or with O's, and the board is full exactly when no
   * cell of the list is empty.
   */
  lemma BoardOfLines(p: seq<int>)
    requires IsPositions(p)
    ensures forall j :: 0 <= j < 8 ==> (LineEqual(BoardOf(p), j) <==> Complete(p, j, 1) || Complete(p, j, 0))
    ensures AllMarked(BoardOf(p)) <==> forall i :: 0 <= i < 9 ==> p[i] != -1
  {
  }

  /** A list of 1s, 0s and -1s: its three counts add up to its length. */
  lemma {:induction false} CountsTotal(p: seq<int>)
    requires forall i :: 0 <= i < |p| ==> p[i] == 1 || p[i] == 0 || p[i] == -1
    ensures Count(p, 1) + Count(p, 0) + Count(p, -1) == |p|
  {
    if p != [] {
      var q := p[..|p| - 1];
      CountsTotal(q);
      assert p == q + [p[|p| - 1]];
    }
  }

  /** Writing v at index i moves one count from the old value to v. */
  lemma UpdateCount(s: seq<int>, i: int, v: int, w: int)
    requires 0 <= i < |s|
    ensures multiset(s[i := v])[w] == multiset(s)[w] - (if s[i] == w then 1 else 0) + (if v == w then 1 else 0)
  {
    assert multiset(s[i := v]) == multiset(s) - multiset{s[i]} + multiset{v};
  }

  /** v repeated n times. */
  function Repeat(v: int, n: nat): (s: seq<int>)
    ensures |s| == n && forall i :: 0 <= i < n ==> s[i] == v
  {
    seq(n, _ => v)
  }

  lemma {:induction false} RepeatCount(v: int, n: nat, w: int)
    ensures multiset(Repeat(v, n))[w] == if w == v then n else 0
    decreases n
  {
    if n > 0 {
      RepeatCount(v, n - 1, w);
      assert Repeat(v, n) == Repeat(v, n - 1) + [v];
    }
  }

  /**
   * The ascending indices i >= k whose cell holds v: the shape of the loops
   * and list comprehensions that collect empty cells.
   */
  function IndicesOf(p: seq<int>, v: int, k: int): (r: seq<int>)
    requires 0 <= k <= |p|
    ensures forall m :: 0 <= m < |r| ==> k <= r[m] < |p| && p[r[m]] == v
    decreases |p| - k
  {
    if k == |p| then []
    else if p[k] == v then [k] + IndicesOf(p, v, k + 1)
    else IndicesOf(p, v, k + 1)
  }

  /** Every index at or after k whose cell holds v is listed. */
  lemma {:induction false} IndicesOfMembers(p: seq<int>, v: int, k: int)
    requires 0 <= k <= |p|
    ensures forall i :: k <= i < |p| ==> (i in IndicesOf(p, v, k) <==> p[i] == v)
    decreases |p| - k
  {
    if k < |p| {
      IndicesOfMembers(p, v, k + 1);
    }
  }

  /** Strictly ascending. */
  predicate Ascending(s: seq<int>)
  {
    forall a, b :: 0 <= a < b < |s| ==> s[a] < s[b]
  }

  /** The indices are listed in ascending order. */
  lemma {:induction false} IndicesOfAscending(p: seq<int>, v: int, k: int)
    requires 0 <= k <= |p|
    ensures Ascending(IndicesOf(p, v, k))
    decreases |p| - k
  {
    if k < |p| {
      IndicesOfAscending(p, v, k + 1);
    }
  }

  /** There are as many indices as cells holding v. */
  lemma {:induction false} IndicesOfCount(p: seq<int>, v: int, k: int)
    requires 0 <= k <= |p|
    ensures |IndicesOf(p, v, k)| == multiset(p[k..])[v]
    decreases |p| - k
  {
    if k < |p| {
      IndicesOfCount(p, v, k + 1);
      assert p[k..] == [p[k]] + p[k + 1..];
    }
  }

  /** Counted from the start, the indices of v are as many as the v's in the list. */
  lemma IndicesOfAll(p: seq<int>, v: int)
    ensures |IndicesOf(p, v, 0)| == Count(p, v)
  {
    IndicesOfCount(p, v, 0);
    assert p[0..] == p;
  }
}
