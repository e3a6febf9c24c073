/**
 * The two permutation routines of Python's random module that the board
 * generators call, written over explicit draws. A draw is any natural number
 * and randbelow(n) is taken to be draw % n, so every outcome the random
 * module can produce is produced by some list of draws.
 */
module RandomModel {

  predicate Distinct(s: seq<int>)
  {
    forall a, b :: 0 <= a < b < |s| ==> s[a] != s[b]
  }

  /**
   * random.shuffle: for i from len - 1 down to 1, swap the items at i and at
   * j = randbelow(i + 1). rolls[k] is the draw made for i = |s| - 1 - k.
   */
  method Shuffle(s: seq<int>, rolls: seq<nat>) returns (r: seq<int>)
    requires |s| <= |rolls| + 1
    ensures |r| == |s| && multiset(r) == multiset(s)
    ensures Distinct(s) ==> Distinct(r)
  {
    r := s;
    var i := |s| - 1;
    while i >= 1
      invariant -1 <= i < |s| && |r| == |s|
      invariant multiset(r) == multiset(s)
      invariant Distinct(s) ==> Distinct(r)
      decreases i
    {
      var j := rolls[|s| - 1 - i] % (i + 1);
      var before := r;
      r := r[i := before[j]][j := before[i]];
      if Distinct(s) {
        forall a, b | 0 <= a < b < |r|
          ensures r[a] != r[b]
        {
          var a', b' := if a == i then j else if a == j then i else a,
                        if b == i then j else if b == j then i else b;
          assert r[a] == before[a'] && r[b] == before[b'] && a' != b';
        }
      }
      i := i - 1;
    }
  }

  /**
   * random.sample(population, k) with k equal to the population size, by the
   * pool method: item i of the result is pool[j] for j = randbelow(n - i), and
   * the last live item of the pool moves into the hole. rolls[i] is draw i.
   */
  method Sample(population: seq<int>, rolls: seq<nat>) returns (result: seq<int>)
    requires |population| <= |rolls|
    ensures |result| == |population| && multiset(result) == multiset(population)
  {
    var n := |population|;
    var pool := population;
    result := seq(n, _ => 0);
    var i := 0;
    assert result[..0] == [] && pool[..n] == pool;
    while i < n
      invariant 0 <= i <= n && |pool| == n && |result| == n
      invariant multiset(result[..i]) + multiset(pool[..n - i]) == multiset(population)
    {
      var j := rolls[i] % (n - i);
      SampleStep(result, pool, i, j, n);
      result := result[i := pool[j]];
      pool := pool[j := pool[n - i - 1]];
      i := i + 1;
    }
    assert result[..n] == result;
  }

  /** One step of the pool method moves one item from the live pool to the result. */
  lemma SampleStep(result: seq<int>, pool: seq<int>, i: int, j: int, n: int)
    requires 0 <= i < n && 0 <= j < n - i && |pool| == n && |result| == n
    ensures multiset(result[i := pool[j]][..i + 1]) + multiset(pool[j := pool[n - i - 1]][..n - i - 1])
         == multiset(result[..i]) + multiset(pool[..n - i])
  {
    var last := n - i - 1;
    var result', pool' := result[i := pool[j]], pool[j := pool[last]];
    assert result'[..i + 1] == result[..i] + [pool[j]];
    assert pool[..n - i] == pool[..last] + [pool[last]];
    if j < last {
      assert pool'[..last] == pool[..last][j := pool[last]];
    } else {
      assert pool'[..last] == pool[..last];
    }
  }
}
