/** Sequence helpers the risk-set sampler is built from: a boolean mask turned
    into an index list, order-keeping collection and de-duplication, sorted
    distinct values, and drawing without replacement. */
module Seqs {

  /** No element occurs twice. */
  predicate Distinct<T(==)>(s: seq<T>) {
    forall i, j :: 0 <= i < j < |s| ==> s[i] != s[j]
  }

  /** Strictly ascending (hence also distinct). */
  predicate Increasing(s: seq<int>) {
    forall i, j :: 0 <= i < j < |s| ==> s[i] < s[j]
  }

  /** The positions below `n` at which the mask `p` holds, in ascending order:
      what indexing `range(n)` with a boolean mask produces. */
  function Where(n: nat, p: nat -> bool): (r: seq<nat>)
    ensures |r| <= n
    ensures forall i: nat :: i in r <==> i < n && p(i)
    ensures Increasing(r)
  {
    if n == 0 then []
    else
      var r' := Where(n - 1, p);
      assert forall k :: 0 <= k < |r'| ==> r'[k] in r';
      r' + (if p(n - 1) then [n - 1] else [])
  }

  /** `f(x)` for every `x` of `xs` that `keep` selects, in the order of `xs`. */
  function Gather<S, T(==,!new)>(xs: seq<S>, keep: S -> bool, f: S -> T): (r: seq<T>)
    ensures |r| <= |xs|
    ensures forall y :: y in r <==> exists i :: 0 <= i < |xs| && keep(xs[i]) && f(xs[i]) == y
  {
    if xs == [] then []
    else
      var xs' := xs[..|xs| - 1];
      var r' := Gather(xs', keep, f);
      assert forall i :: 0 <= i < |xs'| ==> xs'[i] == xs[i];
      r' + (if keep(xs[|xs| - 1]) then [f(xs[|xs| - 1])] else [])
  }

  /** The distinct elements of `s`, each at the position of its first occurrence. */
  function Dedup<T(==,!new)>(s: seq<T>): (r: seq<T>)
    ensures Distinct(r)
    ensures forall x :: x in r <==> x in s
  {
    if s == [] then []
    else
      var r' := Dedup(s[..|s| - 1]);
      assert forall x :: x in s <==> x in s[..|s| - 1] || x == s[|s| - 1];
      if s[|s| - 1] in r' then r' else r' + [s[|s| - 1]]
  }

  /** Inserts `x` into a strictly ascending sequence, keeping it strictly ascending. */
  function Insert(x: int, s: seq<int>): (r: seq<int>)
    requires Increasing(s)
    ensures Increasing(r)
    ensures forall y :: y in r <==> y == x || y in s
  {
    if s == [] then [x]
    else if x < s[0] then [x] + s
    else if x == s[0] then s
    else
      var r' := Insert(x, s[1..]);
      assert forall y :: y in s[1..] ==> s[0] < y;
      assert forall k :: 0 <= k < |r'| ==> r'[k] in r';
      [s[0]] + r'
  }

  /** The distinct values of `s` in ascending order. */
  function SortedSet(s: seq<int>): (r: seq<int>)
    ensures Increasing(r)
    ensures forall y :: y in r <==> y in s
  {
    if s == [] then []
    else
      assert forall y :: y in s <==> y in s[..|s| - 1] || y == s[|s| - 1];
      Insert(s[|s| - 1], SortedSet(s[..|s| - 1]))
  }

  /** `s` without its element at position `j`. */
  function RemoveAt<T(==)>(s: seq<T>, j: nat): (r: seq<T>)
    requires j < |s|
    ensures |r| == |s| - 1
    ensures forall x :: x in r ==> x in s
    ensures Distinct(s) ==> Distinct(r) && s[j] !in r
    ensures forall x :: x in s && x != s[j] ==> x in r
  {
    var r := s[..j] + s[j + 1..];
    assert forall k :: 0 <= k < |r| ==> r[k] == (if k < j then s[k] else s[k + 1]);
    assert forall x :: x in s ==> exists k :: 0 <= k < |s| && s[k] == x;
    r
  }

  /** Draws `|picks|` members of `pool` without replacement: each pick chooses,
      modulo the number left, one of the members not drawn yet. */
  function Draw<T(==)>(pool: seq<T>, picks: seq<nat>): (r: seq<T>)
    requires |picks| <= |pool|
    ensures |r| == |picks|
    ensures forall x :: x in r ==> x in pool
    ensures Distinct(pool) ==> Distinct(r)
    decreases |picks|
  {
    if picks == [] then []
    else
      var j := picks[0] % |pool|;
      var rest := Draw(RemoveAt(pool, j), picks[1..]);
      assert forall k :: 0 <= k < |rest| ==> rest[k] in rest;
      [pool[j]] + rest
  }

  /** A set of distinct elements of a sequence is as large as the sequence. */
  lemma {:induction false} DistinctCard<T>(s: seq<T>)
    requires Distinct(s)
    ensures |set x | x in s| == |s|
  {
    if s != [] {
      var s' := s[1..];
      DistinctCard(s');
      assert (set x | x in s) == {s[0]} + (set x | x in s');
      assert s[0] !in (set x | x in s');
    }
  }

  /** A duplicate-free sequence holding `x` and nothing else is `[x]`. */
  lemma OnlyMember<T>(s: seq<T>, x: T)
    requires Distinct(s) && x in s && forall y :: y in s ==> y == x
    ensures s == [x]
  {
    DistinctCard(s);
    assert (set y | y in s) == {x};
    assert s[0] in s;
  }

  /** Two ascending sequences with the same members are the same sequence. */
  lemma {:induction false} IncreasingUnique(s: seq<nat>, t: seq<nat>)
    requires Increasing(s) && Increasing(t)
    requires forall x :: x in s <==> x in t
    ensures s == t
    decreases |s|
  {
    if s != [] {
      assert s[0] in s;
    }
    if t != [] {
      assert t[0] in t;
    }
    if s != [] && t != [] {
      assert s[0] in t && t[0] in s;
      assert s[0] == t[0];
      forall x ensures x in s[1..] <==> x in t[1..] {
        assert x in s[1..] <==> x in s && x != s[0];
        assert x in t[1..] <==> x in t && x != t[0];
      }
      IncreasingUnique(s[1..], t[1..]);
      assert s == [s[0]] + s[1..] && t == [t[0]] + t[1..];
    }
  }

  /** A duplicate-free selection from a duplicate-free pool is no larger than the pool. */
  lemma SampleNoLargerThanPool<T>(pool: seq<T>, d: seq<T>)
    requires Distinct(pool) && Distinct(d)
    requires forall x :: x in d ==> x in pool
    ensures |d| <= |pool|
  {
    DistinctCard(pool);
    DistinctCard(d);
    var sd, sp := set x | x in d, set x | x in pool;
    assert sp == sd + (sp - sd);
  }

  /** A first pick below the pool size draws exactly that position. */
  lemma DrawFirst<T>(pool: seq<T>, j: nat, picks: seq<nat>)
    requires j < |pool| && |picks| < |pool|
    ensures Draw(pool, [j] + picks) == [pool[j]] + Draw(RemoveAt(pool, j), picks)
  {
    var picks' := [j] + picks;
    assert picks'[0] == j && picks'[1..] == picks;
    ModSmall(j, |pool|);
    assert picks'[0] % |pool| == j;
  }

  lemma ModSmall(j: nat, n: nat)
    requires j < n
    ensures j % n == j
  {
  }

  /** After drawing the first element of `d` from position `j`, the rest of `d`
      is still available. */
  lemma TailInRest<T>(pool: seq<T>, d: seq<T>, j: nat)
    requires Distinct(d) && |d| > 0 && j < |pool| && pool[j] == d[0]
    requires forall x :: x in d ==> x in pool
    ensures Distinct(d[1..])
    ensures forall x :: x in d[1..] ==> x in RemoveAt(pool, j)
  {
    forall x | x in d[1..] ensures x in RemoveAt(pool, j) {
      var k :| 0 <= k < |d[1..]| && d[1..][k] == x;
      assert d[k + 1] == x;
    }
  }

  /** Every selection of distinct pool members is some draw: the drawing
      procedure can produce any sample without replacement; `picks` is the
      random input that produces `d`. */
  lemma {:induction false} DrawReachesEverySample<T>(pool: seq<T>, d: seq<T>) returns (picks: seq<nat>)
    requires Distinct(pool) && Distinct(d)
    requires forall x :: x in d ==> x in pool
    ensures |d| <= |pool|
    ensures |picks| == |d| && Draw(pool, picks) == d
    decreases |d|
  {
    if d == [] {
      picks := [];
    } else {
      assert d[0] in pool;
      var j :| 0 <= j < |pool| && pool[j] == d[0];
      TailInRest(pool, d, j);
      var picks' := DrawReachesEverySample(RemoveAt(pool, j), d[1..]);
      picks := [j] + picks';
      DrawFirst(pool, j, picks');
      assert d == [d[0]] + d[1..];
    }
  }
}
