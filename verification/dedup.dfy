/** The trader-name draw of an alert and its duplicate filter.

    An alert's trader list is a random number of independent picks from a
    small name pool, followed by a filter that keeps an entry only when no
    earlier entry holds the same name, that is, the first occurrence of
    each name. */
module Dedup {
  import opened SeqUtil
  import opened Random

  /** `indexOf`: the first index holding `x`, or -1 when there is none. */
  function IndexOf<T(==)>(a: seq<T>, x: T): (k: int)
    ensures -1 <= k < |a|
    ensures k == -1 <==> x !in a
    ensures 0 <= k ==> a[k] == x && x !in a[..k]
  {
    if |a| == 0 then -1
    else if a[0] == x then 0
    else
      var k := IndexOf(a[1..], x);
      if k == -1 then -1
      else
        assert a[..k + 1] == [a[0]] + a[1..][..k];
        k + 1
  }

  /** A value found in the first `m` entries has its first index below `m`. */
  lemma IndexOfBelow<T>(a: seq<T>, x: T, m: nat)
    requires m <= |a| && x in a[..m]
    ensures 0 <= IndexOf(a, x) < m
  {
  }

  /** The first-occurrence filter over the first `n`
      entries of `a`: entry `i` is kept when it is the first occurrence
      of its value. */
  function KeepFirstUpTo<T(==,!new)>(a: seq<T>, n: nat): (r: seq<T>)
    requires n <= |a|
    ensures NoDup(r)
    ensures forall x :: x in r <==> x in a[..n]
    ensures forall i, j :: 0 <= i < j < |r| ==> IndexOf(a, r[i]) < IndexOf(a, r[j])
  {
    if n == 0 then []
    else
      var p := KeepFirstUpTo(a, n - 1);
      assert a[..n] == a[..n - 1] + [a[n - 1]];
      if IndexOf(a, a[n - 1]) == n - 1 then
        KeptAppendOrdered(a, p, n - 1);
        p + [a[n - 1]]
      else
        assert a[n - 1] in a[..n - 1] by {
          var k := IndexOf(a, a[n - 1]);
          assert a[..n - 1][k] == a[n - 1];
        }
        p
  }

  /** The step of `KeepFirstUpTo` that appends a first occurrence keeps the
      result duplicate-free and ordered by first index. */
  lemma KeptAppendOrdered<T>(a: seq<T>, p: seq<T>, m: nat)
    requires m < |a| && IndexOf(a, a[m]) == m
    requires NoDup(p)
    requires forall x :: x in p <==> x in a[..m]
    requires forall i, j :: 0 <= i < j < |p| ==> IndexOf(a, p[i]) < IndexOf(a, p[j])
    ensures NoDup(p + [a[m]])
    ensures forall i, j :: 0 <= i < j < |p + [a[m]]| ==>
      IndexOf(a, (p + [a[m]])[i]) < IndexOf(a, (p + [a[m]])[j])
  {
    var r := p + [a[m]];
    forall i | 0 <= i < |p| ensures IndexOf(a, p[i]) < m && p[i] != a[m] {
      assert p[i] in p;
      IndexOfBelow(a, p[i], m);
    }
    forall i, j | 0 <= i < j < |r| ensures r[i] != r[j] && IndexOf(a, r[i]) < IndexOf(a, r[j]) {
      if j == |p| {
        assert r[i] == p[i] && r[j] == a[m];
      } else {
        assert r[i] == p[i] && r[j] == p[j];
      }
    }
  }

  /** The first-occurrence filter over the whole draw. */
  function FirstOccurrences<T(==,!new)>(a: seq<T>): (r: seq<T>)
    ensures NoDup(r)
    ensures forall x :: x in r <==> x in a
    ensures forall i, j :: 0 <= i < j < |r| ==> IndexOf(a, r[i]) < IndexOf(a, r[j])
    ensures |r| <= |a|
    ensures |a| > 0 ==> |r| > 0
  {
    assert a[..|a|] == a;
    KeepAllLength(a);
    KeepFirstUpTo(a, |a|)
  }

  /** Keeping first occurrences never lengthens the draw, and keeps at least
      one entry of a non-empty draw. */
  lemma KeepAllLength<T(!new)>(a: seq<T>)
    ensures |KeepFirstUpTo(a, |a|)| <= |a|
    ensures |a| > 0 ==> |KeepFirstUpTo(a, |a|)| > 0
  {
    var r := KeepFirstUpTo(a, |a|);
    assert a[..|a|] == a;
    ElemsCard(r);
    ElemsCard(a);
    assert Elems(r) == Elems(a);
    if |a| > 0 {
      assert a[0] in r;
    }
  }

  /** The three properties of `FirstOccurrences` determine its result:
      any duplicate-free list of exactly the draw's values, ordered by first
      occurrence in the draw, is that result. */
  lemma FirstOccurrencesUnique<T(!new)>(a: seq<T>, r: seq<T>)
    requires NoDup(r)
    requires forall x :: x in r <==> x in a
    requires forall i, j :: 0 <= i < j < |r| ==> IndexOf(a, r[i]) < IndexOf(a, r[j])
    ensures r == FirstOccurrences(a)
  {
    OrderedByFirstIndexUnique(a, r, FirstOccurrences(a));
  }

  /** Entries of `r` appear in order of their first index in `a`. */
  predicate OrderedIn<T(==)>(a: seq<T>, r: seq<T>) {
    forall i, j :: 0 <= i < j < |r| ==> IndexOf(a, r[i]) < IndexOf(a, r[j])
  }

  /** Two duplicate-free lists of the same values of `a`, both ordered by
      first index in `a`, are equal. */
  lemma {:induction false} OrderedByFirstIndexUnique<T>(a: seq<T>, r: seq<T>, q: seq<T>)
    requires NoDup(r) && NoDup(q)
    requires forall x :: x in r <==> x in q
    requires forall x :: x in r ==> x in a
    requires OrderedIn(a, r) && OrderedIn(a, q)
    ensures r == q
    decreases |r|
  {
    assert |q| > 0 ==> q[0] in r;
    if |r| > 0 {
      assert r[0] in q;
      SameHead(a, r, q);
      var r', q' := r[1..], q[1..];
      forall x ensures x in r' <==> x in q' {
        TailMembers(r, x);
        TailMembers(q, x);
      }
      TailOrdered(a, r);
      TailOrdered(a, q);
      forall x | x in r' ensures x in a {
        TailMembers(r, x);
      }
      OrderedByFirstIndexUnique(a, r', q');
      assert r == [r[0]] + r' && q == [q[0]] + q';
    }
  }

  /** Two non-empty lists of the same values, both ordered by first index,
      start with the same value: the one of least first index. */
  lemma SameHead<T>(a: seq<T>, r: seq<T>, q: seq<T>)
    requires |r| > 0 && |q| > 0
    requires forall x :: x in r <==> x in q
    requires OrderedIn(a, r) && OrderedIn(a, q)
    ensures r[0] == q[0]
  {
    assert q[0] in r && r[0] in q;
  }

  /** The tail of a duplicate-free ordered list is duplicate-free and ordered. */
  lemma TailOrdered<T>(a: seq<T>, r: seq<T>)
    requires |r| > 0 && NoDup(r) && OrderedIn(a, r)
    ensures NoDup(r[1..]) && OrderedIn(a, r[1..])
  {
    var r' := r[1..];
    forall i, j | 0 <= i < j < |r'| ensures r'[i] != r'[j] && IndexOf(a, r'[i]) < IndexOf(a, r'[j]) {
      assert r'[i] == r[i + 1] && r'[j] == r[j + 1];
    }
  }

  /** In a duplicate-free list, the tail holds every value but the head. */
  lemma TailMembers<T>(r: seq<T>, x: T)
    requires |r| > 0 && NoDup(r)
    ensures x in r[1..] <==> x in r && x != r[0]
  {
    if x in r[1..] {
      var k :| 0 <= k < |r[1..]| && r[1..][k] == x;
      assert r[k + 1] == x;
    }
    if x in r && x != r[0] {
      var k :| 0 <= k < |r| && r[k] == x;
      assert r[1..][k - 1] == x;
    }
  }

  /** One uniformly drawn pool entry per pick draw. */
  function DrawNames(pool: seq<string>, picks: seq<real>): (r: seq<string>)
    requires |pool| > 0 && AllDraws(picks)
    ensures |r| == |picks|
    ensures forall x :: x in r ==> x in pool
  {
    seq(|picks|, k requires 0 <= k < |picks| => pool[PickIndex(picks[k], |pool|)])
  }

  /** The draw `count` of an alert's trader list holds: `minCount` plus
      a random count below `spread` of names, one pick draw each. */
  predicate IsTraderDraw(minCount: nat, spread: nat, countDraw: real, picks: seq<real>) {
    && spread > 0
    && IsDraw(countDraw)
    && AllDraws(picks)
    && |picks| == minCount + PickIndex(countDraw, spread)
  }

  /** An alert's trader list: the draw of names, with repeats removed. */
  function DrawTraders(pool: seq<string>, minCount: nat, spread: nat, countDraw: real, picks: seq<real>): (r: seq<string>)
    requires |pool| > 0
    requires IsTraderDraw(minCount, spread, countDraw, picks)
    ensures NoDup(r)
    ensures forall x :: x in r ==> x in pool
    ensures minCount > 0 ==> |r| > 0
    ensures |r| <= Min(minCount + spread - 1, |pool|)
  {
    var drawn := DrawNames(pool, picks);
    var r := FirstOccurrences(drawn);
    DedupWithinPool(drawn, pool);
    r
  }

  /** A duplicate-free draw from a pool is no longer than the pool. */
  lemma DedupWithinPool(drawn: seq<string>, pool: seq<string>)
    requires forall x :: x in drawn ==> x in pool
    ensures |FirstOccurrences(drawn)| <= |pool|
  {
    var r := FirstOccurrences(drawn);
    ElemsCard(r);
    ElemsCard(pool);
    SubsetCard(Elems(r), Elems(pool));
  }
}
