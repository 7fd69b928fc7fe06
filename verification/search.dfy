/** The trader search (`filteredTraders`): a trader is kept when its
    lower-cased name contains the lower-cased query, in list order.

    Case folding is ASCII only: `A`-`Z` become `a`-`z`, every other
    character is left as it is. */
module Search {
  import opened SeqUtil
  import opened Traders

  predicate IsUpper(c: char) {
    'A' <= c <= 'Z'
  }

  function LowerChar(c: char): char {
    if IsUpper(c) then (c as int + 32) as char else c
  }

  /** `toLowerCase`, restricted to ASCII letters. */
  function Lower(s: string): (r: string)
    ensures |r| == |s|
    ensures forall i :: 0 <= i < |s| ==> !IsUpper(r[i])
    ensures forall i :: 0 <= i < |s| && !IsUpper(s[i]) ==> r[i] == s[i]
    ensures forall i :: 0 <= i < |s| ==> LowerChar(r[i]) == LowerChar(s[i])
  {
    seq(|s|, i requires 0 <= i < |s| => LowerChar(s[i]))
  }

  /** Lower-casing twice is lower-casing once. */
  lemma LowerIdempotent(s: string)
    ensures Lower(Lower(s)) == Lower(s)
  {
  }

  /** `sub` occurs in `s` starting at index `i`. */
  predicate OccursAt(s: string, sub: string, i: int) {
    0 <= i && i + |sub| <= |s| && s[i..i + |sub|] == sub
  }

  /** `includes`: `sub` occurs somewhere in `s`. */
  function Includes(s: string, sub: string): (b: bool)
    ensures b <==> exists i :: OccursAt(s, sub, i)
    decreases |s|
  {
    if |sub| > |s| then false
    else if s[..|sub|] == sub then
      assert OccursAt(s, sub, 0);
      true
    else
      ShiftOccurrence(s, sub);
      Includes(s[1..], sub)
  }

  /** Past a mismatch at index 0, `sub` occurs in `s` exactly when it
      occurs in the tail of `s`. */
  lemma ShiftOccurrence(s: string, sub: string)
    requires |s| > 0 && !OccursAt(s, sub, 0)
    ensures (exists i :: OccursAt(s, sub, i)) <==> (exists i :: OccursAt(s[1..], sub, i))
  {
    forall i | OccursAt(s, sub, i) ensures OccursAt(s[1..], sub, i - 1) {
      assert s[1..][i - 1..i - 1 + |sub|] == s[i..i + |sub|];
    }
    forall i | OccursAt(s[1..], sub, i) ensures OccursAt(s, sub, i + 1) {
      assert s[1..][i..i + |sub|] == s[i + 1..i + 1 + |sub|];
    }
  }

  /** Whether `t` is shown for the search text `query`. */
  predicate Matches(t: Trader, query: string) {
    Includes(Lower(t.name), Lower(query))
  }

  /** `filteredTraders`: the traders whose name contains the query,
      ignoring ASCII case, in their original order. */
  function FilterTraders(ts: seq<Trader>, query: string): (r: seq<Trader>)
    ensures IsSubsequence(r, ts)
    ensures forall t :: t in r <==> t in ts && Matches(t, query)
    ensures |r| <= |ts|
  {
    if |ts| == 0 then []
    else
      var rest := FilterTraders(ts[1..], query);
      assert forall t :: t in ts <==> t == ts[0] || t in ts[1..] by {
        assert ts == [ts[0]] + ts[1..];
      }
      SubsequenceCons(ts[0], rest, ts[1..]);
      assert [ts[0]] + ts[1..] == ts;
      if Matches(ts[0], query) then [ts[0]] + rest else rest
  }

  /** The empty query keeps every trader, in order. */
  lemma {:induction false} EmptyQueryKeepsAll(ts: seq<Trader>)
    ensures FilterTraders(ts, "") == ts
  {
    if |ts| > 0 {
      assert OccursAt(Lower(ts[0].name), "", 0);
      EmptyQueryKeepsAll(ts[1..]);
    }
  }

  /** Filtering a concatenation filters each part. */
  lemma {:induction false} FilterAppend(a: seq<Trader>, b: seq<Trader>, query: string)
    ensures FilterTraders(a + b, query) == FilterTraders(a, query) + FilterTraders(b, query)
  {
    if |a| > 0 {
      var ab := a + b;
      assert ab[0] == a[0];
      assert ab[1..] == a[1..] + b;
      FilterAppend(a[1..], b, query);
      assert FilterTraders(ab, query)
        == (if Matches(a[0], query) then [a[0]] else []) + FilterTraders(ab[1..], query);
    } else {
      assert a + b == b;
    }
  }

  /** Queries that agree up to ASCII case select the same traders. */
  lemma {:induction false} FilterIgnoresQueryCase(ts: seq<Trader>, q1: string, q2: string)
    requires Lower(q1) == Lower(q2)
    ensures FilterTraders(ts, q1) == FilterTraders(ts, q2)
  {
    if |ts| > 0 {
      FilterIgnoresQueryCase(ts[1..], q1, q2);
    }
  }

  /** Filtering again with the same query changes nothing. */
  lemma {:induction false} FilterIdempotent(ts: seq<Trader>, query: string)
    ensures FilterTraders(FilterTraders(ts, query), query) == FilterTraders(ts, query)
  {
    if |ts| > 0 {
      FilterIdempotent(ts[1..], query);
      var rest := FilterTraders(ts[1..], query);
      if Matches(ts[0], query) {
        assert ([ts[0]] + rest)[1..] == rest;
      }
    }
  }

  /** The query "whale", in any case, finds a trader named "CryptoWhale". */
  lemma WhaleQueryFindsCryptoWhale(t: Trader)
    requires t.name == "CryptoWhale"
    ensures Matches(t, "whale") && Matches(t, "WHALE")
  {
    assert Lower("CryptoWhale") == "cryptowhale";
    assert Lower("whale") == "whale";
    assert Lower("WHALE") == "whale";
    assert OccursAt("cryptowhale", "whale", 6);
  }
}
