/** `generateTraders`: one hundred trader records built from random
    draws, then sorted by portfolio value, largest first.

    `rank` is set to `i + 1` while the records are built, before the sort,
    so after the sort a trader's rank is its generation index plus one (its
    id), not its position. `GenerateTraders` models that; the corrected
    `GenerateTradersRanked` numbers the sorted positions instead. */
module Generate {
  import opened SeqUtil
  import opened Random
  import opened Decimal
  import opened Optional
  import opened Traders

  /** The pool the trader names cycle through. */
  const NamePool: seq<string> := [
    "CryptoWhale", "MoonHunter", "DiamondHands", "AlphaSeeker", "ChainMaster",
    "TokenKing", "DeFiWizard", "BlockBaron", "SatoshiPupil", "EtherEagle",
    "BitBull", "AltSurfer", "YieldFarmer", "GasOptimizer", "MEVHunter",
    "NFTCollector", "DAOVoter", "LiquidityKing", "ArbitrageBot", "SwapMaster",
    "BridgeRunner", "L2Explorer", "ZKProver", "OracleWatcher", "FlashLoaner",
    "PoolShark", "VaultKeeper", "StakeHolder", "ValidatorNode", "ConsensusKing"]

  /** The coins a trader's recent trades are drawn from. */
  const TradeCoins: seq<string> := ["BTC", "ETH", "SOL", "AVAX", "MATIC", "ARB", "OP", "LINK", "UNI", "AAVE"]

  const TraderCount: nat := 100

  /** Bounds of `portfolioValue`, in cents: $100,000 to $10,000,000. */
  const MinPortfolioCents: int := 10_000_000
  const MaxPortfolioCents: int := 1_000_000_000

  /** The name of the trader generated at index `i`: the pool entry
      `i % 30`, followed from the second round on by the round number. */
  function NameAt(i: nat): string {
    CycledName(NamePool, i)
  }

  /** The name template: the pool entry at `i` modulo the pool size, and,
      from the second pass through the pool on, the pass number counted
      from one. */
  function CycledName(pool: seq<string>, i: nat): (r: string)
    requires |pool| > 0
    ensures i < |pool| ==> r == pool[i]
    ensures |pool[i % |pool|]| <= |r| && r[..|pool[i % |pool|]|] == pool[i % |pool|]
    ensures i >= |pool| ==> ParseDigits(r[|pool[i % |pool|]|..]) == Some(i / |pool| + 1)
  {
    var base := pool[i % |pool|];
    if i >= |pool| then
      var suffix := NatToString(i / |pool| + 1);
      NatRoundTrip(i / |pool| + 1);
      assert (base + suffix)[|base|..] == suffix;
      base + suffix
    else
      base
  }

  /** No pool name ends in a digit, so a round-number suffix cannot turn
      one pool name into another. */
  lemma PoolNamesEndInLetters()
    ensures forall k :: 0 <= k < |NamePool| ==>
      |NamePool[k]| > 0 && !IsDigit(NamePool[k][|NamePool[k]| - 1])
  {
  }

  /** Cycling through thirty distinct names that end in letters gives
      distinct names for the first nine rounds, where the suffix is one digit. */
  lemma CycledNamesDistinct(pool: seq<string>, i: nat, j: nat)
    requires |pool| == 30 && NoDup(pool)
    requires forall k :: 0 <= k < |pool| ==> |pool[k]| > 0 && !IsDigit(pool[k][|pool[k]| - 1])
    requires i < j < 9 * 30
    ensures CycledName(pool, i) != CycledName(pool, j)
  {
    var n := |pool|;
    var a, b := pool[i % n], pool[j % n];
    var x, y := CycledName(pool, i), CycledName(pool, j);
    if j >= n {
      var dj := NatToString(j / n + 1);
      assert dj == [DigitChar(j / n + 1)];
      assert y == b + dj && y[|y| - 1] == dj[0];
      if i < n {
        assert x == a && x[|x| - 1] == a[|a| - 1];
      } else {
        var di := NatToString(i / n + 1);
        assert di == [DigitChar(i / n + 1)];
        assert x == a + di && x[|x| - 1] == di[0];
        if i / n == j / n {
          assert i % n != j % n && a != b;
          assert x[..|a|] == a && y[..|b|] == b;
        }
      }
    } else {
      assert x == a && y == b;
    }
  }

  /** The random values one trader record consumes, apart from the
      statistics the model leaves out. */
  datatype TraderInput = TraderInput(portfolioDraw: real, followDraw: real, tradeDraws: seq<real>)

  predicate ValidTraderInput(d: TraderInput) {
    IsDraw(d.portfolioDraw) && IsDraw(d.followDraw) && |d.tradeDraws| == 3 && AllDraws(d.tradeDraws)
  }

  predicate ValidInputs(ds: seq<TraderInput>) {
    forall i :: 0 <= i < |ds| ==> ValidTraderInput(ds[i])
  }

  /** A portfolio value: $100,000 plus a random share of $9,900,000,
      rounded to the cent, held as a whole number of cents. */
  function PortfolioCents(r: real): (c: int)
    requires IsDraw(r)
    ensures MinPortfolioCents <= c <= MaxPortfolioCents
  {
    RoundHalfUp(10000000.0 + r * 990000000.0)
  }

  /** The record built for index `i`, before sorting. */
  function MakeTrader(i: nat, d: TraderInput): (t: Trader)
    requires ValidTraderInput(d)
    ensures t.id == i + 1 && t.rank == i + 1 && t.name == NameAt(i)
    ensures MinPortfolioCents <= t.portfolioCents <= MaxPortfolioCents
    ensures t.isFollowing <==> d.followDraw > 0.7
    ensures |t.recentTrades| == 3 && forall c :: c in t.recentTrades ==> c in TradeCoins
  {
    Trader(
      i + 1,
      NameAt(i),
      PortfolioCents(d.portfolioDraw),
      d.followDraw > 0.7,
      seq(3, k requires 0 <= k < 3 && k < |d.tradeDraws| && IsDraw(d.tradeDraws[k]) =>
        TradeCoins[PickIndex(d.tradeDraws[k], |TradeCoins|)]),
      i + 1)
  }

  /** The records in generation order, one per input: ids increase from
      one, each record's id and rank are its index plus one, and its name is
      the one built for that index. */
  function Unsorted(ds: seq<TraderInput>): (r: seq<Trader>)
    requires ValidInputs(ds)
    ensures |r| == |ds|
    ensures forall i :: 0 <= i < |ds| ==> r[i] == MakeTrader(i, ds[i])
    ensures ShapedById(r) && IdsIncreasing(r)
  {
    seq(|ds|, i requires 0 <= i < |ds| && ValidTraderInput(ds[i]) => MakeTrader(i, ds[i]))
  }

  // ---------------------------------------------------------------------
  // The sort: descending by portfolio value, and stable, as the
  // language's array sort is.

  /** Portfolio values never increase along `s`. */
  predicate NonIncreasing(s: seq<Trader>) {
    forall i, j :: 0 <= i < j < |s| ==> s[i].portfolioCents >= s[j].portfolioCents
  }

  /** Places `t` in front of the first entry of `xs` whose value is not
      larger, so that it stays ahead of equal values. */
  function InsertByValue(t: Trader, xs: seq<Trader>): (r: seq<Trader>)
    requires NonIncreasing(xs)
    ensures NonIncreasing(r)
    ensures multiset(r) == multiset(xs) + multiset{t}
  {
    if |xs| == 0 || t.portfolioCents >= xs[0].portfolioCents then
      PrependNonIncreasing(t, xs);
      [t] + xs
    else
      NonIncreasingTail(xs);
      var rest := InsertByValue(t, xs[1..]);
      InsertBehind(t, xs, rest);
      [xs[0]] + rest
  }

  /** The tail of a non-increasing list is non-increasing. */
  lemma NonIncreasingTail(xs: seq<Trader>)
    requires |xs| > 0 && NonIncreasing(xs)
    ensures NonIncreasing(xs[1..])
  {
    var tail := xs[1..];
    forall i, j | 0 <= i < j < |tail|
      ensures tail[i].portfolioCents >= tail[j].portfolioCents
    {
      assert tail[i] == xs[i + 1] && tail[j] == xs[j + 1];
    }
  }

  /** Keeping the head of `xs` in front of the insertion into its tail
      inserts into `xs`. */
  lemma InsertBehind(t: Trader, xs: seq<Trader>, rest: seq<Trader>)
    requires |xs| > 0 && NonIncreasing(xs) && t.portfolioCents < xs[0].portfolioCents
    requires NonIncreasing(rest)
    requires multiset(rest) == multiset(xs[1..]) + multiset{t}
    ensures NonIncreasing([xs[0]] + rest)
    ensures multiset([xs[0]] + rest) == multiset(xs) + multiset{t}
  {
    assert xs == [xs[0]] + xs[1..];
    MembersOfInsert(t, xs[1..], rest);
    forall y | y in xs[1..] ensures y.portfolioCents <= xs[0].portfolioCents {
      var k :| 0 <= k < |xs[1..]| && xs[1..][k] == y;
      assert xs[k + 1] == y;
    }
    PrependNonIncreasing(xs[0], rest);
  }

  /** A value no smaller than every entry can go in front. */
  lemma PrependNonIncreasing(x: Trader, s: seq<Trader>)
    requires NonIncreasing(s)
    requires forall y :: y in s ==> y.portfolioCents <= x.portfolioCents
    ensures NonIncreasing([x] + s)
  {
    var r := [x] + s;
    forall i, j | 0 <= i < j < |r| ensures r[i].portfolioCents >= r[j].portfolioCents {
      if i == 0 {
        assert r[j] == s[j - 1] && r[j] in s;
      } else {
        assert r[i] == s[i - 1] && r[j] == s[j - 1];
      }
    }
  }

  /** The entries of an insertion result are the inserted value and the
      entries of the list it went into. */
  lemma MembersOfInsert(t: Trader, xs: seq<Trader>, r: seq<Trader>)
    requires multiset(r) == multiset(xs) + multiset{t}
    ensures forall y :: y in r ==> y == t || y in xs
  {
    forall y | y in r ensures y == t || y in xs {
      assert y in multiset(r);
    }
  }

  /** Insertion sort by portfolio value, largest first. */
  function SortByValue(s: seq<Trader>): (r: seq<Trader>)
    ensures NonIncreasing(r)
    ensures multiset(r) == multiset(s)
    ensures |r| == |s|
  {
    if |s| == 0 then []
    else
      assert s == [s[0]] + s[1..];
      var r := InsertByValue(s[0], SortByValue(s[1..]));
      assert |r| == |multiset(r)|;
      r
  }

  /** Larger values first; equal values in increasing id order. */
  predicate ValueThenIdOrdered(s: seq<Trader>) {
    forall i, j :: 0 <= i < j < |s| ==> Precedes(s[i], s[j])
  }

  predicate IdsIncreasing(s: seq<Trader>) {
    forall i, j :: 0 <= i < j < |s| ==> s[i].id < s[j].id
  }

  /** `x` precedes `y`: a larger value, or the same value and a smaller id. */
  predicate Precedes(x: Trader, y: Trader) {
    x.portfolioCents > y.portfolioCents
    || (x.portfolioCents == y.portfolioCents && x.id < y.id)
  }

  /** A value that precedes every entry can go in front. */
  lemma PrependValueThenId(x: Trader, s: seq<Trader>)
    requires ValueThenIdOrdered(s)
    requires forall y :: y in s ==> Precedes(x, y)
    ensures ValueThenIdOrdered([x] + s)
  {
    var r := [x] + s;
    forall i, j | 0 <= i < j < |r| ensures Precedes(r[i], r[j]) {
      if i == 0 {
        assert r[j] == s[j - 1] && r[j] in s;
      } else {
        assert r[i] == s[i - 1] && r[j] == s[j - 1];
      }
    }
  }

  /** The head of an ordered list precedes every entry of its tail. */
  lemma HeadPrecedesTail(s: seq<Trader>)
    requires |s| > 0 && ValueThenIdOrdered(s)
    ensures ValueThenIdOrdered(s[1..])
    ensures forall y :: y in s[1..] ==> Precedes(s[0], y)
  {
    var tail := s[1..];
    forall i, j | 0 <= i < j < |tail| ensures Precedes(tail[i], tail[j]) {
      assert tail[i] == s[i + 1] && tail[j] == s[j + 1];
    }
    forall y | y in tail ensures Precedes(s[0], y) {
      var k :| 0 <= k < |tail| && tail[k] == y;
      assert s[k + 1] == y;
    }
  }

  /** Inserting a trader whose id is below every id already placed keeps
      equal values in id order. */
  lemma {:induction false} InsertByValueStable(t: Trader, xs: seq<Trader>)
    requires NonIncreasing(xs) && ValueThenIdOrdered(xs)
    requires forall y :: y in xs ==> t.id < y.id
    ensures ValueThenIdOrdered(InsertByValue(t, xs))
  {
    if |xs| == 0 || t.portfolioCents >= xs[0].portfolioCents {
      forall y | y in xs ensures Precedes(t, y) {
        var k :| 0 <= k < |xs| && xs[k] == y;
        assert xs[0].portfolioCents >= y.portfolioCents;
      }
      PrependValueThenId(t, xs);
    } else {
      var tail := xs[1..];
      HeadPrecedesTail(xs);
      assert NonIncreasing(tail) by {
        forall i, j | 0 <= i < j < |tail| ensures tail[i].portfolioCents >= tail[j].portfolioCents {
          assert tail[i] == xs[i + 1] && tail[j] == xs[j + 1];
        }
      }
      assert forall y :: y in tail ==> y in xs;
      InsertByValueStable(t, tail);
      var rest := InsertByValue(t, tail);
      MembersOfInsert(t, tail, rest);
      PrependValueThenId(xs[0], rest);
    }
  }

  /** The sort is stable: records that arrive in increasing id order leave
      it ordered by value, and by id among equal values. */
  lemma {:induction false} SortIsStable(s: seq<Trader>)
    requires IdsIncreasing(s)
    ensures ValueThenIdOrdered(SortByValue(s))
  {
    if |s| > 0 {
      var tail := s[1..];
      assert IdsIncreasing(tail) by {
        forall i, j | 0 <= i < j < |tail| ensures tail[i].id < tail[j].id {
          assert tail[i] == s[i + 1] && tail[j] == s[j + 1];
        }
      }
      SortIsStable(tail);
      var sorted := SortByValue(tail);
      forall y | y in sorted ensures s[0].id < y.id {
        assert y in multiset(tail);
        var k :| 0 <= k < |tail| && tail[k] == y;
        assert s[k + 1] == y;
      }
      InsertByValueStable(s[0], sorted);
    }
  }

  // ---------------------------------------------------------------------
  // The generator

  /** The ids of the records in `ts`. */
  function Ids(ts: seq<Trader>): set<int> {
    set t | t in ts :: t.id
  }

  /** `ts` holds one record for each id from 1 to `n`, and no other. */
  predicate IdsAreOneTo(ts: seq<Trader>, n: nat) {
    && (forall t :: t in ts ==> 1 <= t.id <= n)
    && (forall k :: 1 <= k <= n ==> k in Ids(ts))
    && (forall i, j :: 0 <= i < j < |ts| ==> ts[i].id != ts[j].id)
  }

  /** `generateTraders` as written: the records sorted by value, each
      keeping the rank it was built with. */
  function GenerateTraders(ds: seq<TraderInput>): (r: seq<Trader>)
    requires |ds| == TraderCount && ValidInputs(ds)
    ensures |r| == TraderCount
    ensures multiset(r) == multiset(Unsorted(ds))
    ensures NonIncreasing(r) && ValueThenIdOrdered(r)
    ensures IdsAreOneTo(r, TraderCount)
    ensures forall t :: t in r ==> t.rank == t.id && t.name == NameAt(t.id - 1)
  {
    var u := Unsorted(ds);
    var r := SortByValue(u);
    SortIsStable(u);
    SortedShape(u, r);
    r
  }

  /** Every generated record carries its own index plus one as id and rank,
      and the name built for that index. */
  predicate ShapedById(u: seq<Trader>) {
    forall i :: 0 <= i < |u| ==>
      && u[i].id == i + 1
      && u[i].rank == i + 1
      && u[i].name == NameAt(i)
  }

  /** Sorting records shaped by id keeps ids one to n, ranks and names. */
  lemma SortedShape(u: seq<Trader>, r: seq<Trader>)
    requires ShapedById(u)
    requires multiset(r) == multiset(u) && ValueThenIdOrdered(r)
    ensures IdsAreOneTo(r, |u|)
    ensures forall t :: t in r ==> t.rank == t.id && t.name == NameAt(t.id - 1)
  {
    SameMembers(u, r);
    SortedIdsDistinct(u, r);
    MembersShaped(u, r);
    IdsCovered(u, r);
  }

  lemma MembersShaped(u: seq<Trader>, r: seq<Trader>)
    requires ShapedById(u)
    requires forall t :: t in r ==> t in u
    ensures forall t :: t in r ==> 1 <= t.id <= |u| && t.rank == t.id && t.name == NameAt(t.id - 1)
  {
    forall t | t in r ensures 1 <= t.id <= |u| && t.rank == t.id && t.name == NameAt(t.id - 1) {
      var i :| 0 <= i < |u| && u[i] == t;
      assert u[i].id == i + 1 && u[i].rank == i + 1 && u[i].name == NameAt(i);
      assert t.id - 1 == i;
    }
  }

  lemma IdsCovered(u: seq<Trader>, r: seq<Trader>)
    requires ShapedById(u)
    requires forall t :: t in u ==> t in r
    ensures forall k :: 1 <= k <= |u| ==> k in Ids(r)
  {
    forall k | 1 <= k <= |u| ensures k in Ids(r) {
      var t := u[k - 1];
      assert t.id == k && t in u;
      assert t in r;
    }
  }

  /** Two lists with the same multiset have the same members. */
  lemma SameMembers(u: seq<Trader>, r: seq<Trader>)
    requires multiset(r) == multiset(u)
    ensures forall t :: t in r <==> t in u
  {
    forall t ensures t in r <==> t in u {
      assert t in r <==> t in multiset(r);
      assert t in u <==> t in multiset(u);
    }
  }

  /** Two entries of the sorted list never share an id: with equal values
      they are in increasing id order, and with different values they are
      different records of the generated list. */
  lemma SortedIdsDistinct(u: seq<Trader>, r: seq<Trader>)
    requires ShapedById(u)
    requires forall t :: t in r ==> t in u
    requires ValueThenIdOrdered(r)
    ensures forall i, j :: 0 <= i < j < |r| ==> r[i].id != r[j].id
  {
    forall i, j | 0 <= i < j < |r| ensures r[i].id != r[j].id {
      assert r[i] in r && r[j] in r;
      var a :| 0 <= a < |u| && u[a] == r[i];
      var b :| 0 <= b < |u| && u[b] == r[j];
      assert Precedes(r[i], r[j]);
    }
  }

  /** `generateTraders` as evidently intended: after the sort, the
      trader at position `i` gets rank `i + 1`. */
  function GenerateTradersRanked(ds: seq<TraderInput>): (r: seq<Trader>)
    requires |ds| == TraderCount && ValidInputs(ds)
    ensures |r| == TraderCount
    ensures forall i :: 0 <= i < |r| ==> r[i].rank == i + 1
    ensures forall i :: 0 <= i < |r| ==>
      r[i].(rank := GenerateTraders(ds)[i].rank) == GenerateTraders(ds)[i]
    ensures forall i, j :: 0 <= i < |r| && 0 <= j < |r| && r[i].rank < r[j].rank ==>
      r[i].portfolioCents >= r[j].portfolioCents
  {
    var g := GenerateTraders(ds);
    seq(|g|, i requires 0 <= i < |g| => g[i].(rank := i + 1))
  }

  // ---------------------------------------------------------------------
  // The rank discrepancy, exhibited

  /** When one record has the largest value outright, the sort puts it first. */
  lemma StrictMaximumFirst(ds: seq<TraderInput>, k: nat)
    requires |ds| == TraderCount && ValidInputs(ds) && k < |ds|
    requires forall i :: 0 <= i < |ds| && i != k ==>
      Unsorted(ds)[i].portfolioCents < Unsorted(ds)[k].portfolioCents
    ensures GenerateTraders(ds)[0] == Unsorted(ds)[k]
  {
    var u, r := Unsorted(ds), GenerateTraders(ds);
    assert u[k] in multiset(r);
    assert r[0] in multiset(u);
    var j :| 0 <= j < |r| && r[j] == u[k];
    var i :| 0 <= i < |u| && u[i] == r[0];
    assert r[0].portfolioCents >= r[j].portfolioCents;
  }

  /** Draws under which the trader generated second holds the largest
      portfolio: $5,050,000 against $100,000 for every other trader. */
  function SecondLeadsDraws(): (ds: seq<TraderInput>)
    ensures |ds| == TraderCount && ValidInputs(ds)
  {
    seq(TraderCount, i => TraderInput(if i == 1 then 0.5 else 0.0, 0.0, [0.0, 0.0, 0.0]))
  }

  /** Under those draws the first trader of the sorted list, the one with
      the largest portfolio, carries rank 2 instead of rank 1, and the
      trader with rank 1 is not first. */
  lemma RankIsNotPosition()
    ensures GenerateTraders(SecondLeadsDraws())[0].rank == 2
    ensures GenerateTradersRanked(SecondLeadsDraws())[0].rank == 1
  {
    var ds := SecondLeadsDraws();
    var u := Unsorted(ds);
    assert u[1].portfolioCents == 505_000_000;
    forall i | 0 <= i < |ds| && i != 1 ensures u[i].portfolioCents < u[1].portfolioCents {
      assert u[i].portfolioCents == 10_000_000;
    }
    StrictMaximumFirst(ds, 1);
  }

  /** Toggling a follow keeps the generated list's order, ids and ranks. */
  lemma ToggleKeepsGeneratedOrder(ts: seq<Trader>, traderId: int)
    requires NonIncreasing(ts)
    ensures NonIncreasing(ToggleFollow(ts, traderId))
    ensures Ids(ToggleFollow(ts, traderId)) == Ids(ts)
    ensures forall i :: 0 <= i < |ts| ==>
      ToggleFollow(ts, traderId)[i].rank == ts[i].rank
  {
    var r := ToggleFollow(ts, traderId);
    forall i | 0 <= i < |ts|
      ensures r[i].id == ts[i].id && r[i].rank == ts[i].rank
      ensures r[i].portfolioCents == ts[i].portfolioCents
    {
      assert ts[i].id == traderId ==> r[i].(isFollowing := ts[i].isFollowing) == ts[i];
    }
    forall t | t in ts ensures t.id in Ids(r) {
      var k :| 0 <= k < |ts| && ts[k] == t;
      assert r[k] in r;
    }
    forall t | t in r ensures t.id in Ids(ts) {
      var k :| 0 <= k < |r| && r[k] == t;
      assert ts[k] in ts;
    }
  }
}
