/** Trader records and the follow toggle. */
module Traders {

  /** A trader without its avatar URL and floating-point statistics.
      `portfolioCents` is `portfolioValue` in whole cents. */
  datatype Trader = Trader(
    id: int,
    name: string,
    portfolioCents: int,
    isFollowing: bool,
    recentTrades: seq<string>,
    rank: int)

  /** The same record with its follow flag negated. */
  function Flip(t: Trader): Trader {
    t.(isFollowing := !t.isFollowing)
  }

  /** `toggleFollow`: every record with the given id has its follow flag
      negated; all other records are kept as they are. */
  function ToggleFollow(ts: seq<Trader>, traderId: int): (r: seq<Trader>)
    ensures |r| == |ts|
    ensures forall i :: 0 <= i < |ts| && ts[i].id != traderId ==> r[i] == ts[i]
    ensures forall i :: 0 <= i < |ts| && ts[i].id == traderId ==>
      r[i].isFollowing == !ts[i].isFollowing && r[i].(isFollowing := ts[i].isFollowing) == ts[i]
  {
    if |ts| == 0 then []
    else
      var head := if ts[0].id == traderId then Flip(ts[0]) else ts[0];
      [head] + ToggleFollow(ts[1..], traderId)
  }

  /** Toggling the same id twice restores the list. */
  lemma {:induction false} ToggleFollowTwice(ts: seq<Trader>, traderId: int)
    ensures ToggleFollow(ToggleFollow(ts, traderId), traderId) == ts
  {
    if |ts| > 0 {
      ToggleFollowTwice(ts[1..], traderId);
      assert ToggleFollow(ts, traderId)[1..] == ToggleFollow(ts[1..], traderId);
    }
  }

  /** Toggling an id no trader has changes nothing. */
  lemma {:induction false} ToggleFollowAbsent(ts: seq<Trader>, traderId: int)
    requires forall i :: 0 <= i < |ts| ==> ts[i].id != traderId
    ensures ToggleFollow(ts, traderId) == ts
  {
    if |ts| > 0 {
      ToggleFollowAbsent(ts[1..], traderId);
    }
  }

  /** Toggles of two ids commute. */
  lemma {:induction false} ToggleFollowCommutes(ts: seq<Trader>, a: int, b: int)
    ensures ToggleFollow(ToggleFollow(ts, a), b) == ToggleFollow(ToggleFollow(ts, b), a)
  {
    if |ts| > 0 {
      ToggleFollowCommutes(ts[1..], a, b);
      assert ToggleFollow(ts, a)[1..] == ToggleFollow(ts[1..], a);
      assert ToggleFollow(ts, b)[1..] == ToggleFollow(ts[1..], b);
    }
  }
}
