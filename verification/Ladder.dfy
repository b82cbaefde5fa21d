/**
 The book of an aggregated feed as a value: at most one quote per price level, whichever side owns it, and
 what listing levels from the best price outwards yields.
 */
module Ladders {
  import opened BookSpec
  import opened MarketEvents

  datatype Quote = Quote(side: Side, size: nat)

  // Level index to the quote standing there.
  type Ladder = map<int, Quote>

  // A size replaces whatever stands at the level; size zero removes it, whichever side owned it.
  function Put(m: Ladder, i: int, side: Side, size: nat): Ladder {
    if size == 0 then m - {i} else m[i := Quote(side, size)]
  }

  function SidesOf(m: Ladder, n: nat): (sides: seq<Side>)
    ensures |sides| == n && forall i :: 0 <= i < n ==> sides[i] == if i in m then m[i].side else NoSide
  {
    seq(n, i => if i in m then m[i].side else NoSide)
  }

  // Some bid stands at or above some ask.
  ghost predicate LadderCrossed(m: Ladder) {
    exists i, j :: i in m && j in m && j <= i && m[i].side == Buy && m[j].side == Sell
  }

  // The two cached indices are the extreme levels of their sides, or -1 for a side without levels.
  ghost predicate BestOk(sides: seq<Side>, bestBid: int, bestAsk: int) {
    bestBid == Highest(sides, |sides| - 1, Buy) && bestAsk == Lowest(sides, 0, Sell)
  }

  lemma BestOkMeaning(sides: seq<Side>, bestBid: int, bestAsk: int)
    requires BestOk(sides, bestBid, bestAsk)
    ensures bestBid == -1 <==> Buy !in sides
    ensures bestAsk == -1 <==> Sell !in sides
    ensures bestBid != -1 ==> 0 <= bestBid < |sides| && sides[bestBid] == Buy
    ensures bestAsk != -1 ==> 0 <= bestAsk < |sides| && sides[bestAsk] == Sell
    ensures forall i :: 0 <= i < |sides| && sides[i] == Buy ==> i <= bestBid
    ensures forall i :: 0 <= i < |sides| && sides[i] == Sell ==> bestAsk <= i
  {
  }

  // Handing one level to a new owner (or to nobody) moves the extremes exactly as Improve and Retreat do.
  lemma OwnerChange(sides: seq<Side>, i: nat, s: Side, bestBid: int, bestAsk: int)
    requires BestOk(sides, bestBid, bestAsk) && i < |sides|
    ensures var sides' := sides[i := s];
      && Highest(sides', |sides| - 1, Buy) ==
         (if s == Buy then (if bestBid < i then i else bestBid)
          else if i == bestBid then Highest(sides', i - 1, Buy) else bestBid)
      && Lowest(sides', 0, Sell) ==
         (if s == Sell then (if bestAsk < 0 || i < bestAsk then i else bestAsk)
          else if i == bestAsk then Lowest(sides', i + 1, Sell) else bestAsk)
  {
    var sides' := sides[i := s];
    assert forall k :: 0 <= k < |sides| && k != i ==> sides'[k] == sides[k];
    var n := |sides| - 1;
    HighestIs(sides', n, Buy, if s == Buy then (if bestBid < i then i else bestBid)
                              else if i == bestBid then Highest(sides', i - 1, Buy) else bestBid);
    LowestIs(sides', 0, Sell, if s == Sell then (if bestAsk < 0 || i < bestAsk then i else bestAsk)
                              else if i == bestAsk then Lowest(sides', i + 1, Sell) else bestAsk);
  }

  // The best prices after level i has gone to s: first look further if its old owner lost its best level,
  // then let the new owner improve.
  lemma StoredBest(sides: seq<Side>, i: nat, s: Side, bid0: int, ask0: int, bid1: int, ask1: int, bid: int, ask: int)
    requires BestOk(sides, bid0, ask0) && i < |sides|
    requires bid1 == if sides[i] != s && sides[i] == Buy && i == bid0 then Highest(sides[i := s], i - 1, Buy) else bid0
    requires ask1 == if sides[i] != s && sides[i] == Sell && i == ask0 then Lowest(sides[i := s], i + 1, Sell) else ask0
    requires bid == if s == Buy && (bid1 < 0 || i > bid1) then i else bid1
    requires ask == if s == Sell && (ask1 < 0 || i < ask1) then i else ask1
    ensures BestOk(sides[i := s], bid, ask)
  {
    OwnerChange(sides, i, s, bid0, ask0);
  }

  lemma HighestIs(sides: seq<Side>, i: int, s: Side, j: int)
    requires -1 <= j <= i < |sides| && (j >= 0 ==> sides[j] == s) && forall k :: j < k <= i ==> sides[k] != s
    ensures Highest(sides, i, s) == j
  {
  }

  lemma LowestIs(sides: seq<Side>, i: int, s: Side, j: int)
    requires 0 <= i <= |sides| && (j == -1 || i <= j < |sides|) && (j >= 0 ==> sides[j] == s)
    requires forall k :: i <= k < (if j >= 0 then j else |sides|) ==> sides[k] != s
    ensures Lowest(sides, i, s) == j
  {
  }

  // ----- depth

  // The first n levels of side s going down from i, and going up from i.
  function Down(sides: seq<Side>, i: int, n: nat, s: Side): (d: seq<int>)
    requires -1 <= i < |sides|
    ensures |d| <= n
    decreases i + 1
  {
    if i < 0 || n == 0 then []
    else if sides[i] == s then [i] + Down(sides, i - 1, n - 1, s)
    else Down(sides, i - 1, n, s)
  }

  function Up(sides: seq<Side>, i: int, n: nat, s: Side): (d: seq<int>)
    requires 0 <= i <= |sides|
    ensures |d| <= n
    decreases |sides| - i
  {
    if i == |sides| || n == 0 then []
    else if sides[i] == s then [i] + Up(sides, i + 1, n - 1, s)
    else Up(sides, i + 1, n, s)
  }

  // How many of the levels lo up to (not including) hi belong to s.
  function CountIn(sides: seq<Side>, lo: int, hi: int, s: Side): nat
    requires 0 <= lo && hi <= |sides|
    decreases hi - lo
  {
    if hi <= lo then 0 else CountIn(sides, lo, hi - 1, s) + if sides[hi - 1] == s then 1 else 0
  }

  lemma {:induction false} CountSplit(sides: seq<Side>, lo: int, mid: int, hi: int, s: Side)
    requires 0 <= lo <= mid <= hi <= |sides|
    ensures CountIn(sides, lo, hi, s) == CountIn(sides, lo, mid, s) + CountIn(sides, mid, hi, s)
    decreases hi
  {
    if mid < hi {
      CountSplit(sides, lo, mid, hi - 1, s);
    }
  }

  lemma {:induction false} CountNone(sides: seq<Side>, lo: int, hi: int, s: Side)
    requires 0 <= lo && hi <= |sides| && forall k :: lo <= k < hi ==> sides[k] != s
    ensures CountIn(sides, lo, hi, s) == 0
    decreases hi
  {
    if lo < hi {
      CountNone(sides, lo, hi - 1, s);
    }
  }

  // Entry k of a listing is the level of its side that has exactly k better ones, and the listing is as long
  // as it can be.
  lemma {:induction false} DownSize(sides: seq<Side>, i: int, n: nat, s: Side)
    requires -1 <= i < |sides|
    ensures |Down(sides, i, n, s)| == Min(n, CountIn(sides, 0, i + 1, s))
    decreases i + 1
  {
    if i >= 0 && n > 0 {
      DownSize(sides, i - 1, if sides[i] == s then n - 1 else n, s);
    }
  }

  lemma {:induction false} DownRank(sides: seq<Side>, i: int, n: nat, s: Side, k: nat)
    requires -1 <= i < |sides| && k < |Down(sides, i, n, s)|
    ensures var j := Down(sides, i, n, s)[k];
      0 <= j <= i && sides[j] == s && CountIn(sides, j + 1, i + 1, s) == k
    decreases i + 1
  {
    if sides[i] != s {
      DownRank(sides, i - 1, n, s, k);
    } else if k > 0 {
      DownRank(sides, i - 1, n - 1, s, k - 1);
    }
  }

  lemma {:induction false} UpSize(sides: seq<Side>, i: int, n: nat, s: Side)
    requires 0 <= i <= |sides|
    ensures |Up(sides, i, n, s)| == Min(n, CountIn(sides, i, |sides|, s))
    decreases |sides| - i
  {
    if i < |sides| && n > 0 {
      UpSize(sides, i + 1, if sides[i] == s then n - 1 else n, s);
      CountSplit(sides, i, i + 1, |sides|, s);
    }
  }

  lemma {:induction false} UpRank(sides: seq<Side>, i: int, n: nat, s: Side, k: nat)
    requires 0 <= i <= |sides| && k < |Up(sides, i, n, s)|
    ensures var j := Up(sides, i, n, s)[k];
      i <= j < |sides| && sides[j] == s && CountIn(sides, i, j, s) == k
    decreases |sides| - i
  {
    if sides[i] != s || k > 0 {
      UpRank(sides, i + 1, if sides[i] == s then n - 1 else n, s, if sides[i] == s then k - 1 else k);
      CountSplit(sides, i, i + 1, Up(sides, i, n, s)[k], s);
    }
  }

  // Listed from correct best prices, depth is exact: entry k is the side's level with k better ones in the
  // whole book, and there are as many entries as asked for or as the side has levels.
  lemma BidDepthExact(sides: seq<Side>, bestBid: int, bestAsk: int, n: nat)
    requires BestOk(sides, bestBid, bestAsk)
    ensures var d := Down(sides, bestBid, n, Buy);
      && |d| == Min(n, CountIn(sides, 0, |sides|, Buy))
      && (forall k :: 0 <= k < |d| ==> 0 <= d[k] < |sides| && sides[d[k]] == Buy && CountIn(sides, d[k] + 1, |sides|, Buy) == k)
      && (d != [] ==> d[0] == bestBid)
  {
    var d := Down(sides, bestBid, n, Buy);
    DownSize(sides, bestBid, n, Buy);
    CountSplit(sides, 0, bestBid + 1, |sides|, Buy);
    CountNone(sides, bestBid + 1, |sides|, Buy);
    forall k | 0 <= k < |d|
      ensures 0 <= d[k] < |sides| && sides[d[k]] == Buy && CountIn(sides, d[k] + 1, |sides|, Buy) == k
    {
      DownRank(sides, bestBid, n, Buy, k);
      CountSplit(sides, d[k] + 1, bestBid + 1, |sides|, Buy);
    }
  }

  lemma AskDepthExact(sides: seq<Side>, bestBid: int, bestAsk: int, n: nat)
    requires BestOk(sides, bestBid, bestAsk)
    ensures var u := if bestAsk < 0 then [] else Up(sides, bestAsk, n, Sell);
      && |u| == Min(n, CountIn(sides, 0, |sides|, Sell))
      && (forall k :: 0 <= k < |u| ==> 0 <= u[k] < |sides| && sides[u[k]] == Sell && CountIn(sides, 0, u[k], Sell) == k)
      && (u != [] ==> u[0] == bestAsk)
  {
    var from := if bestAsk < 0 then |sides| else bestAsk;
    CountSplit(sides, 0, from, |sides|, Sell);
    CountNone(sides, 0, from, Sell);
    if bestAsk >= 0 {
      var u := Up(sides, bestAsk, n, Sell);
      UpSize(sides, bestAsk, n, Sell);
      forall k | 0 <= k < |u|
        ensures 0 <= u[k] < |sides| && sides[u[k]] == Sell && CountIn(sides, 0, u[k], Sell) == k
      {
        UpRank(sides, bestAsk, n, Sell, k);
        CountSplit(sides, 0, bestAsk, u[k], Sell);
      }
    }
  }

  // A level with more levels better than it is a worse one: listings are strictly ordered by price.
  lemma RankOrders(sides: seq<Side>, i: int, j: int, s: Side)
    requires 0 <= i < |sides| && 0 <= j < |sides|
    ensures CountIn(sides, i + 1, |sides|, s) < CountIn(sides, j + 1, |sides|, s) ==> j < i
    ensures CountIn(sides, 0, i, s) < CountIn(sides, 0, j, s) ==> i < j
  {
    if i <= j {
      CountSplit(sides, i + 1, j + 1, |sides|, s);
    }
    if j <= i {
      CountSplit(sides, 0, j, i, s);
    }
  }
}
