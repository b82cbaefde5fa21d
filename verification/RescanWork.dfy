/**
 What the rescans that repair the best prices cost: how many slots they inspect over a run, accounted for
 exactly, and why no bound per event holds.
 */
module RescanWork {
  import opened BookLaws
  import opened BookSpec
  import opened Ladders
  import opened MarketEvents

  // Of one side: slots inspected by rescans, rescans that found nothing, slots the best price moved towards the
  // market, and slots it fell back because the book was cleared.
  datatype Account = Account(scanned: nat, missed: nat, climbed: nat, dropped: nat)

  datatype Work = Work(bid: Account, ask: Account)

  const NO_WORK := Work(Account(0, 0, 0, 0), Account(0, 0, 0, 0))

  // ----- one search

  // The slots inspected from i down to the first bid, or to the bottom.
  function SlotsDown(sides: seq<Side>, i: int): nat
    requires -1 <= i < |sides|
    decreases i + 1
  {
    if i < 0 then 0 else if sides[i] == Buy then 1 else 1 + SlotsDown(sides, i - 1)
  }

  // The slots inspected from i up to the first ask, or to the top.
  function SlotsUp(sides: seq<Side>, i: int): nat
    requires 0 <= i <= |sides|
    decreases |sides| - i
  {
    if i == |sides| then 0 else if sides[i] == Sell then 1 else 1 + SlotsUp(sides, i + 1)
  }

  lemma {:induction false} SlotsDownIs(sides: seq<Side>, i: int)
    requires -1 <= i < |sides|
    ensures var j := Highest(sides, i, Buy); SlotsDown(sides, i) == i - j + if j >= 0 then 1 else 0
    decreases i + 1
  {
    if i >= 0 && sides[i] != Buy { SlotsDownIs(sides, i - 1); }
  }

  lemma {:induction false} SlotsUpIs(sides: seq<Side>, i: int)
    requires 0 <= i <= |sides|
    ensures var j := Lowest(sides, i, Sell); SlotsUp(sides, i) == if j >= 0 then j - i + 1 else |sides| - i
    decreases |sides| - i
  {
    if i < |sides| && sides[i] != Sell { SlotsUpIs(sides, i + 1); }
  }

  function SearchedDown(w: Work, sides: seq<Side>, i: int): Work
    requires -1 <= i < |sides|
  {
    w.(bid := w.bid.(scanned := w.bid.scanned + SlotsDown(sides, i),
                     missed := w.bid.missed + if Highest(sides, i, Buy) < 0 then 1 else 0))
  }

  function SearchedUp(w: Work, sides: seq<Side>, i: int): Work
    requires 0 <= i <= |sides|
  {
    w.(ask := w.ask.(scanned := w.ask.scanned + SlotsUp(sides, i),
                     missed := w.ask.missed + if Lowest(sides, i, Sell) < 0 then 1 else 0))
  }

  // ----- what moves the best prices

  // Level i is lost to side s: if it was the best one, search on. The sides are those afterwards.
  function Retreated(w: Work, sides: seq<Side>, s: Side, i: nat, bid: int, ask: int): Work
    requires i < |sides|
  {
    if s == Buy && i == bid then SearchedDown(w, sides, i - 1)
    else if s == Sell && i == ask then SearchedUp(w, sides, i + 1)
    else w
  }

  // How far up from the bottom, or down from the top of n levels, the best prices are.
  function BidReach(bid: int): nat
    requires bid >= -1
  {
    bid + 1
  }

  function AskReach(n: nat, ask: int): nat
    requires ask < n
  {
    if ask < 0 then 0 else n - ask
  }

  // Level i, of n, is gained by side s.
  function Improved(w: Work, n: nat, s: Side, i: nat, bid: int, ask: int): Work
    requires i < n && bid >= -1 && ask < n
  {
    if s == Buy && (bid < 0 || i > bid) then
      w.(bid := w.bid.(climbed := w.bid.climbed + (BidReach(i) - BidReach(bid))))
    else if s == Sell && (ask < 0 || i < ask) then
      w.(ask := w.ask.(climbed := w.ask.climbed + (AskReach(n, i) - AskReach(n, ask))))
    else w
  }

  function Cleared(w: Work, n: nat, bid: int, ask: int): Work
    requires bid >= -1 && ask < n
  {
    Work(w.bid.(dropped := w.bid.dropped + BidReach(bid)), w.ask.(dropped := w.ask.dropped + AskReach(n, ask)))
  }

  // ----- the account of each operation

  function AddWork(w: Work, b: Book, ref: nat, side: Side, price: int): Work
    requires WellFormed(b)
  {
    var i := ToIndex(b.cfg, price);
    if i < 0 || ref in b.orders then w else Improved(w, |b.sides|, side, i, b.bestBid, b.bestAsk)
  }

  function RemoveWork(w: Work, b: Book, ref: nat): Work
    requires WellFormed(b) && ref in b.orders
  {
    var i, s := b.orders[ref].level, b.orders[ref].side;
    if Without(b.queues[i], ref) != [] then w
    else Retreated(w, b.sides[i := NoSide], s, i, b.bestBid, b.bestAsk)
  }

  function ReduceWork(w: Work, b: Book, ref: nat, shares: nat): Work
    requires WellFormed(b) && ref in b.orders
  {
    if b.orders[ref].size <= shares then RemoveWork(w, b, ref) else w
  }

  function EventWork(w: Work, b: Book, ev: MarketEvent): Work
    requires WellFormed(b)
  {
    match ev.kind
    case Add => AddWork(w, b, ev.orderRef, ev.side, ev.priceTicks)
    case Cancel | Execute | ExecuteWithPrice =>
      if ev.orderRef in b.orders then ReduceWork(w, b, ev.orderRef, ev.size) else w
    case Delete =>
      if ev.orderRef in b.orders then RemoveWork(w, b, ev.orderRef) else w
    case Replace =>
      if ev.orderRef in b.orders then
        RemoveWellFormed(b, ev.orderRef);
        AddWork(RemoveWork(w, b, ev.orderRef), Remove(b, ev.orderRef), ev.newOrderRef, b.orders[ev.orderRef].side,
                ev.priceTicks)
      else w
    case _ => w
  }

  // The best prices of a ladder of n levels.
  function LadderBid(m: Ladder, n: nat): int {
    Highest(SidesOf(m, n), n - 1, Buy)
  }

  function LadderAsk(m: Ladder, n: nat): int {
    Lowest(SidesOf(m, n), 0, Sell)
  }

  // Level i is removed from a ladder it stands in.
  function DropWork(w: Work, m: Ladder, n: nat, i: nat): Work
    requires i < n && i in m
  {
    Retreated(w, SidesOf(m, n)[i := NoSide], m[i].side, i, LadderBid(m, n), LadderAsk(m, n))
  }

  // Level i is set: a flip of its side is a loss for the old one, then the new one may gain.
  function StoreWork(w: Work, m: Ladder, n: nat, i: nat, side: Side): Work
    requires i < n
  {
    var sides, bid, ask := SidesOf(m, n), LadderBid(m, n), LadderAsk(m, n);
    var flip := i in m && m[i].side != side;
    var w1 := if flip then Retreated(w, sides[i := side], m[i].side, i, bid, ask) else w;
    var bid1 := if flip && m[i].side == Buy && i == bid then Highest(sides[i := side], i - 1, Buy) else bid;
    var ask1 := if flip && m[i].side == Sell && i == ask then Lowest(sides[i := side], i + 1, Sell) else ask;
    Improved(w1, n, side, i, bid1, ask1)
  }

  // The same, in terms of the owners of the levels and the best prices kept for them.
  lemma StoreWorkIs(w: Work, m: Ladder, n: nat, i: nat, side: Side, sides: seq<Side>, bid: int, ask: int)
    requires i < n && sides == SidesOf(m, n) && BestOk(sides, bid, ask) && -1 <= bid && ask < n
    ensures var flip := sides[i] != side;
      StoreWork(w, m, n, i, side) ==
      Improved(if flip then Retreated(w, sides[i := side], sides[i], i, bid, ask) else w, n, side, i,
               if flip && sides[i] == Buy && i == bid then Highest(sides[i := side], i - 1, Buy) else bid,
               if flip && sides[i] == Sell && i == ask then Lowest(sides[i := side], i + 1, Sell) else ask)
  {
    hide Highest, Lowest, Improved, SearchedDown, SearchedUp;
  }

  function SetWork(w: Work, c: Config, m: Ladder, side: Side, price: int, size: nat): Work
    requires ConfigOk(c)
  {
    var i, n := ToIndex(c, price), NumLevels(c);
    if i < 0 then w
    else if size > 0 then StoreWork(w, m, n, i, side)
    else if i in m then DropWork(w, m, n, i) else w
  }

  // ----- the balance

  // Every slot the best price climbed has been inspected by a rescan, or lost to one that found nothing (which
  // falls one slot further than it looks), or lost to a reset, or is still climbed.
  ghost predicate Balanced(w: Work, n: nat, bid: int, ask: int)
    requires bid >= -1 && ask < n
  {
    && w.bid.climbed == w.bid.scanned + w.bid.missed + w.bid.dropped + BidReach(bid)
    && w.ask.climbed == w.ask.scanned + w.ask.missed + w.ask.dropped + AskReach(n, ask)
  }

  lemma RetreatBalanced(w: Work, sides: seq<Side>, s: Side, i: nat, bid: int, ask: int)
    requires i < |sides| && -1 <= bid && ask < |sides| && Balanced(w, |sides|, bid, ask)
    ensures Balanced(Retreated(w, sides, s, i, bid, ask), |sides|,
                     if s == Buy && i == bid then Highest(sides, i - 1, Buy) else bid,
                     if s == Sell && i == ask then Lowest(sides, i + 1, Sell) else ask)
  {
    SlotsDownIs(sides, i - 1);
    SlotsUpIs(sides, i + 1);
  }

  lemma ImproveBalanced(w: Work, n: nat, s: Side, i: nat, bid: int, ask: int)
    requires i < n && bid >= -1 && ask < n && Balanced(w, n, bid, ask)
    ensures Balanced(Improved(w, n, s, i, bid, ask), n,
                     if s == Buy && (bid < 0 || i > bid) then i else bid,
                     if s == Sell && (ask < 0 || i < ask) then i else ask)
  {
  }

  ghost predicate BookBalanced(w: Work, b: Book) {
    b.bestBid >= -1 && b.bestAsk < |b.sides| && Balanced(w, |b.sides|, b.bestBid, b.bestAsk)
  }

  lemma AddBalanced(w: Work, b: Book, ref: nat, side: Side, price: int, size: nat)
    requires WellFormed(b) && BookBalanced(w, b)
    ensures BookBalanced(AddWork(w, b, ref, side, price), OnAdd(b, ref, side, price, size))
  {
    var i := ToIndex(b.cfg, price);
    if i >= 0 && ref !in b.orders { ImproveBalanced(w, |b.sides|, side, i, b.bestBid, b.bestAsk); }
  }

  lemma RemoveBalanced(w: Work, b: Book, ref: nat)
    requires WellFormed(b) && ref in b.orders && BookBalanced(w, b)
    ensures BookBalanced(RemoveWork(w, b, ref), Remove(b, ref))
  {
    hide Without, Highest, Lowest, Retreated;
    var i, s := b.orders[ref].level, b.orders[ref].side;
    RetreatBalanced(w, b.sides[i := NoSide], s, i, b.bestBid, b.bestAsk);
  }

  lemma ReduceBalanced(w: Work, b: Book, ref: nat, shares: nat)
    requires WellFormed(b) && ref in b.orders && BookBalanced(w, b)
    ensures BookBalanced(ReduceWork(w, b, ref, shares), Reduce(b, ref, shares))
  {
    hide WellFormed, Without, Highest, Lowest, Retreated;
    var dec := Min(shares, b.orders[ref].size);
    ShrinkWellFormed(b, ref, dec);
    if dec == b.orders[ref].size {
      RemoveBalanced(w, Shrink(b, ref, dec), ref);
    }
  }

  lemma EventBalanced(w: Work, b: Book, ev: MarketEvent)
    requires WellFormed(b) && BookBalanced(w, b)
    ensures BookBalanced(EventWork(w, b, ev), Apply(b, ev))
  {
    hide WellFormed, BookBalanced, AddWork, RemoveWork, ReduceWork, OnAdd, Remove, Reduce;
    var ref := ev.orderRef;
    match ev.kind
    case Add => AddBalanced(w, b, ref, ev.side, ev.priceTicks, ev.size);
    case Cancel | Execute | ExecuteWithPrice =>
      if ref in b.orders { ReduceBalanced(w, b, ref, ev.size); }
    case Delete =>
      if ref in b.orders { RemoveBalanced(w, b, ref); }
    case Replace =>
      if ref in b.orders {
        RemoveBalanced(w, b, ref);
        RemoveWellFormed(b, ref);
        AddBalanced(RemoveWork(w, b, ref), Remove(b, ref), ev.newOrderRef, b.orders[ref].side, ev.priceTicks, ev.size);
      }
    case _ =>
  }

  ghost predicate LadderBalanced(w: Work, m: Ladder, n: nat) {
    n >= 1 && Balanced(w, n, LadderBid(m, n), LadderAsk(m, n))
  }

  lemma DropBalanced(w: Work, m: Ladder, n: nat, i: nat)
    requires LadderBalanced(w, m, n) && i < n && i in m
    ensures LadderBalanced(DropWork(w, m, n, i), m - {i}, n)
  {
    hide Highest, Lowest, Retreated;
    var sides, bid, ask := SidesOf(m, n), LadderBid(m, n), LadderAsk(m, n);
    assert SidesOf(m - {i}, n) == sides[i := NoSide];
    OwnerChange(sides, i, NoSide, bid, ask);
    BestOkMeaning(sides, bid, ask);
    RetreatBalanced(w, sides[i := NoSide], m[i].side, i, bid, ask);
  }

  // A level that changes hands: the old side searches on, then the new one may gain.
  lemma ChangeBalanced(w: Work, sides: seq<Side>, i: nat, s: Side, bid: int, ask: int)
    requires i < |sides| && BestOk(sides, bid, ask) && Balanced(w, |sides|, bid, ask)
    ensures var flip := sides[i] != s;
      var w1 := if flip then Retreated(w, sides[i := s], sides[i], i, bid, ask) else w;
      var bid1 := if flip && sides[i] == Buy && i == bid then Highest(sides[i := s], i - 1, Buy) else bid;
      var ask1 := if flip && sides[i] == Sell && i == ask then Lowest(sides[i := s], i + 1, Sell) else ask;
      && Balanced(Improved(w1, |sides|, s, i, bid1, ask1), |sides|,
                  Highest(sides[i := s], |sides| - 1, Buy), Lowest(sides[i := s], 0, Sell))
  {
    hide Highest, Lowest, Retreated, Improved, Balanced;
    var flip := sides[i] != s;
    var w1 := if flip then Retreated(w, sides[i := s], sides[i], i, bid, ask) else w;
    var bid1 := if flip && sides[i] == Buy && i == bid then Highest(sides[i := s], i - 1, Buy) else bid;
    var ask1 := if flip && sides[i] == Sell && i == ask then Lowest(sides[i := s], i + 1, Sell) else ask;
    BestOkMeaning(sides, bid, ask);
    if flip { RetreatBalanced(w, sides[i := s], sides[i], i, bid, ask); }
    ImproveBalanced(w1, |sides|, s, i, bid1, ask1);
    StoredBest(sides, i, s, bid, ask, bid1, ask1,
               if s == Buy && (bid1 < 0 || i > bid1) then i else bid1,
               if s == Sell && (ask1 < 0 || i < ask1) then i else ask1);
  }

  lemma StoreBalanced(w: Work, m: Ladder, n: nat, i: nat, side: Side, size: nat)
    requires LadderBalanced(w, m, n) && i < n
    ensures LadderBalanced(StoreWork(w, m, n, i, side), m[i := Quote(side, size)], n)
  {
    hide Highest, Lowest, Improved, Balanced, Retreated, StoreWork;
    var sides, bid, ask := SidesOf(m, n), LadderBid(m, n), LadderAsk(m, n);
    StoreWorkIs(w, m, n, i, side, sides, bid, ask);
    assert SidesOf(m[i := Quote(side, size)], n) == sides[i := side];
    ChangeBalanced(w, sides, i, side, bid, ask);
  }

  // ----- runs

  datatype Act = Event(ev: MarketEvent) | Restart

  datatype Driven = Driven(book: Book, work: Work)

  // A new book driven through events and resets.
  function Drive(c: Config, acts: seq<Act>): (r: Driven)
    requires ConfigOk(c)
    ensures WellFormed(r.book) && r.book.cfg == c
  {
    if acts == [] then Driven(EmptyBook(c), NO_WORK)
    else
      var d := Drive(c, acts[..|acts| - 1]);
      match acts[|acts| - 1]
      case Event(ev) =>
        ApplyWellFormed(d.book, ev);
        Driven(Apply(d.book, ev), EventWork(d.work, d.book, ev))
      case Restart => Driven(EmptyBook(c), Cleared(d.work, |d.book.sides|, d.book.bestBid, d.book.bestAsk))
  }

  function Events(evs: seq<MarketEvent>): seq<Act> {
    if evs == [] then [] else Events(evs[..|evs| - 1]) + [Event(evs[|evs| - 1])]
  }

  // Driven through events only, the book is that of the plain run.
  lemma {:induction false} DriveIsRun(c: Config, evs: seq<MarketEvent>)
    requires ConfigOk(c)
    ensures Drive(c, Events(evs)).book == ApplyAll(EmptyBook(c), evs)
  {
    hide WellFormed, Apply, EventWork, EmptyBook;
    if evs != [] {
      DriveIsRun(c, evs[..|evs| - 1]);
      var before, acts := Events(evs[..|evs| - 1]), Events(evs);
      assert acts[..|acts| - 1] == before;
    }
  }

  datatype LevelAct = Set(side: Side, price: int, size: nat) | Refresh

  datatype LevelsDriven = LevelsDriven(ladder: Ladder, work: Work)

  // A new book driven through level sets and resets.
  function DriveLevels(c: Config, acts: seq<LevelAct>): LevelsDriven
    requires ConfigOk(c)
  {
    if acts == [] then LevelsDriven(map[], NO_WORK)
    else
      var d, n := DriveLevels(c, acts[..|acts| - 1]), NumLevels(c);
      match acts[|acts| - 1]
      case Set(side, price, size) =>
        var i := ToIndex(c, price);
        LevelsDriven(if i < 0 then d.ladder else Put(d.ladder, i, side, size),
                     SetWork(d.work, c, d.ladder, side, price, size))
      case Refresh => LevelsDriven(map[], Cleared(d.work, n, LadderBid(d.ladder, n), LadderAsk(d.ladder, n)))
  }

  // The exact account of every run; so all rescans together never inspect more slots than the best prices climbed.
  lemma {:induction false} RescanAccount(c: Config, acts: seq<Act>)
    requires ConfigOk(c)
    ensures var d := Drive(c, acts);
      && BookBalanced(d.work, d.book)
      && d.work.bid.scanned <= d.work.bid.climbed && d.work.ask.scanned <= d.work.ask.climbed
  {
    hide WellFormed, Apply, EventWork, NumLevels;
    EmptyPrices(c);
    if acts != [] {
      RescanAccount(c, acts[..|acts| - 1]);
      var d := Drive(c, acts[..|acts| - 1]);
      match acts[|acts| - 1]
      case Event(ev) => EventBalanced(d.work, d.book, ev);
      case Restart => SidesCount(d.book);
    }
  }

  lemma EmptyPrices(c: Config)
    requires ConfigOk(c)
    ensures var b := EmptyBook(c); b.bestBid == b.bestAsk == -1 && |b.sides| == NumLevels(c) && b.orders == map[]
  {
  }

  lemma SidesCount(b: Book)
    requires WellFormed(b)
    ensures |b.sides| == NumLevels(b.cfg)
  {
  }

  lemma {:induction false} LevelRescanAccount(c: Config, acts: seq<LevelAct>)
    requires ConfigOk(c)
    ensures var d := DriveLevels(c, acts);
      && LadderBalanced(d.work, d.ladder, NumLevels(c))
      && d.work.bid.scanned <= d.work.bid.climbed && d.work.ask.scanned <= d.work.ask.climbed
  {
    hide ToIndex, DropWork, StoreWork, LadderBid, LadderAsk;
    NoLevels(NumLevels(c));
    if acts != [] {
      LevelRescanAccount(c, acts[..|acts| - 1]);
      var d, n := DriveLevels(c, acts[..|acts| - 1]), NumLevels(c);
      match acts[|acts| - 1]
      case Refresh =>
      case Set(side, price, size) =>
        var i := ToIndex(c, price);
        if i >= 0 && size > 0 {
          StoreBalanced(d.work, d.ladder, n, i, side, size);
        } else if i >= 0 && i in d.ladder {
          DropBalanced(d.work, d.ladder, n, i);
        } else if i >= 0 {
          assert d.ladder - {i} == d.ladder;
        }
    }
  }

  lemma NoLevels(n: nat)
    requires n >= 1
    ensures LadderBid(map[], n) == LadderAsk(map[], n) == -1
  {
    HighestIs(SidesOf(map[], n), n - 1, Buy, -1);
    LowestIs(SidesOf(map[], n), 0, Sell, -1);
  }

  // ----- no bound per event

  const ADD_TOP := CLEAN_EVENT.(kind := Add, orderRef := 1, side := Buy, size := 100)
  const DELETE_TOP := CLEAN_EVENT.(kind := Delete, orderRef := 1)

  // k times over: a bid at price n, and its deletion.
  function Seesaw(n: nat, k: nat): (acts: seq<Act>)
    ensures |acts| == 2 * k
  {
    if k == 0 then [] else Seesaw(n, k - 1) + [Event(ADD_TOP.(priceTicks := n)), Event(DELETE_TOP)]
  }

  lemma {:induction false} EmptyStretch(sides: seq<Side>, i: int)
    requires -1 <= i < |sides| && forall k :: 0 <= k < |sides| ==> sides[k] == NoSide
    ensures SlotsDown(sides, i) == i + 1 && Highest(sides, i, Buy) == -1
    decreases i + 1
  {
    if i >= 0 { EmptyStretch(sides, i - 1); }
  }

  lemma TopAdded(n: nat)
    ensures var c := Config(0, n, 1);
      var b1 := Apply(EmptyBook(c), ADD_TOP.(priceTicks := n));
      && NumLevels(c) == n + 1 && ToIndex(c, n) == n
      && WellFormed(b1) && 1 in b1.orders && b1.orders[1] == Resting(n, 100, Buy, n)
      && b1.queues[n] == [1] && b1.bestBid == n && b1.sides == EmptyBook(c).sides[n := Buy]
  {
    hide Highest, Lowest;
    var c := Config(0, n, 1);
    assert ToIndex(c, n) == n && NumLevels(c) == n + 1;
    ApplyWellFormed(EmptyBook(c), ADD_TOP.(priceTicks := n));
  }

  // On an empty book of prices 0 to n, one add at the top and its delete cost a scan of all n slots below.
  lemma OneSwing(n: nat, w: Work)
    ensures var b, add := EmptyBook(Config(0, n, 1)), ADD_TOP.(priceTicks := n);
      WellFormed(Apply(b, add))
      && Apply(Apply(b, add), DELETE_TOP) == b
      && EventWork(EventWork(w, b, add), Apply(b, add), DELETE_TOP).bid.scanned == w.bid.scanned + n
  {
    TopAdded(n);
    SwingBook(n);
    SwingWork(n, EventWork(w, EmptyBook(Config(0, n, 1)), ADD_TOP.(priceTicks := n)));
  }

  lemma SwingBook(n: nat)
    ensures var b, add := EmptyBook(Config(0, n, 1)), ADD_TOP.(priceTicks := n);
      WellFormed(Apply(b, add)) && Apply(Apply(b, add), DELETE_TOP) == b
  {
    hide Highest, Lowest, Remove, BookSpec.OnAdd, NumLevels, WellFormed, BestRight;
    var c := Config(0, n, 1);
    NewBookRight(c);
    TopAdded(n);
    NoQueues(c, n);
    AddThenDelete(EmptyBook(c), 1, Buy, n, 100);
  }

  lemma NoQueues(c: Config, price: int)
    requires ConfigOk(c)
    ensures 1 !in EmptyBook(c).orders && !AddHazard(EmptyBook(c), Buy, price)
  {
  }

  lemma SwingWork(n: nat, w: Work)
    ensures var b1 := Apply(EmptyBook(Config(0, n, 1)), ADD_TOP.(priceTicks := n));
      WellFormed(b1) && EventWork(w, b1, DELETE_TOP).bid.scanned == w.bid.scanned + n
  {
    hide Highest, Lowest, SlotsDown, WellFormed, Apply, NumLevels, ToIndex;
    var c := Config(0, n, 1);
    var b1, sides := Apply(EmptyBook(c), ADD_TOP.(priceTicks := n)), EmptyBook(c).sides;
    TopAdded(n);
    WithoutOnly([1], 1);
    assert b1.sides[n := NoSide] == sides;
    EmptyStretch(sides, n - 1);
  }

  // For every n and k, 2k events whose deletes inspect k * n slots.
  lemma {:induction false} SeesawCost(n: nat, k: nat)
    ensures var d := Drive(Config(0, n, 1), Seesaw(n, k));
      d.book == EmptyBook(Config(0, n, 1)) && d.work.bid.scanned == k * n
  {
    hide WellFormed, Apply, EventWork, EmptyBook;
    if k > 0 {
      SeesawCost(n, k - 1);
      var c, before, acts := Config(0, n, 1), Seesaw(n, k - 1), Seesaw(n, k);
      var add := ADD_TOP.(priceTicks := n);
      OneSwing(n, Drive(c, before).work);
      assert acts[..2 * k - 1] == before + [Event(add)] && acts[..2 * k - 1][..2 * k - 2] == before;
      assert acts[2 * k - 2] == Event(add) && acts[2 * k - 1] == Event(DELETE_TOP);
    }
  }

  // So no constant bounds the slots inspected per event.
  lemma NotAmortisedConstant(bound: nat)
    ensures var n, acts := 2 * bound + 1, Seesaw(2 * bound + 1, 1);
      Drive(Config(0, n, 1), acts).work.bid.scanned > bound * |acts|
  {
    hide Drive, Seesaw;
    SeesawCost(2 * bound + 1, 1);
  }
}
