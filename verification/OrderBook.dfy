/**
 The limit order book: price levels indexed by tick, an intrusive doubly linked FIFO list per level, a
 ref-to-node index, a free-list pool and two cached best indices. Every method is proved to do to the
 abstract book exactly what BookSpec says.
 */
module OrderBooks {
  import opened Arith
  import opened BookLaws
  import opened BookSpec
  import opened BookState
  import opened Ladders
  import opened MarketEvents
  import opened OrderPools
  import opened RescanWork

  datatype Stats = Stats(applied: nat, adds: nat, cancels: nat, deletes: nat, executes: nat, replacements: nat,
                         trades: nat, rejectedOutOfBand: nat, unknownRef: nat, crossedObserved: nat)

  const ZERO_STATS := Stats(0, 0, 0, 0, 0, 0, 0, 0, 0, 0)

  // The owner of every level; an unpopulated level belongs to nobody.
  ghost predicate SidesAre(levels: seq<PriceLevel>, sides: seq<Side>) {
    && |levels| == |sides|
    && forall i :: 0 <= i < |levels| ==> levels[i].side == sides[i] && (levels[i].orderCount == 0 ==> sides[i] == NoSide)
  }

  lemma RefinesSides(s: State, b: Book)
    requires Refines(s, b)
    ensures SidesAre(s.levels, b.sides)
  {
    hide Dll, NodesOk;
    forall i | 0 <= i < |s.levels|
      ensures s.levels[i].side == b.sides[i] && (s.levels[i].orderCount == 0 ==> b.sides[i] == NoSide)
    {
      assert LevelOk(s, b, i);
    }
  }

  // What the switch in apply does to the counters, given the book before.
  function Dispatched(st: Stats, b: Book, ev: MarketEvent): Stats
    requires ConfigOk(b.cfg)
  {
    var known := ev.orderRef in b.orders;
    var missed := if known then 0 else 1;
    var rejected := if ToIndex(b.cfg, ev.priceTicks) < 0 then 1 else 0;
    match ev.kind
    case Add => st.(adds := st.adds + 1, rejectedOutOfBand := st.rejectedOutOfBand + rejected)
    case Cancel => st.(cancels := st.cancels + 1, unknownRef := st.unknownRef + missed)
    case Execute | ExecuteWithPrice => st.(executes := st.executes + 1, unknownRef := st.unknownRef + missed)
    case Delete => st.(deletes := st.deletes + 1, unknownRef := st.unknownRef + missed)
    case Replace => st.(replacements := st.replacements + 1, unknownRef := st.unknownRef + missed,
                        rejectedOutOfBand := st.rejectedOutOfBand + if known then rejected else 0)
    case Trade => st.(trades := st.trades + 1)
    case _ => st
  }

  // A level's index as a node keeps it, in 32 bits.
  function LevelIdx(i: nat): nat {
    i % TWO_32
  }

  // A node's index is its level's for every level of a band exactly when the band has at most 2^32 levels.
  lemma LevelIdxExact(levelCount: nat)
    ensures (forall i: nat :: i < levelCount ==> LevelIdx(i) == i) <==> levelCount <= TWO_32
  {
    if levelCount > TWO_32 { assert LevelIdx(TWO_32) != TWO_32; }
  }

  // The levels hold exactly the quotes of the ladder, each as a single order without a node.
  ghost predicate Shows(levels: seq<PriceLevel>, ladder: Ladder) {
    && (forall i :: i in ladder ==> 0 <= i < |levels| && ladder[i].size > 0)
    && (forall i :: 0 <= i < |levels| ==> levels[i] == Shown(ladder, i))
  }

  function Shown(ladder: Ladder, i: int): PriceLevel
    requires i in ladder ==> ladder[i].size > 0
  {
    if i in ladder then PriceLevel(ladder[i].size, 1, ladder[i].side, NULL, NULL) else EMPTY_LEVEL
  }

  lemma ShowsSides(levels: seq<PriceLevel>, ladder: Ladder)
    requires Shows(levels, ladder)
    ensures SidesAre(levels, SidesOf(ladder, |levels|))
  {
  }

  lemma EmptyShows(levels: seq<PriceLevel>)
    requires forall i :: 0 <= i < |levels| ==> levels[i] == EMPTY_LEVEL
    ensures Shows(levels, map[]) && BestOk(SidesOf(map[], |levels|), -1, -1)
  {
  }

  lemma ShowsPut(levels: seq<PriceLevel>, ladder: Ladder, i: nat, q: Quote)
    requires Shows(levels, ladder) && i < |levels| && q.size > 0
    ensures levels[i] == Shown(ladder, i)
    ensures Shows(levels[i := PriceLevel(q.size, 1, q.side, NULL, NULL)], ladder[i := q])
    ensures SidesOf(ladder[i := q], |levels|) == SidesOf(ladder, |levels|)[i := q.side]
    ensures |ladder[i := q]| == |ladder| + if i in ladder then 0 else 1
  {
    PutSize(ladder, i, q);
  }

  lemma PutSize(ladder: Ladder, i: nat, q: Quote)
    ensures |ladder[i := q]| == |ladder| + if i in ladder then 0 else 1
  {
    assert i in ladder ==> ladder[i := q].Keys == ladder.Keys;
    assert i !in ladder ==> ladder[i := q].Keys == ladder.Keys + {i};
  }

  lemma ShowsDrop(levels: seq<PriceLevel>, ladder: Ladder, i: nat)
    requires Shows(levels, ladder) && i < |levels| && i in ladder
    ensures levels[i] == Shown(ladder, i)
    ensures Shows(levels[i := EMPTY_LEVEL], ladder - {i})
    ensures SidesOf(ladder - {i}, |levels|) == SidesOf(ladder, |levels|)[i := NoSide]
    ensures |ladder - {i}| == |ladder| - 1
  {
    assert (ladder - {i}).Keys == ladder.Keys - {i};
  }

  // What best_bid, best_ask and the depth listings report about a level.
  datatype BookLevel = BookLevel(priceTicks: int, aggregateSize: nat, orderCount: nat, valid: bool)

  const NO_LEVEL := BookLevel(0, 0, 0, false)

  class OrderBook {
    const cfg: Config
    const pool: OrderPool
    var levels: seq<PriceLevel>
    var index: map<nat, int>
    var bestBid: int
    var bestAsk: int
    var liveOrders: nat
    var stats: Stats
    var crossedAtLastBoundary: bool
    ghost var book: Book      // what the levels hold when the book is fed order by order
    ghost var ladder: Ladder  // what they hold when it is fed level by level
    ghost var work: Work      // what the rescans have cost so far

    ghost function S(): State
      reads `index, `levels, pool
    {
      State(pool.mem, pool.free, index, levels)
    }

    ghost predicate Shape()
      reads `levels, `bestBid, `bestAsk, pool
    {
      && ConfigOk(cfg) && NumLevels(cfg) <= TWO_32
      && |levels| == NumLevels(cfg)
      && pool.Valid()
      && -1 <= bestBid < |levels| && -1 <= bestAsk < |levels|
    }

    ghost predicate Valid()
      reads `index, `levels, `bestBid, `bestAsk, `liveOrders, `book, pool
    {
      && Shape()
      && Refines(S(), book)
      && book.cfg == cfg && book.bestBid == bestBid && book.bestAsk == bestAsk
      && liveOrders == |index|
    }

    // A book fed by set_level only: a populated level counts as one order and has no nodes.
    ghost predicate LadderValid()
      reads `index, `levels, `bestBid, `bestAsk, `liveOrders, `ladder, pool
    {
      && Shape() && index == map[]
      && Shows(levels, ladder) && liveOrders == |ladder|
      && BestOk(SidesOf(ladder, |levels|), bestBid, bestAsk)
    }

    constructor (raw: Config, poolChunk: nat)
      requires NumLevels(Normalise(raw)) <= TWO_32
      ensures Valid() && fresh(pool) && cfg == Normalise(raw) && stats == ZERO_STATS
      ensures LadderValid() && ladder == map[] && work == NO_WORK && !crossedAtLastBoundary
      ensures book == EmptyBook(cfg) && pool.chunk == if poolChunk != 0 then poolChunk else 1
    {
      cfg := Normalise(raw);
      pool := new OrderPool(poolChunk);
      levels := seq(NumLevels(Normalise(raw)), _ => EMPTY_LEVEL);
      index, bestBid, bestAsk, liveOrders, stats := map[], -1, -1, 0, ZERO_STATS;
      book, ladder, crossedAtLastBoundary := EmptyBook(Normalise(raw)), map[], false;
      work := NO_WORK;
      new;
      EmptyRefines(S(), cfg);
    }

    // ----- list surgery

    method LinkBack(i: nat, o: int)
      requires i < |levels| && 0 <= o < |pool.mem| && (levels[i].tail == NULL || 0 <= levels[i].tail < |pool.mem|)
      modifies `levels, pool`mem
      ensures pool.mem == LinkedBack(old(pool.mem), old(levels[i]).tail, o)
      ensures levels == old(levels)[i := old(levels[i]).(
                head := if old(levels[i]).tail == NULL then o else old(levels[i]).head, tail := o)]
    {
      pool.mem := pool.mem[o := pool.mem[o].(prev := levels[i].tail, next := NULL)];
      if levels[i].tail != NULL {
        pool.mem := pool.mem[levels[i].tail := pool.mem[levels[i].tail].(next := o)];
      } else {
        levels := levels[i := levels[i].(head := o)];
      }
      levels := levels[i := levels[i].(tail := o)];
    }

    method Unlink(i: nat, o: int)
      requires i < |levels| && LinksIn(pool.mem, o)
      modifies `levels, pool`mem
      ensures pool.mem == Unlinked(old(pool.mem), o)
      ensures levels == old(levels)[i := old(levels[i]).(
                head := if old(pool.mem[o]).prev == NULL then old(pool.mem[o]).next else old(levels[i]).head,
                tail := if old(pool.mem[o]).next == NULL then pool.mem[o].prev else old(levels[i]).tail)]
    {
      if pool.mem[o].prev != NULL {
        pool.mem := pool.mem[pool.mem[o].prev := pool.mem[pool.mem[o].prev].(next := pool.mem[o].next)];
      } else {
        levels := levels[i := levels[i].(head := pool.mem[o].next)];
      }
      if pool.mem[o].next != NULL {
        pool.mem := pool.mem[pool.mem[o].next := pool.mem[pool.mem[o].next].(prev := pool.mem[o].prev)];
      } else {
        levels := levels[i := levels[i].(tail := pool.mem[o].prev)];
      }
    }

    // ----- repairing the best prices

    method RescanBestBidFrom(idx: int, ghost sides: seq<Side>)
      requires -1 <= idx < |levels| && SidesAre(levels, sides)
      modifies `bestBid, `work
      ensures bestBid == Highest(sides, idx, Buy) && work == SearchedDown(old(work), sides, idx)
    {
      for i := idx + 1 downto 0
        invariant Highest(sides, i - 1, Buy) == Highest(sides, idx, Buy)
        invariant work.bid.scanned + SlotsDown(sides, i - 1) == old(work.bid.scanned) + SlotsDown(sides, idx)
        invariant work == old(work).(bid := old(work.bid).(scanned := work.bid.scanned))
      {
        work := work.(bid := work.bid.(scanned := work.bid.scanned + 1));
        if levels[i].orderCount > 0 && levels[i].side == Buy {
          bestBid := i;
          return;
        }
      }
      bestBid := -1;
      work := work.(bid := work.bid.(missed := work.bid.missed + 1));
    }

    method RescanBestAskFrom(idx: int, ghost sides: seq<Side>)
      requires 0 <= idx <= |levels| && SidesAre(levels, sides)
      modifies `bestAsk, `work
      ensures bestAsk == Lowest(sides, idx, Sell) && work == SearchedUp(old(work), sides, idx)
    {
      for i := idx to |levels|
        invariant Lowest(sides, i, Sell) == Lowest(sides, idx, Sell)
        invariant work.ask.scanned + SlotsUp(sides, i) == old(work.ask.scanned) + SlotsUp(sides, idx)
        invariant work == old(work).(ask := old(work.ask).(scanned := work.ask.scanned))
      {
        work := work.(ask := work.ask.(scanned := work.ask.scanned + 1));
        if levels[i].orderCount > 0 && levels[i].side == Sell {
          bestAsk := i;
          return;
        }
      }
      bestAsk := -1;
      work := work.(ask := work.ask.(missed := work.ask.missed + 1));
    }

    // The tail of on_add and set_level: a new level of this side may be the best one.
    method Improve(side: Side, idx: nat)
      requires Shape() && idx < |levels|
      modifies `bestBid, `bestAsk, `work
      ensures bestBid == if side == Buy && (old(bestBid) < 0 || idx > old(bestBid)) then idx else old(bestBid)
      ensures bestAsk == if side == Sell && (old(bestAsk) < 0 || idx < old(bestAsk)) then idx else old(bestAsk)
      ensures work == Improved(old(work), |levels|, side, idx, old(bestBid), old(bestAsk))
    {
      if side == Buy {
        if bestBid < 0 || idx > bestBid {
          work := work.(bid := work.bid.(climbed := work.bid.climbed + (idx - bestBid)));
          bestBid := idx;
        }
      } else if side == Sell {
        if bestAsk < 0 || idx < bestAsk {
          work := work.(ask := work.ask.(
            climbed := work.ask.climbed + ((if bestAsk < 0 then |levels| else bestAsk) - idx)));
          bestAsk := idx;
        }
      }
    }

    // The tail of remove_order and set_level: when the emptied or flipped level was the best one, look further.
    method Retreat(side: Side, idx: nat, ghost sides: seq<Side>)
      requires Shape() && idx < |levels| && SidesAre(levels, sides)
      modifies `bestBid, `bestAsk, `work
      ensures bestBid == if side == Buy && idx == old(bestBid) then Highest(sides, idx - 1, Buy) else old(bestBid)
      ensures bestAsk == if side == Sell && idx == old(bestAsk) then Lowest(sides, idx + 1, Sell) else old(bestAsk)
      ensures -1 <= bestBid < |levels| && -1 <= bestAsk < |levels|
      ensures work == Retreated(old(work), sides, side, idx, old(bestBid), old(bestAsk))
    {
      if side == Buy && idx == bestBid {
        RescanBestBidFrom(idx - 1, sides);
      } else if side == Sell && idx == bestAsk {
        RescanBestAskFrom(idx + 1, sides);
      }
    }

    // ----- on_add

    // Put the node at the back of its level: side, list, aggregate and count.
    method Enqueue(i: nat, o: int)
      requires i < |levels| && 0 <= o < |pool.mem| && (levels[i].tail == NULL || 0 <= levels[i].tail < |pool.mem|)
      modifies `levels, pool`mem
      ensures pool.mem == LinkedBack(old(pool.mem), old(levels[i]).tail, o)
      ensures var lvl, node := old(levels[i]), old(pool.mem[o]);
        levels == old(levels)[i := PriceLevel(lvl.aggregateSize + node.size, lvl.orderCount + 1,
                                              if lvl.orderCount == 0 then node.side else lvl.side,
                                              if lvl.tail == NULL then o else lvl.head, o)]
    {
      var side, size := pool.mem[o].side, pool.mem[o].size;
      if levels[i].orderCount == 0 {
        levels := levels[i := levels[i].(side := side)];
      }
      LinkBack(i, o);
      levels := levels[i := levels[i].(aggregateSize := levels[i].aggregateSize + size)];
      levels := levels[i := levels[i].(orderCount := levels[i].orderCount + 1)];
    }

    // A node from the pool, filled in; mem is the memory just before.
    method TakeNode(ev: MarketEvent, idx: nat) returns (o: int, ghost mem: seq<Order>)
      requires pool.Valid()
      modifies pool
      ensures |old(pool.mem)| <= |mem| && mem[..|old(pool.mem)|] == old(pool.mem) && 0 <= o < |mem|
      ensures o !in pool.free
      ensures pool.free + [o] == old(pool.free) + Addresses(|old(pool.mem)|, |mem| - |old(pool.mem)|)
      ensures Chain(mem, pool.free, pool.freeHead) && pool.chunk >= 1 && |mem| == pool.chunks * pool.chunk
      ensures pool.mem ==
        mem[o := Order(ev.orderRef, ev.priceTicks, ev.size, LevelIdx(idx), ev.side, NULL, NULL)]
    {
      hide Chain;
      o := pool.Alloc();
      mem := pool.mem;
      pool.mem := pool.mem[o := pool.mem[o].(
        orderRef := ev.orderRef, priceTicks := ev.priceTicks, size := ev.size, levelIdx := LevelIdx(idx), side := ev.side,
        prev := NULL, next := NULL)];
    }

    // The part of on_add that links a new node in: everything but the best prices and the abstract book.
    method Append(ev: MarketEvent, idx: nat)
      requires Valid() && ev.orderRef !in index && idx < |levels| && idx == ToIndex(cfg, ev.priceTicks)
      modifies `levels, `index, `liveOrders, pool
      ensures Shape() && liveOrders == |index|
      ensures Refines(S(), BookSpec.OnAdd(book, ev.orderRef, ev.side, ev.priceTicks, ev.size))
    {
      hide Refines, Dll, NodesOk, LevelOk, WellFormed, Chain, NumLevels, ConfigOk, BookSpec.OnAdd;
      LevelReady(S(), book, idx);
      ghost var s, head := S(), pool.freeHead;

      ghost var mem: seq<Order>;
      var o;
      o, mem := TakeNode(ev, idx);
      ghost var node := pool.mem[o];
      AppendedNode(s, book, mem, pool.free, head, pool.freeHead, o, node, idx);

      Enqueue(idx, o);
      index := index[ev.orderRef := o];
      liveOrders := liveOrders + 1;
      assert S() == Appended(s, mem, pool.free, o, node, idx);
      Inserted(s, book, S(), o, idx);
    }

    method OnAdd(ev: MarketEvent)
      requires Valid()
      modifies this, pool
      ensures Valid() && book == BookSpec.OnAdd(old(book), ev.orderRef, ev.side, ev.priceTicks, ev.size)
      ensures stats == if ToIndex(cfg, ev.priceTicks) >= 0 then old(stats)
                       else old(stats).(rejectedOutOfBand := old(stats.rejectedOutOfBand) + 1)
      ensures work == AddWork(old(work), old(book), ev.orderRef, ev.side, ev.priceTicks)
    {
      hide Refines, NodesOk, WellFormed, Chain, Dll, LevelOk, Improved, OrderPool.Valid;
      var idx := ToIndex(cfg, ev.priceTicks);
      if idx < 0 {
        stats := stats.(rejectedOutOfBand := stats.rejectedOutOfBand + 1);
        return;
      }
      LevelReady(S(), book, idx);
      if ev.orderRef in index {
        return;
      }
      Append(ev, idx);
      Improve(ev.side, idx);
      book := BookSpec.OnAdd(book, ev.orderRef, ev.side, ev.priceTicks, ev.size);
    }

    // ----- remove_order, reduce_order

    // Take the node off its level: list, aggregate, count and, for the last node, the side.
    method Dequeue(i: nat, o: int)
      requires i < |levels| && LinksIn(pool.mem, o)
      requires pool.mem[o].size <= levels[i].aggregateSize && 1 <= levels[i].orderCount
      requires levels[i].orderCount == 1 ==> levels[i].aggregateSize == pool.mem[o].size
      modifies `levels, pool`mem
      ensures pool.mem == Unlinked(old(pool.mem), o) && pool.mem[o].orderRef == old(pool.mem[o]).orderRef
      ensures var lvl, node := old(levels[i]), old(pool.mem[o]);
        levels == old(levels)[i := PriceLevel(lvl.aggregateSize - node.size, lvl.orderCount - 1,
                                              if lvl.orderCount == 1 then NoSide else lvl.side,
                                              if node.prev == NULL then node.next else lvl.head,
                                              if node.next == NULL then node.prev else lvl.tail)]
    {
      var size := pool.mem[o].size;
      Unlink(i, o);
      levels := levels[i := levels[i].(aggregateSize := levels[i].aggregateSize - size)];
      levels := levels[i := levels[i].(orderCount := levels[i].orderCount - 1)];
      if levels[i].orderCount == 0 {
        assert levels[i].aggregateSize == 0;  // so zeroing it once more changes nothing
        levels := levels[i := levels[i].(side := NoSide, aggregateSize := 0)];
      }
    }

    // The part of remove_order that takes the node out: everything but the best prices and the abstract book.
    method Detach(o: int, ghost ref: nat)
      requires Valid() && ref in index && index[ref] == o
      modifies `levels, `index, `liveOrders, pool
      ensures Shape() && liveOrders == |index| && ref in book.orders && book.orders[ref].level < |levels|
      ensures Refines(S(), Remove(book, ref))
    {
      hide Refines, Dll, NodesOk, LevelOk, WellFormed, Chain, Unlinked;
      ghost var s, head := S(), pool.freeHead;
      DetachedNode(s, book, head, ref);
      var idx := pool.mem[o].levelIdx;

      Dequeue(idx, o);
      index := index - {pool.mem[o].orderRef};
      pool.Release(o);
      liveOrders := liveOrders - 1;
      assert S() == Detached(s, head, o, idx);
      Removed(s, book, S(), o, idx);
    }

    // What a removal does to the best prices.
    lemma RemoveBest(ref: nat)
      requires WellFormed(book) && ref in book.orders
      ensures var b, i, s := Remove(book, ref), book.orders[ref].level, book.orders[ref].side;
        && b.queues[i] == Without(book.queues[i], ref)
        && (b.queues[i] == [] ==> b.sides == book.sides[i := NoSide])
        && b.cfg == book.cfg && |b.queues| == |b.sides| == |book.queues| && i < |b.queues|
        && b.bestBid == (if |b.queues[i]| == 0 && s == Buy && i == book.bestBid
                         then Highest(b.sides, i - 1, Buy) else book.bestBid)
        && b.bestAsk == (if |b.queues[i]| == 0 && s == Sell && i == book.bestAsk
                         then Lowest(b.sides, i + 1, Sell) else book.bestAsk)
    {
    }

    method RemoveOrder(o: int, ghost ref: nat)
      requires Valid() && ref in index && index[ref] == o
      modifies `levels, `index, `liveOrders, `bestBid, `bestAsk, `work, `book, pool
      ensures Valid() && ref in old(book.orders) && book == Remove(old(book), ref)
      ensures work == RemoveWork(old(work), old(book), ref)
    {
      hide Refines, NodesOk, WellFormed, Chain, LevelOk, Highest, Lowest, OrderPool.Valid, Without, Dll, NumLevels,
        SidesAre, Remove;
      NodeFacts(S(), book, ref);
      var idx := pool.mem[o].levelIdx;
      var s := pool.mem[o].side;
      LevelReady(S(), book, idx);
      ghost var b := Remove(book, ref);
      RemoveBest(ref);
      Detach(o, ref);
      LevelReady(S(), b, idx);
      RefinesSides(S(), b);
      if levels[idx].orderCount == 0 {
        Retreat(s, idx, b.sides);
      }
      book := b;
    }

    method ReduceOrder(o: int, shares: nat, ghost ref: nat)
      requires Valid() && ref in index && index[ref] == o
      modifies `levels, `index, `liveOrders, `bestBid, `bestAsk, `work, `book, pool
      ensures Valid() && ref in old(book.orders) && book == Reduce(old(book), ref, shares)
      ensures work == ReduceWork(old(work), old(book), ref, shares)
    {
      hide Refines, NodesOk, WellFormed, Chain, LevelOk, Remove, Dll, RemovedNode, Unlinked, NumLevels;
      NodeFacts(S(), book, ref);
      DetachedNode(S(), book, pool.freeHead, ref);
      var dec := Min(shares, pool.mem[o].size);
      var i := pool.mem[o].levelIdx;
      ghost var s := S();
      levels := levels[i := levels[i].(aggregateSize := levels[i].aggregateSize - dec)];
      pool.mem := pool.mem[o := pool.mem[o].(size := pool.mem[o].size - dec)];
      Shrunk(s, book, S(), ref, dec);
      ChainRange(s.mem, pool.free, pool.freeHead);
      ChainKept(s.mem, pool.mem, pool.free, pool.freeHead);
      LevelReady(s, book, i);
      ShrinkWellFormed(book, ref, dec);
      book := Shrink(book, ref, dec);
      if pool.mem[o].size == 0 {
        RemoveOrder(o, ref);
      }
    }

    // ----- apply

    predicate IsCrossed()
      reads `bestBid, `bestAsk
    {
      bestBid >= 0 && bestAsk >= 0 && bestBid >= bestAsk
    }

    lemma BookFacts()
      requires Valid()
      ensures WellFormed(book) && book.cfg == cfg && index.Keys == book.orders.Keys
      ensures Shape() && ConfigOk(cfg)
      ensures IsCrossed() <==> Crossed(book)
    {
    }

    // The pool splits exactly into the free list and the nodes of the live orders, and none is lost.
    lemma PoolSplit()
      requires Valid()
      ensures Chain(pool.mem, pool.free, pool.freeHead) && |pool.free| + liveOrders == pool.chunks * pool.chunk
      ensures forall p :: 0 <= p < |pool.mem| ==>
                (p in pool.free <==> !(pool.mem[p].orderRef in index && index[pool.mem[p].orderRef] == p))
    {
      hide WellFormed, Dll, LevelOk, Chain;
      assert NodesOk(S(), book.orders);
    }

    // A live order's node is on the list of the level of its price, and on no other.
    lemma OneList(ref: nat, i: nat)
      requires Valid() && ref in index && i < |levels|
      ensures i < |book.queues| && (forall r :: r in book.queues[i] ==> r in index) && ref in book.orders
      ensures index[ref] in PtrsOf(index, book.queues[i]) <==> book.orders[ref].level == i
    {
      hide WellFormed, Dll, Refines, NodesOk, Chain;
      LevelReady(S(), book, i);
      if book.orders[ref].level != i {
        Separate(S(), book, i, ref);
      } else {
        var k := Located(S(), book, ref);
        assert PtrsOf(index, book.queues[i])[k] == index[ref];
      }
    }

    // What a level reports is the length and the total size of its queue, linked head to tail.
    lemma LevelMeaning(i: nat)
      requires Valid() && i < |levels|
      ensures i < |book.queues| && i < |book.sides|
      ensures forall r :: r in book.queues[i] ==> r in index && r in book.orders
      ensures levels[i].orderCount == |book.queues[i]|
      ensures levels[i].aggregateSize == SumSizes(book.orders, book.queues[i])
      ensures levels[i].side == book.sides[i] && (levels[i].orderCount == 0 ==> levels[i].side == NoSide)
      ensures Dll(pool.mem, PtrsOf(index, book.queues[i]), levels[i].head, levels[i].tail)
    {
      hide Dll, NodesOk, Chain;
      LevelReady(S(), book, i);
    }

    lemma PriceFacts()
      requires Valid()
      ensures |levels| == |book.sides| && bestBid == book.bestBid && bestAsk == book.bestAsk
    {
    }

    lemma LadderFacts()
      requires LadderValid()
      ensures Shape() && ConfigOk(cfg) && |levels| == NumLevels(cfg)
      ensures bestBid == LadderBid(ladder, |levels|) && bestAsk == LadderAsk(ladder, |levels|)
    {
    }

    lemma NodeRead(ref: nat)
      requires Valid() && ref in index
      ensures 0 <= index[ref] < |pool.mem| && ref in book.orders && pool.mem[index[ref]].side == book.orders[ref].side
    {
    }

    method Dispatch(ev: MarketEvent)
      requires Valid()
      modifies this, pool
      ensures Valid() && book == BookSpec.Apply(old(book), ev)
      ensures stats == Dispatched(old(stats), old(book), ev) && work == EventWork(old(work), old(book), ev)
    {
      hide Refines, NodesOk, LevelOk, Chain, WellFormed, BookSpec.OnAdd, Remove, Reduce, Valid, ToIndex;
      BookFacts();
      match ev.kind {
        case Add =>
          stats := stats.(adds := stats.adds + 1);
          OnAdd(ev);
        case Cancel =>
          stats := stats.(cancels := stats.cancels + 1);
          if ev.orderRef !in index {
            stats := stats.(unknownRef := stats.unknownRef + 1);
          } else {
            ReduceOrder(index[ev.orderRef], ev.size, ev.orderRef);
          }
        case Execute | ExecuteWithPrice =>
          stats := stats.(executes := stats.executes + 1);
          if ev.orderRef !in index {
            stats := stats.(unknownRef := stats.unknownRef + 1);
          } else {
            ReduceOrder(index[ev.orderRef], ev.size, ev.orderRef);
          }
        case Delete =>
          stats := stats.(deletes := stats.deletes + 1);
          if ev.orderRef !in index {
            stats := stats.(unknownRef := stats.unknownRef + 1);
          } else {
            RemoveOrder(index[ev.orderRef], ev.orderRef);
          }
        case Replace =>
          stats := stats.(replacements := stats.replacements + 1);
          if ev.orderRef !in index {
            stats := stats.(unknownRef := stats.unknownRef + 1);
          } else {
            NodeRead(ev.orderRef);
            var side := pool.mem[index[ev.orderRef]].side;
            RemoveOrder(index[ev.orderRef], ev.orderRef);
            OnAdd(ev.(kind := Add, orderRef := ev.newOrderRef, side := side));
          }
        case Trade =>
          stats := stats.(trades := stats.trades + 1);
        case _ =>
      }
    }

    method Apply(ev: MarketEvent)
      requires Valid()
      modifies this, pool
      ensures Valid() && book == BookSpec.Apply(old(book), ev)
      ensures var st := Dispatched(old(stats), old(book), ev);
        stats == st.(applied := st.applied + 1, crossedObserved := st.crossedObserved + if Crossed(book) then 1 else 0)
      ensures work == EventWork(old(work), old(book), ev)
    {
      hide Refines, NodesOk, LevelOk, Chain, WellFormed, Dispatched, BookSpec.Apply;
      Dispatch(ev);
      stats := stats.(applied := stats.applied + 1);
      if IsCrossed() {
        stats := stats.(crossedObserved := stats.crossedObserved + 1);
      }
    }

    // Fed level by level, the cached indices say exactly whether some bid stands at or above some ask.
    lemma LadderCrossing()
      requires LadderValid()
      ensures IsCrossed() <==> LadderCrossed(ladder)
    {
      hide Chain, BestOk, NumLevels;
      var sides := SidesOf(ladder, |levels|);
      BestOkMeaning(sides, bestBid, bestAsk);
      assert forall i :: i in ladder ==> 0 <= i < |levels| && sides[i] == ladder[i].side;
      if IsCrossed() { assert bestBid in ladder && bestAsk in ladder; }
    }

    // ----- reset

    // Clear the book: afterwards it is as new, except for the statistics and the pool's capacity.
    method Reset()
      requires Shape()
      modifies this, pool
      ensures Valid() && book == EmptyBook(cfg) && LadderValid() && ladder == map[]
      ensures stats == old(stats) && !crossedAtLastBoundary
      ensures work == Cleared(old(work), |old(levels)|, old(bestBid), old(bestAsk))
      ensures pool.chunks == old(pool.chunks) && pool.free == Addresses(0, |pool.mem|)
    {
      hide Chain, Refines, NumLevels, Shows, BestOk, SidesOf;
      work := Cleared(work, |levels|, bestBid, bestAsk);
      Clear();
      pool.ResetAll();
      book, ladder := EmptyBook(cfg), map[];
      EmptyRefines(S(), cfg);
      EmptyShows(levels);
    }

    method Clear()
      modifies `index, `levels, `bestBid, `bestAsk, `liveOrders, `crossedAtLastBoundary
      ensures index == map[] && bestBid == bestAsk == -1 && liveOrders == 0 && !crossedAtLastBoundary
      ensures |levels| == |old(levels)| && forall i :: 0 <= i < |levels| ==> levels[i] == EMPTY_LEVEL
    {
      index := map[];
      levels := seq(|levels|, _ => EMPTY_LEVEL);
      bestBid := -1;
      bestAsk := -1;
      liveOrders := 0;
      crossedAtLastBoundary := false;
    }

    // ----- set_level

    method SetLevel(side: Side, priceTicks: int, totalSize: nat)
      requires LadderValid()
      modifies `levels, `bestBid, `bestAsk, `liveOrders, `stats, `ladder, `work
      ensures LadderValid()
      ensures work == SetWork(old(work), cfg, old(ladder), side, priceTicks, totalSize)
      ensures ladder == var i := ToIndex(cfg, priceTicks);
        if i < 0 then old(ladder) else Put(old(ladder), i, side, totalSize)
      ensures stats == var st, i := old(stats), ToIndex(cfg, priceTicks);
        st.(applied := st.applied + 1,
            rejectedOutOfBand := st.rejectedOutOfBand + (if i < 0 then 1 else 0),
            deletes := st.deletes + (if i >= 0 && totalSize == 0 then 1 else 0),
            adds := st.adds + (if i >= 0 && totalSize > 0 then 1 else 0))
    {
      hide Chain, Shows, BestOk, SidesOf, OrderPool.Valid, StoreWork, DropWork, NumLevels;
      var idx := ToIndex(cfg, priceTicks);
      if idx < 0 {
        stats := stats.(rejectedOutOfBand := stats.rejectedOutOfBand + 1);
        stats := stats.(applied := stats.applied + 1);
        return;
      }
      if totalSize == 0 {
        Vacate(idx);
        stats := stats.(deletes := stats.deletes + 1);
      } else {
        StoreLevel(side, idx, totalSize);
        stats := stats.(adds := stats.adds + 1);
      }
      stats := stats.(applied := stats.applied + 1);
    }

    lemma LevelShown(idx: nat)
      requires LadderValid() && idx < |levels|
      ensures idx in ladder <==> levels[idx].orderCount > 0
      ensures idx in ladder ==> levels[idx] == PriceLevel(ladder[idx].size, 1, ladder[idx].side, NULL, NULL)
      ensures idx !in ladder ==>
        levels[idx] == EMPTY_LEVEL && SidesOf(ladder, |levels|)[idx] == NoSide && ladder - {idx} == ladder
      ensures SidesAre(levels, SidesOf(ladder, |levels|)) && levels[idx].side == SidesOf(ladder, |levels|)[idx]
    {
      ShowsSides(levels, ladder);
    }

    // The size-zero case.
    method Vacate(idx: nat)
      requires LadderValid() && idx < |levels|
      modifies `levels, `bestBid, `bestAsk, `liveOrders, `ladder, `work
      ensures LadderValid() && ladder == old(ladder) - {idx} && |levels| == |old(levels)|
      ensures work == if idx in old(ladder) then DropWork(old(work), old(ladder), |levels|, idx) else old(work)
    {
      hide Chain, Shows, SidesOf, NumLevels, BestOk, OrderPool.Valid, DropWork;
      LevelShown(idx);
      if levels[idx].orderCount > 0 {
        RemoveLevel(idx);
      }
    }

    // The size-zero case on a populated level.
    method RemoveLevel(idx: nat)
      requires LadderValid() && idx < |levels| && levels[idx].orderCount > 0
      modifies `levels, `bestBid, `bestAsk, `liveOrders, `ladder, `work
      ensures LadderValid() && ladder == old(ladder) - {idx}
      ensures idx in old(ladder) && work == DropWork(old(work), old(ladder), |levels|, idx)
    {
      hide Chain, Shows, SidesOf, NumLevels, Highest, Lowest;
      LevelShown(idx);
      var was := levels[idx].side;
      ghost var sides := SidesOf(ladder, |levels|);
      OwnerChange(sides, idx, NoSide, bestBid, bestAsk);
      ShowsDrop(levels, ladder, idx);
      levels := levels[idx := levels[idx].(aggregateSize := 0, orderCount := 0, side := NoSide)];
      liveOrders := liveOrders - 1;
      ladder := ladder - {idx};
      ShowsSides(levels, ladder);
      ClosedSides(sides, bestBid, bestAsk);
      Retreat(was, idx, sides[idx := NoSide]);
    }

    lemma ClosedSides(sides: seq<Side>, bid: int, ask: int)
      requires BestOk(sides, bid, ask)
      ensures -1 <= bid < |sides| && (bid >= 0 ==> sides[bid] == Buy)
      ensures -1 <= ask < |sides| && (ask >= 0 ==> sides[ask] == Sell)
    {
    }

    // The positive-size case, first half: claim, resize or flip the level.
    method Occupy(side: Side, idx: nat, totalSize: nat, ghost sides: seq<Side>)
      requires Shape() && idx < |levels| && SidesAre(levels, sides) && levels[idx].orderCount <= 1
      modifies `levels, `bestBid, `bestAsk, `liveOrders, `work
      ensures levels == old(levels)[idx := old(levels[idx]).(aggregateSize := totalSize, orderCount := 1, side := side)]
      ensures liveOrders == old(liveOrders) + 1 - old(levels[idx].orderCount)
      ensures bestBid == if sides[idx] != side && sides[idx] == Buy && idx == old(bestBid)
                         then Highest(sides[idx := side], idx - 1, Buy) else old(bestBid)
      ensures bestAsk == if sides[idx] != side && sides[idx] == Sell && idx == old(bestAsk)
                         then Lowest(sides[idx := side], idx + 1, Sell) else old(bestAsk)
      ensures Shape()
      ensures work == if sides[idx] != side
                      then Retreated(old(work), sides[idx := side], sides[idx], idx, old(bestBid), old(bestAsk))
                      else old(work)
    {
      hide Chain, NumLevels, Highest, Lowest;
      if levels[idx].orderCount == 0 {
        levels := levels[idx := levels[idx].(side := side, orderCount := 1, aggregateSize := totalSize)];
        liveOrders := liveOrders + 1;
      } else if levels[idx].side == side {
        levels := levels[idx := levels[idx].(aggregateSize := totalSize)];
      } else {
        var was := levels[idx].side;
        levels := levels[idx := levels[idx].(side := side, aggregateSize := totalSize)];
        Retreat(was, idx, sides[idx := side]);
      }
    }

    // Both halves: the level changes hands, and the best prices stay right.
    method Rehouse(side: Side, idx: nat, totalSize: nat, ghost sides: seq<Side>)
      requires Shape() && idx < |levels| && SidesAre(levels, sides) && levels[idx].orderCount <= 1
      requires BestOk(sides, bestBid, bestAsk)
      modifies `levels, `bestBid, `bestAsk, `liveOrders, `work
      ensures Shape() && BestOk(sides[idx := side], bestBid, bestAsk)
      ensures levels == old(levels)[idx := old(levels[idx]).(aggregateSize := totalSize, orderCount := 1, side := side)]
      ensures liveOrders == old(liveOrders) + 1 - old(levels[idx].orderCount)
      ensures var flip, bid, ask := sides[idx] != side, old(bestBid), old(bestAsk);
        work == Improved(if flip then Retreated(old(work), sides[idx := side], sides[idx], idx, bid, ask) else old(work),
                         |levels|, side, idx,
                         if flip && sides[idx] == Buy && idx == bid then Highest(sides[idx := side], idx - 1, Buy) else bid,
                         if flip && sides[idx] == Sell && idx == ask then Lowest(sides[idx := side], idx + 1, Sell) else ask)
    {
      hide Chain, NumLevels, Highest, Lowest, BestOk, ConfigOk, Improved, Retreated, OrderPool.Valid;
      ghost var bid0, ask0 := bestBid, bestAsk;
      Occupy(side, idx, totalSize, sides);
      ghost var bid1, ask1 := bestBid, bestAsk;
      Improve(side, idx);
      StoredBest(sides, idx, side, bid0, ask0, bid1, ask1, bestBid, bestAsk);
    }

    method StoreLevel(side: Side, idx: nat, totalSize: nat)
      requires LadderValid() && idx < |levels| && totalSize > 0
      modifies `levels, `bestBid, `bestAsk, `liveOrders, `ladder, `work
      ensures LadderValid() && ladder == old(ladder)[idx := Quote(side, totalSize)]
      ensures work == StoreWork(old(work), old(ladder), |levels|, idx, side)
    {
      hide Chain, Shows, SidesOf, NumLevels, Highest, Lowest, SidesAre, BestOk, ConfigOk, StoreWork, Improved, Retreated,
        OrderPool.Valid, Shown;
      LevelShown(idx);
      ghost var sides := SidesOf(ladder, |levels|);
      StoreWorkIs(work, ladder, |levels|, idx, side, sides, bestBid, bestAsk);
      ShowsPut(levels, ladder, idx, Quote(side, totalSize));
      Rehouse(side, idx, totalSize, sides);
      ladder := ladder[idx := Quote(side, totalSize)];
    }

    method ObserveEventBoundary()
      modifies `stats, `crossedAtLastBoundary
      ensures crossedAtLastBoundary == IsCrossed()
      ensures stats == old(stats).(crossedObserved := old(stats.crossedObserved) +
                                     if IsCrossed() && !old(crossedAtLastBoundary) then 1 else 0)
    {
      var crossed := IsCrossed();
      if crossed && !crossedAtLastBoundary {
        stats := stats.(crossedObserved := stats.crossedObserved + 1);
      }
      crossedAtLastBoundary := crossed;
    }

    // ----- reading the book

    function Row(i: nat): BookLevel
      requires i < |levels|
      reads `levels
    {
      BookLevel(ToPrice(cfg, i), levels[i].aggregateSize, levels[i].orderCount, true)
    }

    function BestBid(): BookLevel
      requires Shape()
      reads `levels, `bestBid, `bestAsk, pool
    {
      if bestBid < 0 then NO_LEVEL else Row(bestBid)
    }

    function BestAsk(): BookLevel
      requires Shape()
      reads `levels, `bestBid, `bestAsk, pool
    {
      if bestAsk < 0 then NO_LEVEL else Row(bestAsk)
    }

    // What a row says of its level: fed order by order, the slot's price and the total and number of the orders queued
    // there; fed level by level, the quote.
    lemma RowReported(i: nat)
      requires Valid() && i < |levels|
      ensures i < |book.queues| && forall r :: r in book.queues[i] ==> r in book.orders
      ensures Row(i) == BookLevel(ToPrice(cfg, i), SumSizes(book.orders, book.queues[i]), |book.queues[i]|, true)
    {
      hide Dll, NodesOk, Chain, WellFormed, Refines, ToPrice, NumLevels;
      LevelMeaning(i);
    }

    lemma QuoteReported(i: nat)
      requires LadderValid() && i < |levels| && i in ladder
      ensures Row(i) == BookLevel(ToPrice(cfg, i), ladder[i].size, 1, true)
    {
      hide ToPrice, NumLevels, Chain;
      LevelShown(i);
    }

    lemma PriceOrder(i: int, j: int)
      requires ConfigOk(cfg) && i <= j
      ensures ToPrice(cfg, i) <= ToPrice(cfg, j)
    {
      MulLe(i, j, cfg.tick);
    }

    // Crossed means that the best bid reported is at or above the best ask reported, right or not.
    lemma CrossedReported()
      requires Shape()
      ensures IsCrossed() <==> BestBid().valid && BestAsk().valid && BestBid().priceTicks >= BestAsk().priceTicks
    {
      hide NumLevels;
      if bestBid < bestAsk { MulLe(bestBid + 1, bestAsk, cfg.tick); } else { PriceOrder(bestAsk, bestBid); }
    }

    // While the cached indices are right, the best prices reported are the true ones, with their level's total.
    lemma BestReported()
      requires Valid() && BestRight(book)
      ensures BestBid().valid <==> Buy in book.sides
      ensures BestBid().valid ==>
        && book.sides[bestBid] == Buy && BestBid().priceTicks == ToPrice(cfg, bestBid)
        && (forall r :: r in book.queues[bestBid] ==> r in book.orders)
        && BestBid().aggregateSize == SumSizes(book.orders, book.queues[bestBid])
        && BestBid().orderCount == |book.queues[bestBid]|
        && forall i :: 0 <= i < |book.sides| && book.sides[i] == Buy ==> ToPrice(cfg, i) <= BestBid().priceTicks
      ensures BestAsk().valid <==> Sell in book.sides
      ensures BestAsk().valid ==>
        && book.sides[bestAsk] == Sell && BestAsk().priceTicks == ToPrice(cfg, bestAsk)
        && (forall r :: r in book.queues[bestAsk] ==> r in book.orders)
        && BestAsk().aggregateSize == SumSizes(book.orders, book.queues[bestAsk])
        && BestAsk().orderCount == |book.queues[bestAsk]|
        && forall i :: 0 <= i < |book.sides| && book.sides[i] == Sell ==> BestAsk().priceTicks <= ToPrice(cfg, i)
    {
      hide Dll, NodesOk, Chain, WellFormed, Refines, ToPrice, BestOk, NumLevels;
      PriceFacts();
      BookFacts();
      BestOkMeaning(book.sides, bestBid, bestAsk);
      if bestBid >= 0 {
        LevelMeaning(bestBid);
        forall i | 0 <= i < |book.sides| && book.sides[i] == Buy ensures ToPrice(cfg, i) <= ToPrice(cfg, bestBid) {
          PriceOrder(i, bestBid);
        }
      }
      if bestAsk >= 0 {
        LevelMeaning(bestAsk);
        forall i | 0 <= i < |book.sides| && book.sides[i] == Sell ensures ToPrice(cfg, bestAsk) <= ToPrice(cfg, i) {
          PriceOrder(bestAsk, i);
        }
      }
    }

    // Fed level by level the best prices reported are always the true ones.
    lemma LadderReported()
      requires LadderValid()
      ensures !BestBid().valid ==> forall i :: i in ladder ==> ladder[i].side != Buy
      ensures BestBid().valid ==>
        && bestBid in ladder && ladder[bestBid] == Quote(Buy, BestBid().aggregateSize)
        && BestBid().orderCount == 1
        && BestBid().priceTicks == ToPrice(cfg, bestBid)
        && forall i :: i in ladder && ladder[i].side == Buy ==> i <= bestBid
      ensures !BestAsk().valid ==> forall i :: i in ladder ==> ladder[i].side != Sell
      ensures BestAsk().valid ==>
        && bestAsk in ladder && ladder[bestAsk] == Quote(Sell, BestAsk().aggregateSize)
        && BestAsk().orderCount == 1
        && BestAsk().priceTicks == ToPrice(cfg, bestAsk)
        && forall i :: i in ladder && ladder[i].side == Sell ==> bestAsk <= i
    {
      hide Chain, BestOk, NumLevels;
      var sides := SidesOf(ladder, |levels|);
      BestOkMeaning(sides, bestBid, bestAsk);
      forall i | i in ladder
        ensures 0 <= i < |levels| && sides[i] == ladder[i].side
      {
      }
      if bestBid >= 0 { LevelShown(bestBid); }
      if bestAsk >= 0 { LevelShown(bestAsk); }
    }

    method DepthBids(out: array<BookLevel>, n: nat, ghost sides: seq<Side>) returns (c: nat)
      requires Shape() && SidesAre(levels, sides) && n <= out.Length
      modifies out
      ensures var d := Down(sides, bestBid, n, Buy);
        && c == |d| && (forall k :: 0 <= k < c ==> 0 <= d[k] < |levels| && out[k] == Row(d[k]))
        && forall k :: c <= k < out.Length ==> out[k] == old(out[k])
    {
      hide Chain, NumLevels, ConfigOk, OrderPool.Valid;
      ghost var listed: seq<int> := [];
      c := 0;
      var i := bestBid;
      while i >= 0 && c < n
        invariant -1 <= i < |levels| && c == |listed| <= n
        invariant Down(sides, bestBid, n, Buy) == listed + Down(sides, i, n - c, Buy)
        invariant forall k :: 0 <= k < c ==> 0 <= listed[k] < |levels| && out[k] == Row(listed[k])
        invariant forall k :: c <= k < out.Length ==> out[k] == old(out[k])
        decreases i
      {
        if levels[i].orderCount > 0 && levels[i].side == Buy {
          Listed(listed, i, Down(sides, i - 1, n - c - 1, Buy));
          out[c] := Row(i);
          c := c + 1;
          listed := listed + [i];
        }
        i := i - 1;
      }
      assert listed + [] == listed;
    }

    method DepthAsks(out: array<BookLevel>, n: nat, ghost sides: seq<Side>) returns (c: nat)
      requires Shape() && SidesAre(levels, sides) && n <= out.Length
      modifies out
      ensures var d := if bestAsk < 0 then [] else Up(sides, bestAsk, n, Sell);
        && c == |d| && (forall k :: 0 <= k < c ==> 0 <= d[k] < |levels| && out[k] == Row(d[k]))
        && forall k :: c <= k < out.Length ==> out[k] == old(out[k])
    {
      hide Chain, NumLevels, ConfigOk, OrderPool.Valid;
      c := 0;
      if bestAsk < 0 { return; }
      ghost var listed: seq<int> := [];
      var i := bestAsk;
      while i < |levels| && c < n
        invariant 0 <= i <= |levels| && c == |listed| <= n
        invariant Up(sides, bestAsk, n, Sell) == listed + Up(sides, i, n - c, Sell)
        invariant forall k :: 0 <= k < c ==> 0 <= listed[k] < |levels| && out[k] == Row(listed[k])
        invariant forall k :: c <= k < out.Length ==> out[k] == old(out[k])
        decreases |levels| - i
      {
        if levels[i].orderCount > 0 && levels[i].side == Sell {
          Listed(listed, i, Up(sides, i + 1, n - c - 1, Sell));
          out[c] := Row(i);
          c := c + 1;
          listed := listed + [i];
        }
        i := i + 1;
      }
      assert listed + [] == listed;
    }
  }

  lemma Listed(done: seq<int>, i: int, rest: seq<int>)
    ensures done + ([i] + rest) == done + [i] + rest
  {
  }

  // ----- whole runs

  // A book driven through any events and resets: contents and rescan work are those of the abstract run, so the
  // rescans have inspected no more slots than the best prices climbed.
  method Follow(raw: Config, poolChunk: nat, acts: seq<Act>) returns (ob: OrderBook)
    requires NumLevels(Normalise(raw)) <= TWO_32
    ensures fresh(ob) && ob.Valid() && ob.cfg == Normalise(raw)
    ensures var d := Drive(ob.cfg, acts);
      ob.book == d.book && ob.work == d.work && BookBalanced(ob.work, ob.book)
  {
    hide OrderBook.Valid, OrderBook.LadderValid, WellFormed, Apply, EventWork, Dispatched, OrderBook.Shape, EmptyBook,
      BookBalanced, NumLevels;
    ob := new OrderBook(raw, poolChunk);
    for i := 0 to |acts|
      invariant fresh(ob) && fresh(ob.pool) && ob.Valid() && ob.cfg == Normalise(raw)
      invariant ob.book == Drive(ob.cfg, acts[..i]).book && ob.work == Drive(ob.cfg, acts[..i]).work
    {
      assert acts[..i + 1][..i] == acts[..i];
      ob.BookFacts();
      ob.PriceFacts();
      match acts[i] {
        case Event(ev) => ob.Apply(ev);
        case Restart => ob.Reset();
      }
    }
    assert acts[..|acts|] == acts;
    RescanAccount(ob.cfg, acts);
  }

  method FollowLevels(raw: Config, poolChunk: nat, acts: seq<LevelAct>) returns (ob: OrderBook)
    requires NumLevels(Normalise(raw)) <= TWO_32
    ensures fresh(ob) && ob.LadderValid() && ob.cfg == Normalise(raw)
    ensures var d := DriveLevels(ob.cfg, acts);
      ob.ladder == d.ladder && ob.work == d.work && LadderBalanced(ob.work, ob.ladder, NumLevels(ob.cfg))
  {
    hide OrderBook.Valid, OrderBook.LadderValid, SetWork, OrderBook.Shape, LadderBalanced, LadderBid, LadderAsk,
      NumLevels;
    ob := new OrderBook(raw, poolChunk);
    for i := 0 to |acts|
      invariant fresh(ob) && fresh(ob.pool) && ob.LadderValid() && ob.cfg == Normalise(raw)
      invariant ob.ladder == DriveLevels(ob.cfg, acts[..i]).ladder && ob.work == DriveLevels(ob.cfg, acts[..i]).work
    {
      assert acts[..i + 1][..i] == acts[..i];
      ob.LadderFacts();
      match acts[i] {
        case Set(side, price, size) => ob.SetLevel(side, price, size);
        case Refresh => ob.Reset();
      }
    }
    assert acts[..|acts|] == acts;
    LevelRescanAccount(ob.cfg, acts);
  }
}
