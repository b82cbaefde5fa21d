/** What each kind of event does to the book, in terms of its orders, its queues and its level totals alone. */
module BookEffects {
  import opened BookSpec
  import opened Ladders
  import opened MarketEvents

  // Orders other than ref are as before.
  ghost predicate OthersKept(b: Book, b': Book, ref: nat) {
    b'.orders.Keys - {ref} == b.orders.Keys - {ref} &&
    forall r :: r in b.orders && r in b'.orders && r != ref ==> b'.orders[r] == b.orders[r]
  }

  // Levels other than i have the queue and the owner they had.
  ghost predicate LevelsKept(b: Book, b': Book, i: int) {
    && b'.cfg == b.cfg && |b'.queues| == |b.queues| && |b'.sides| == |b.sides|
    && (forall j :: 0 <= j < |b.queues| && j != i ==> b'.queues[j] == b.queues[j])
    && (forall j :: 0 <= j < |b.sides| && j != i ==> b'.sides[j] == b.sides[j])
  }

  ghost function Total(b: Book, i: nat): nat
    requires WellFormed(b) && i < |b.queues|
  {
    SumSizes(b.orders, b.queues[i])
  }

  // The order at place k of its queue is gone, and nothing else is.
  ghost predicate TakenOut(b: Book, b': Book, ref: nat, k: nat)
    requires WellFormed(b) && WellFormed(b') && ref in b.orders && k < |b.queues[b.orders[ref].level]|
  {
    var was := b.orders[ref];
    var i, q := was.level, b.queues[was.level];
    && ref !in b'.orders && OthersKept(b, b', ref) && LevelsKept(b, b', i)
    && b'.queues[i] == q[..k] + q[k + 1..]
    && b'.sides[i] == (if |q| == 1 then NoSide else b.sides[i])
    && Total(b', i) == Total(b, i) - was.size
  }

  // The order has lost so many shares where it stands, and nothing else has changed.
  ghost predicate Lessened(b: Book, b': Book, ref: nat, shares: nat)
    requires WellFormed(b) && WellFormed(b') && ref in b.orders && shares <= b.orders[ref].size
  {
    var was := b.orders[ref];
    && ref in b'.orders && b'.orders[ref] == was.(size := was.size - shares) && OthersKept(b, b', ref)
    && LevelsKept(b, b', -1) && b'.bestBid == b.bestBid && b'.bestAsk == b.bestAsk
    && Total(b', was.level) == Total(b, was.level) - shares
  }

  // The best prices after the owner s has lost an order at level i: if it was the last one of its best level, the
  // next level of s away from the market, and otherwise what they were.
  ghost predicate BestFellBack(b: Book, b': Book, s: Side, i: nat)
    requires WellFormed(b) && WellFormed(b') && i < |b'.queues|
  {
    && (if s == Buy && b'.queues[i] == [] && i == b.bestBid
        then b'.bestBid < i && (b'.bestBid >= 0 ==> b'.sides[b'.bestBid] == Buy) &&
             forall j :: b'.bestBid < j < i ==> b'.sides[j] != Buy
        else b'.bestBid == b.bestBid)
    && (if s == Sell && b'.queues[i] == [] && i == b.bestAsk
        then (b'.bestAsk >= 0 ==> b'.bestAsk > i && b'.sides[b'.bestAsk] == Sell) &&
             forall j :: i < j < (if b'.bestAsk >= 0 then b'.bestAsk else |b'.sides|) ==> b'.sides[j] != Sell
        else b'.bestAsk == b.bestAsk)
  }

  lemma RemoveTakesOut(b: Book, ref: nat, k: nat)
    requires WellFormed(b) && ref in b.orders
    requires var q := b.queues[b.orders[ref].level]; k < |q| && q[k] == ref
    ensures WellFormed(Remove(b, ref)) && TakenOut(b, Remove(b, ref), ref, k)
    ensures BestFellBack(b, Remove(b, ref), b.orders[ref].side, b.orders[ref].level)
  {
    hide Highest, Lowest, NumLevels, SumSizes, Without;
    var i := b.orders[ref].level;
    RemoveWellFormed(b, ref);
    WithoutSplit(b.queues[i], k);
    RemoveTotal(b, ref);
    BestAfterRemoval(b, ref);
    hide BestFellBack, WellFormed;
  }

  lemma BestAfterRemoval(b: Book, ref: nat)
    requires WellFormed(b) && ref in b.orders && WellFormed(Remove(b, ref))
    ensures BestFellBack(b, Remove(b, ref), b.orders[ref].side, b.orders[ref].level)
  {
    hide Highest, Lowest, NumLevels, Without;
  }

  lemma RemoveTotal(b: Book, ref: nat)
    requires WellFormed(b) && ref in b.orders && WellFormed(Remove(b, ref))
    ensures Total(Remove(b, ref), b.orders[ref].level) == Total(b, b.orders[ref].level) - b.orders[ref].size
  {
    hide Highest, Lowest, NumLevels, Without;
    var i := b.orders[ref].level;
    SumWithout(b.orders, b.queues[i], ref);
    SumFrame(b.orders, Remove(b, ref).orders, Remove(b, ref).queues[i]);
  }

  // A cancel or an execution of either kind, whatever its size: it takes the smaller of its size and the order's from
  // the order and from the level's total, and the order is gone exactly when nothing is left of it.
  lemma Reduction(b: Book, ev: MarketEvent, k: nat)
    requires WellFormed(b) && ev.kind in {Cancel, Execute, ExecuteWithPrice} && ev.orderRef in b.orders
    requires var q := b.queues[b.orders[ev.orderRef].level]; k < |q| && q[k] == ev.orderRef
    ensures var b', was := Apply(b, ev), b.orders[ev.orderRef];
      && WellFormed(b')
      && (if ev.size >= was.size
          then TakenOut(b, b', ev.orderRef, k) && BestFellBack(b, b', was.side, was.level)
          else Lessened(b, b', ev.orderRef, ev.size))
  {
    hide WellFormed, TakenOut, Lessened, BestFellBack, Remove;
    var ref, was := ev.orderRef, b.orders[ev.orderRef];
    ApplyWellFormed(b, ev);
    ShrinkLessens(b, ref, Min(ev.size, was.size));
    if ev.size >= was.size {
      EmptyTakesOut(b, ref, k);
    }
  }

  lemma ShrinkLessens(b: Book, ref: nat, dec: nat)
    requires WellFormed(b) && ref in b.orders && dec <= b.orders[ref].size
    ensures WellFormed(Shrink(b, ref, dec)) && Lessened(b, Shrink(b, ref, dec), ref, dec)
  {
    ShrinkWellFormed(b, ref, dec);
    var was := b.orders[ref];
    assert ref in b.queues[was.level];
    SumShrink(b.orders, b.queues[was.level], ref, was.(size := was.size - dec));
  }

  // Shrinking an order to nothing before it is removed makes no difference.
  lemma EmptyTakesOut(b: Book, ref: nat, k: nat)
    requires WellFormed(b) && ref in b.orders
    requires var q := b.queues[b.orders[ref].level]; k < |q| && q[k] == ref
    ensures var b1 := Shrink(b, ref, b.orders[ref].size);
      && WellFormed(b1) && WellFormed(Remove(b1, ref)) && TakenOut(b, Remove(b1, ref), ref, k)
      && BestFellBack(b, Remove(b1, ref), b.orders[ref].side, b.orders[ref].level)
  {
    hide Highest, Lowest, NumLevels, WellFormed, TakenOut, BestFellBack, Without;
    var b1 := Shrink(b, ref, b.orders[ref].size);
    ShrinkWellFormed(b, ref, b.orders[ref].size);
    RemoveTakesOut(b, ref, k);
    assert Remove(b1, ref) == Remove(b, ref);
  }

  lemma Deletion(b: Book, ev: MarketEvent, k: nat)
    requires WellFormed(b) && ev.kind == Delete && ev.orderRef in b.orders
    requires var q := b.queues[b.orders[ev.orderRef].level]; k < |q| && q[k] == ev.orderRef
    ensures var b', was := Apply(b, ev), b.orders[ev.orderRef];
      WellFormed(b') && TakenOut(b, b', ev.orderRef, k) && BestFellBack(b, b', was.side, was.level)
  {
    hide WellFormed, TakenOut, BestFellBack, Remove;
    RemoveTakesOut(b, ev.orderRef, k);
  }

  // The order has joined the back of the level its price falls in, has claimed the level if it was empty, and is the
  // best of its side if it is better.
  ghost predicate RestsAtBack(b: Book, b': Book, ref: nat, price: int, size: nat, side: Side)
    requires WellFormed(b) && WellFormed(b')
  {
    && ref in b'.orders && OthersKept(b, b', ref)
    && var o := b'.orders[ref];
       && o.price == price && o.size == size && o.side == side
       && o.level < |b.queues| && ToPrice(b.cfg, o.level) <= price < ToPrice(b.cfg, o.level + 1)
       && LevelsKept(b, b', o.level) && b'.queues[o.level] == b.queues[o.level] + [ref]
       && b'.sides[o.level] == (if b.queues[o.level] == [] then side else b.sides[o.level])
       && Total(b', o.level) == Total(b, o.level) + size
       && b'.bestBid == (if side == Buy && o.level > b.bestBid then o.level else b.bestBid)
       && b'.bestAsk == (if side == Sell && (b.bestAsk == -1 || o.level < b.bestAsk) then o.level else b.bestAsk)
  }

  // An add of a new ref within the band rests; any other add is ignored.
  lemma Addition(b: Book, ev: MarketEvent)
    requires WellFormed(b) && ev.kind == Add
    ensures var b' := Apply(b, ev);
      && WellFormed(b')
      && if ev.orderRef !in b.orders && b.cfg.minPrice <= ev.priceTicks <= b.cfg.maxPrice
         then RestsAtBack(b, b', ev.orderRef, ev.priceTicks, ev.size, ev.side)
         else b' == b
  {
    hide NumLevels, WellFormed, OnAdd, Total, ToIndex, ToPrice;
    ApplyWellFormed(b, ev);
    AddShape(b, ev.orderRef, ev.side, ev.priceTicks, ev.size);
    if ev.orderRef !in b.orders && b.cfg.minPrice <= ev.priceTicks <= b.cfg.maxPrice {
      SlotOf(b.cfg, ev.priceTicks);
      AddTotal(b, ev.orderRef, ev.side, ev.priceTicks, ev.size);
    }
  }

  lemma SlotOf(c: Config, price: int)
    requires ConfigOk(c) && c.minPrice <= price <= c.maxPrice
    ensures var i := ToIndex(c, price); i >= 0 && ToPrice(c, i) <= price < ToPrice(c, i + 1)
  {
    hide ToIndex, NumLevels;
    TickFlooring(c, price);
    NextPrice(c, ToIndex(c, price));
  }

  lemma AddShape(b: Book, ref: nat, side: Side, price: int, size: nat)
    requires WellFormed(b)
    ensures ConfigOk(b.cfg) && b.bestBid >= -1 && b.bestAsk >= -1 && |b.queues| == |b.sides|
    ensures var i, b' := ToIndex(b.cfg, price), OnAdd(b, ref, side, price, size);
      && (i < 0 <==> price < b.cfg.minPrice || price > b.cfg.maxPrice)
      && (if i < 0 || ref in b.orders then b' == b
          else i < |b.queues| &&
               b' == Book(b.cfg, b.orders[ref := Resting(price, size, side, i)], b.queues[i := b.queues[i] + [ref]],
                          if b.queues[i] == [] then b.sides[i := side] else b.sides,
                          if side == Buy && i > b.bestBid then i else b.bestBid,
                          if side == Sell && (b.bestAsk == -1 || i < b.bestAsk) then i else b.bestAsk))
  {
  }

  lemma AddTotal(b: Book, ref: nat, side: Side, price: int, size: nat)
    requires WellFormed(b) && ref !in b.orders && ToIndex(b.cfg, price) >= 0
    requires WellFormed(OnAdd(b, ref, side, price, size))
    ensures var i := ToIndex(b.cfg, price);
      Total(OnAdd(b, ref, side, price, size), i) == Total(b, i) + size
  {
    hide NumLevels, ToIndex;
    var i := ToIndex(b.cfg, price);
    var b', q := OnAdd(b, ref, side, price, size), b.queues[i];
    assert (q + [ref])[..|q|] == q;
    SumFrame(b.orders, b'.orders, q);
  }

  lemma NextPrice(c: Config, i: int)
    ensures ToPrice(c, i + 1) == ToPrice(c, i) + c.tick
  {
  }

  // A replace is a delete of the order and an add of the new one with the old one's side.
  lemma ReplaceIsDeleteThenAdd(b: Book, ev: MarketEvent)
    requires WellFormed(b) && ev.kind == Replace && ev.orderRef in b.orders
    ensures WellFormed(Apply(b, ev.(kind := Delete)))
    ensures Apply(b, ev) ==
      Apply(Apply(b, ev.(kind := Delete)), ev.(kind := Add, orderRef := ev.newOrderRef, side := b.orders[ev.orderRef].side))
  {
    hide WellFormed, OnAdd, Remove;
    ApplyWellFormed(b, ev.(kind := Delete));
  }

  // What names an order the book does not have, and what is not about orders, leaves the book as it is.
  lemma Ignored(b: Book, ev: MarketEvent)
    requires WellFormed(b)
    requires ev.kind in {Cancel, Execute, ExecuteWithPrice, Delete, Replace} ==> ev.orderRef !in b.orders
    requires ev.kind != Add
    ensures Apply(b, ev) == b
  {
    hide WellFormed;
  }

  // With right best prices, the book is crossed exactly when some bid level is at or above some ask level.
  lemma CrossedMeaning(b: Book)
    requires WellFormed(b) && BestOk(b.sides, b.bestBid, b.bestAsk)
    ensures Crossed(b) <==>
      exists i, j :: 0 <= j <= i < |b.sides| && b.sides[i] == Buy && b.sides[j] == Sell
  {
    hide WellFormed, BestOk;
    BestOkMeaning(b.sides, b.bestBid, b.bestAsk);
  }
}
