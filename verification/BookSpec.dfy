/**
 The order book as a value: a map of live orders, one FIFO queue of order refs per price level, the
 side that owns each level and the two cached best indices. The class OrderBook refines these functions;
 this module proves what they mean.
 */
module BookSpec {
  import opened Arith
  import opened MarketEvents

  // ----- configuration and tick arithmetic

  datatype Config = Config(minPrice: int, maxPrice: int, tick: int)

  predicate ConfigOk(c: Config) {
    c.tick >= 1 && c.minPrice <= c.maxPrice
  }

  // What the constructor makes of the configuration it is given: a valid one is kept, and of an invalid one only what
  // makes it so is changed.
  function Normalise(raw: Config): (c: Config)
    ensures ConfigOk(c) && c.minPrice == raw.minPrice
    ensures raw.tick >= 1 ==> c.tick == raw.tick
    ensures raw.minPrice <= raw.maxPrice ==> c.maxPrice == raw.maxPrice
    ensures raw.tick < 1 ==> c.tick == 1
    ensures raw.minPrice > raw.maxPrice ==> NumLevels(c) == 1
  {
    var tick := if raw.tick < 1 then 1 else raw.tick;
    var maxPrice := if raw.maxPrice < raw.minPrice then raw.minPrice else raw.maxPrice;
    Config(raw.minPrice, maxPrice, tick)
  }

  function NumLevels(c: Config): (n: nat)
    requires ConfigOk(c)
    ensures n >= 1
  {
    (c.maxPrice - c.minPrice) / c.tick + 1
  }

  function ToIndex(c: Config, price: int): (i: int)
    requires ConfigOk(c)
    ensures -1 <= i < NumLevels(c)
    ensures i == -1 <==> price < c.minPrice || price > c.maxPrice
  {
    if price < c.minPrice || price > c.maxPrice then -1
    else
      DivLe(0, price - c.minPrice, c.tick);
      DivLe(price - c.minPrice, c.maxPrice - c.minPrice, c.tick);
      (price - c.minPrice) / c.tick
  }

  function ToPrice(c: Config, index: int): int {
    c.minPrice + index * c.tick
  }

  // Slot prices are the floor of the price to the tick grid, every slot is the slot of its own price, and the slots of
  // the band run from 0 to the last one.
  lemma TickFlooring(c: Config, price: int)
    requires ConfigOk(c) && c.minPrice <= price <= c.maxPrice
    ensures ToPrice(c, ToIndex(c, price)) <= price < ToPrice(c, ToIndex(c, price)) + c.tick
    ensures ToIndex(c, ToPrice(c, ToIndex(c, price))) == ToIndex(c, price)
    ensures ToIndex(c, c.minPrice) == 0 && ToIndex(c, c.maxPrice) == NumLevels(c) - 1
  {
    var i := ToIndex(c, price);
    DivUnique(i * c.tick, c.tick, i);
  }

  // ----- the book

  // A live order; level is the slot its price falls in.
  datatype Resting = Resting(price: int, size: nat, side: Side, level: nat)

  datatype Book = Book(
    cfg: Config,
    orders: map<nat, Resting>,
    queues: seq<seq<nat>>,
    sides: seq<Side>,
    bestBid: int,
    bestAsk: int)

  ghost predicate NoDup<T>(q: seq<T>) {
    forall i, j :: 0 <= i < j < |q| ==> q[i] != q[j]
  }

  ghost predicate WellFormed(b: Book) {
    && ConfigOk(b.cfg)
    && |b.queues| == |b.sides| == NumLevels(b.cfg)
    && (forall r :: r in b.orders ==> b.orders[r].level < |b.queues| && r in b.queues[b.orders[r].level])
    && (forall i, r {:trigger r in b.queues[i]} :: 0 <= i < |b.queues| && r in b.queues[i] ==>
          r in b.orders && b.orders[r].level == i)
    && (forall i :: 0 <= i < |b.queues| ==> NoDup(b.queues[i]))
    && (forall i :: 0 <= i < |b.queues| && b.queues[i] == [] ==> b.sides[i] == NoSide)
    && -1 <= b.bestBid < |b.queues|
    && -1 <= b.bestAsk < |b.queues|
  }

  function EmptyBook(c: Config): (b: Book)
    requires ConfigOk(c)
    ensures WellFormed(b)
  {
    Book(c, map[], seq(NumLevels(c), _ => []), seq(NumLevels(c), _ => NoSide), -1, -1)
  }

  // The total resting size of a queue.
  function SumSizes(orders: map<nat, Resting>, q: seq<nat>): nat
    requires forall r :: r in q ==> r in orders
  {
    if q == [] then 0 else SumSizes(orders, q[..|q| - 1]) + orders[q[|q| - 1]].size
  }

  function Without(q: seq<nat>, ref: nat): (r: seq<nat>)
    ensures forall x :: x in r <==> x in q && x != ref
  {
    if q == [] then []
    else if q[|q| - 1] == ref then Without(q[..|q| - 1], ref)
    else Without(q[..|q| - 1], ref) + [q[|q| - 1]]
  }

  // The highest level at or below i that s owns, or -1.
  function Highest(sides: seq<Side>, i: int, s: Side): (j: int)
    requires -1 <= i < |sides|
    ensures -1 <= j <= i
    ensures j >= 0 ==> sides[j] == s
    ensures forall k :: j < k <= i ==> sides[k] != s
    decreases i + 1
  {
    if i < 0 || sides[i] == s then i else Highest(sides, i - 1, s)
  }

  // The lowest level at or above i that s owns, or -1.
  function Lowest(sides: seq<Side>, i: int, s: Side): (j: int)
    requires 0 <= i <= |sides|
    ensures j == -1 || i <= j < |sides|
    ensures j >= 0 ==> sides[j] == s
    ensures forall k :: i <= k < (if j >= 0 then j else |sides|) ==> sides[k] != s
    decreases |sides| - i
  {
    if i == |sides| then -1 else if sides[i] == s then i else Lowest(sides, i + 1, s)
  }

  predicate Crossed(b: Book) {
    b.bestBid >= 0 && b.bestAsk >= 0 && b.bestBid >= b.bestAsk
  }

  function OnAdd(b: Book, ref: nat, side: Side, price: int, size: nat): Book
    requires WellFormed(b)
  {
    var i := ToIndex(b.cfg, price);
    if i < 0 || ref in b.orders then b
    else b.(
      orders := b.orders[ref := Resting(price, size, side, i)],
      queues := b.queues[i := b.queues[i] + [ref]],
      sides := if b.queues[i] == [] then b.sides[i := side] else b.sides,
      bestBid := if side == Buy && (b.bestBid < 0 || i > b.bestBid) then i else b.bestBid,
      bestAsk := if side == Sell && (b.bestAsk < 0 || i < b.bestAsk) then i else b.bestAsk)
  }

  function Remove(b: Book, ref: nat): Book
    requires WellFormed(b) && ref in b.orders
  {
    var i, side := b.orders[ref].level, b.orders[ref].side;
    var queue := Without(b.queues[i], ref);
    var sides := if queue == [] then b.sides[i := NoSide] else b.sides;
    b.(
      orders := b.orders - {ref},
      queues := b.queues[i := queue],
      sides := sides,
      bestBid := if queue == [] && side == Buy && i == b.bestBid then Highest(sides, i - 1, Buy) else b.bestBid,
      bestAsk := if queue == [] && side == Sell && i == b.bestAsk then Lowest(sides, i + 1, Sell) else b.bestAsk)
  }

  function Shrink(b: Book, ref: nat, dec: nat): Book
    requires ref in b.orders && dec <= b.orders[ref].size
  {
    b.(orders := b.orders[ref := b.orders[ref].(size := b.orders[ref].size - dec)])
  }

  function Min(a: nat, b: nat): nat { if a <= b then a else b }

  function Reduce(b: Book, ref: nat, shares: nat): Book
    requires WellFormed(b) && ref in b.orders
  {
    var b1 := Shrink(b, ref, Min(shares, b.orders[ref].size));
    ShrinkWellFormed(b, ref, Min(shares, b.orders[ref].size));
    if b1.orders[ref].size == 0 then Remove(b1, ref) else b1
  }

  function Apply(b: Book, ev: MarketEvent): Book
    requires WellFormed(b)
  {
    match ev.kind
    case Add => OnAdd(b, ev.orderRef, ev.side, ev.priceTicks, ev.size)
    case Cancel | Execute | ExecuteWithPrice =>
      if ev.orderRef in b.orders then Reduce(b, ev.orderRef, ev.size) else b
    case Delete =>
      if ev.orderRef in b.orders then Remove(b, ev.orderRef) else b
    case Replace =>
      if ev.orderRef in b.orders then
        RemoveWellFormed(b, ev.orderRef);
        OnAdd(Remove(b, ev.orderRef), ev.newOrderRef, b.orders[ev.orderRef].side, ev.priceTicks, ev.size)
      else b
    case _ => b
  }

  // ----- queues

  function SetOf(a: seq<nat>): set<nat> {
    set k | k in a
  }

  lemma {:induction false} DistinctSize(q: seq<nat>)
    requires NoDup(q)
    ensures |SetOf(q)| == |q|
  {
    if q == [] {
      assert SetOf(q) == {};
    } else {
      var front, x := q[..|q| - 1], q[|q| - 1];
      DistinctSize(front);
      assert SetOf(q) == SetOf(front) + {x} && x !in front;
    }
  }

  lemma {:induction false} WithoutAbsent(q: seq<nat>, ref: nat)
    requires ref !in q
    ensures Without(q, ref) == q
  {
    if q != [] {
      WithoutAbsent(q[..|q| - 1], ref);
    }
  }

  // Removing an order leaves everyone else where they were in the queue.
  lemma {:induction false} WithoutSplit(q: seq<nat>, k: nat)
    requires NoDup(q) && k < |q|
    ensures Without(q, q[k]) == q[..k] + q[k + 1..]
  {
    var last := |q| - 1;
    if k == last {
      WithoutAbsent(q[..last], q[k]);
    } else {
      WithoutSplit(q[..last], k);
      assert q[k + 1..] == q[..last][k + 1..] + [q[last]];
      assert q[..last][..k] == q[..k];
    }
  }

  lemma WithoutNoDup(q: seq<nat>, ref: nat)
    requires NoDup(q) && ref in q
    ensures NoDup(Without(q, ref))
  {
    var k :| 0 <= k < |q| && q[k] == ref;
    WithoutSplit(q, k);
  }

  lemma {:induction false} SumFrame(a: map<nat, Resting>, b: map<nat, Resting>, q: seq<nat>)
    requires forall r :: r in q ==> r in a && r in b && a[r].size == b[r].size
    ensures SumSizes(a, q) == SumSizes(b, q)
  {
    if q != [] {
      SumFrame(a, b, q[..|q| - 1]);
    }
  }

  lemma {:induction false} SumWithout(orders: map<nat, Resting>, q: seq<nat>, ref: nat)
    requires NoDup(q) && ref in q && forall r :: r in q ==> r in orders
    ensures SumSizes(orders, Without(q, ref)) == SumSizes(orders, q) - orders[ref].size
  {
    hide NoDup;
    var last := |q| - 1;
    FrontNoDup(q);
    if q[last] == ref {
      WithoutAbsent(q[..last], ref);
    } else {
      SumWithout(orders, q[..last], ref);
      SumMore(orders, Without(q[..last], ref), q[last]);
    }
  }

  lemma FrontNoDup(q: seq<nat>)
    requires NoDup(q) && q != []
    ensures NoDup(q[..|q| - 1]) && q[|q| - 1] !in q[..|q| - 1]
  {
  }

  lemma SumMore(orders: map<nat, Resting>, q: seq<nat>, r: nat)
    requires r in orders && forall x :: x in q ==> x in orders
    ensures SumSizes(orders, q + [r]) == SumSizes(orders, q) + orders[r].size
  {
    assert (q + [r])[..|q|] == q;
  }

  lemma {:induction false} SumShrink(orders: map<nat, Resting>, q: seq<nat>, ref: nat, rest: Resting)
    requires NoDup(q) && ref in q && forall r :: r in q ==> r in orders
    ensures SumSizes(orders[ref := rest], q) == SumSizes(orders, q) - orders[ref].size + rest.size
  {
    var last := |q| - 1;
    if q[last] == ref {
      SumFrame(orders, orders[ref := rest], q[..last]);
    } else {
      SumShrink(orders, q[..last], ref, rest);
    }
  }

  // ----- every event keeps the book well formed

  lemma AddWellFormed(b: Book, ref: nat, side: Side, price: int, size: nat)
    requires WellFormed(b)
    ensures WellFormed(OnAdd(b, ref, side, price, size))
  {
    var i := ToIndex(b.cfg, price);
    if i >= 0 && ref !in b.orders {
      var b' := OnAdd(b, ref, side, price, size);
      assert ref !in b.queues[i];
      assert ref in b'.queues[i] by { assert b'.queues[i][|b.queues[i]|] == ref; }
    }
  }

  lemma RemoveWellFormed(b: Book, ref: nat)
    requires WellFormed(b) && ref in b.orders
    ensures WellFormed(Remove(b, ref))
  {
    WithoutNoDup(b.queues[b.orders[ref].level], ref);
  }

  lemma ShrinkWellFormed(b: Book, ref: nat, dec: nat)
    requires WellFormed(b) && ref in b.orders && dec <= b.orders[ref].size
    ensures WellFormed(Shrink(b, ref, dec))
  {
    var b' := Shrink(b, ref, dec);
    assert forall r :: r in b'.orders ==> b'.orders[r].level == b.orders[r].level;
  }

  lemma ApplyWellFormed(b: Book, ev: MarketEvent)
    requires WellFormed(b)
    ensures WellFormed(Apply(b, ev))
  {
    hide WellFormed;
    match ev.kind
    case Add => AddWellFormed(b, ev.orderRef, ev.side, ev.priceTicks, ev.size);
    case Cancel | Execute | ExecuteWithPrice =>
      if ev.orderRef in b.orders {
        var dec := Min(ev.size, b.orders[ev.orderRef].size);
        ShrinkWellFormed(b, ev.orderRef, dec);
        if dec == b.orders[ev.orderRef].size {
          RemoveWellFormed(Shrink(b, ev.orderRef, dec), ev.orderRef);
        }
      }
    case Delete =>
      if ev.orderRef in b.orders { RemoveWellFormed(b, ev.orderRef); }
    case Replace =>
      if ev.orderRef in b.orders {
        RemoveWellFormed(b, ev.orderRef);
        AddWellFormed(Remove(b, ev.orderRef), ev.newOrderRef, b.orders[ev.orderRef].side, ev.priceTicks, ev.size);
      }
    case _ =>
  }
}
