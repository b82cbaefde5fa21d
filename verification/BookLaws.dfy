/** What the abstract book guarantees over any run of events, and exactly when its cached best prices are right. */
module BookLaws {
  import opened BookSpec
  import opened Ladders
  import opened MarketEvents

  // ----- runs

  function ApplyAll(b: Book, evs: seq<MarketEvent>): (r: Book)
    requires WellFormed(b)
    ensures WellFormed(r) && r.cfg == b.cfg
  {
    if evs == [] then b
    else
      var before := ApplyAll(b, evs[..|evs| - 1]);
      ApplyWellFormed(before, evs[|evs| - 1]);
      Apply(before, evs[|evs| - 1])
  }

  lemma ApplyOneMore(b: Book, evs: seq<MarketEvent>, ev: MarketEvent)
    requires WellFormed(b)
    ensures ApplyAll(b, evs + [ev]) == Apply(ApplyAll(b, evs), ev)
  {
    hide WellFormed, Apply;
    assert (evs + [ev])[..|evs|] == evs;
  }

  // ----- every order rests at the level of its price

  ghost predicate OnGrid(b: Book) {
    ConfigOk(b.cfg) && forall r :: r in b.orders ==> b.orders[r].level == ToIndex(b.cfg, b.orders[r].price)
  }

  lemma {:induction false} OnGridAlways(c: Config, evs: seq<MarketEvent>)
    requires ConfigOk(c)
    ensures OnGrid(ApplyAll(EmptyBook(c), evs))
  {
    if evs != [] {
      OnGridAlways(c, evs[..|evs| - 1]);
      OnGridStep(ApplyAll(EmptyBook(c), evs[..|evs| - 1]), evs[|evs| - 1]);
    }
  }

  lemma OnGridStep(b: Book, ev: MarketEvent)
    requires WellFormed(b) && OnGrid(b)
    ensures OnGrid(Apply(b, ev))
  {
    hide WellFormed, OnGrid;
    var ref := ev.orderRef;
    match ev.kind
    case Add => OnGridAdd(b, ref, ev.side, ev.priceTicks, ev.size);
    case Cancel | Execute | ExecuteWithPrice | Delete =>
      if ref in b.orders { OnGridLess(b, ref, ev.size); }
    case Replace =>
      if ref in b.orders {
        OnGridLess(b, ref, 0);
        RemoveWellFormed(b, ref);
        OnGridAdd(Remove(b, ref), ev.newOrderRef, b.orders[ref].side, ev.priceTicks, ev.size);
      }
    case _ =>
  }

  lemma OnGridAdd(b: Book, ref: nat, side: Side, price: int, size: nat)
    requires WellFormed(b) && OnGrid(b)
    ensures OnGrid(OnAdd(b, ref, side, price, size))
  {
    hide WellFormed;
  }

  lemma OnGridLess(b: Book, ref: nat, shares: nat)
    requires WellFormed(b) && OnGrid(b) && ref in b.orders
    ensures OnGrid(Remove(b, ref)) && OnGrid(Reduce(b, ref, shares))
  {
    hide WellFormed, ToIndex;
    ShrinkWellFormed(b, ref, Min(shares, b.orders[ref].size));
  }

  // ----- time priority

  ghost predicate Before(q: seq<nat>, x: nat, y: nat) {
    exists i, j :: 0 <= i < j < |q| && q[i] == x && q[j] == y
  }

  // The event makes r rest: r was not in the book, or was itself replaced, and is in the book afterwards.
  ghost predicate Places(b: Book, ev: MarketEvent, r: nat)
    requires WellFormed(b)
  {
    r in Apply(b, ev).orders && (r !in b.orders || (ev.kind == Replace && ev.orderRef == r))
  }

  // The last event of a run that made r rest, or -1.
  ghost function Since(c: Config, evs: seq<MarketEvent>, r: nat): (k: int)
    requires ConfigOk(c)
    ensures -1 <= k < |evs|
  {
    if evs == [] then -1
    else
      var n := |evs| - 1;
      if Places(ApplyAll(EmptyBook(c), evs[..n]), evs[n], r) then n else Since(c, evs[..n], r)
  }

  // Along q', those that stayed are in the order they had in q, and any other comes last.
  ghost predicate InTurn(q: seq<nat>, q': seq<nat>, stayed: set<nat>) {
    forall x, y :: Before(q', x, y) ==> x in stayed && (y in stayed ==> Before(q, x, y))
  }

  ghost predicate KeepsOrder(b: Book, b': Book, stayed: set<nat>) {
    && |b'.queues| == |b.queues|
    && forall i :: 0 <= i < |b'.queues| ==> InTurn(b.queues[i], b'.queues[i], stayed)
  }

  lemma SameInTurn(q: seq<nat>, stayed: set<nat>)
    requires forall x :: x in q ==> x in stayed
    ensures InTurn(q, q, stayed)
  {
  }

  lemma BackInTurn(q: seq<nat>, ref: nat, stayed: set<nat>)
    requires ref !in stayed && forall x :: x in q ==> x in stayed
    ensures InTurn(q, q + [ref], stayed)
  {
    var r := q + [ref];
    forall x, y | Before(r, x, y)
      ensures x in stayed && (y in stayed ==> Before(q, x, y))
    {
      var j, k :| 0 <= j < k < |r| && r[j] == x && r[k] == y;
      assert q[j] == x;
      if y in stayed { assert q[k] == y; }
    }
  }

  lemma WithoutInTurn(q: seq<nat>, ref: nat, stayed: set<nat>)
    requires NoDup(q) && ref in q && forall x :: x in q && x != ref ==> x in stayed
    ensures InTurn(q, Without(q, ref), stayed)
  {
    hide Without;
    var w := Without(q, ref);
    var at :| 0 <= at < |q| && q[at] == ref;
    WithoutSplit(q, at);
    forall x, y | Before(w, x, y)
      ensures x in stayed && Before(q, x, y)
    {
      var j, k :| 0 <= j < k < |w| && w[j] == x && w[k] == y;
      assert x in w;
      assert q[if j < at then j else j + 1] == x && q[if k < at then k else k + 1] == y;
    }
  }

  lemma InTurnThen(q: seq<nat>, q1: seq<nat>, q2: seq<nat>, stayed: set<nat>)
    requires InTurn(q, q1, stayed) && InTurn(q1, q2, stayed)
    ensures InTurn(q, q2, stayed)
  {
    hide Before;
  }

  lemma UntouchedKeepsOrder(b: Book, b': Book)
    requires WellFormed(b) && b'.queues == b.queues
    ensures KeepsOrder(b, b', b.orders.Keys)
  {
    hide InTurn;
    forall i | 0 <= i < |b.queues|
      ensures InTurn(b.queues[i], b.queues[i], b.orders.Keys)
    {
      SameInTurn(b.queues[i], b.orders.Keys);
    }
  }

  lemma AddKeepsOrder(b: Book, ref: nat, side: Side, price: int, size: nat)
    requires WellFormed(b)
    ensures KeepsOrder(b, OnAdd(b, ref, side, price, size), b.orders.Keys)
  {
    hide InTurn;
    UntouchedKeepsOrder(b, b);
    if ref !in b.orders && ToIndex(b.cfg, price) >= 0 {
      BackInTurn(b.queues[ToIndex(b.cfg, price)], ref, b.orders.Keys);
    }
  }

  lemma RemoveKeepsOrder(b: Book, ref: nat)
    requires WellFormed(b) && ref in b.orders
    ensures KeepsOrder(b, Remove(b, ref), b.orders.Keys) && KeepsOrder(b, Remove(b, ref), b.orders.Keys - {ref})
  {
    hide InTurn;
    forall stayed: set<nat> | b.orders.Keys - {ref} <= stayed
      ensures KeepsOrder(b, Remove(b, ref), stayed)
    {
      forall i | 0 <= i < |b.queues|
        ensures InTurn(b.queues[i], Remove(b, ref).queues[i], stayed)
      {
        if i == b.orders[ref].level {
          WithoutInTurn(b.queues[i], ref, stayed);
        } else {
          SameInTurn(b.queues[i], stayed);
        }
      }
    }
  }

  lemma KeepsOrderThen(b: Book, b1: Book, b2: Book, stayed: set<nat>)
    requires KeepsOrder(b, b1, stayed) && KeepsOrder(b1, b2, stayed)
    ensures KeepsOrder(b, b2, stayed)
  {
    hide InTurn;
    forall i | 0 <= i < |b2.queues|
      ensures InTurn(b.queues[i], b2.queues[i], stayed)
    {
      InTurnThen(b.queues[i], b1.queues[i], b2.queues[i], stayed);
    }
  }

  // The orders that an event leaves where they are, if it leaves them at all.
  ghost function Stay(b: Book, ev: MarketEvent): set<nat> {
    if ev.kind == Replace then b.orders.Keys - {ev.orderRef} else b.orders.Keys
  }

  // An event puts the order it makes rest behind all the others of its queue, and leaves those in order.
  lemma QueueStep(b: Book, ev: MarketEvent)
    requires WellFormed(b)
    ensures KeepsOrder(b, Apply(b, ev), Stay(b, ev))
  {
    hide WellFormed, KeepsOrder, OnAdd;
    var ref := ev.orderRef;
    UntouchedKeepsOrder(b, b);
    match ev.kind
    case Add =>
      AddKeepsOrder(b, ref, ev.side, ev.priceTicks, ev.size);
    case Replace =>
      if ref in b.orders {
        RemoveWellFormed(b, ref);
        RemoveKeepsOrder(b, ref);
        AddKeepsOrder(Remove(b, ref), ev.newOrderRef, b.orders[ref].side, ev.priceTicks, ev.size);
        KeepsOrderThen(b, Remove(b, ref), Apply(b, ev), b.orders.Keys - {ref});
      } else {
        assert Stay(b, ev) == b.orders.Keys;
      }
    case Cancel | Execute | ExecuteWithPrice =>
      if ref in b.orders {
        var b1 := Shrink(b, ref, Min(ev.size, b.orders[ref].size));
        ShrinkWellFormed(b, ref, Min(ev.size, b.orders[ref].size));
        UntouchedKeepsOrder(b, b1);
        RemoveKeepsOrder(b1, ref);
        assert b1.orders.Keys == b.orders.Keys;
        KeepsOrderThen(b, b1, Remove(b1, ref), b.orders.Keys);
      }
    case Delete =>
      if ref in b.orders { RemoveKeepsOrder(b, ref); }
    case _ =>
  }

  lemma OneWay(q: seq<nat>, x: nat, y: nat)
    requires NoDup(q) && Before(q, x, y)
    ensures x != y && !Before(q, y, x)
  {
  }

  lemma OldRefGone(b: Book, ev: MarketEvent)
    requires WellFormed(b) && ev.kind == Replace && ev.newOrderRef != ev.orderRef
    ensures ev.orderRef !in Apply(b, ev).orders
  {
  }

  // No event lets one resting order overtake another: two orders that are still queued after it, other than
  // one replaced under its own ref, keep their order.
  lemma TimePriority(b: Book, ev: MarketEvent, i: nat, x: nat, y: nat)
    requires WellFormed(b) && i < |b.queues| && Before(b.queues[i], x, y)
    requires ev.kind == Replace ==> ev.orderRef !in {x, y} || ev.newOrderRef != ev.orderRef
    ensures |Apply(b, ev).queues| == |b.queues|
    ensures x in Apply(b, ev).queues[i] && y in Apply(b, ev).queues[i] ==> Before(Apply(b, ev).queues[i], x, y)
  {
    hide Apply;
    QueueStep(b, ev);
    ApplyWellFormed(b, ev);
    if ev.kind == Replace && ev.newOrderRef != ev.orderRef { OldRefGone(b, ev); }
    var q := Apply(b, ev).queues[i];
    if x in q && y in q {
      assert x in b.queues[i] && y in b.queues[i];
      assert x in Stay(b, ev) && y in Stay(b, ev);
      var j, k :| 0 <= j < |q| && 0 <= k < |q| && q[j] == x && q[k] == y;
      OneWay(b.queues[i], x, y);
    }
  }

  // Along every queue the events that made the orders rest rise.
  ghost predicate Fifo(c: Config, evs: seq<MarketEvent>)
    requires ConfigOk(c)
  {
    var b := ApplyAll(EmptyBook(c), evs);
    forall i, x, y :: 0 <= i < |b.queues| && Before(b.queues[i], x, y) ==> Since(c, evs, x) < Since(c, evs, y)
  }

  // First come, first served, over every run; and every order in the book has such an event.
  lemma {:induction false} FirstInFirstOut(c: Config, evs: seq<MarketEvent>)
    requires ConfigOk(c)
    ensures Fifo(c, evs) && forall r :: r in ApplyAll(EmptyBook(c), evs).orders ==> Since(c, evs, r) >= 0
  {
    hide Apply, WellFormed, KeepsOrder, Fifo;
    if evs == [] {
      NoQueues(c);
    } else {
      var n := |evs| - 1;
      FirstInFirstOut(c, evs[..n]);
      FifoStep(c, evs[..n], evs[n]);
      assert evs[..n] + [evs[n]] == evs;
    }
  }

  lemma NoQueues(c: Config)
    requires ConfigOk(c)
    ensures Fifo(c, [])
  {
  }

  lemma FifoStep(c: Config, evs: seq<MarketEvent>, ev: MarketEvent)
    requires ConfigOk(c) && Fifo(c, evs)
    ensures Fifo(c, evs + [ev])
  {
    hide Apply, WellFormed, Before;
    var b, all := ApplyAll(EmptyBook(c), evs), evs + [ev];
    var b' := Apply(b, ev);
    ApplyOneMore(EmptyBook(c), evs, ev);
    assert all[..|evs|] == evs;
    QueueStep(b, ev);
    ApplyWellFormed(b, ev);
    forall i, x, y | 0 <= i < |b'.queues| && Before(b'.queues[i], x, y)
      ensures Since(c, all, x) < Since(c, all, y)
    {
      BeforeLive(b', i, x, y);
      assert !Places(b, ev, x) && Since(c, all, x) == Since(c, evs, x) < |evs|;
    }
  }

  lemma BeforeLive(b: Book, i: nat, x: nat, y: nat)
    requires WellFormed(b) && i < |b.queues| && Before(b.queues[i], x, y)
    ensures x in b.orders && y in b.orders
  {
    assert x in b.queues[i] && y in b.queues[i];
  }

  // A replaced order keeps its side, takes its new price and size, and goes to the back of its new level; of its
  // old level only its own place k goes; every other order and every other queue is as before.
  lemma ReplaceLosesPriority(b: Book, ev: MarketEvent, k: nat)
    requires WellFormed(b) && ev.kind == Replace && ev.orderRef in b.orders
    requires ToIndex(b.cfg, ev.priceTicks) >= 0 && (ev.newOrderRef == ev.orderRef || ev.newOrderRef !in b.orders)
    requires k < |b.queues[b.orders[ev.orderRef].level]| && b.queues[b.orders[ev.orderRef].level][k] == ev.orderRef
    ensures var b', was, i := Apply(b, ev), b.orders[ev.orderRef], ToIndex(b.cfg, ev.priceTicks);
      && b'.orders.Keys == b.orders.Keys - {ev.orderRef} + {ev.newOrderRef}
      && b'.orders[ev.newOrderRef] == Resting(ev.priceTicks, ev.size, was.side, i)
      && (forall r :: r in b.orders && r != ev.orderRef ==> r in b'.orders && b'.orders[r] == b.orders[r])
      && i < |b.queues| == |b'.queues|
      && forall j :: 0 <= j < |b.queues| ==>
           b'.queues[j] == (if j == was.level then b.queues[j][..k] + b.queues[j][k + 1..] else b.queues[j]) +
                           (if j == i then [ev.newOrderRef] else [])
  {
    RemoveWellFormed(b, ev.orderRef);
    WithoutSplit(b.queues[b.orders[ev.orderRef].level], k);
  }

  // Two partial cancels or executions come to the same as one of their sum.
  lemma ReduceAdds(b: Book, ref: nat, x: nat, y: nat)
    requires WellFormed(b) && ref in b.orders && x < b.orders[ref].size
    ensures ref in Reduce(b, ref, x).orders && WellFormed(Reduce(b, ref, x))
    ensures Reduce(Reduce(b, ref, x), ref, y) == Reduce(b, ref, x + y)
  {
    hide WellFormed, Remove;
    ShrinkWellFormed(b, ref, x);
    var b1 := Reduce(b, ref, x);
    ShrinkTwice(b, ref, x, Min(y, b1.orders[ref].size));
  }

  lemma ShrinkTwice(b: Book, ref: nat, x: nat, y: nat)
    requires ref in b.orders && x + y <= b.orders[ref].size
    ensures Shrink(Shrink(b, ref, x), ref, y) == Shrink(b, ref, x + y)
  {
    var rest := b.orders[ref];
    assert b.orders[ref := rest.(size := rest.size - x)][ref := rest.(size := rest.size - x - y)] ==
           b.orders[ref := rest.(size := rest.size - (x + y))];
  }

  // A level's aggregate fits its 64-bit field as long as its count fits the 32-bit one.
  lemma {:induction false} AggregateFits(orders: map<nat, Resting>, q: seq<nat>)
    requires forall r :: r in q ==> r in orders && orders[r].size < TWO_32
    ensures SumSizes(orders, q) <= |q| * (TWO_32 - 1)
    ensures |q| < TWO_32 ==> SumSizes(orders, q) < TWO_64
  {
    if q != [] {
      AggregateFits(orders, q[..|q| - 1]);
    }
  }

  ghost predicate SizesFit(b: Book) {
    forall r :: r in b.orders ==> b.orders[r].size < TWO_32
  }

  lemma SizesStep(b: Book, ev: MarketEvent)
    requires WellFormed(b) && SizesFit(b)
    ensures SizesFit(Apply(b, ev))
  {
    hide WellFormed, ToIndex, Highest, Lowest, Without;
    var ref := ev.orderRef;
    match ev.kind
    case Cancel | Execute | ExecuteWithPrice =>
      if ref in b.orders { ShrinkWellFormed(b, ref, Min(ev.size, b.orders[ref].size)); }
    case Replace =>
      if ref in b.orders { RemoveWellFormed(b, ref); }
    case _ =>
  }

  // Over any run every order's size fits 32 bits, so every level whose count does has an aggregate that fits 64.
  lemma {:induction false} AggregatesAlways(c: Config, evs: seq<MarketEvent>)
    requires ConfigOk(c)
    ensures var b := ApplyAll(EmptyBook(c), evs);
      && SizesFit(b)
      && forall i :: 0 <= i < |b.queues| && |b.queues[i]| < TWO_32 ==>
           (forall r :: r in b.queues[i] ==> r in b.orders) && SumSizes(b.orders, b.queues[i]) < TWO_64
  {
    var b := ApplyAll(EmptyBook(c), evs);
    if evs != [] {
      AggregatesAlways(c, evs[..|evs| - 1]);
      SizesStep(ApplyAll(EmptyBook(c), evs[..|evs| - 1]), evs[|evs| - 1]);
    }
    forall i | 0 <= i < |b.queues| && |b.queues[i]| < TWO_32
      ensures (forall r :: r in b.queues[i] ==> r in b.orders) && SumSizes(b.orders, b.queues[i]) < TWO_64
    {
      assert forall r :: r in b.queues[i] ==> r in b.orders;
      AggregateFits(b.orders, b.queues[i]);
    }
  }

  // ----- when the cached best prices are the true ones

  ghost predicate BestRight(b: Book) {
    BestOk(b.sides, b.bestBid, b.bestAsk)
  }

  // The guard of on_add's best-price update, on a level that another side owns.
  ghost predicate AddHazard(b: Book, side: Side, price: int)
    requires WellFormed(b)
  {
    var i := ToIndex(b.cfg, price);
    && i >= 0 && b.queues[i] != [] && b.sides[i] != side
    && ((side == Buy && i > b.bestBid) || (side == Sell && (b.bestAsk < 0 || i < b.bestAsk)))
  }

  // The last order of a best level is not of the side that owns the level.
  ghost predicate RemoveHazard(b: Book, ref: nat)
    requires WellFormed(b) && ref in b.orders
  {
    var i, s := b.orders[ref].level, b.orders[ref].side;
    && b.queues[i] == [ref] && b.sides[i] != s
    && ((b.sides[i] == Buy && i == b.bestBid) || (b.sides[i] == Sell && i == b.bestAsk))
  }

  lemma AddBest(b: Book, ref: nat, side: Side, price: int, size: nat)
    requires WellFormed(b) && BestRight(b)
    requires ref !in b.orders
    ensures BestRight(OnAdd(b, ref, side, price, size)) <==> !AddHazard(b, side, price)
  {
    hide Highest, Lowest, NumLevels;
    var i := ToIndex(b.cfg, price);
    if i >= 0 {
      OwnerChange(b.sides, i, side, b.bestBid, b.bestAsk);
    }
  }

  lemma WithoutOnly(q: seq<nat>, ref: nat)
    requires NoDup(q) && ref in q
    ensures Without(q, ref) == [] <==> q == [ref]
  {
    if q == [ref] {
      assert Without(q[..0], ref) == [];
    } else {
      var x := if q[0] == ref then q[1] else q[0];
      assert x in Without(q, ref);
    }
  }

  lemma RemoveBest(b: Book, ref: nat)
    requires WellFormed(b) && BestRight(b) && ref in b.orders
    ensures BestRight(Remove(b, ref)) <==> !RemoveHazard(b, ref)
  {
    var i := b.orders[ref].level;
    WithoutOnly(b.queues[i], ref);
    OwnerChange(b.sides, i, NoSide, b.bestBid, b.bestAsk);
    assert b.sides[i := NoSide][i] == NoSide;
  }

  // Whether the event spoils the cached best prices, read off the book before it.
  ghost predicate Hazard(b: Book, ev: MarketEvent)
    requires WellFormed(b)
  {
    var ref := ev.orderRef;
    match ev.kind
    case Add => ref !in b.orders && AddHazard(b, ev.side, ev.priceTicks)
    case Cancel | Execute | ExecuteWithPrice => ref in b.orders && b.orders[ref].size <= ev.size && RemoveHazard(b, ref)
    case Delete => ref in b.orders && RemoveHazard(b, ref)
    case Replace =>
      && ref in b.orders
      && (RemoveWellFormed(b, ref);
          RemoveHazard(b, ref) ||
          (ev.newOrderRef !in Remove(b, ref).orders && AddHazard(Remove(b, ref), b.orders[ref].side, ev.priceTicks)))
    case _ => false
  }

  // Right before, the cached best prices are right after an event exactly when it is no hazard.
  lemma BestExact(b: Book, ev: MarketEvent)
    requires WellFormed(b) && BestRight(b)
    ensures BestRight(Apply(b, ev)) <==> !Hazard(b, ev)
  {
    hide WellFormed, BestRight, AddHazard;
    var ref := ev.orderRef;
    match ev.kind
    case Add =>
      if ref !in b.orders { AddBest(b, ref, ev.side, ev.priceTicks, ev.size); }
    case Cancel | Execute | ExecuteWithPrice =>
      if ref in b.orders { ReduceBest(b, ref, ev.size); }
    case Delete =>
      if ref in b.orders { RemoveBest(b, ref); }
    case Replace =>
      if ref in b.orders {
        RemoveBest(b, ref);
        RemoveWellFormed(b, ref);
        var b1 := Remove(b, ref);
        if BestRight(b1) {
          if ev.newOrderRef !in b1.orders {
            AddBest(b1, ev.newOrderRef, b.orders[ref].side, ev.priceTicks, ev.size);
          }
        } else {
          StaysWrong(b, ref, ev.newOrderRef, ev.priceTicks, ev.size);
        }
      }
    case _ =>
  }

  lemma ReduceBest(b: Book, ref: nat, shares: nat)
    requires WellFormed(b) && BestRight(b) && ref in b.orders
    ensures BestRight(Reduce(b, ref, shares)) <==> !(b.orders[ref].size <= shares && RemoveHazard(b, ref))
  {
    var dec := Min(shares, b.orders[ref].size);
    ShrinkWellFormed(b, ref, dec);
    if dec == b.orders[ref].size {
      RemoveBest(Shrink(b, ref, dec), ref);
    }
  }

  // A best price spoilt by a removal is not repaired by adding the order back elsewhere.
  lemma StaysWrong(b: Book, ref: nat, newRef: nat, price: int, size: nat)
    requires WellFormed(b) && BestRight(b) && ref in b.orders && RemoveHazard(b, ref)
    ensures WellFormed(Remove(b, ref))
    ensures !BestRight(OnAdd(Remove(b, ref), newRef, b.orders[ref].side, price, size))
  {
    RemoveWellFormed(b, ref);
    WithoutOnly([ref], ref);
    var b1 := Remove(b, ref);
    var i, s := b.orders[ref].level, b.orders[ref].side;
    var b2 := OnAdd(b1, newRef, s, price, size);
    assert b1.sides[i] == NoSide && b1.bestBid == b.bestBid && b1.bestAsk == b.bestAsk;
    if b.sides[i] == Buy {
      assert b2.bestBid == i && b2.sides[i] != Buy;
    } else {
      assert b2.bestAsk == i && b2.sides[i] != Sell;
    }
  }

  // ----- both hazards can be reached

  const TWO_LEVELS := Config(1, 2, 1)

  function AddOf(ref: u64, side: Side, price: int): MarketEvent {
    CLEAN_EVENT.(kind := Add, orderRef := ref, side := side, priceTicks := price, size := 100)
  }

  // A bid that joins an ask's level becomes the best bid of a level that asks own.
  lemma AddHazardReached()
    ensures var b := ApplyAll(EmptyBook(TWO_LEVELS), [AddOf(1, Sell, 1)]);
      BestRight(b) && Hazard(b, AddOf(2, Buy, 1)) && !BestRight(Apply(b, AddOf(2, Buy, 1)))
  {
    var b0, ev := EmptyBook(TWO_LEVELS), AddOf(1, Sell, 1);
    ApplyOneMore(b0, [], ev);
    assert [] + [ev] == [ev];
    NewBookRight(TWO_LEVELS);
    ApplyWellFormed(b0, ev);
    BestExact(b0, ev);
    var b := Apply(b0, ev);
    assert b.queues[0] == [1] && b.sides[0] == Sell && b.bestBid == -1;
    BestExact(b, AddOf(2, Buy, 1));
  }

  // An ask below, a bid above it, an ask joining the bid's level, and the bid gone: the book is right, its best bid
  // level holding an ask alone; deleting that ask leaves the best bid at an empty level.
  lemma RemoveHazardReached()
    ensures var evs := [AddOf(1, Sell, 1), AddOf(2, Buy, 2), AddOf(3, Sell, 2), CLEAN_EVENT.(kind := Delete, orderRef := 2)];
      var b, last := ApplyAll(EmptyBook(TWO_LEVELS), evs), CLEAN_EVENT.(kind := Delete, orderRef := 3);
      BestRight(b) && Hazard(b, last) && !BestRight(Apply(b, last))
  {
    hide Apply, WellFormed, EmptyBook, BestRight, Hazard;
    var e0, e1, e2, e3 := AddOf(1, Sell, 1), AddOf(2, Buy, 2), AddOf(3, Sell, 2), CLEAN_EVENT.(kind := Delete, orderRef := 2);
    var b0 := EmptyBook(TWO_LEVELS);
    var b1 := AskBelow();
    var b2 := BidAbove(b1);
    var b3 := AskJoins(b2);
    LeftAlone(b3, e3, CLEAN_EVENT.(kind := Delete, orderRef := 3));
    ApplyOneMore(b0, [], e0);
    ApplyOneMore(b0, [e0], e1);
    ApplyOneMore(b0, [e0, e1], e2);
    ApplyOneMore(b0, [e0, e1, e2], e3);
    assert [] + [e0] == [e0] && [e0] + [e1] == [e0, e1];
    assert [e0, e1] + [e2] == [e0, e1, e2] && [e0, e1, e2] + [e3] == [e0, e1, e2, e3];
  }

  lemma AskBelow() returns (b: Book)
    ensures b == Apply(EmptyBook(TWO_LEVELS), AddOf(1, Sell, 1)) && WellFormed(b) && BestRight(b)
    ensures b.cfg == TWO_LEVELS && b.queues == [[1], []] && b.sides == [Sell, NoSide] && b.bestBid == -1 && b.bestAsk == 0
    ensures b.orders.Keys == {1}
  {
    hide Highest, Lowest, BestRight;
    var b0 := EmptyBook(TWO_LEVELS);
    NewBookRight(TWO_LEVELS);
    b := Apply(b0, AddOf(1, Sell, 1));
    ApplyWellFormed(b0, AddOf(1, Sell, 1));
    BestExact(b0, AddOf(1, Sell, 1));
    assert |b.queues| == 2 && b.queues[0] == [1] && b.queues[1] == [];
    assert b.queues == [[1], []] && b.sides == [Sell, NoSide];
  }

  lemma BidAbove(b1: Book) returns (b: Book)
    requires WellFormed(b1) && BestRight(b1) && b1.cfg == TWO_LEVELS && b1.orders.Keys == {1}
    requires b1.queues == [[1], []] && b1.sides == [Sell, NoSide] && b1.bestBid == -1 && b1.bestAsk == 0
    ensures b == Apply(b1, AddOf(2, Buy, 2)) && WellFormed(b) && BestRight(b) && b.cfg == TWO_LEVELS
    ensures b.queues == [[1], [2]] && b.sides == [Sell, Buy] && b.bestAsk == 0 && b.orders.Keys == {1, 2}
    ensures b.orders[2].level == 1
  {
    hide Highest, Lowest, BestRight;
    b := Apply(b1, AddOf(2, Buy, 2));
    ApplyWellFormed(b1, AddOf(2, Buy, 2));
    BestExact(b1, AddOf(2, Buy, 2));
    assert |b.queues| == 2 && b.queues[0] == [1] && b.queues[1] == [2];
    assert b.queues == [[1], [2]] && b.sides == [Sell, Buy];
  }

  lemma AskJoins(b2: Book) returns (b: Book)
    requires WellFormed(b2) && BestRight(b2) && b2.cfg == TWO_LEVELS && b2.orders.Keys == {1, 2}
    requires b2.queues == [[1], [2]] && b2.sides == [Sell, Buy] && b2.bestAsk == 0 && b2.orders[2].level == 1
    ensures b == Apply(b2, AddOf(3, Sell, 2)) && WellFormed(b) && BestRight(b)
    ensures b.queues == [[1], [2, 3]] && b.sides == [Sell, Buy] && b.orders.Keys == {1, 2, 3}
    ensures b.orders[3].side == Sell && b.orders[2].level == b.orders[3].level == 1
  {
    hide Highest, Lowest, BestRight;
    b := Apply(b2, AddOf(3, Sell, 2));
    ApplyWellFormed(b2, AddOf(3, Sell, 2));
    BestExact(b2, AddOf(3, Sell, 2));
    assert |b.queues| == 2 && b.queues[0] == [1] && b.queues[1] == [2, 3];
    assert b.queues == [[1], [2, 3]];
  }

  lemma LeftAlone(b: Book, ev: MarketEvent, last: MarketEvent)
    requires WellFormed(b) && BestRight(b) && b.queues == [[1], [2, 3]] && b.sides == [Sell, Buy]
    requires b.orders.Keys == {1, 2, 3} && b.orders[3].side == Sell && b.orders[2].level == b.orders[3].level == 1
    requires ev.kind == Delete && ev.orderRef == 2 && last.kind == Delete && last.orderRef == 3
    ensures WellFormed(Apply(b, ev)) && BestRight(Apply(b, ev))
    ensures Hazard(Apply(b, ev), last) && !BestRight(Apply(Apply(b, ev), last))
  {
    hide Highest, Lowest;
    WithoutSplit([2, 3], 0);
    var b' := Apply(b, ev);
    ApplyWellFormed(b, ev);
    BestExact(b, ev);
    assert b'.queues[1] == [3] && b'.sides == b.sides;
    BestOkMeaning(b'.sides, b'.bestBid, b'.bestAsk);
    BestExact(b', last);
  }

  // ----- feeds that keep the sides apart

  // Every order is of the side that owns its level.
  ghost predicate Uniform(b: Book) {
    forall r :: r in b.orders ==> b.orders[r].level < |b.sides| && b.orders[r].side == b.sides[b.orders[r].level]
  }

  predicate Lands(b: Book, side: Side, price: int)
    requires WellFormed(b)
  {
    var i := ToIndex(b.cfg, price);
    i >= 0 ==> b.queues[i] == [] || b.sides[i] == side
  }

  // An add, or the add half of a replace, lands on an empty level or one its side owns already.
  ghost predicate SameSide(b: Book, ev: MarketEvent)
    requires WellFormed(b)
  {
    && (ev.kind == Add ==> Lands(b, ev.side, ev.priceTicks))
    && (ev.kind == Replace && ev.orderRef in b.orders ==>
          (RemoveWellFormed(b, ev.orderRef);
           Lands(Remove(b, ev.orderRef), b.orders[ev.orderRef].side, ev.priceTicks)))
  }

  lemma AddUniform(b: Book, ref: nat, side: Side, price: int, size: nat)
    requires WellFormed(b) && Uniform(b) && Lands(b, side, price)
    ensures Uniform(OnAdd(b, ref, side, price, size)) && !AddHazard(b, side, price)
  {
  }

  lemma RemoveUniform(b: Book, ref: nat)
    requires WellFormed(b) && Uniform(b) && ref in b.orders
    ensures Uniform(Remove(b, ref)) && !RemoveHazard(b, ref)
  {
    var b', i := Remove(b, ref), b.orders[ref].level;
    forall r | r in b'.orders
      ensures b'.orders[r].side == b'.sides[b'.orders[r].level]
    {
      assert r in b.orders && (b.orders[r].level == i ==> r in Without(b.queues[i], ref));
    }
  }

  lemma UniformStep(b: Book, ev: MarketEvent)
    requires WellFormed(b) && Uniform(b) && SameSide(b, ev)
    ensures Uniform(Apply(b, ev)) && !Hazard(b, ev)
  {
    hide WellFormed, Lands, AddHazard, RemoveHazard, Uniform;
    var ref := ev.orderRef;
    match ev.kind
    case Add => AddUniform(b, ref, ev.side, ev.priceTicks, ev.size);
    case Cancel | Execute | ExecuteWithPrice =>
      if ref in b.orders { ReduceUniform(b, ref, ev.size); }
    case Delete =>
      if ref in b.orders { RemoveUniform(b, ref); }
    case Replace =>
      if ref in b.orders {
        RemoveUniform(b, ref);
        RemoveWellFormed(b, ref);
        AddUniform(Remove(b, ref), ev.newOrderRef, b.orders[ref].side, ev.priceTicks, ev.size);
      }
    case _ =>
  }

  lemma ReduceUniform(b: Book, ref: nat, shares: nat)
    requires WellFormed(b) && Uniform(b) && ref in b.orders
    ensures Uniform(Reduce(b, ref, shares)) && !RemoveHazard(b, ref)
  {
    var dec := Min(shares, b.orders[ref].size);
    RemoveUniform(b, ref);
    ShrinkWellFormed(b, ref, dec);
    if dec == b.orders[ref].size {
      RemoveUniform(Shrink(b, ref, dec), ref);
    }
  }

  lemma NewBookRight(c: Config)
    requires ConfigOk(c)
    ensures Uniform(EmptyBook(c)) && BestRight(EmptyBook(c))
  {
  }

  // Best prices are right throughout any run that keeps each level to one side.
  lemma {:induction false} BestAlways(c: Config, evs: seq<MarketEvent>)
    requires ConfigOk(c)
    requires forall k :: 0 <= k < |evs| ==> SameSide(ApplyAll(EmptyBook(c), evs[..k]), evs[k])
    ensures Uniform(ApplyAll(EmptyBook(c), evs)) && BestRight(ApplyAll(EmptyBook(c), evs))
  {
    hide WellFormed, Uniform, BestRight, Hazard, Apply, SameSide;
    NewBookRight(c);
    if evs != [] {
      var before := evs[..|evs| - 1];
      assert forall k :: 0 <= k < |before| ==> before[..k] == evs[..k] && before[k] == evs[k];
      BestAlways(c, before);
      var b := ApplyAll(EmptyBook(c), before);
      UniformStep(b, evs[|evs| - 1]);
      BestExact(b, evs[|evs| - 1]);
    }
  }

  ghost predicate RightAt(c: Config, evs: seq<MarketEvent>, k: nat)
    requires ConfigOk(c) && k <= |evs|
  {
    BestRight(ApplyAll(EmptyBook(c), evs[..k]))
  }

  ghost predicate HazardAt(c: Config, evs: seq<MarketEvent>, k: nat)
    requires ConfigOk(c) && k < |evs|
  {
    Hazard(ApplyAll(EmptyBook(c), evs[..k]), evs[k])
  }

  // Over any run: the best prices are right all along exactly when no event of it is a hazard.
  lemma {:induction false} BestRunExact(c: Config, evs: seq<MarketEvent>, n: nat)
    requires ConfigOk(c) && n <= |evs|
    ensures (forall k :: 0 <= k <= n ==> RightAt(c, evs, k)) <==> forall k :: 0 <= k < n ==> !HazardAt(c, evs, k)
  {
    hide RightAt, HazardAt, WellFormed;
    if n == 0 {
      RightAtStart(c, evs);
    } else {
      BestRunExact(c, evs, n - 1);
      if RightAt(c, evs, n - 1) { RightAtStep(c, evs, n - 1); }
    }
  }

  lemma RightAtStart(c: Config, evs: seq<MarketEvent>)
    requires ConfigOk(c)
    ensures RightAt(c, evs, 0)
  {
    NewBookRight(c);
  }

  lemma RightAtStep(c: Config, evs: seq<MarketEvent>, k: nat)
    requires ConfigOk(c) && k < |evs| && RightAt(c, evs, k)
    ensures RightAt(c, evs, k + 1) <==> !HazardAt(c, evs, k)
  {
    hide WellFormed, BestRight, Hazard, Apply;
    assert evs[..k + 1] == evs[..k] + [evs[k]];
    ApplyOneMore(EmptyBook(c), evs[..k], evs[k]);
    BestExact(ApplyAll(EmptyBook(c), evs[..k]), evs[k]);
  }

  lemma Undone(b: Book, ref: nat, side: Side, price: int, size: nat)
    requires WellFormed(b) && ref !in b.orders && ToIndex(b.cfg, price) >= 0
    ensures WellFormed(OnAdd(b, ref, side, price, size)) && ref in OnAdd(b, ref, side, price, size).orders
    ensures var i, b1 := ToIndex(b.cfg, price), OnAdd(b, ref, side, price, size);
      var b2 := Remove(b1, ref);
      && b2 == b.(bestBid := b2.bestBid, bestAsk := b2.bestAsk)
      && b2.bestBid == (if b.queues[i] == [] && side == Buy && i == b1.bestBid
                        then Highest(b.sides, i - 1, Buy) else b1.bestBid)
      && b2.bestAsk == (if b.queues[i] == [] && side == Sell && i == b1.bestAsk
                        then Lowest(b.sides, i + 1, Sell) else b1.bestAsk)
  {
    hide Highest, Lowest, ToIndex, NumLevels, Without, WellFormed;
    AddWellFormed(b, ref, side, price, size);
    var i, b1 := ToIndex(b.cfg, price), OnAdd(b, ref, side, price, size);
    SlotFacts(b, ref, i);
    var q := b.queues[i];
    WithoutLast(q, ref);
    assert b1.queues[i] == q + [ref] && b1.orders[ref].level == i;
    var b2 := Remove(b1, ref);
    assert b2.orders == b.orders && b2.queues == b.queues && b2.sides == b.sides;
  }

  lemma SlotFacts(b: Book, ref: nat, i: int)
    requires WellFormed(b) && ref !in b.orders && 0 <= i < NumLevels(b.cfg)
    ensures i < |b.queues| == |b.sides| && ref !in b.queues[i] && (b.queues[i] == [] ==> b.sides[i] == NoSide)
  {
  }

  lemma WithoutLast(q: seq<nat>, ref: nat)
    requires ref !in q
    ensures Without(q + [ref], ref) == q
  {
    assert (q + [ref])[..|q|] == q;
    WithoutAbsent(q, ref);
  }

  // Deleting an order just added restores the book, best prices included, exactly when the add was no hazard.
  lemma AddThenDelete(b: Book, ref: nat, side: Side, price: int, size: nat)
    requires WellFormed(b) && BestRight(b) && ref !in b.orders && ToIndex(b.cfg, price) >= 0
    ensures WellFormed(OnAdd(b, ref, side, price, size)) && ref in OnAdd(b, ref, side, price, size).orders
    ensures Remove(OnAdd(b, ref, side, price, size), ref) == b <==> !AddHazard(b, side, price)
  {
    hide Highest, Lowest, NumLevels, Remove, BestRight, Without, ToIndex;
    Undone(b, ref, side, price, size);
    var i, b1 := ToIndex(b.cfg, price), OnAdd(b, ref, side, price, size);
    var b2 := Remove(b1, ref);
    UndoneBest(b, i, side, b1.bestBid, b1.bestAsk, b2.bestBid, b2.bestAsk);
  }

  // The best prices after the add (bid1, ask1) and after the delete (bid2, ask2).
  lemma UndoneBest(b: Book, i: nat, s: Side, bid1: int, ask1: int, bid2: int, ask2: int)
    requires WellFormed(b) && BestRight(b) && i < |b.sides|
    requires bid1 == if s == Buy && (b.bestBid < 0 || i > b.bestBid) then i else b.bestBid
    requires ask1 == if s == Sell && (b.bestAsk < 0 || i < b.bestAsk) then i else b.bestAsk
    requires bid2 == if b.queues[i] == [] && s == Buy && i == bid1 then Highest(b.sides, i - 1, Buy) else bid1
    requires ask2 == if b.queues[i] == [] && s == Sell && i == ask1 then Lowest(b.sides, i + 1, Sell) else ask1
    ensures bid2 == b.bestBid && ask2 == b.bestAsk <==>
            !(b.queues[i] != [] && b.sides[i] != s &&
              ((s == Buy && i > b.bestBid) || (s == Sell && (b.bestAsk < 0 || i < b.bestAsk))))
  {
    HighestIs(b.sides, |b.sides| - 1, Buy, b.bestBid);
    if b.queues[i] == [] && s == Buy && i == bid1 { HighestIs(b.sides, i - 1, Buy, b.bestBid); }
    if b.queues[i] == [] && s == Sell && i == ask1 { LowestIs(b.sides, i + 1, Sell, b.bestAsk); }
  }
}
