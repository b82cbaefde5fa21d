/**
 The synthetic feed generator: it keeps a vector of live orders, so that what it cancels, executes, deletes and
 replaces is resting, and prices bids and asks in disjoint bands around a fixed mid.
 */
module Generators {
  import opened BookLaws
  import opened BookSpec
  import opened Framing
  import opened Ladders
  import opened MarketEvents
  import opened OrderBooks
  import opened Wire

  const MID := 1_000_000
  const BAND := 50
  const MAX_LIVE := 20_000

  // The configuration of a book that is given none.
  const DEFAULT_CONFIG := Config(1, 2_000_000, 1)

  datatype Live = Live(ref: u64, side: byte, px: int, sz: u32)

  // ----- replaying a feed into a default book

  datatype Replayed = Replayed(book: Book, stats: Stats)

  // Event by event, as the order book's apply does.
  function Replay(evs: seq<MarketEvent>): (r: Replayed)
    ensures WellFormed(r.book) && r.book.cfg == DEFAULT_CONFIG
  {
    if evs == [] then Replayed(EmptyBook(DEFAULT_CONFIG), ZERO_STATS)
    else
      var r, ev := Replay(evs[..|evs| - 1]), evs[|evs| - 1];
      ApplyWellFormed(r.book, ev);
      var b, st := Apply(r.book, ev), Dispatched(r.stats, r.book, ev);
      Replayed(b, st.(applied := st.applied + 1, crossedObserved := st.crossedObserved + if Crossed(b) then 1 else 0))
  }

  // Its book is that of the plain run.
  lemma {:induction false} ReplayIsRun(evs: seq<MarketEvent>)
    ensures Replay(evs).book == ApplyAll(EmptyBook(DEFAULT_CONFIG), evs)
  {
    hide WellFormed, Apply, Dispatched, EmptyBook, NumLevels;
    if evs != [] { ReplayIsRun(evs[..|evs| - 1]); }
  }

  function EventsOf(ms: seq<Message>): (evs: seq<MarketEvent>)
    requires forall i :: 0 <= i < |ms| ==> Encodable(ms[i])
    ensures |evs| == |ms| && forall i :: 0 <= i < |evs| ==> evs[i] == EventOf(ms[i])
  {
    seq(|ms|, i requires 0 <= i < |ms| => EventOf(ms[i]))
  }

  // ----- the live vector mirrors the book

  predicate PriceOk(side: Side, px: int) {
    (side == Buy && MID - 1 - BAND <= px <= MID - 1) || (side == Sell && MID + 1 <= px <= MID + 1 + BAND)
  }

  function Rests(l: Live): Resting {
    Resting(l.px, l.sz, DecodeSide(l.side), if l.px >= 1 then l.px - 1 else 0)
  }

  function Refs(live: seq<Live>): (rs: seq<nat>)
    ensures |rs| == |live| && forall k :: 0 <= k < |rs| ==> rs[k] == live[k].ref
  {
    seq(|live|, k requires 0 <= k < |live| => live[k].ref)
  }

  predicate LiveOk(l: Live, nextRef: nat) {
    1 <= l.ref < nextRef && 1 <= l.sz <= 1000 && PriceOk(DecodeSide(l.side), l.px)
  }

  // The book's orders are the live ones: same refs, sides, prices and sizes.
  ghost predicate Mirrors(orders: map<nat, Resting>, live: seq<Live>) {
    && (forall k :: 0 <= k < |live| ==> live[k].ref in orders && orders[live[k].ref] == Rests(live[k]))
    && (forall r :: r in orders ==> r in Refs(live))
    && NoDup(Refs(live))
  }

  ghost predicate AllLive(live: seq<Live>, nextRef: nat) {
    forall k :: 0 <= k < |live| ==> LiveOk(live[k], nextRef)
  }

  // Bids rest below the mid and asks above it.
  ghost predicate Split(b: Book) {
    forall r :: r in b.orders ==> PriceOk(b.orders[r].side, b.orders[r].price) && b.orders[r].level == b.orders[r].price - 1
  }

  ghost predicate Sound(b: Book) {
    WellFormed(b) && b.cfg == DEFAULT_CONFIG && Uniform(b) && BestRight(b)
  }

  lemma MirrorsSplit(b: Book, live: seq<Live>, nextRef: nat)
    requires Mirrors(b.orders, live) && AllLive(live, nextRef)
    ensures Split(b)
  {
    forall r | r in b.orders
      ensures PriceOk(b.orders[r].side, b.orders[r].price) && b.orders[r].level == b.orders[r].price - 1
    {
      var k :| 0 <= k < |live| && Refs(live)[k] == r;
      assert b.orders[r] == Rests(live[k]) && LiveOk(live[k], nextRef);
    }
  }

  lemma NeverCrossed(b: Book)
    requires Sound(b) && Split(b)
    ensures !Crossed(b)
  {
    BestOkMeaning(b.sides, b.bestBid, b.bestAsk);
    if b.bestBid >= 0 && b.bestAsk >= 0 {
      var x, y := b.queues[b.bestBid][0], b.queues[b.bestAsk][0];
      assert x in b.queues[b.bestBid] && y in b.queues[b.bestAsk];
    }
  }

  // A level of the band holds its own side only.
  lemma LandsApart(b: Book, side: Side, px: int)
    requires WellFormed(b) && b.cfg == DEFAULT_CONFIG && Uniform(b) && Split(b) && PriceOk(side, px)
    ensures ToIndex(b.cfg, px) == px - 1 && Lands(b, side, px)
  {
    var i := ToIndex(b.cfg, px);
    assert i == px - 1;
    if b.queues[i] != [] {
      var r := b.queues[i][0];
      assert r in b.queues[i];
    }
  }

  lemma StaysSound(b: Book, ev: MarketEvent)
    requires Sound(b) && SameSide(b, ev)
    ensures Sound(Apply(b, ev))
  {
    hide WellFormed, Uniform, BestRight, SameSide, Hazard, Apply;
    UniformStep(b, ev);
    BestExact(b, ev);
    ApplyWellFormed(b, ev);
    AppliedConfig(b, ev);
  }

  lemma AppliedConfig(b: Book, ev: MarketEvent)
    requires WellFormed(b)
    ensures Apply(b, ev).cfg == b.cfg
  {
    hide WellFormed;
  }

  // ----- one message at a time

  // What a message does to the live vector.
  function SwapRemove(live: seq<Live>, i: nat): seq<Live>
    requires i < |live|
  {
    live[i := live[|live| - 1]][..|live| - 1]
  }

  lemma MirrorsAdd(orders: map<nat, Resting>, live: seq<Live>, l: Live)
    requires Mirrors(orders, live) && l.ref !in orders
    ensures Mirrors(orders[l.ref := Rests(l)], live + [l])
  {
    var live' := live + [l];
    assert Refs(live') == Refs(live) + [l.ref];
  }

  lemma MirrorsSet(orders: map<nat, Resting>, live: seq<Live>, i: nat, l: Live)
    requires Mirrors(orders, live) && i < |live| && (l.ref == live[i].ref || l.ref !in orders)
    ensures Mirrors((orders - {live[i].ref})[l.ref := Rests(l)], live[i := l])
  {
    var live', refs := live[i := l], Refs(live);
    assert Refs(live') == refs[i := l.ref];
    forall r | r in orders && r != live[i].ref
      ensures r in Refs(live')
    {
      var k :| 0 <= k < |live| && refs[k] == r;
      assert Refs(live')[k] == r;
    }
    assert Refs(live')[i] == l.ref;
  }

  lemma MirrorsDrop(orders: map<nat, Resting>, live: seq<Live>, i: nat)
    requires Mirrors(orders, live) && i < |live|
    ensures Mirrors(orders - {live[i].ref}, SwapRemove(live, i))
  {
    var live', refs, n := SwapRemove(live, i), Refs(live), |live| - 1;
    assert Refs(live') == refs[i := refs[n]][..n];
    forall r | r in orders && r != live[i].ref
      ensures r in Refs(live')
    {
      var k :| 0 <= k < |live| && refs[k] == r;
      assert Refs(live')[if k == n then i else k] == r;
    }
  }

  lemma FreshRef(orders: map<nat, Resting>, live: seq<Live>, nextRef: nat)
    requires Mirrors(orders, live) && AllLive(live, nextRef)
    ensures nextRef !in orders
  {
    assert forall k :: 0 <= k < |live| ==> LiveOk(live[k], nextRef) && Refs(live)[k] < nextRef;
    assert nextRef !in Refs(live);
  }

  lemma AddStep(b: Book, live: seq<Live>, l: Live, ev: MarketEvent)
    requires Sound(b) && Mirrors(b.orders, live) && AllLive(live, l.ref) && LiveOk(l, l.ref + 1)
    requires ev.kind == Add && ev.orderRef == l.ref && ev.side == DecodeSide(l.side)
    requires ev.priceTicks == l.px && ev.size == l.sz
    ensures var b' := Apply(b, ev); Sound(b') && Mirrors(b'.orders, live + [l])
    ensures ToIndex(b.cfg, l.px) >= 0
  {
    hide Uniform, BestRight, NumLevels, Lands, Split, NoDup;
    FreshRef(b.orders, live, l.ref);
    MirrorsSplit(b, live, l.ref);
    LandsApart(b, DecodeSide(l.side), l.px);
    MirrorsAdd(b.orders, live, l);
    StaysSound(b, ev);
  }

  lemma Facts(b: Book, live: seq<Live>, i: nat)
    requires Sound(b) && Mirrors(b.orders, live) && i < |live|
    ensures WellFormed(b) && live[i].ref in b.orders && b.orders[live[i].ref] == Rests(live[i])
  {
    hide WellFormed, Uniform, BestRight;
  }

  lemma ReducedOrders(b: Book, ref: nat, shares: nat)
    requires WellFormed(b) && ref in b.orders && b.orders[ref].size >= 1
    ensures Reduce(b, ref, shares).orders ==
      if shares >= b.orders[ref].size then b.orders - {ref}
      else (b.orders - {ref})[ref := b.orders[ref].(size := b.orders[ref].size - shares)]
  {
    hide WellFormed, Highest, Lowest, Without, NumLevels;
  }

  lemma ReduceStep(b: Book, live: seq<Live>, i: nat, shares: u32, ev: MarketEvent)
    requires Sound(b) && Mirrors(b.orders, live) && i < |live| && 1 <= shares <= live[i].sz
    requires ev.kind in {Cancel, Execute} && ev.orderRef == live[i].ref && ev.size == shares
    ensures ev.orderRef in b.orders
    ensures Sound(Apply(b, ev))
    ensures Mirrors(Apply(b, ev).orders, if shares >= live[i].sz then SwapRemove(live, i)
                                         else live[i := live[i].(sz := live[i].sz - shares)])
  {
    hide Sound, Mirrors, WellFormed, Reduce, Remove, BookSpec.OnAdd;
    Facts(b, live, i);
    StaysSound(b, ev);
    var l := live[i];
    ReducedOrders(b, l.ref, shares);
    if shares >= l.sz {
      MirrorsDrop(b.orders, live, i);
    } else {
      MirrorsSet(b.orders, live, i, l.(sz := l.sz - shares));
    }
  }

  lemma DeleteStep(b: Book, live: seq<Live>, i: nat, ev: MarketEvent)
    requires Sound(b) && Mirrors(b.orders, live) && i < |live| && ev.kind == Delete && ev.orderRef == live[i].ref
    ensures ev.orderRef in b.orders
    ensures var b' := Apply(b, ev); Sound(b') && Mirrors(b'.orders, SwapRemove(live, i))
  {
    hide Uniform, BestRight, NumLevels, WellFormed, NoDup, Highest, Lowest, Without;
    StaysSound(b, ev);
    MirrorsDrop(b.orders, live, i);
  }

  lemma ReplaceStep(b: Book, live: seq<Live>, i: nat, l: Live, ev: MarketEvent)
    requires Sound(b) && Mirrors(b.orders, live) && AllLive(live, l.ref) && i < |live|
    requires LiveOk(l, l.ref + 1) && l.side == live[i].side
    requires ev.kind == Replace && ev.orderRef == live[i].ref && ev.newOrderRef == l.ref
    requires ev.priceTicks == l.px && ev.size == l.sz
    ensures ev.orderRef in b.orders && ToIndex(b.cfg, l.px) >= 0
    ensures var b' := Apply(b, ev); Sound(b') && Mirrors(b'.orders, live[i := l])
  {
    hide Uniform, BestRight, NumLevels, WellFormed, NoDup, Highest, Lowest, Without, Split, Lands;
    FreshRef(b.orders, live, l.ref);
    MirrorsSplit(b, live, l.ref);
    RemoveWellFormed(b, ev.orderRef);
    var b1 := Remove(b, ev.orderRef);
    RemoveUniform(b, ev.orderRef);
    SplitLess(b, b1, ev.orderRef);
    LandsApart(b1, DecodeSide(l.side), l.px);
    MirrorsSet(b.orders, live, i, l);
    StaysSound(b, ev);
  }

  lemma SplitLess(b: Book, b1: Book, ref: nat)
    requires Split(b) && b1.orders == b.orders - {ref}
    ensures Split(b1)
  {
  }

  // ----- the generator

  // Everything that holds between two messages.
  ghost predicate Good(sent: seq<Message>, live: seq<Live>, nextRef: nat) {
    && (forall i :: 0 <= i < |sent| ==> Encodable(sent[i]))
    && AllLive(live, nextRef)
    && var r := Replay(EventsOf(sent));
       && Sound(r.book) && Mirrors(r.book.orders, live)
       && r.stats.unknownRef == r.stats.rejectedOutOfBand == r.stats.crossedObserved == 0
       && r.stats.applied == |sent|
  }

  lemma ReplayMore(evs: seq<MarketEvent>, ev: MarketEvent)
    ensures var r, r' := Replay(evs), Replay(evs + [ev]);
      && r'.book == Apply(r.book, ev)
      && r'.stats.unknownRef == Dispatched(r.stats, r.book, ev).unknownRef
      && r'.stats.rejectedOutOfBand == Dispatched(r.stats, r.book, ev).rejectedOutOfBand
      && r'.stats.applied == Dispatched(r.stats, r.book, ev).applied + 1
      && r'.stats.crossedObserved ==
         Dispatched(r.stats, r.book, ev).crossedObserved + if Crossed(r'.book) then 1 else 0
  {
    hide Apply, WellFormed, Dispatched, Crossed, NumLevels;
    assert (evs + [ev])[..|evs|] == evs;
  }

  // An event that names a resting order and a price within the band raises no complaint.
  lemma CleanDispatch(st: Stats, b: Book, ev: MarketEvent)
    requires ConfigOk(b.cfg)
    requires ev.kind in {Cancel, Execute, ExecuteWithPrice, Delete, Replace} ==> ev.orderRef in b.orders
    requires ev.kind in {Add, Replace} ==> ToIndex(b.cfg, ev.priceTicks) >= 0
    ensures var st' := Dispatched(st, b, ev);
      && st'.unknownRef == st.unknownRef && st'.rejectedOutOfBand == st.rejectedOutOfBand
      && st'.crossedObserved == st.crossedObserved && st'.applied == st.applied
  {
    hide ToIndex;
  }

  // One more message keeps a feed good, if it does to the book what it does to the live vector and names
  // resting orders and prices within the band only.
  lemma OneMore(sent: seq<Message>, m: Message, live: seq<Live>, nextRef: nat, live': seq<Live>, nextRef': nat)
    requires Good(sent, live, nextRef) && Encodable(m) && AllLive(live', nextRef')
    requires var b, ev := Replay(EventsOf(sent)).book, EventOf(m);
      && Sound(Apply(b, ev)) && Mirrors(Apply(b, ev).orders, live')
      && (ev.kind in {Cancel, Execute, ExecuteWithPrice, Delete, Replace} ==> ev.orderRef in b.orders)
      && (ev.kind in {Add, Replace} ==> ToIndex(b.cfg, ev.priceTicks) >= 0)
    ensures Good(sent + [m], live', nextRef')
  {
    hide Sound, Mirrors, AllLive, Apply, Encodable, EventOf, WellFormed, Split, ToIndex, Dispatched, Replay, Crossed;
    var evs, ev := EventsOf(sent), EventOf(m);
    assert EventsOf(sent + [m]) == evs + [ev];
    ReplayMore(evs, ev);
    CleanDispatch(Replay(evs).stats, Replay(evs).book, ev);
    MirrorsSplit(Apply(Replay(evs).book, ev), live', nextRef');
    NeverCrossed(Apply(Replay(evs).book, ev));
  }

  lemma DispatchCountsNoCross(st: Stats, b: Book, ev: MarketEvent)
    requires ConfigOk(b.cfg)
    ensures Dispatched(st, b, ev).crossedObserved == st.crossedObserved
  {
    hide ToIndex;
  }

  lemma CountedStep(evs: seq<MarketEvent>)
    ensures evs == [] ==> Replay(evs).stats.crossedObserved == 0 && !Crossed(Replay(evs).book)
    ensures evs != [] ==>
      Replay(evs).stats.crossedObserved ==
      Replay(evs[..|evs| - 1]).stats.crossedObserved + if Crossed(Replay(evs).book) then 1 else 0
  {
    hide Apply, WellFormed, Dispatched, NumLevels;
    if evs != [] {
      var r := Replay(evs[..|evs| - 1]);
      DispatchCountsNoCross(r.stats, r.book, evs[|evs| - 1]);
    }
  }

  // The order book counts every time an event leaves it crossed.
  lemma {:induction false} CrossedCounted(evs: seq<MarketEvent>)
    ensures Replay(evs).stats.crossedObserved == 0 <==> forall k :: 0 <= k <= |evs| ==> !Crossed(Replay(evs[..k]).book)
  {
    hide Replay, Crossed, WellFormed;
    CountedStep(evs);
    assert evs[..|evs|] == evs;
    if evs != [] {
      var before := evs[..|evs| - 1];
      CrossedCounted(before);
      assert forall k :: 0 <= k <= |before| ==> before[..k] == evs[..k];
    }
  }

  lemma NothingSent()
    ensures Good([], [], 1)
  {
    hide Uniform, BestRight, WellFormed, NumLevels;
    NewBookRight(DEFAULT_CONFIG);
    assert EventsOf([]) == [];
  }

  lemma GoodEncodes(sent: seq<Message>, live: seq<Live>, nextRef: nat)
    requires Good(sent, live, nextRef)
    ensures forall i :: 0 <= i < |sent| ==> Encodable(sent[i])
  {
  }

  lemma GoodSizes(sent: seq<Message>, live: seq<Live>, nextRef: nat, i: nat)
    requires Good(sent, live, nextRef) && i < |live|
    ensures LiveOk(live[i], nextRef) && live[i].sz >= 1 && live[i].side in {Code('B'), Code('S')}
  {
  }

  lemma PayloadsMore(ms: seq<Message>, m: Message)
    requires (forall i :: 0 <= i < |ms| ==> Encodable(ms[i])) && Encodable(m)
    ensures Payloads(ms + [m]) == Payloads(ms) + [Encode(m)]
  {
    hide Encode;
  }

  lemma AddSent(sent: seq<Message>, live: seq<Live>, l: Live, ts: u64, symbol: seq<byte>)
    requires Good(sent, live, l.ref) && LiveOk(l, l.ref + 1) && |symbol| == 8
    ensures Good(sent + [AddOrder(ts, l.ref, l.side, l.sz, symbol, l.px)], live + [l], l.ref + 1)
  {
    hide Sound, Mirrors, Apply, WellFormed;
    var m, b := AddOrder(ts, l.ref, l.side, l.sz, symbol, l.px), Replay(EventsOf(sent)).book;
    AddStep(b, live, l, EventOf(m));
    OneMore(sent, m, live, l.ref, live + [l], l.ref + 1);
  }

  // An execution or a partial cancel of a live order.
  lemma ReduceSent(sent: seq<Message>, live: seq<Live>, nextRef: nat, i: nat, shares: u32, m: Message, live': seq<Live>)
    requires Good(sent, live, nextRef) && i < |live| && 1 <= shares <= live[i].sz
    requires (m.Executed? || m.Cancelled?) && m.ref == live[i].ref && m.shares == shares
    requires live' == if shares >= live[i].sz then SwapRemove(live, i) else live[i := live[i].(sz := live[i].sz - shares)]
    ensures Good(sent + [m], live', nextRef)
  {
    hide Sound, Mirrors, Apply, WellFormed;
    ReduceStep(Replay(EventsOf(sent)).book, live, i, shares, EventOf(m));
    OneMore(sent, m, live, nextRef, live', nextRef);
  }

  lemma DeleteSent(sent: seq<Message>, live: seq<Live>, nextRef: nat, i: nat, ts: u64)
    requires Good(sent, live, nextRef) && i < |live|
    ensures Good(sent + [Deleted(ts, live[i].ref)], SwapRemove(live, i), nextRef)
  {
    hide Sound, Mirrors, Apply, WellFormed;
    var m := Deleted(ts, live[i].ref);
    DeleteStep(Replay(EventsOf(sent)).book, live, i, EventOf(m));
    OneMore(sent, m, live, nextRef, SwapRemove(live, i), nextRef);
  }

  lemma ReplaceSent(sent: seq<Message>, live: seq<Live>, i: nat, l: Live, ts: u64)
    requires Good(sent, live, l.ref) && i < |live| && LiveOk(l, l.ref + 1) && l.side == live[i].side
    ensures Good(sent + [Replaced(ts, live[i].ref, l.ref, l.sz, l.px)], live[i := l], l.ref + 1)
  {
    hide Sound, Mirrors, Apply, WellFormed;
    var m := Replaced(ts, live[i].ref, l.ref, l.sz, l.px);
    ReplaceStep(Replay(EventsOf(sent)).book, live, i, l, EventOf(m));
    OneMore(sent, m, live, l.ref, live[i := l], l.ref + 1);
  }

  // Trades and system events leave the book alone.
  lemma TapeSent(sent: seq<Message>, live: seq<Live>, nextRef: nat, m: Message)
    requires Good(sent, live, nextRef) && (m.System? || m.Traded?) && Encodable(m)
    ensures Good(sent + [m], live, nextRef)
  {
    hide Sound, Mirrors, WellFormed, Apply, EventOf, ToIndex;
    OffTheBook(Replay(EventsOf(sent)).book, m);
    OneMore(sent, m, live, nextRef, live, nextRef);
  }

  lemma OffTheBook(b: Book, m: Message)
    requires WellFormed(b) && (m.System? || m.Traded?) && Encodable(m)
    ensures EventOf(m).kind in {SystemEvent, Trade} && Apply(b, EventOf(m)) == b
  {
    hide WellFormed;
  }

  // ----- numbers, clock and mix

  function RefsUsed(ms: seq<Message>): nat {
    if ms == [] then 0
    else RefsUsed(ms[..|ms| - 1]) + if ms[|ms| - 1].AddOrder? || ms[|ms| - 1].Replaced? then 1 else 0
  }

  function MatchesUsed(ms: seq<Message>): nat {
    if ms == [] then 0
    else MatchesUsed(ms[..|ms| - 1]) + if ms[|ms| - 1].Executed? || ms[|ms| - 1].Traded? then 1 else 0
  }

  const OPENING: nat := 34_200_000_000_000

  // How far the clock has moved, up to its wrap.
  predicate Ticked(before: nat, after: nat) {
    1 <= (after - before) % TWO_64 <= 1000
  }

  // Message i has the next ref, the next match number, and a clock that has moved on.
  predicate StampedAt(ms: seq<Message>, i: nat)
    requires i < |ms|
  {
    && (ms[i].AddOrder? ==> ms[i].ref == RefsUsed(ms[..i]) + 1)
    && (ms[i].Replaced? ==> ms[i].newRef == RefsUsed(ms[..i]) + 1)
    && (ms[i].Executed? || ms[i].Traded? ==> ms[i].matchNo == MatchesUsed(ms[..i]) + 1)
    && Ticked(if i == 0 then OPENING else ms[i - 1].ts, ms[i].ts)
  }

  // Refs and match numbers are handed out one by one from 1 on, and every message is later than the one before.
  ghost predicate Stamped(ms: seq<Message>, ts: nat, nextRef: nat, matchNo: nat) {
    && (forall i :: 0 <= i < |ms| ==> StampedAt(ms, i))
    && ts == (if ms == [] then OPENING else ms[|ms| - 1].ts)
    && nextRef == RefsUsed(ms) + 1 && matchNo == MatchesUsed(ms) + 1
  }

  lemma StampMore(ms: seq<Message>, ts: nat, nextRef: nat, matchNo: nat, m: Message)
    requires Stamped(ms, ts, nextRef, matchNo) && Ticked(ts, m.ts)
    requires (m.AddOrder? ==> m.ref == nextRef) && (m.Replaced? ==> m.newRef == nextRef)
    requires m.Executed? || m.Traded? ==> m.matchNo == matchNo
    ensures Stamped(ms + [m], m.ts, nextRef + (if m.AddOrder? || m.Replaced? then 1 else 0),
                    matchNo + if m.Executed? || m.Traded? then 1 else 0)
  {
    hide Ticked;
    var all := ms + [m];
    assert all[..|ms|] == ms;
    forall i | 0 <= i < |all|
      ensures StampedAt(all, i)
    {
      if i < |ms| { assert StampedAt(ms, i) && all[..i] == ms[..i]; }
    }
  }

  // The orders that rest after these messages.
  ghost function OrdersAfter(ms: seq<Message>): map<nat, Resting> {
    if forall j :: 0 <= j < |ms| ==> Encodable(ms[j]) then Replay(EventsOf(ms)).book.orders else map[]
  }

  predicate Lot(size: nat, most: nat) {
    size % 100 == 0 && 1 <= size / 100 <= most
  }

  // The message fits the orders that rest: it takes no more than is there, and brings what is not.
  predicate Fair(orders: map<nat, Resting>, m: Message) {
    match m
    case System(_, _) => false
    case AddOrder(_, ref, side, size, _, price) => ref !in orders && Lot(size, 10) && PriceOk(DecodeSide(side), price)
    case Executed(_, ref, shares, _) => ref in orders && 1 <= shares <= orders[ref].size
    case ExecutedAt(_, _, _, _, _, _) => false
    case Cancelled(_, ref, shares) => ref in orders && 1 <= shares <= orders[ref].size
    case Deleted(_, ref) => ref in orders
    case Replaced(_, ref, newRef, size, price) =>
      ref in orders && newRef !in orders && Lot(size, 10) && PriceOk(orders[ref].side, price)
    case Traded(_, side, size, _, price, _) => DecodeSide(side) != NoSide && Lot(size, 5) && price == MID
  }

  // Message i is fair, an add when few orders rest, and an execution when the vector is full.
  ghost predicate MixAt(ms: seq<Message>, i: nat)
    requires i < |ms|
  {
    var resting := OrdersAfter(ms[..i]);
    && Fair(resting, ms[i]) && |resting| <= MAX_LIVE
    && (|resting| < 8 ==> ms[i].AddOrder?) && (|resting| >= MAX_LIVE ==> ms[i].Executed?)
  }

  // What the live vector says of the orders that rest.
  lemma LiveRests(sent: seq<Message>, live: seq<Live>, nextRef: nat)
    requires Good(sent, live, nextRef)
    ensures |OrdersAfter(sent)| == |live| && nextRef !in OrdersAfter(sent)
    ensures forall i :: 0 <= i < |live| ==>
      live[i].ref in OrdersAfter(sent) && OrdersAfter(sent)[live[i].ref] == Rests(live[i])
  {
    hide Sound;
    LiveCount(OrdersAfter(sent), live);
    FreshRef(OrdersAfter(sent), live, nextRef);
  }

  lemma LiveCount(orders: map<nat, Resting>, live: seq<Live>)
    requires Mirrors(orders, live)
    ensures |orders| == |live|
  {
    DistinctSize(Refs(live));
    forall r | r in Refs(live)
      ensures r in orders
    {
      var k :| 0 <= k < |live| && Refs(live)[k] == r;
      assert live[k].ref in orders;
    }
    assert orders.Keys == SetOf(Refs(live));
    assert |orders| == |orders.Keys|;
  }

  // Taking some of what a live order has is fair.
  lemma FairTake(sent: seq<Message>, live: seq<Live>, nextRef: nat, i: nat, m: Message)
    requires Good(sent, live, nextRef) && i < |live|
    requires (m.Executed? || m.Cancelled?) && m.ref == live[i].ref && 1 <= m.shares <= live[i].sz
    ensures Fair(OrdersAfter(sent), m)
  {
    hide Good, OrdersAfter;
    LiveRests(sent, live, nextRef);
  }

  // After the opening message, the first n messages keep the mix.
  ghost predicate Mixed(ms: seq<Message>, n: int) {
    n <= |ms| && forall i :: 0 < i < n ==> MixAt(ms, i)
  }

  lemma StillMixed(ms: seq<Message>, m: Message)
    requires Mixed(ms, |ms|)
    ensures Mixed(ms + [m], |ms|)
  {
    hide OrdersAfter, Fair;
    var all := ms + [m];
    forall i | 0 < i < |ms|
      ensures MixAt(all, i)
    {
      assert all[..i] == ms[..i] && MixAt(ms, i);
    }
  }

  lemma MixedMore(ms: seq<Message>, m: Message)
    requires Mixed(ms, |ms|) && Fair(OrdersAfter(ms), m) && |OrdersAfter(ms)| <= MAX_LIVE
    requires (|OrdersAfter(ms)| < 8 ==> m.AddOrder?) && (|OrdersAfter(ms)| >= MAX_LIVE ==> m.Executed?)
    ensures Mixed(ms + [m], |ms| + 1)
  {
    hide OrdersAfter, Fair;
    StillMixed(ms, m);
    assert (ms + [m])[..|ms|] == ms;
  }

  lemma NothingLive(live: seq<Live>, nextRef: nat)
    requires Good([], live, nextRef)
    ensures live == []
  {
    hide Good;
    assert EventsOf([]) == [];
    LiveRests([], live, nextRef);
  }

  class Generator {
    const w: ItchWriter
    const symbol: seq<byte>
    var ts: u64
    var nextRef: nat
    var matchNo: nat
    var live: seq<Live>
    ghost var sent: seq<Message>

    ghost predicate Valid()
      reads this, w
    {
      && w.Valid() && |symbol| == 8
      && Good(sent, live, nextRef)
      && (GoodEncodes(sent, live, nextRef); w.written == Payloads(sent))
      && 1 <= nextRef && nextRef <= w.count + 1 && 1 <= matchNo <= w.count + 1
      && Stamped(sent, ts, nextRef, matchNo)
    }

    constructor (symbol: seq<byte>)
      requires |symbol| == 8
      ensures Valid() && fresh(w) && fresh(w.buf) && sent == []
    {
      hide Good, Stream;
      this.symbol := symbol;
      w := new ItchWriter();
      ts, nextRef, matchNo := OPENING, 1, 1;
      live, sent := [], [];
      new;
      NothingSent();
    }

    // Any of the values a uniform draw can give.
    method Uni(lo: nat, hi: nat) returns (x: nat)
      requires lo <= hi
      ensures lo <= x <= hi
    {
      x :| lo <= x <= hi;
    }

    method Tick()
      modifies `ts
      ensures Ticked(old(ts), ts)
    {
      var d := Uni(1, 1000);
      ts := (ts + d) % TWO_64;
    }

    method RandomPrice(side: byte) returns (px: int)
      requires side in {Code('B'), Code('S')}
      ensures PriceOk(DecodeSide(side), px)
    {
      var d := Uni(0, BAND);
      px := if side == Code('B') then MID - 1 - d else MID + 1 + d;
    }

    method RandomSide() returns (side: byte)
      ensures side in {Code('B'), Code('S')}
    {
      var d := Uni(0, 1);
      side := if d != 0 then Code('B') else Code('S');
    }

    method EmitSystem(code: byte)
      requires Valid()
      modifies this, w, w.buf
      ensures Valid() && w.count == old(w.count) + 1 && |sent| == |old(sent)| + 1 && old(sent) < sent
      ensures sent[|old(sent)|] == System(ts, code) && live == old(live)
    {
      hide Good, Stamped, Ticked, Encode, LiveOk;
      ghost var was := (ts, nextRef, matchNo);
      Tick();
      w.EmitSystem(ts, code);
      TapeSent(sent, live, nextRef, System(ts, code));
      GoodEncodes(sent, live, nextRef);
      PayloadsMore(sent, System(ts, code));
      StampMore(sent, was.0, was.1, was.2, System(ts, code));
      sent := sent + [System(ts, code)];
    }

    method DoAdd()
      requires Valid() && w.count < TWO_64 - 1
      modifies this, w, w.buf
      ensures Valid() && w.count == old(w.count) + 1 && |sent| == |old(sent)| + 1 && old(sent) < sent
      ensures sent[|old(sent)|].AddOrder? && sent[|old(sent)|].symbol == symbol && |live| == |old(live)| + 1 && old(live) < live
      ensures Fair(OrdersAfter(old(sent)), sent[|old(sent)|])
    {
      hide Good, Stamped, OrdersAfter, Ticked, Encode;
      ghost var was := (ts, nextRef, matchNo);
      LiveRests(sent, live, nextRef);
      var ref: u64 := nextRef;
      nextRef := nextRef + 1;
      var side := RandomSide();
      var px := RandomPrice(side);
      var lots := Uni(1, 10);
      var o := Live(ref, side, px, lots * 100);
      Tick();
      w.EmitAdd(ts, o.ref, o.side, o.sz, symbol, o.px);
      AddSent(sent, live, o, ts, symbol);
      GoodEncodes(sent, live, ref);
      PayloadsMore(sent, AddOrder(ts, o.ref, o.side, o.sz, symbol, o.px));
      StampMore(sent, was.0, was.1, was.2, AddOrder(ts, o.ref, o.side, o.sz, symbol, o.px));
      sent := sent + [AddOrder(ts, o.ref, o.side, o.sz, symbol, o.px)];
      live := live + [o];
    }

    method Pick() returns (i: nat)
      requires |live| > 0
      ensures i < |live|
    {
      i := Uni(0, |live| - 1);
    }

    // An execution, or a partial cancel, of up to all of a live order.
    method DoReduce(executed: bool)
      requires Valid() && w.count < TWO_64 - 1 && |live| > 0
      modifies this, w, w.buf
      ensures Valid() && w.count == old(w.count) + 1 && |sent| == |old(sent)| + 1 && old(sent) < sent
      ensures if executed then sent[|old(sent)|].Executed? else sent[|old(sent)|].Cancelled?
      ensures |live| <= |old(live)| && Fair(OrdersAfter(old(sent)), sent[|old(sent)|])
    {
      hide Good, Stamped, OrdersAfter, Fair, Ticked, Encode, LiveOk, Payloads;
      ghost var was := (ts, nextRef, matchNo);
      var i := Pick();
      GoodSizes(sent, live, nextRef, i);
      var shares: u32 := Uni(1, live[i].sz);
      Tick();
      ghost var m := if executed then Executed(ts, live[i].ref, shares, matchNo) else Cancelled(ts, live[i].ref, shares);
      if executed {
        w.EmitExec(ts, live[i].ref, shares, matchNo);
        matchNo := matchNo + 1;
      } else {
        w.EmitCancel(ts, live[i].ref, shares);
      }
      ghost var before := live;
      if shares >= live[i].sz {
        live := SwapRemove(live, i);
      } else {
        live := live[i := live[i].(sz := live[i].sz - shares)];
      }
      FairTake(sent, before, nextRef, i, m);
      ReduceSent(sent, before, nextRef, i, shares, m, live);
      GoodEncodes(sent, before, nextRef);
      PayloadsMore(sent, m);
      StampMore(sent, was.0, was.1, was.2, m);
      sent := sent + [m];
    }

    method DoDelete()
      requires Valid() && |live| > 0
      modifies this, w, w.buf
      ensures Valid() && w.count == old(w.count) + 1 && |sent| == |old(sent)| + 1 && old(sent) < sent
      ensures sent[|old(sent)|].Deleted? && |live| == |old(live)| - 1
      ensures Fair(OrdersAfter(old(sent)), sent[|old(sent)|])
    {
      hide Good, Stamped, OrdersAfter, Ticked, Encode, LiveOk;
      ghost var was := (ts, nextRef, matchNo);
      LiveRests(sent, live, nextRef);
      var i := Pick();
      Tick();
      w.EmitDelete(ts, live[i].ref);
      DeleteSent(sent, live, nextRef, i, ts);
      GoodEncodes(sent, live, nextRef);
      PayloadsMore(sent, Deleted(ts, live[i].ref));
      StampMore(sent, was.0, was.1, was.2, Deleted(ts, live[i].ref));
      sent := sent + [Deleted(ts, live[i].ref)];
      live := SwapRemove(live, i);
    }

    method DoReplace()
      requires Valid() && w.count < TWO_64 - 1 && |live| > 0
      modifies this, w, w.buf
      ensures Valid() && w.count == old(w.count) + 1 && |sent| == |old(sent)| + 1 && old(sent) < sent
      ensures sent[|old(sent)|].Replaced? && |live| == |old(live)|
      ensures Fair(OrdersAfter(old(sent)), sent[|old(sent)|])
    {
      hide Good, Stamped, OrdersAfter, Ticked, Encode;
      ghost var was := (ts, nextRef, matchNo);
      LiveRests(sent, live, nextRef);
      var i := Pick();
      GoodSizes(sent, live, nextRef, i);
      var neu: u64 := nextRef;
      nextRef := nextRef + 1;
      var px := RandomPrice(live[i].side);
      var lots := Uni(1, 10);
      var l := Live(neu, live[i].side, px, lots * 100);
      Tick();
      w.EmitReplace(ts, live[i].ref, neu, l.sz, px);
      ReplaceSent(sent, live, i, l, ts);
      GoodEncodes(sent, live, neu);
      PayloadsMore(sent, Replaced(ts, live[i].ref, neu, l.sz, px));
      StampMore(sent, was.0, was.1, was.2, Replaced(ts, live[i].ref, neu, l.sz, px));
      sent := sent + [Replaced(ts, live[i].ref, neu, l.sz, px)];
      live := live[i := l];
    }

    method EmitTrade()
      requires Valid() && w.count < TWO_64 - 1
      modifies this, w, w.buf
      ensures Valid() && w.count == old(w.count) + 1 && |sent| == |old(sent)| + 1 && old(sent) < sent
      ensures sent[|old(sent)|].Traded? && sent[|old(sent)|].symbol == symbol && live == old(live)
      ensures Fair(OrdersAfter(old(sent)), sent[|old(sent)|])
    {
      hide Good, Stamped, OrdersAfter, Ticked, Encode, LiveOk;
      ghost var was := (ts, nextRef, matchNo);
      LiveRests(sent, live, nextRef);
      Tick();
      var side := RandomSide();
      var lots := Uni(1, 5);
      w.EmitTrade(ts, side, lots * 100, symbol, MID, matchNo);
      ghost var m := Traded(ts, side, lots * 100, symbol, MID, matchNo);
      TapeSent(sent, live, nextRef, m);
      GoodEncodes(sent, live, nextRef);
      PayloadsMore(sent, m);
      StampMore(sent, was.0, was.1, was.2, m);
      sent := sent + [m];
      matchNo := matchNo + 1;
    }

    // One draw of the loop: an add while few orders are live, an execution when the vector is full.
    method SendOne()
      requires Valid() && w.count < TWO_64 - 1 && |live| <= MAX_LIVE
      modifies this, w, w.buf
      ensures Valid() && w.count == old(w.count) + 1 && |sent| == |old(sent)| + 1 && old(sent) < sent && |live| <= MAX_LIVE
      ensures var m, resting := sent[|old(sent)|], |old(live)|;
        Fair(OrdersAfter(old(sent)), m) && (resting < 8 ==> m.AddOrder?) && (resting >= MAX_LIVE ==> m.Executed?)
    {
      hide Good, Stamped, Encode, LiveOk, Fair, OrdersAfter;
      var tooMany := |live| >= MAX_LIVE;
      var tooFew := |live| < 8;
      var roll := Uni(0, 99);
      if tooFew { roll := 0; } else if tooMany { roll := 60; }
      if roll < 50 {
        DoAdd();
      } else if roll < 68 {
        DoReduce(true);
      } else if roll < 80 {
        DoReduce(false);
      } else if roll < 92 {
        DoDelete();
      } else if roll < 99 {
        DoReplace();
      } else {
        EmitTrade();
      }
    }

    // Whatever the draws: the file is the framing of the messages sent, and replaying it into a default book
    // leaves the live orders resting, with no unknown ref, no rejected price and the book never crossed. Between an
    // opening and a closing message the mix is kept.
    method Run(messages: u64)
      requires Valid() && sent == []
      modifies this, w, w.buf
      ensures Valid() && |sent| == if messages < 1 then 2 else messages + 1
      ensures sent[0].System? && sent[0].code == Code('O') && sent[|sent| - 1].System? && sent[|sent| - 1].code == Code('C')
      ensures Mixed(sent, |sent| - 1) && |live| <= MAX_LIVE
    {
      hide Good, Stamped, Encode, LiveOk, MixAt, Fair, OrdersAfter;
      NothingLive(live, nextRef);
      EmitSystem(Code('O'));
      while w.count < messages
        invariant Valid() && 1 <= w.count == |sent| && (w.count <= messages || w.count == 1) && |live| <= MAX_LIVE
        invariant sent[0].System? && sent[0].code == Code('O')
        invariant Mixed(sent, |sent|)
        decreases messages - w.count
      {
        ghost var before := sent;
        LiveRests(sent, live, nextRef);
        SendOne();
        assert sent == before + [sent[|before|]];
        MixedMore(before, sent[|before|]);
      }
      ghost var before := sent;
      EmitSystem(Code('C'));
      assert sent == before + [sent[|before|]];
      StillMixed(before, sent[|before|]);
    }

    // The finished file reads back as the messages sent, and what they do to a default book is known.
    lemma Generated()
      requires Valid()
      ensures var es, r := EventsIn(Frames(w.os)), (GoodEncodes(sent, live, nextRef); Replay(EventsOf(sent)));
        && |es| == |sent| && (forall i :: 0 <= i < |es| ==> es[i] == Some(EventsOf(sent)[i]))
        && Mirrors(r.book.orders, live)
        && r.stats.unknownRef == r.stats.rejectedOutOfBand == 0
        && forall k :: 0 <= k <= |sent| ==> !Crossed(Replay(EventsOf(sent)[..k]).book)
    {
      hide Sound, Mirrors, AllLive, Stream, Frames, Encode, EventOf, Replay;
      var ps := Payloads(sent);
      assert ps[..|sent|] == ps && w.os[..|w.os|] == w.os;
      RoundTrip(sent, |sent|, |w.os|);
      CrossedCounted(EventsOf(sent));
    }
  }

  // An order book fed a list of events ends where the replay does.
  method PlayBack(evs: seq<MarketEvent>) returns (book: OrderBook)
    ensures fresh(book) && book.Valid() && book.book == Replay(evs).book && book.stats == Replay(evs).stats
  {
    hide OrderBook.Valid, OrderBook.LadderValid, WellFormed, Apply, Dispatched;
    book := new OrderBook(DEFAULT_CONFIG, 0x1_0000);
    for i := 0 to |evs|
      invariant fresh(book) && fresh(book.pool) && book.Valid()
      invariant book.book == Replay(evs[..i]).book && book.stats == Replay(evs[..i]).stats
    {
      assert evs[..i + 1][..i] == evs[..i];
      book.Apply(evs[i]);
    }
    assert evs[..|evs|] == evs;
  }
}
