/** The consumer thread of the depth feed, updated in place message by message. */
module DepthConsumers {
  import opened BookSpec
  import opened BookState
  import opened DepthResync
  import opened Ladders
  import opened MarketEvents
  import opened OrderBooks

  // A level of the book stands as the exchange's quote at its price does.
  ghost predicate Stands(lvl: PriceLevel, q: Option<Quote>) {
    match q
    case None => lvl == EMPTY_LEVEL
    case Some(quote) => lvl.side == quote.side && lvl.aggregateSize == quote.size && lvl.orderCount == 1
  }

  // The best price reported is the exchange's best bid, or ask, in the band.
  ghost predicate BestIs(c: Config, best: BookLevel, x: Depth, buy: bool) {
    && (!best.valid ==> forall p {:trigger p in SideOf(x, buy)} :: InBand(c, p) ==> p !in SideOf(x, buy))
    && (best.valid ==>
          && InBand(c, best.priceTicks) && best.priceTicks in SideOf(x, buy)
          && best.aggregateSize == SideOf(x, buy)[best.priceTicks]
          && forall p {:trigger p in SideOf(x, buy)} :: InBand(c, p) && p in SideOf(x, buy) ==>
               if buy then p <= best.priceTicks else best.priceTicks <= p)
  }

  class DepthConsumer {
    const book: OrderBook
    var mode: Mode
    var snapId: nat
    var prevU: nat
    var haveEvent: bool
    var curU: nat
    var curApply: bool
    var gaps: nat
    var resyncs: nat

    ghost predicate Valid()
      reads this, book, book.pool
    {
      book.LadderValid()
    }

    ghost function Now(): Tracker
      reads this, book
    {
      Tracker(mode, snapId, prevU, haveEvent, curU, curApply, gaps, resyncs, book.ladder)
    }

    // What the book has seen of crossed event boundaries.
    ghost function Seen(): Watch
      reads book
    {
      Watch(book.crossedAtLastBoundary, book.stats.crossedObserved)
    }

    constructor (raw: Config, poolChunk: nat, s: Snapshot)
      requires NumLevels(Normalise(raw)) <= TWO_32
      ensures Valid() && fresh(book) && fresh(book.pool) && book.cfg == Normalise(raw)
      ensures Now() == Begun(book.cfg, s) && Seen() == Observe(Watch(false, 0), Begun(book.cfg, s).ladder)
    {
      hide OrderBook.LadderValid, OrderBook.Valid, OrderBook.Shape, Observe, LadderCrossed, PutAll, NumLevels, EmptyBook,
        Normalise;
      book := new OrderBook(raw, poolChunk);
      mode, snapId, prevU, haveEvent, curU, curApply, gaps, resyncs := Seeking, s.id, 0, false, 0, false, 0, 0;
      new;
      Load(s.levels);
    }

    method Load(levels: seq<Op>)
      requires Valid()
      modifies book
      ensures Valid() && book.ladder == PutAll(book.cfg, old(book.ladder), levels)
      ensures Seen() == Observe(old(Seen()), book.ladder)
    {
      hide OrderBook.LadderValid, Observe;
      book.LadderFacts();
      for i := 0 to |levels|
        invariant Valid() && ConfigOk(book.cfg) && Seen() == old(Seen())
        invariant PutAll(book.cfg, old(book.ladder), levels) == PutAll(book.cfg, book.ladder, levels[i..])
      {
        book.SetLevel(levels[i].side, levels[i].price, levels[i].size);
      }
      Look();
    }

    method Look()
      requires Valid()
      modifies book`stats, book`crossedAtLastBoundary
      ensures Valid() && Seen() == Observe(old(Seen()), book.ladder)
    {
      hide OrderBook.LadderValid, OrderBook.IsCrossed, LadderCrossed;
      book.LadderCrossing();
      book.ObserveEventBoundary();
    }

    method ReSnapshot(fetched: Option<Snapshot>)
      requires Valid()
      modifies this, book, book.pool
      ensures Valid() && ConfigOk(book.cfg) && Now() == DepthResync.ReSnapshot(book.cfg, old(Now()), fetched)
      ensures Seen() == if fetched.None? then old(Seen()) else
                        Observe(Watch(false, old(Seen()).seen), PutAll(book.cfg, map[], fetched.value.levels))
    {
      hide OrderBook.LadderValid, PutAll, Observe, OrderBook.Valid, OrderBook.Shape, EmptyBook;
      book.LadderFacts();
      resyncs := resyncs + 1;
      if fetched.None? {
        haveEvent := false;
        return;
      }
      book.Reset();
      Load(fetched.value.levels);
      snapId := fetched.value.id;
      prevU := 0;
      mode := Seeking;
      haveEvent := false;
    }

    // A new event begins: apply it, skip it, or find that ids are missing before it.
    method StartEvent(m: Message) returns (lost: bool)
      requires Valid()
      modifies `mode, `prevU, `haveEvent, `curU, `curApply, `gaps, book`stats, book`crossedAtLastBoundary
      ensures Valid() && lost == Judge(old(Now()), m.first, m.last).Lost?
      ensures lost <==> m.last > Base(old(Now())) &&
                        if old(mode).Seeking? then m.first > Base(old(Now())) + 1 else m.first != Base(old(Now())) + 1
      ensures Seen() == if old(haveEvent && curApply) then Observe(old(Seen()), book.ladder) else old(Seen())
      ensures var t := old(Now()).(haveEvent := true, curU := m.first, curApply := false);
        Now() == match Judge(old(Now()), m.first, m.last)
                 case Skip => t
                 case Apply => t.(mode := Streaming, prevU := m.last, curApply := true)
                 case Lost => t.(gaps := t.gaps + if t.mode.Streaming? then 1 else 0)
    {
      hide OrderBook.LadderValid, Observe;
      if haveEvent && curApply { Look(); }
      haveEvent, curU, curApply, lost := true, m.first, false, false;
      if mode.Seeking? {
        if m.last < snapId + 1 {
          curApply := false;
        } else if m.first <= snapId + 1 {
          mode, prevU, curApply := Streaming, m.last, true;
        } else {
          lost := true;
        }
      } else {
        if m.last <= prevU {
          curApply := false;
        } else if m.first == prevU + 1 {
          prevU, curApply := m.last, true;
        } else {
          gaps := gaps + 1;
          lost := true;
        }
      }
    }

    // One message off the channel; fetched is what a snapshot request would return, should one be needed.
    method Receive(m: Message, fetched: Option<Snapshot>)
      requires Valid()
      modifies this, book, book.pool
      ensures Valid() && ConfigOk(book.cfg) && Now() == DepthResync.Receive(book.cfg, old(Now()), m, fetched)
      ensures Seen() == Watched(book.cfg, old(Seen()), old(Now()), m, fetched)
    {
      hide OrderBook.LadderValid, PutAll, OrderBook.Valid, OrderBook.Shape, Observe;
      book.LadderFacts();
      if !haveEvent || m.first != curU {
        var lost := StartEvent(m);
        if lost {
          ReSnapshot(fetched);
          return;
        }
      }
      if curApply && m.op.Some? {
        book.SetLevel(m.op.value.side, m.op.value.price, m.op.value.size);
      }
    }

    // A whole run: the consumer is where the model run says.
    method Consume(ms: seq<Message>, f: Fetches)
      requires Valid()
      modifies this, book, book.pool
      ensures Valid() && ConfigOk(book.cfg) && Now() == Feed(book.cfg, old(Now()), ms, f)
      ensures Seen() == WatchAll(book.cfg, old(Seen()), old(Now()), ms, f)
    {
      hide OrderBook.LadderValid, DepthResync.Receive, OrderBook.Valid, Watched;
      book.LadderFacts();
      for i := 0 to |ms|
        invariant Valid() && ConfigOk(book.cfg)
        invariant WatchAll(book.cfg, old(Seen()), old(Now()), ms, f) == WatchAll(book.cfg, Seen(), Now(), ms[i..], f)
        invariant Feed(book.cfg, old(Now()), ms, f) == Feed(book.cfg, Now(), ms[i..], f)
      {
        assert ms[i..][1..] == ms[i + 1..];
        Receive(ms[i], f(resyncs));
        book.LadderFacts();
      }
      assert ms[|ms|..] == [];
    }

    // When the ladder is exact the real book is: every level of the band, and both best prices.
    lemma ShowsExchange(x: Exchange)
      requires Valid() && BandOk(book.cfg) && ExchangeOk(x) && Exact(book.cfg, x, Now())
      ensures book.Shape() && forall p :: InBand(book.cfg, p) ==>
        0 <= p - book.cfg.minPrice < |book.levels| &&
        Stands(book.levels[p - book.cfg.minPrice], QuoteAt(x(Base(Now())), p))
      ensures BestIs(book.cfg, book.BestBid(), x(Base(Now())), true)
      ensures BestIs(book.cfg, book.BestAsk(), x(Base(Now())), false)
    {
      hide OrderBook.LadderValid, NumLevels, BestIs, Stands, ExchangeOk;
      book.LadderFacts();
      var d := x(Base(Now()));
      assert DepthOk(d) by { ExchangeAt(x, Base(Now())); }
      forall p | InBand(book.cfg, p)
        ensures 0 <= p - book.cfg.minPrice < |book.levels|
        ensures Stands(book.levels[p - book.cfg.minPrice], QuoteAt(d, p))
      {
        BandIndex(book.cfg, p);
        book.LevelShown(p - book.cfg.minPrice);
        assert QuoteAt(d, p) == DepthResync.At(book.ladder, p - book.cfg.minPrice);
        StandsAs(p, d);
      }
      BestShown(d);
    }

    lemma StandsAs(p: int, d: Depth)
      requires Valid() && BandOk(book.cfg) && 0 <= p - book.cfg.minPrice < |book.levels|
      requires QuoteAt(d, p) == DepthResync.At(book.ladder, p - book.cfg.minPrice)
      ensures Stands(book.levels[p - book.cfg.minPrice], QuoteAt(d, p))
    {
      hide OrderBook.LadderValid, NumLevels;
      book.LevelShown(p - book.cfg.minPrice);
    }

    lemma BestShown(d: Depth)
      requires Valid() && BandOk(book.cfg) && DepthOk(d) && Mirrors(book.cfg, book.ladder, d)
      ensures book.Shape()
      ensures BestIs(book.cfg, book.BestBid(), d, true) && BestIs(book.cfg, book.BestAsk(), d, false)
    {
      hide OrderBook.LadderValid, Mirrors, OrderBook.Shape, BestIs;
      book.LadderFacts();
      BidShown(d);
      AskShown(d);
    }

    lemma BidShown(d: Depth)
      requires Valid() && book.Shape() && BandOk(book.cfg) && DepthOk(d) && Mirrors(book.cfg, book.ladder, d)
      ensures BestIs(book.cfg, book.BestBid(), d, true)
    {
      hide OrderBook.LadderValid, Mirrors, NumLevels, OrderBook.Shape;
      book.LadderReported();
      InRangeOf(d);
      forall p | InBand(book.cfg, p)
        ensures p in d.bids ==> book.BestBid().valid && p <= book.BestBid().priceTicks
      {
        QuoteShown(d, p);
      }
      if book.BestBid().valid { QuoteShown(d, book.BestBid().priceTicks); }
    }

    lemma AskShown(d: Depth)
      requires Valid() && book.Shape() && BandOk(book.cfg) && DepthOk(d) && Mirrors(book.cfg, book.ladder, d)
      ensures BestIs(book.cfg, book.BestAsk(), d, false)
    {
      hide OrderBook.LadderValid, Mirrors, NumLevels, OrderBook.Shape;
      book.LadderReported();
      InRangeOf(d);
      forall p | InBand(book.cfg, p)
        ensures p in d.asks ==> book.BestAsk().valid && book.BestAsk().priceTicks <= p
      {
        QuoteShown(d, p);
      }
      if book.BestAsk().valid { QuoteShown(d, book.BestAsk().priceTicks); }
    }

    // The slots of the ladder are the prices of the band.
    lemma InRangeOf(d: Depth)
      requires Valid() && BandOk(book.cfg)
      ensures forall i :: i in book.ladder ==> InBand(book.cfg, ToPrice(book.cfg, i))
    {
    }

    lemma QuoteShown(d: Depth, p: int)
      requires Valid() && BandOk(book.cfg) && Mirrors(book.cfg, book.ladder, d) && InBand(book.cfg, p)
      ensures QuoteAt(d, p) == DepthResync.At(book.ladder, p - book.cfg.minPrice)
      ensures ToPrice(book.cfg, p - book.cfg.minPrice) == p
    {
      hide OrderBook.LadderValid;
      BandIndex(book.cfg, p);
    }

    // A whole run on the real book: with a true snapshot to begin with, true events and true fetches, no snapshot
    // dating from inside the event that asked for it, and no applied zero meeting the other side, the book ends as the
    // exchange was at the base id; and if the exchange never crosses, no crossing has been counted.
    method Follow(evs: seq<DepthEvent>, f: Fetches, ghost x: Exchange, ghost s: Snapshot)
      requires Valid() && BandOk(book.cfg) && Now() == Begun(book.cfg, s)
      requires ExchangeOk(x) && SnapshotTrue(book.cfg, x, s) && FetchesTrue(book.cfg, x, f) && FeedTrue(x, evs)
      requires RunFetchedOutside(book.cfg, s, evs, f, |evs|) && AppliedZerosOwn(book.cfg, x, s, evs, f, |evs|)
      modifies this, book, book.pool
      ensures Valid() && Now() == AtBoundary(book.cfg, s, evs, f, |evs|)
      ensures book.Shape() && forall p :: InBand(book.cfg, p) ==>
        0 <= p - book.cfg.minPrice < |book.levels| &&
        Stands(book.levels[p - book.cfg.minPrice], QuoteAt(x(Base(Now())), p))
      ensures BestIs(book.cfg, book.BestBid(), x(Base(Now())), true)
      ensures BestIs(book.cfg, book.BestAsk(), x(Base(Now())), false)
      ensures old(Seen()) == Observe(Watch(false, 0), old(book.ladder)) && NeverCrosses(book.cfg, x) ==>
                Seen() == Watch(false, 0)
    {
      hide OrderBook.LadderValid, NeverCrosses, Observe, WatchAll, WatchEvents, FeedEvents, Feed, Begun, RunFetchedOutside, AppliedZerosOwn, FeedTrue, FetchesTrue, SnapshotTrue,
        ExchangeOk, Stands, BestIs, OrderBook.Shape, OrderBook.Valid;
      Consume(Flat(evs), f);
      FeedFlat(book.cfg, Begun(book.cfg, s), evs, f);
      assert evs[..|evs|] == evs;
      RecoveryExact(book.cfg, x, s, evs, f, |evs|);
      WatchFlat(book.cfg, s, evs, f, |evs|);
      if NeverCrosses(book.cfg, x) { NoFalseAlarm(book.cfg, x, s, evs, f, |evs|); }
      assert Exact(book.cfg, x, AtBoundary(book.cfg, s, evs, f, |evs|));
      ShowsExchange(x);
    }
  }
}
