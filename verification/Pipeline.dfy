/** The consumer thread: sequencer, order book and publisher, updated in place message by message. */
module Pipeline {
  import opened BookSpec
  import opened Delivery
  import opened MarketEvents
  import opened OrderBooks
  import opened Recovery
  import opened Sequencers

  class Consumer {
    const book: OrderBook
    const seqr: Sequencer
    ghost var base: nat
    ghost var received: set<nat>
    ghost var published: seq<Published>

    ghost predicate Valid()
      reads this, book, book.pool, seqr
    {
      book.Valid() && seqr.Valid()
    }

    ghost function Now(): Feed
      reads this, book, seqr
    {
      Feed(seqr.State(), book.book, base, received, published)
    }

    constructor (raw: Config, poolChunk: nat, startSeq: nat, capacity: nat)
      requires NumLevels(Normalise(raw)) <= TWO_32
      ensures Valid() && fresh(book) && fresh(book.pool) && fresh(seqr)
      ensures Now() == NewFeed(Normalise(raw), startSeq, capacity) && book.cfg == Normalise(raw)
    {
      book := new OrderBook(raw, poolChunk);
      seqr := new Sequencer(startSeq, capacity);
      base, received, published := startSeq, {}, [];
    }

    method ApplyEv(ghost number: nat, ev: MarketEvent)
      requires Valid()
      modifies this`published, book, book.pool
      ensures Valid() && WellFormed(old(book.book)) && Now() == Recovery.ApplyEv(old(Now()), number, ev)
    {
      hide OrderBook.Valid, OrderBook.Shape, WellFormed, BookSpec.Apply, Dispatched, Drain;
      book.BookFacts();
      book.Apply(ev);
      published := published + [Published(base, number, book.book, seqr.stale)];
    }

    // The gap cannot be held open: drop the book and everything buffered and go on from this number.
    method StartOver(number: nat)
      requires Valid()
      modifies this`base, this`received, book, book.pool, seqr
      ensures Valid() && ConfigOk(book.cfg) && old(book.book).cfg == book.cfg
      ensures Now() == Feed(Resync(old(seqr.State()), number), EmptyBook(book.cfg), number, {number}, published)
    {
      hide OrderBook.Valid, OrderBook.Shape, WellFormed, OrderBook.LadderValid;
      book.BookFacts();
      book.Reset();
      seqr.ResyncToSnapshot(number);
      base, received := number, {number};
      book.BookFacts();
    }

    // One message: offer it, apply what is in turn, start over when the gap cannot be held open.
    method HandleMsg(m: Msg)
      requires Valid()
      modifies this, book, book.pool, seqr
      ensures Valid() && WellFormed(old(book.book)) && Now() == Handle(old(Now()), m.sequence, m.event)
    {
      hide OrderBook.Valid, OrderBook.Shape, WellFormed, BookSpec.Apply, Dispatched, Drain;
      book.BookFacts();
      var d := seqr.TryOffer(m.sequence, m.event);
      match d {
        case ApplyNow =>
          received := received + {m.sequence};
          ApplyEv(m.sequence, m.event);
          DrainReady();
        case Overflow =>
          StartOver(m.sequence);
          ApplyEv(m.sequence, m.event);
        case Drop =>
          received := received + {m.sequence};
        case Buffered =>
          received := received + {m.sequence};
      }
    }

    method DrainReady()
      requires Valid()
      modifies this`published, book, book.pool, seqr
      ensures Valid() && WellFormed(old(book.book)) && Now() == Drain(old(Now()))
    {
      hide OrderBook.Valid, OrderBook.Shape, WellFormed, BookSpec.Apply, Dispatched;
      book.BookFacts();
      ghost var f := Now();
      var number := seqr.expected;
      var r := seqr.TryPop();
      while r.Some?
        invariant Valid()
        invariant WellFormed(book.book) && number == if r.Some? then seqr.expected - 1 else number
        invariant Drain(f) == if r.Some? then Drain(Recovery.ApplyEv(Now(), number, r.value)) else Now()
        decreases if r.Some? then |seqr.reorder| + 1 else 0
      {
        ApplyEv(number, r.value);
        number := seqr.expected;
        r := seqr.TryPop();
      }
    }

    // A whole run: the consumer is where the model run says, whatever arrived.
    method Consume(ms: seq<Msg>, ghost stream: Stream)
      requires Valid() && Now() == NewFeed(book.cfg, seqr.expected, seqr.capacity)
      requires forall i :: 0 <= i < |ms| ==> ms[i].event == stream(ms[i].sequence)
      modifies this, book, book.pool, seqr
      ensures Valid() && ConfigOk(book.cfg)
      ensures Now() == Run(book.cfg, old(seqr.expected), seqr.capacity, stream, Numbers(ms))
      ensures FeedOk(Now(), book.cfg, stream)
    {
      ghost var start := seqr.expected;
      for i := 0 to |ms|
        invariant Valid() && Now() == Run(book.cfg, start, seqr.capacity, stream, Numbers(ms[..i]))
      {
        assert Numbers(ms[..i + 1])[..i] == Numbers(ms[..i]);
        HandleMsg(ms[i]);
      }
      assert ms[..|ms|] == ms;
      RunOk(book.cfg, start, seqr.capacity, stream, Numbers(ms));
    }
  }
}
