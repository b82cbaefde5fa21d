/**
 The consumer side of the pipeline as a value, and what it guarantees over every arrival order of a numbered
 stream: duplicates, losses, reordering and any number of buffer overflows included.
 */
module Recovery {
  import opened Arith
  import opened BookLaws
  import opened BookSpec
  import opened MarketEvents
  import opened Sequencers

  // A book handed to the publisher, with the number just applied, the number its state starts from, and whether the
  // sequencer called it stale.
  datatype Published = Published(base: nat, number: nat, book: Book, stale: bool)

  // received holds the numbers that have arrived since the start or the last overflow.
  datatype Feed = Feed(seqr: SeqState, book: Book, base: nat, received: set<nat>, published: seq<Published>)

  // The event that carries each number.
  type Stream = nat -> MarketEvent

  function NewFeed(c: Config, startSeq: nat, capacity: nat): Feed
    requires ConfigOk(c)
  {
    Feed(Start(startSeq, capacity), EmptyBook(c), startSeq, {}, [])
  }

  function ApplyEv(f: Feed, number: nat, ev: MarketEvent): (r: Feed)
    requires WellFormed(f.book)
    ensures WellFormed(r.book)
  {
    ApplyWellFormed(f.book, ev);
    var b := Apply(f.book, ev);
    f.(book := b, published := f.published + [Published(f.base, number, b, f.seqr.stale)])
  }

  function Drain(f: Feed): (r: Feed)
    requires WellFormed(f.book)
    ensures WellFormed(r.book)
    decreases |f.seqr.reorder|
  {
    var (s, out) := PopReady(f.seqr);
    match out
    case None => f.(seqr := s)
    case Some(ev) =>
      OneLess(f.seqr.reorder, f.seqr.expected);
      Drain(ApplyEv(f.(seqr := s), f.seqr.expected, ev))
  }

  function Handle(f: Feed, number: nat, ev: MarketEvent): (r: Feed)
    requires WellFormed(f.book)
    ensures WellFormed(r.book)
  {
    var (s, d) := Offer(f.seqr, number, ev);
    match d
    case ApplyNow => Drain(ApplyEv(f.(seqr := s, received := f.received + {number}), number, ev))
    case Overflow =>
      ApplyEv(Feed(Resync(s, number), EmptyBookOf(f.book), number, {number}, f.published), number, ev)
    case Drop => f.(seqr := s, received := f.received + {number})
    case Buffered => f.(seqr := s, received := f.received + {number})
  }

  function EmptyBookOf(b: Book): (r: Book)
    requires WellFormed(b)
    ensures WellFormed(r)
  {
    EmptyBook(b.cfg)
  }

  function Run(c: Config, startSeq: nat, capacity: nat, stream: Stream, arrivals: seq<nat>): (f: Feed)
    requires ConfigOk(c)
    ensures WellFormed(f.book)
  {
    if arrivals == [] then NewFeed(c, startSeq, capacity)
    else
      var last := arrivals[|arrivals| - 1];
      Handle(Run(c, startSeq, capacity, stream, arrivals[..|arrivals| - 1]), last, stream(last))
  }

  // A fresh book fed the stream's events base, base + 1, ..., upto - 1 in that order.
  function Replay(c: Config, stream: Stream, base: nat, upto: nat): (b: Book)
    requires ConfigOk(c)
    ensures WellFormed(b) && b.cfg == c
    decreases upto
  {
    if upto <= base then EmptyBook(c)
    else
      var before := Replay(c, stream, base, upto - 1);
      ApplyWellFormed(before, stream(upto - 1));
      Apply(before, stream(upto - 1))
  }

  // ----- the invariant

  // The numbers applied so far strictly increase and are below the next one expected.
  ghost predicate InOrder(published: seq<Published>, expected: nat) {
    && (forall i :: 0 <= i < |published| ==> published[i].base <= published[i].number < expected)
    && (forall i, j :: 0 <= i < j < |published| ==> published[i].number < published[j].number)
  }

  // Every published book is the replay of a contiguous stretch of the stream.
  ghost predicate Replays(published: seq<Published>, c: Config, stream: Stream)
    requires ConfigOk(c)
  {
    forall i :: 0 <= i < |published| ==>
      published[i].book == Replay(c, stream, published[i].base, published[i].number + 1)
  }

  ghost predicate Contiguous(f: Feed, c: Config, stream: Stream)
    requires ConfigOk(c)
  {
    && InOrder(f.published, f.seqr.expected)
    && Replays(f.published, c, stream)
    && f.base <= f.seqr.expected
    && f.book == Replay(c, stream, f.base, f.seqr.expected)
    && EachOnce(f.published, f.base, f.seqr.expected)
  }

  // The last entries are base, base + 1, ..., upto - 1, each applied once.
  ghost predicate EachOnce(published: seq<Published>, base: nat, upto: nat)
    requires base <= upto
  {
    && upto - base <= |published|
    && forall j :: |published| - (upto - base) <= j < |published| ==>
         published[j].number == upto - |published| + j && published[j].base == base
  }

  // What has arrived is exactly what has been applied plus what is buffered.
  ghost predicate Accounted(f: Feed, stream: Stream) {
    && (forall k :: f.base <= k < f.seqr.expected ==> k in f.received)
    && (forall k :: k in f.seqr.reorder <==> k in f.received && k >= f.seqr.expected)
    && (forall k :: k in f.seqr.reorder ==> f.seqr.reorder[k] == stream(k))
    && |f.seqr.reorder| <= f.seqr.capacity
  }

  // Between calls the number expected next is missing, and the stale flag says whether anything waits for it.
  ghost predicate Settled(f: Feed) {
    f.seqr.expected !in f.received && (f.seqr.stale <==> f.seqr.reorder != map[])
  }

  ghost predicate FeedOk(f: Feed, c: Config, stream: Stream)
    requires ConfigOk(c)
  {
    WellFormed(f.book) && Contiguous(f, c, stream) && Accounted(f, stream) && Settled(f)
  }

  // Applying the event of the number just taken as expected.
  lemma Applied(f: Feed, c: Config, stream: Stream, n: nat)
    requires ConfigOk(c) && WellFormed(f.book) && Contiguous(f.(seqr := f.seqr.(expected := n)), c, stream)
    requires f.seqr.expected == n + 1
    ensures Contiguous(ApplyEv(f, n, stream(n)), c, stream)
  {
    hide WellFormed, Apply, InOrder, Replays, EachOnce;
    var q := Published(f.base, n, ApplyEv(f, n, stream(n)).book, f.seqr.stale);
    PublishMore(f.published, n, q, n + 1, c, stream);
    OnceMore(f.published, f.base, n, q);
  }

  lemma OnceMore(p: seq<Published>, base: nat, n: nat, q: Published)
    requires base <= n && EachOnce(p, base, n) && q.number == n && q.base == base
    ensures EachOnce(p + [q], base, n + 1)
  {
  }

  lemma PublishMore(p: seq<Published>, expected: nat, q: Published, expected': nat, c: Config, stream: Stream)
    requires ConfigOk(c) && InOrder(p, expected) && Replays(p, c, stream) && q.base <= q.number
    requires expected <= q.number < expected' && q.book == Replay(c, stream, q.base, q.number + 1)
    ensures InOrder(p + [q], expected') && Replays(p + [q], c, stream)
  {
    hide Replay;
  }

  // Taking the expected number out of the buffer.
  lemma Popped(f: Feed, c: Config, stream: Stream)
    requires ConfigOk(c) && WellFormed(f.book) && Accounted(f, stream) && f.seqr.expected in f.seqr.reorder
    requires f.seqr.stale
    ensures var (s, out) := PopReady(f.seqr);
      && out == Some(stream(f.seqr.expected)) && s.expected == f.seqr.expected + 1
      && var g := ApplyEv(f.(seqr := s), f.seqr.expected, stream(f.seqr.expected));
        && Accounted(g, stream) && (g.seqr.reorder != map[] ==> g.seqr.stale) && Extra(g) == Extra(f)
  {
    hide WellFormed, Apply;
    OneLess(f.seqr.reorder, f.seqr.expected);
  }

  lemma {:induction false} Drained(f: Feed, c: Config, stream: Stream)
    requires ConfigOk(c) && WellFormed(f.book) && Contiguous(f, c, stream) && Accounted(f, stream)
    requires f.seqr.reorder != map[] ==> f.seqr.stale
    ensures FeedOk(Drain(f), c, stream)
    ensures Drain(f).base == f.base && Drain(f).received == f.received && Drain(f).seqr.capacity == f.seqr.capacity
    ensures Drain(f).seqr.stats.snapshotRecoveries == f.seqr.stats.snapshotRecoveries && Extra(Drain(f)) == Extra(f)
    decreases |f.seqr.reorder|
  {
    hide WellFormed, Contiguous, Apply;
    if f.seqr.expected in f.seqr.reorder {
      hide Accounted;
      var (s, out) := PopReady(f.seqr);
      OneLess(f.seqr.reorder, f.seqr.expected);
      Popped(f, c, stream);
      var g := f.(seqr := s);
      SameStretch(f, g.(seqr := s.(expected := f.seqr.expected)), c, stream);
      Applied(g, c, stream, f.seqr.expected);
      Drained(ApplyEv(g, f.seqr.expected, stream(f.seqr.expected)), c, stream);
    } else {
      SameStretch(f, Drain(f), c, stream);
    }
  }

  lemma SameStretch(f: Feed, g: Feed, c: Config, stream: Stream)
    requires ConfigOk(c) && Contiguous(f, c, stream)
    requires g.published == f.published && g.book == f.book && g.base == f.base && g.seqr.expected == f.seqr.expected
    ensures Contiguous(g, c, stream)
  {
  }

  // How many publications belong to earlier stretches of the stream.
  function Extra(f: Feed): int {
    |f.published| - (f.seqr.expected - f.base)
  }

  // What one arrival does to the bookkeeping.
  ghost predicate Step(f: Feed, g: Feed, n: nat) {
    && g.seqr.capacity == f.seqr.capacity
    && (if n > f.seqr.expected && |f.seqr.reorder| >= f.seqr.capacity
        then g.base == n && g.received == {n} &&
             g.seqr.stats.snapshotRecoveries == f.seqr.stats.snapshotRecoveries + 1
        else g.base == f.base && g.received == f.received + {n} && Extra(g) == Extra(f) &&
             g.seqr.stats.snapshotRecoveries == f.seqr.stats.snapshotRecoveries)
  }

  lemma Handled(f: Feed, c: Config, stream: Stream, n: nat)
    requires ConfigOk(c) && FeedOk(f, c, stream)
    ensures FeedOk(Handle(f, n, stream(n)), c, stream) && Step(f, Handle(f, n, stream(n)), n)
  {
    if n == f.seqr.expected {
      HandledInTurn(f, c, stream, n);
    } else if n > f.seqr.expected && |f.seqr.reorder| >= f.seqr.capacity {
      HandledOverflow(f, c, stream, n);
    } else {
      HandledOther(f, c, stream, n);
    }
  }

  lemma HandledInTurn(f: Feed, c: Config, stream: Stream, n: nat)
    requires ConfigOk(c) && FeedOk(f, c, stream) && n == f.seqr.expected
    ensures FeedOk(Handle(f, n, stream(n)), c, stream) && Step(f, Handle(f, n, stream(n)), n)
  {
    hide WellFormed, Contiguous, Drain, Apply, Accounted;
    var g := f.(seqr := Offer(f.seqr, n, stream(n)).0, received := f.received + {n});
    SameStretch(f, g.(seqr := g.seqr.(expected := n)), c, stream);
    Applied(g, c, stream, n);
    InTurnAccounted(f, stream, n);
    Drained(ApplyEv(g, n, stream(n)), c, stream);
  }

  lemma InTurnAccounted(f: Feed, stream: Stream, n: nat)
    requires WellFormed(f.book) && Accounted(f, stream) && n == f.seqr.expected && n !in f.received
    ensures var g := f.(seqr := Offer(f.seqr, n, stream(n)).0, received := f.received + {n});
      Accounted(ApplyEv(g, n, stream(n)), stream)
  {
    hide WellFormed, Apply;
  }

  lemma HandledOther(f: Feed, c: Config, stream: Stream, n: nat)
    requires ConfigOk(c) && FeedOk(f, c, stream)
    requires n < f.seqr.expected || (n > f.seqr.expected && |f.seqr.reorder| < f.seqr.capacity)
    ensures FeedOk(Handle(f, n, stream(n)), c, stream) && Step(f, Handle(f, n, stream(n)), n)
  {
    hide WellFormed, Contiguous, Drain, Apply;
    SameStretch(f, Handle(f, n, stream(n)), c, stream);
  }

  lemma HandledOverflow(f: Feed, c: Config, stream: Stream, n: nat)
    requires ConfigOk(c) && FeedOk(f, c, stream) && n > f.seqr.expected && |f.seqr.reorder| >= f.seqr.capacity
    ensures FeedOk(Handle(f, n, stream(n)), c, stream) && Step(f, Handle(f, n, stream(n)), n)
  {
    hide WellFormed, Drain, Apply, InOrder, Replays, EachOnce, Accounted, Replay;
    OverflowStartsOver(f, c, stream, n);
    var g := Handle(f, n, stream(n));
    var q := Published(n, n, g.book, false);
    OverflowAccounted(f, stream, n);
    PublishMore(f.published, f.seqr.expected, q, n + 1, c, stream);
    NothingYet(f.published, n);
    OnceMore(f.published, n, n, q);
  }

  lemma OverflowAccounted(f: Feed, stream: Stream, n: nat)
    requires WellFormed(f.book) && n > f.seqr.expected && |f.seqr.reorder| >= f.seqr.capacity
    ensures var g := Handle(f, n, stream(n));
      Accounted(g, stream) && Settled(g) && Step(f, g, n) && WellFormed(g.book)
  {
    hide WellFormed, Drain, Apply, PopReady, EmptyBook, EmptyBookOf;
  }

  lemma NothingYet(p: seq<Published>, base: nat)
    ensures EachOnce(p, base, base)
  {
  }

  // Whole-run recovery.
  lemma {:induction false} RunOk(c: Config, startSeq: nat, capacity: nat, stream: Stream, arrivals: seq<nat>)
    requires ConfigOk(c)
    ensures FeedOk(Run(c, startSeq, capacity, stream, arrivals), c, stream)
    ensures Run(c, startSeq, capacity, stream, arrivals).seqr.capacity == capacity
  {
    if arrivals != [] {
      var before := arrivals[..|arrivals| - 1];
      RunOk(c, startSeq, capacity, stream, before);
      Handled(Run(c, startSeq, capacity, stream, before), c, stream, arrivals[|arrivals| - 1]);
    }
  }

  // ----- publishing while stale

  lemma {:induction false} DrainAppends(f: Feed)
    requires WellFormed(f.book)
    ensures f.published <= Drain(f).published
    decreases |f.seqr.reorder|
  {
    hide WellFormed, Apply;
    var (s, out) := PopReady(f.seqr);
    if out.Some? {
      OneLess(f.seqr.reorder, f.seqr.expected);
      DrainAppends(ApplyEv(f.(seqr := s), f.seqr.expected, out.value));
    }
  }

  // A message makes the consumer publish a book that is marked stale exactly when it is the one the feed, already
  // stale, was waiting for.
  lemma PublishesWhileStale(f: Feed, c: Config, stream: Stream, n: nat)
    requires ConfigOk(c) && FeedOk(f, c, stream)
    ensures var g := Handle(f, n, stream(n));
      && f.published <= g.published
      && ((exists k :: |f.published| <= k < |g.published| && g.published[k].stale) <==>
          n == f.seqr.expected && f.seqr.stale)
  {
    hide WellFormed, Contiguous, Accounted, Apply, Replay;
    if n == f.seqr.expected {
      var g := ApplyEv(f.(seqr := Offer(f.seqr, n, stream(n)).0, received := f.received + {n}), n, stream(n));
      DrainAppends(g);
      assert g.published[|f.published|].stale == f.seqr.stale;
      assert Drain(g).published[|f.published|] == g.published[|f.published|];
    }
  }

  // Some event is buffered behind this number.
  ghost predicate Waits(reorder: map<nat, MarketEvent>, number: nat) {
    exists m :: m in reorder && m > number
  }

  // From place k on, a book is marked stale exactly when something is still buffered behind its number.
  ghost predicate MarksTrue(p: seq<Published>, k: nat, reorder: map<nat, MarketEvent>) {
    forall i :: k <= i < |p| ==> (p[i].stale <==> Waits(reorder, p[i].number))
  }

  lemma {:induction false} DrainMarks(f: Feed)
    requires WellFormed(f.book) && (f.seqr.reorder != map[] ==> f.seqr.stale)
    requires forall m :: m in f.seqr.reorder ==> m >= f.seqr.expected
    ensures f.published <= Drain(f).published && MarksTrue(Drain(f).published, |f.published|, f.seqr.reorder)
    ensures forall i :: |f.published| <= i < |Drain(f).published| ==> Drain(f).published[i].number >= f.seqr.expected
    decreases |f.seqr.reorder|
  {
    hide WellFormed, Apply;
    var n := f.seqr.expected;
    if n in f.seqr.reorder {
      var (s, out) := PopReady(f.seqr);
      OneLess(f.seqr.reorder, n);
      var g := ApplyEv(f.(seqr := s), n, out.value);
      DrainMarks(g);
      assert Drain(f) == Drain(g) && Drain(g).published[|f.published|] == g.published[|f.published|];
      forall i | |f.published| <= i < |Drain(f).published|
        ensures Drain(f).published[i].stale <==> Waits(f.seqr.reorder, Drain(f).published[i].number)
      {
        PopWaits(f.seqr.reorder, n, Drain(f).published[i].number);
      }
    }
  }

  lemma PopWaits(reorder: map<nat, MarketEvent>, n: nat, number: nat)
    requires n in reorder && number >= n && forall m :: m in reorder ==> m >= n
    ensures Waits(reorder, number) <==> Waits(reorder - {n}, number)
    ensures Waits(reorder, n) <==> reorder - {n} != map[]
  {
    var rest := reorder - {n};
    if rest != map[] {
      var m :| m in rest;
      assert m in reorder && m > n;
    }
    if Waits(reorder, n) {
      var m :| m in reorder && m > n;
      assert m in rest;
    }
    if Waits(reorder, number) {
      var m :| m in reorder && m > number;
      assert m in rest;
    }
    if Waits(rest, number) {
      var m :| m in rest && m > number;
      assert m in reorder;
    }
  }

  // Each book that a message in turn makes the consumer publish is marked stale exactly when something is still
  // buffered behind it.
  lemma StaleMarks(f: Feed, c: Config, stream: Stream)
    requires ConfigOk(c) && FeedOk(f, c, stream)
    ensures var g := Handle(f, f.seqr.expected, stream(f.seqr.expected));
      f.published < g.published && MarksTrue(g.published, |f.published|, f.seqr.reorder)
  {
    hide WellFormed, Contiguous, Apply, Replay, Drain;
    var n := f.seqr.expected;
    var g := ApplyEv(f.(seqr := Offer(f.seqr, n, stream(n)).0, received := f.received + {n}), n, stream(n));
    DrainMarks(g);
    assert Drain(g).published[|f.published|] == g.published[|f.published|];
    if f.seqr.reorder != map[] {
      var m :| m in f.seqr.reorder;
      assert m > n;
    }
  }

  // A single slot, and a first arrival that is early.
  lemma FirstEarly(c: Config, stream: Stream, n: nat)
    requires ConfigOk(c) && n > 1
    ensures var f := Run(c, 1, 1, stream, [n]);
      f == Feed(f.seqr, EmptyBook(c), 1, {n}, []) && f.seqr.expected == 1 && f.seqr.stale && f.seqr.capacity == 1
      && f.seqr.reorder == map[n := stream(n)] && |f.seqr.reorder| == 1 && f.seqr.stats.snapshotRecoveries == 0
  {
    hide WellFormed, Apply, Replay, Drain, EmptyBook;
    RunOneMore(c, 1, 1, stream, [], n);
    assert [] + [n] == [n];
  }

  lemma RunOneMore(c: Config, start: nat, capacity: nat, stream: Stream, a: seq<nat>, n: nat)
    requires ConfigOk(c)
    ensures Run(c, start, capacity, stream, a + [n]) == Handle(Run(c, start, capacity, stream, a), n, stream(n))
  {
    hide WellFormed, Handle;
    assert (a + [n])[..|a|] == a;
  }

  // Two numbers out of order: the first book published is marked stale.
  lemma StaleBookPublished(c: Config, stream: Stream)
    requires ConfigOk(c)
    ensures var p := Run(c, 1, 1, stream, [2, 1]).published; |p| > 0 && p[0].number == 1 && p[0].stale
  {
    hide WellFormed, Apply, Replay, Drain;
    var f := Run(c, 1, 1, stream, [2]);
    FirstEarly(c, stream, 2);
    RunOneMore(c, 1, 1, stream, [2], 1);
    assert [2] + [1] == [2, 1];
    var g := ApplyEv(f.(seqr := Offer(f.seqr, 1, stream(1)).0, received := f.received + {1}), 1, stream(1));
    DrainAppends(g);
    assert Run(c, 1, 1, stream, [2, 1]) == Drain(g) && Drain(g).published[0] == g.published[0];
  }

  // ----- duplicates of buffered numbers

  // Offered again, a buffered number overflows the buffer exactly when the buffer is full; otherwise it changes
  // nothing, whatever event it carries this time.
  lemma DuplicateBuffered(f: Feed, c: Config, stream: Stream, n: nat, ev: MarketEvent)
    requires ConfigOk(c) && FeedOk(f, c, stream) && n in f.seqr.reorder
    ensures var g := Handle(f, n, ev);
      && (g.seqr.stats.snapshotRecoveries > f.seqr.stats.snapshotRecoveries <==> |f.seqr.reorder| == f.seqr.capacity)
      && (|f.seqr.reorder| < f.seqr.capacity ==> g == f.(received := f.received + {n}))
  {
    hide WellFormed, Contiguous, Apply, Replay;
    assert f.seqr.expected < n && f.seqr.stale;
  }

  // One slot, and the same early number twice: the second copy makes the consumer start over.
  lemma DuplicateOverflows(c: Config, stream: Stream)
    requires ConfigOk(c)
    ensures var f := Run(c, 1, 1, stream, [2, 2]); f.base == 2 && f.seqr.stats.snapshotRecoveries == 1
  {
    hide WellFormed, Apply, Replay, Drain, Run;
    FirstEarly(c, stream, 2);
    RunOneMore(c, 1, 1, stream, [2], 2);
    assert [2] + [2] == [2, 2];
  }

  // ----- what an overflow loses

  // The buffer cannot hold number n: the book is rebuilt from n alone, and everything buffered is gone.
  lemma OverflowStartsOver(f: Feed, c: Config, stream: Stream, n: nat)
    requires ConfigOk(c) && FeedOk(f, c, stream) && n > f.seqr.expected && |f.seqr.reorder| >= f.seqr.capacity
    ensures var g := Handle(f, n, stream(n));
      && g.base == n && g.seqr.expected == n + 1 && g.seqr.reorder == map[] && !g.seqr.stale
      && g.book == Replay(c, stream, n, n + 1)
      && g.published == f.published + [Published(n, n, g.book, false)]
  {
    hide WellFormed, Apply, InOrder, Replays, Drain;
    assert Replay(c, stream, n, n) == EmptyBook(c) && EmptyBookOf(f.book) == EmptyBook(c);
  }

  lemma HandleAppends(f: Feed, n: nat, ev: MarketEvent)
    requires WellFormed(f.book)
    ensures f.published <= Handle(f, n, ev).published
  {
    hide WellFormed, Apply, Drain;
    if n == f.seqr.expected {
      DrainAppends(ApplyEv(f.(seqr := Offer(f.seqr, n, ev).0, received := f.received + {n}), n, ev));
    }
  }

  lemma {:induction false} RunAppends(c: Config, start: nat, capacity: nat, stream: Stream, a: seq<nat>, b: seq<nat>)
    requires ConfigOk(c)
    ensures Run(c, start, capacity, stream, a).published <= Run(c, start, capacity, stream, a + b).published
  {
    hide WellFormed, Handle;
    if b == [] {
      assert a + b == a;
    } else {
      var ab, x := a + b, b[|b| - 1];
      assert ab[..|ab| - 1] == a + b[..|b| - 1];
      RunAppends(c, start, capacity, stream, a, b[..|b| - 1]);
      HandleAppends(Run(c, start, capacity, stream, a + b[..|b| - 1]), x, stream(x));
    }
  }

  // After an overflow at n, no number between the one then expected and n is ever applied, in any continuation,
  // whether it had arrived or arrives again.
  lemma OverflowLoses(c: Config, start: nat, capacity: nat, stream: Stream, a: seq<nat>, n: nat, b: seq<nat>, lost: nat)
    requires ConfigOk(c)
    requires var f := Run(c, start, capacity, stream, a);
      n > f.seqr.expected && |f.seqr.reorder| >= capacity && f.seqr.expected <= lost < n
    ensures forall k :: 0 <= k < |Run(c, start, capacity, stream, a + [n] + b).published| ==>
              Run(c, start, capacity, stream, a + [n] + b).published[k].number != lost
  {
    hide WellFormed, Handle, Run, Replay, Replays, EachOnce, Accounted, Settled;
    var f, g := Run(c, start, capacity, stream, a), Run(c, start, capacity, stream, a + [n]);
    var p := Run(c, start, capacity, stream, a + [n] + b).published;
    RunOk(c, start, capacity, stream, a);
    RunOneMore(c, start, capacity, stream, a, n);
    OverflowStartsOver(f, c, stream, n);
    RunAppends(c, start, capacity, stream, a + [n], b);
    RunOk(c, start, capacity, stream, a + [n] + b);
    forall k | 0 <= k < |p|
      ensures p[k].number != lost
    {
      if k < |f.published| {
        assert p[k] == f.published[k];
      } else {
        assert p[|f.published|] == g.published[|f.published|];
      }
    }
  }

  // One slot, and 3, 5, 3: number 3 arrives twice and is never applied.
  lemma ReceivedAndLost(c: Config, stream: Stream)
    requires ConfigOk(c)
    ensures var p := Run(c, 1, 1, stream, [3, 5, 3]).published; forall k :: 0 <= k < |p| ==> p[k].number != 3
  {
    hide WellFormed, Apply, Replay, Drain, Run;
    FirstEarly(c, stream, 3);
    assert [3, 5, 3] == [3] + [5] + [3];
    OverflowLoses(c, 1, 1, stream, [3], 5, [3], 3);
  }

  // ----- conservation

  // The arrival is early and the buffer has its number already.
  predicate Absorbs(s: SeqState, n: nat) {
    n > s.expected && |s.reorder| < s.capacity && n in s.reorder
  }

  // How many buffered events the arrival throws away.
  function Discards(s: SeqState, n: nat): nat {
    if n > s.expected && |s.reorder| >= s.capacity then |s.reorder| else 0
  }

  function Repeats(c: Config, start: nat, capacity: nat, stream: Stream, a: seq<nat>): nat
    requires ConfigOk(c)
  {
    if a == [] then 0
    else
      var before, x := a[..|a| - 1], a[|a| - 1];
      Repeats(c, start, capacity, stream, before) +
      if Absorbs(Run(c, start, capacity, stream, before).seqr, x) then 1 else 0
  }

  function Discarded(c: Config, start: nat, capacity: nat, stream: Stream, a: seq<nat>): nat
    requires ConfigOk(c)
  {
    if a == [] then 0
    else
      var before, x := a[..|a| - 1], a[|a| - 1];
      Discarded(c, start, capacity, stream, before) + Discards(Run(c, start, capacity, stream, before).seqr, x)
  }

  function Held(s: SeqState): nat {
    s.stats.accepted + s.stats.duplicates + s.stats.reorderOverflow + |s.reorder|
  }

  lemma {:induction false} DrainHolds(f: Feed)
    requires WellFormed(f.book)
    ensures Held(Drain(f).seqr) == Held(f.seqr)
    decreases |f.seqr.reorder|
  {
    hide WellFormed, Apply;
    var (s, out) := PopReady(f.seqr);
    if out.Some? {
      OneLess(f.seqr.reorder, f.seqr.expected);
      DrainHolds(ApplyEv(f.(seqr := s), f.seqr.expected, out.value));
    }
  }

  lemma HandleHolds(f: Feed, n: nat, ev: MarketEvent)
    requires WellFormed(f.book)
    ensures Held(Handle(f, n, ev).seqr) + Discards(f.seqr, n) + (if Absorbs(f.seqr, n) then 1 else 0) == Held(f.seqr) + 1
  {
    hide WellFormed, Apply, Drain;
    if n == f.seqr.expected {
      DrainHolds(ApplyEv(f.(seqr := Offer(f.seqr, n, ev).0, received := f.received + {n}), n, ev));
    }
  }

  // Every arrival is applied in turn, an old duplicate, an overflow, still buffered, a repeat of a buffered number, or
  // thrown away by a later overflow - exactly one of these.
  lemma {:induction false} ArrivalsConserved(c: Config, start: nat, capacity: nat, stream: Stream, a: seq<nat>)
    requires ConfigOk(c)
    ensures var s := Run(c, start, capacity, stream, a).seqr;
      |a| == s.stats.accepted + s.stats.duplicates + s.stats.reorderOverflow + |s.reorder| +
             Repeats(c, start, capacity, stream, a) + Discarded(c, start, capacity, stream, a)
  {
    hide WellFormed, Handle, Absorbs, Discards;
    if a != [] {
      var before, x := a[..|a| - 1], a[|a| - 1];
      ArrivalsConserved(c, start, capacity, stream, before);
      HandleHolds(Run(c, start, capacity, stream, before), x, stream(x));
    }
  }

  // ----- what the counters count

  // What can be said of an arrival from the state it meets, without asking what becomes of it.
  datatype Manner = Old | InTurn | OpensGap | TooMany

  predicate Comes(s: SeqState, n: nat, how: Manner) {
    match how
    case Old => n < s.expected
    case InTurn => n == s.expected
    case OpensGap => n > s.expected && s.reorder == map[]
    case TooMany => n > s.expected && |s.reorder| >= s.capacity
  }

  ghost predicate ComesAt(c: Config, start: nat, capacity: nat, stream: Stream, a: seq<nat>, k: nat, how: Manner)
    requires ConfigOk(c) && k < |a|
  {
    Comes(Run(c, start, capacity, stream, a[..k]).seqr, a[k], how)
  }

  // The places of a run's arrivals that come in one manner.
  ghost function Arrivals(c: Config, start: nat, capacity: nat, stream: Stream, a: seq<nat>, how: Manner): set<nat>
    requires ConfigOk(c)
  {
    set k | 0 <= k < |a| && ComesAt(c, start, capacity, stream, a, k, how)
  }

  // How many numbers were missing whenever a gap was opened.
  ghost function MissingAtGaps(c: Config, start: nat, capacity: nat, stream: Stream, a: seq<nat>): nat
    requires ConfigOk(c)
  {
    if a == [] then 0
    else
      var before, x := a[..|a| - 1], a[|a| - 1];
      var s := Run(c, start, capacity, stream, before).seqr;
      MissingAtGaps(c, start, capacity, stream, before) + if Comes(s, x, OpensGap) then x - s.expected else 0
  }

  lemma SameArrivals(c: Config, start: nat, capacity: nat, stream: Stream, a: seq<nat>, n: nat, k: nat, how: Manner)
    requires ConfigOk(c) && k < n <= |a|
    ensures ComesAt(c, start, capacity, stream, a[..n], k, how) == ComesAt(c, start, capacity, stream, a, k, how)
  {
    assert a[..n][..k] == a[..k];
  }

  lemma OneMoreArrival(c: Config, start: nat, capacity: nat, stream: Stream, a: seq<nat>, how: Manner)
    requires ConfigOk(c) && a != []
    ensures |Arrivals(c, start, capacity, stream, a, how)| ==
      |Arrivals(c, start, capacity, stream, a[..|a| - 1], how)| +
      if ComesAt(c, start, capacity, stream, a, |a| - 1, how) then 1 else 0
  {
    hide ComesAt;
    var n, before := |a| - 1, a[..|a| - 1];
    forall k | 0 <= k < n
      ensures ComesAt(c, start, capacity, stream, before, k, how) == ComesAt(c, start, capacity, stream, a, k, how)
    {
      SameArrivals(c, start, capacity, stream, a, n, k, how);
    }
    OneMoreBelow(Arrivals(c, start, capacity, stream, before, how), Arrivals(c, start, capacity, stream, a, how), n,
                 ComesAt(c, start, capacity, stream, a, n, how));
  }

  // What one message does to the counters.
  ghost predicate Counted(f: Feed, g: Feed, n: nat) {
    var s, s' := f.seqr.stats, g.seqr.stats;
    && s'.duplicates == s.duplicates + (if Comes(f.seqr, n, Old) then 1 else 0)
    && s'.gapEpisodes == s.gapEpisodes + (if Comes(f.seqr, n, OpensGap) then 1 else 0)
    && s'.missingTotal == s.missingTotal + (if Comes(f.seqr, n, OpensGap) then n - f.seqr.expected else 0)
    && s'.reorderOverflow == s.reorderOverflow + (if Comes(f.seqr, n, TooMany) then 1 else 0)
    && s'.snapshotRecoveries == s.snapshotRecoveries + (if Comes(f.seqr, n, TooMany) then 1 else 0)
    && s'.accepted - s'.bufferedReleased == s.accepted - s.bufferedReleased + (if Comes(f.seqr, n, InTurn) then 1 else 0)
    && |g.published| - s'.accepted - s'.snapshotRecoveries == |f.published| - s.accepted - s.snapshotRecoveries
  }

  lemma {:induction false} DrainCounts(f: Feed)
    requires WellFormed(f.book)
    ensures var g := Drain(f); var s, s' := f.seqr.stats, g.seqr.stats;
      && s' == s.(accepted := s'.accepted, bufferedReleased := s'.bufferedReleased)
      && s'.accepted - s'.bufferedReleased == s.accepted - s.bufferedReleased
      && |g.published| - s'.accepted == |f.published| - s.accepted
    decreases |f.seqr.reorder|
  {
    hide WellFormed, Apply;
    var (s, out) := PopReady(f.seqr);
    if out.Some? {
      OneLess(f.seqr.reorder, f.seqr.expected);
      DrainCounts(ApplyEv(f.(seqr := s), f.seqr.expected, out.value));
    }
  }

  lemma HandleCounts(f: Feed, n: nat, ev: MarketEvent)
    requires WellFormed(f.book) && (f.seqr.stale <==> f.seqr.reorder != map[])
    ensures Counted(f, Handle(f, n, ev), n)
  {
    hide WellFormed, Apply, Drain;
    if n == f.seqr.expected {
      DrainCounts(ApplyEv(f.(seqr := Offer(f.seqr, n, ev).0, received := f.received + {n}), n, ev));
    }
  }

  // Over any run: duplicates counts the arrivals below the number then expected, gap_episodes those beyond it while
  // nothing waits, missing_total what those skip, and both overflow counters those beyond it while the buffer is full;
  // what was accepted came in turn or was released; and every book published is an acceptance or a recovery.
  lemma {:induction false} CountersExact(c: Config, start: nat, capacity: nat, stream: Stream, a: seq<nat>)
    requires ConfigOk(c)
    ensures var f := Run(c, start, capacity, stream, a);
      var st := f.seqr.stats;
      && st.duplicates == |Arrivals(c, start, capacity, stream, a, Old)|
      && st.gapEpisodes == |Arrivals(c, start, capacity, stream, a, OpensGap)|
      && st.missingTotal == MissingAtGaps(c, start, capacity, stream, a)
      && st.reorderOverflow == st.snapshotRecoveries == |Arrivals(c, start, capacity, stream, a, TooMany)|
      && st.accepted == |Arrivals(c, start, capacity, stream, a, InTurn)| + st.bufferedReleased
      && |f.published| == st.accepted + st.snapshotRecoveries
  {
    hide WellFormed, Handle, Comes, Contiguous, Accounted, EmptyBook;
    if a == [] {
      assert forall how :: Arrivals(c, start, capacity, stream, a, how) == {};
    } else {
      hide Arrivals;
      var before, x := a[..|a| - 1], a[|a| - 1];
      CountersExact(c, start, capacity, stream, before);
      RunOk(c, start, capacity, stream, before);
      HandleCounts(Run(c, start, capacity, stream, before), x, stream(x));
      OneMoreArrival(c, start, capacity, stream, a, Old);
      OneMoreArrival(c, start, capacity, stream, a, InTurn);
      OneMoreArrival(c, start, capacity, stream, a, OpensGap);
      OneMoreArrival(c, start, capacity, stream, a, TooMany);
    }
  }

  // ----- what holds of every published book

  // The events of a stretch of the stream.
  function Stretch(stream: Stream, base: nat, upto: nat): seq<MarketEvent> {
    if upto <= base then [] else Stretch(stream, base, upto - 1) + [stream(upto - 1)]
  }

  lemma {:induction false} ReplayIsRun(c: Config, stream: Stream, base: nat, upto: nat)
    requires ConfigOk(c)
    ensures Replay(c, stream, base, upto) == ApplyAll(EmptyBook(c), Stretch(stream, base, upto))
  {
    hide WellFormed, Apply, EmptyBook;
    if upto > base {
      ReplayIsRun(c, stream, base, upto - 1);
      var evs := Stretch(stream, base, upto - 1);
      assert (evs + [stream(upto - 1)])[..|evs|] == evs;
    }
  }

  lemma PublishedIsReplay(f: Feed, c: Config, stream: Stream, i: nat)
    requires ConfigOk(c) && FeedOk(f, c, stream) && i < |f.published|
    ensures f.published[i].book == Replay(c, stream, f.published[i].base, f.published[i].number + 1)
  {
    hide WellFormed, Replay, InOrder, EachOnce, Accounted;
  }

  // Every published book keeps its orders on the grid, and if its stretch of the stream keeps levels to one side,
  // its best prices are right.
  lemma PublishedLaws(f: Feed, c: Config, stream: Stream, i: nat)
    requires ConfigOk(c) && FeedOk(f, c, stream) && i < |f.published|
    ensures OnGrid(f.published[i].book) && SizesFit(f.published[i].book)
    ensures var evs := Stretch(stream, f.published[i].base, f.published[i].number + 1);
      (forall k :: 0 <= k < |evs| ==> SameSide(ApplyAll(EmptyBook(c), evs[..k]), evs[k])) ==>
        BestRight(f.published[i].book)
  {
    hide WellFormed, Apply, OnGrid, SizesFit, BestRight, SameSide, Uniform, Replay, Stretch, FeedOk, ApplyAll,
      EmptyBook;
    var p := f.published[i];
    var evs := Stretch(stream, p.base, p.number + 1);
    PublishedIsReplay(f, c, stream, i);
    ReplayIsRun(c, stream, p.base, p.number + 1);
    OnGridAlways(c, evs);
    AggregatesAlways(c, evs);
    if forall k :: 0 <= k < |evs| ==> SameSide(ApplyAll(EmptyBook(c), evs[..k]), evs[k]) {
      BestAlways(c, evs);
    }
  }
}
