/**
 Recovery of an aggregated depth feed: a snapshot at one update id, then events that each cover a range of ids
 and set levels to absolute sizes. The consumer seeks the event that straddles the snapshot, streams while the
 ranges join up, and takes a new snapshot when they do not.
 */
module DepthResync {
  import opened BookSpec
  import opened Ladders
  import opened MarketEvents

  // ----- the exchange

  // The exchange's book at one update id: the size standing at each price, on one side at most.
  datatype Depth = Depth(bids: map<int, nat>, asks: map<int, nat>)

  ghost predicate DepthOk(x: Depth) {
    && (forall p :: p in x.bids ==> x.bids[p] > 0 && p !in x.asks)
    && (forall p :: p in x.asks ==> x.asks[p] > 0)
  }

  function Standing(m: map<int, nat>, p: int): nat {
    if p in m then m[p] else 0
  }

  function QuoteAt(x: Depth, p: int): Option<Quote> {
    if p in x.bids then Some(Quote(Buy, x.bids[p]))
    else if p in x.asks then Some(Quote(Sell, x.asks[p]))
    else None
  }

  // The exchange's book after every update id.
  type Exchange = nat -> Depth

  // ----- the feed

  datatype Level = Level(price: int, size: nat)

  datatype DepthEvent = DepthEvent(first: nat, last: nat, bids: seq<Level>, asks: seq<Level>)

  datatype Op = Op(side: Side, price: int, size: nat)

  // What the socket thread sends: one message per level, or a bare header for an event without levels.
  datatype Message = Message(first: nat, last: nat, op: Option<Op>)

  datatype Snapshot = Snapshot(id: nat, levels: seq<Op>)

  // The snapshots successive fetches return; a fetch can fail.
  type Fetches = nat -> Option<Snapshot>

  function OpsOn(side: Side, levels: seq<Level>): (ops: seq<Op>)
    ensures |ops| == |levels|
  {
    if levels == [] then []
    else [Op(side, levels[0].price, levels[0].size)] + OpsOn(side, levels[1..])
  }

  // Bids are sent before asks.
  function Ops(ev: DepthEvent): seq<Op> {
    OpsOn(Buy, ev.bids) + OpsOn(Sell, ev.asks)
  }

  function Sent(first: nat, last: nat, ops: seq<Op>): (ms: seq<Message>)
    ensures |ms| == |ops|
    ensures forall i :: 0 <= i < |ms| ==> ms[i].first == first && ms[i].last == last
  {
    if ops == [] then [] else [Message(first, last, Some(ops[0]))] + Sent(first, last, ops[1..])
  }

  function Messages(ev: DepthEvent): (ms: seq<Message>)
    ensures |ms| > 0 && forall i :: 0 <= i < |ms| ==> ms[i].first == ev.first && ms[i].last == ev.last
  {
    if Ops(ev) == [] then [Message(ev.first, ev.last, None)] else Sent(ev.first, ev.last, Ops(ev))
  }

  function OpsOf(ms: seq<Message>): seq<Op> {
    if ms == [] then []
    else (if ms[0].op.Some? then [ms[0].op.value] else []) + OpsOf(ms[1..])
  }

  lemma {:induction false} OpsOfSent(first: nat, last: nat, ops: seq<Op>)
    ensures OpsOf(Sent(first, last, ops)) == ops
  {
    if ops != [] {
      OpsOfSent(first, last, ops[1..]);
      assert Sent(first, last, ops)[1..] == Sent(first, last, ops[1..]);
    }
  }

  lemma OpsOfMessages(ev: DepthEvent)
    ensures OpsOf(Messages(ev)) == Ops(ev)
  {
    OpsOfSent(ev.first, ev.last, Ops(ev));
  }

  // ----- what a list of level sets amounts to at one price

  function LastAt(ops: seq<Op>, p: int): (r: Option<Op>)
    ensures r.Some? ==> r.value in ops && r.value.price == p
  {
    if ops == [] then None
    else if LastAt(ops[1..], p).Some? then LastAt(ops[1..], p)
    else if ops[0].price == p then Some(ops[0]) else None
  }

  function Effect(op: Op): Option<Quote> {
    if op.size == 0 then None else Some(Quote(op.side, op.size))
  }

  lemma {:induction false} LastOfConcat(a: seq<Op>, b: seq<Op>, p: int)
    ensures LastAt(a + b, p) == if LastAt(b, p).Some? then LastAt(b, p) else LastAt(a, p)
  {
    if a == [] {
      assert a + b == b;
    } else {
      LastOfConcat(a[1..], b, p);
      assert (a + b)[1..] == a[1..] + b;
    }
  }

  lemma {:induction false} OpsOnSide(side: Side, levels: seq<Level>)
    ensures forall op :: op in OpsOn(side, levels) ==> op.side == side
  {
    if levels != [] { OpsOnSide(side, levels[1..]); }
  }

  function At(m: Ladder, i: int): Option<Quote> {
    if i in m then Some(m[i]) else None
  }

  function PutOp(c: Config, m: Ladder, op: Op): Ladder
    requires ConfigOk(c)
  {
    var i := ToIndex(c, op.price);
    if i < 0 then m else Put(m, i, op.side, op.size)
  }

  function PutAll(c: Config, m: Ladder, ops: seq<Op>): Ladder
    requires ConfigOk(c)
    decreases |ops|
  {
    if ops == [] then m else PutAll(c, PutOp(c, m, ops[0]), ops[1..])
  }

  // A band with one level per tick.
  predicate BandOk(c: Config) {
    ConfigOk(c) && c.tick == 1
  }

  predicate InBand(c: Config, p: int) {
    c.minPrice <= p <= c.maxPrice
  }

  lemma BandIndex(c: Config, p: int)
    requires BandOk(c)
    ensures ToIndex(c, p) == if InBand(c, p) then p - c.minPrice else -1
  {
  }

  // Only the last set of a price counts.
  lemma {:induction false} PutAllAt(c: Config, m: Ladder, ops: seq<Op>, p: int)
    requires BandOk(c) && InBand(c, p)
    decreases |ops|
    ensures var r := LastAt(ops, p);
      At(PutAll(c, m, ops), ToIndex(c, p)) == if r.Some? then Effect(r.value) else At(m, ToIndex(c, p))
  {
    if ops != [] {
      BandIndex(c, p);
      BandIndex(c, ops[0].price);
      PutAllAt(c, PutOp(c, m, ops[0]), ops[1..], p);
    }
  }

  // The levels in the band stand as they do at the exchange.
  ghost predicate Mirrors(c: Config, m: Ladder, x: Depth)
    requires ConfigOk(c)
  {
    forall p {:trigger QuoteAt(x, p)} :: InBand(c, p) ==> At(m, ToIndex(c, p)) == QuoteAt(x, p)
  }

  // ----- truthful feeds

  // Per side: a price the list mentions has, at the last id, the size mentioned last; a price it does not
  // mention has not changed in the ids the event covers.
  ghost predicate SideTruthful(x: Exchange, ev: DepthEvent, buy: bool) {
    var ops := if buy then OpsOn(Buy, ev.bids) else OpsOn(Sell, ev.asks);
    forall p :: var r := LastAt(ops, p);
      if r.Some? then Standing(SideOf(x(ev.last), buy), p) == r.value.size
      else forall id: nat :: ev.first <= id + 1 && id <= ev.last ==>
             Standing(SideOf(x(id), buy), p) == Standing(SideOf(x(ev.last), buy), p)
  }

  function SideOf(x: Depth, buy: bool): map<int, nat> {
    if buy then x.bids else x.asks
  }

  ghost predicate Truthful(x: Exchange, ev: DepthEvent) {
    ev.first <= ev.last && SideTruthful(x, ev, true) && SideTruthful(x, ev, false)
  }

  // No price in the band whose last mention is a zero size has the other side standing there.
  ghost predicate NoForeignZero(c: Config, x: Exchange, ev: DepthEvent) {
    forall p :: var r := LastAt(Ops(ev), p);
      InBand(c, p) && r.Some? && r.value.size == 0 ==> Standing(SideOf(x(ev.last), r.value.side == Sell), p) == 0
  }

  // Applied in order, the level sets leave each price of the band they touch as the exchange has it.
  ghost predicate OpsTrue(c: Config, x: Depth, ops: seq<Op>) {
    forall p {:trigger LastAt(ops, p)} ::
      InBand(c, p) && LastAt(ops, p).Some? ==> Effect(LastAt(ops, p).value) == QuoteAt(x, p)
  }

  ghost predicate ExchangeOk(x: Exchange) {
    forall id {:trigger x(id)} :: DepthOk(x(id))
  }

  lemma ExchangeAt(x: Exchange, id: nat)
    requires ExchangeOk(x)
    ensures DepthOk(x(id))
  {
  }

  // The ladder holds one quote per price, and a zero removes it whichever side owns it: exactly when no zero
  // meets the other side does a truthful event leave the truth.
  lemma ZeroRemovesEitherSide(c: Config, x: Exchange, ev: DepthEvent)
    requires ExchangeOk(x) && Truthful(x, ev)
    ensures OpsTrue(c, x(ev.last), Ops(ev)) <==> NoForeignZero(c, x, ev)
  {
    var b, a := OpsOn(Buy, ev.bids), OpsOn(Sell, ev.asks);
    OpsOnSide(Buy, ev.bids);
    OpsOnSide(Sell, ev.asks);
    assert DepthOk(x(ev.last));
    forall p
      ensures LastAt(Ops(ev), p).Some? ==>
        (Effect(LastAt(Ops(ev), p).value) == QuoteAt(x(ev.last), p) <==>
         (LastAt(Ops(ev), p).value.size == 0 ==>
            Standing(SideOf(x(ev.last), LastAt(Ops(ev), p).value.side == Sell), p) == 0))
    {
      LastOfConcat(b, a, p);
      var rb, ra := LastAt(b, p), LastAt(a, p);
      if ra.Some? {
        assert Standing(SideOf(x(ev.last), false), p) == ra.value.size;
      } else if rb.Some? {
        assert Standing(SideOf(x(ev.last), true), p) == rb.value.size;
      }
    }
  }

  // Where the event mentions neither side nothing has changed since just before its first id.
  lemma Untouched(x: Exchange, ev: DepthEvent, id: nat, p: int)
    requires ExchangeOk(x) && Truthful(x, ev) && ev.first <= id + 1 && id <= ev.last && LastAt(Ops(ev), p).None?
    ensures QuoteAt(x(id), p) == QuoteAt(x(ev.last), p)
  {
    LastOfConcat(OpsOn(Buy, ev.bids), OpsOn(Sell, ev.asks), p);
    assert DepthOk(x(id)) && DepthOk(x(ev.last));
    assert Standing(SideOf(x(id), true), p) == Standing(SideOf(x(ev.last), true), p);
    assert Standing(SideOf(x(id), false), p) == Standing(SideOf(x(ev.last), false), p);
  }

  // The snapshot lists what stands in the band, and nothing else there.
  ghost predicate SnapshotTrue(c: Config, x: Exchange, s: Snapshot) {
    && OpsTrue(c, x(s.id), s.levels)
    && forall p {:trigger LastAt(s.levels, p)} ::
         InBand(c, p) && LastAt(s.levels, p).None? ==> QuoteAt(x(s.id), p) == None
  }

  ghost predicate FetchesTrue(c: Config, x: Exchange, f: Fetches) {
    forall k {:trigger f(k)} :: f(k).Some? ==> SnapshotTrue(c, x, f(k).value)
  }

  // Loaded into an empty book, exactly a true snapshot shows the exchange's book.
  lemma SnapshotMirrors(c: Config, x: Exchange, s: Snapshot)
    requires BandOk(c)
    ensures Mirrors(c, PutAll(c, map[], s.levels), x(s.id)) <==> SnapshotTrue(c, x, s)
  {
    forall p | InBand(c, p)
      ensures At(PutAll(c, map[], s.levels), ToIndex(c, p)) == QuoteAt(x(s.id), p) <==>
        QuoteAt(x(s.id), p) ==
        if LastAt(s.levels, p).Some? then Effect(LastAt(s.levels, p).value) else None
    {
      PutAllAt(c, map[], s.levels, p);
    }
  }

  // ----- the state machine

  datatype Mode = Seeking | Streaming

  datatype Tracker = Tracker(
    mode: Mode, snapId: nat, prevU: nat, haveEvent: bool, curU: nat, curApply: bool, gaps: nat, resyncs: nat,
    ladder: Ladder)

  function Begun(c: Config, s: Snapshot): Tracker
    requires ConfigOk(c)
  {
    Tracker(Seeking, s.id, 0, false, 0, false, 0, 0, PutAll(c, map[], s.levels))
  }

  datatype Verdict = Apply | Skip | Lost

  function Judge(t: Tracker, first: nat, last: nat): Verdict {
    if t.mode.Seeking? then
      if last < t.snapId + 1 then Skip else if first <= t.snapId + 1 then Apply else Lost
    else
      if last <= t.prevU then Skip else if first == t.prevU + 1 then Apply else Lost
  }

  function ReSnapshot(c: Config, t: Tracker, fetched: Option<Snapshot>): Tracker
    requires ConfigOk(c)
  {
    match fetched
    case None => t.(resyncs := t.resyncs + 1, haveEvent := false)
    case Some(s) =>
      t.(resyncs := t.resyncs + 1, ladder := PutAll(c, map[], s.levels), snapId := s.id, prevU := 0,
         mode := Seeking, haveEvent := false)
  }

  function SetIf(c: Config, t: Tracker, op: Option<Op>): Tracker
    requires ConfigOk(c)
  {
    if t.curApply && op.Some? then t.(ladder := PutOp(c, t.ladder, op.value)) else t
  }

  predicate Continues(t: Tracker, m: Message) {
    t.haveEvent && t.curU == m.first
  }

  function Receive(c: Config, t: Tracker, m: Message, fetched: Option<Snapshot>): Tracker
    requires ConfigOk(c)
  {
    if Continues(t, m) then SetIf(c, t, m.op)
    else
      var t1 := t.(haveEvent := true, curU := m.first, curApply := false);
      match Judge(t, m.first, m.last)
      case Skip => t1
      case Apply => SetIf(c, t1.(mode := Streaming, prevU := m.last, curApply := true), m.op)
      case Lost => ReSnapshot(c, t1.(gaps := t.gaps + if t.mode.Streaming? then 1 else 0), fetched)
  }

  // All messages in turn; the fetch a message triggers is the next one.
  function Feed(c: Config, t: Tracker, ms: seq<Message>, f: Fetches): Tracker
    requires ConfigOk(c)
    decreases |ms|
  {
    if ms == [] then t else Feed(c, Receive(c, t, ms[0], f(t.resyncs)), ms[1..], f)
  }

  function FeedEvents(c: Config, t: Tracker, evs: seq<DepthEvent>, f: Fetches): Tracker
    requires ConfigOk(c)
  {
    if evs == [] then t
    else Feed(c, FeedEvents(c, t, evs[..|evs| - 1], f), Messages(evs[|evs| - 1]), f)
  }

  // ----- exactness

  // The update id whose book the ladder ought to show.
  function Base(t: Tracker): nat {
    if t.mode.Seeking? then t.snapId else t.prevU
  }

  ghost predicate Exact(c: Config, x: Exchange, t: Tracker)
    requires ConfigOk(c)
  {
    Mirrors(c, t.ladder, x(Base(t)))
  }

  predicate OneEvent(ms: seq<Message>, first: nat, last: nat) {
    forall i :: 0 <= i < |ms| ==> ms[i].first == first && ms[i].last == last
  }

  // The prices in the band that these sets do not touch stand at the last id as they do at id base.
  ghost predicate Covered(c: Config, x: Exchange, ops: seq<Op>, base: nat, last: nat) {
    forall p {:trigger LastAt(ops, p)} ::
      InBand(c, p) && LastAt(ops, p).None? ==> QuoteAt(x(base), p) == QuoteAt(x(last), p)
  }

  // Should one of these messages be where the event is taken up - possibly not its first, after a new snapshot -
  // then what is left of it covers everything that changed and sets it as the exchange has it.
  ghost predicate TakenTrue(c: Config, x: Exchange, t: Tracker, ms: seq<Message>, f: Fetches)
    requires ConfigOk(c)
    decreases |ms|
  {
    if ms == [] then true
    else if Continues(t, ms[0]) then t.curApply ==> OpsTrue(c, x(Base(t)), OpsOf(ms))
    else
      match Judge(t, ms[0].first, ms[0].last)
      case Skip => true
      case Apply => Covered(c, x, OpsOf(ms), Base(t), ms[0].last) && OpsTrue(c, x(ms[0].last), OpsOf(ms))
      case Lost => TakenTrue(c, x, Receive(c, t, ms[0], f(t.resyncs)), ms[1..], f)
  }

  // An event that is being applied goes in whole; one that is being skipped changes nothing.
  lemma {:induction false} Carries(c: Config, t: Tracker, ms: seq<Message>, f: Fetches, first: nat, last: nat)
    requires ConfigOk(c) && OneEvent(ms, first, last) && t.haveEvent && t.curU == first
    decreases |ms|
    ensures Feed(c, t, ms, f) == if t.curApply then t.(ladder := PutAll(c, t.ladder, OpsOf(ms))) else t
  {
    if ms != [] {
      Carries(c, Receive(c, t, ms[0], f(t.resyncs)), ms[1..], f, first, last);
      if ms[0].op.Some? {
        assert OpsOf(ms)[0] == ms[0].op.value && OpsOf(ms)[1..] == OpsOf(ms[1..]);
      } else {
        assert OpsOf(ms) == OpsOf(ms[1..]);
      }
    }
  }

  lemma AppliedMirrors(c: Config, x: Exchange, m: Ladder, ops: seq<Op>, base: nat, last: nat)
    requires BandOk(c) && Mirrors(c, m, x(base))
    ensures Mirrors(c, PutAll(c, m, ops), x(last)) <==> Covered(c, x, ops, base, last) && OpsTrue(c, x(last), ops)
  {
    forall p | InBand(c, p)
      ensures At(PutAll(c, m, ops), ToIndex(c, p)) == QuoteAt(x(last), p) <==>
        QuoteAt(x(last), p) == if LastAt(ops, p).Some? then Effect(LastAt(ops, p).value) else QuoteAt(x(base), p)
    {
      PutAllAt(c, m, ops, p);
      assert At(m, ToIndex(c, p)) == QuoteAt(x(base), p);
    }
  }

  lemma CoveredAlready(c: Config, x: Exchange, ops: seq<Op>, id: nat)
    ensures Covered(c, x, ops, id, id)
  {
  }

  // One event, from a boundary where the ladder is exact: afterwards it is exact again if and only if what was taken
  // up of the event was true.
  lemma {:induction false} EventExact(c: Config, x: Exchange, t: Tracker, ms: seq<Message>, f: Fetches,
      first: nat, last: nat)
    requires BandOk(c) && FetchesTrue(c, x, f) && Exact(c, x, t) && OneEvent(ms, first, last)
    ensures Exact(c, x, Feed(c, t, ms, f)) <==> TakenTrue(c, x, t, ms, f)
    decreases |ms|
  {
    hide Mirrors, OpsTrue, Covered, SnapshotTrue, PutAll;
    if ms != [] && Continues(t, ms[0]) {
      Carries(c, t, ms, f, first, last);
      AppliedMirrors(c, x, t.ladder, OpsOf(ms), Base(t), Base(t));
      CoveredAlready(c, x, OpsOf(ms), Base(t));
    } else if ms != [] {
      var t1 := Receive(c, t, ms[0], f(t.resyncs));
      match Judge(t, first, last)
      case Skip => Carries(c, t1, ms[1..], f, first, last);
      case Apply =>
        var t2 := t.(haveEvent := true, curU := first, curApply := true, mode := Streaming, prevU := last);
        assert Receive(c, t2, ms[0], f(t.resyncs)) == t1;
        Carries(c, t2, ms, f, first, last);
        AppliedMirrors(c, x, t.ladder, OpsOf(ms), Base(t), last);
      case Lost =>
        if f(t.resyncs).Some? { SnapshotMirrors(c, x, f(t.resyncs).value); }
        EventExact(c, x, t1, ms[1..], f, first, last);
    }
  }

  // ----- whole runs

  // The messages of a list of events, one after the other.
  function Flat(evs: seq<DepthEvent>): seq<Message> {
    if evs == [] then [] else Flat(evs[..|evs| - 1]) + Messages(evs[|evs| - 1])
  }

  lemma {:induction false} FeedConcat(c: Config, t: Tracker, a: seq<Message>, b: seq<Message>, f: Fetches)
    requires ConfigOk(c)
    ensures Feed(c, t, a + b, f) == Feed(c, Feed(c, t, a, f), b, f)
    decreases |a|
  {
    hide Receive;
    if a == [] {
      assert a + b == b;
    } else {
      assert (a + b)[1..] == a[1..] + b;
      FeedConcat(c, Receive(c, t, a[0], f(t.resyncs)), a[1..], b, f);
    }
  }

  lemma {:induction false} FeedFlat(c: Config, t: Tracker, evs: seq<DepthEvent>, f: Fetches)
    requires ConfigOk(c)
    ensures Feed(c, t, Flat(evs), f) == FeedEvents(c, t, evs, f)
  {
    hide Feed, Messages;
    if evs == [] {
      assert Feed(c, t, [], f) == t by { NoMessages(c, t, f); }
    } else {
      FeedFlat(c, t, evs[..|evs| - 1], f);
      FeedConcat(c, t, Flat(evs[..|evs| - 1]), Messages(evs[|evs| - 1]), f);
    }
  }

  lemma NoMessages(c: Config, t: Tracker, f: Fetches)
    requires ConfigOk(c)
    ensures Feed(c, t, [], f) == t
  {
  }

  // The state at the i-th event boundary.
  function AtBoundary(c: Config, s: Snapshot, evs: seq<DepthEvent>, f: Fetches, i: nat): Tracker
    requires ConfigOk(c) && i <= |evs|
  {
    FeedEvents(c, Begun(c, s), evs[..i], f)
  }

  lemma NextBoundary(c: Config, s: Snapshot, evs: seq<DepthEvent>, f: Fetches, i: nat)
    requires ConfigOk(c) && i < |evs|
    ensures AtBoundary(c, s, evs, f, i + 1) == Feed(c, AtBoundary(c, s, evs, f, i), Messages(evs[i]), f)
  {
    assert evs[..i + 1][..i] == evs[..i];
  }

  // Over any run - of any events, straddling, old, repeated, reordered or missing, with any fetches failing - the
  // ladder is exact at every event boundary if and only if all that was taken up was true.
  lemma {:induction false} RunExact(c: Config, x: Exchange, s: Snapshot, evs: seq<DepthEvent>, f: Fetches, n: nat)
    requires BandOk(c) && SnapshotTrue(c, x, s) && FetchesTrue(c, x, f) && n <= |evs|
    ensures (forall i :: 0 <= i <= n ==> Exact(c, x, AtBoundary(c, s, evs, f, i))) <==>
            (forall i :: 0 <= i < n ==> TakenTrue(c, x, AtBoundary(c, s, evs, f, i), Messages(evs[i]), f))
  {
    hide Exact, TakenTrue, AtBoundary, FetchesTrue, SnapshotTrue, Messages, Feed;
    if n == 0 {
      BeginExact(c, x, s, evs, f);
    } else {
      RunExact(c, x, s, evs, f, n - 1);
      NextBoundary(c, s, evs, f, n - 1);
      if Exact(c, x, AtBoundary(c, s, evs, f, n - 1)) {
        EventExact(c, x, AtBoundary(c, s, evs, f, n - 1), Messages(evs[n - 1]), f, evs[n - 1].first, evs[n - 1].last);
      }
    }
  }

  lemma BeginExact(c: Config, x: Exchange, s: Snapshot, evs: seq<DepthEvent>, f: Fetches)
    requires BandOk(c) && SnapshotTrue(c, x, s)
    ensures Exact(c, x, AtBoundary(c, s, evs, f, 0))
  {
    SnapshotMirrors(c, x, s);
  }

  // ----- which runs are exact

  // Whatever a boundary state is based on, a whole event that is taken up covers all that changed since.
  lemma StartCovered(c: Config, x: Exchange, t: Tracker, ev: DepthEvent)
    requires ExchangeOk(x) && Truthful(x, ev) && Judge(t, ev.first, ev.last).Apply?
    ensures Covered(c, x, Ops(ev), Base(t), ev.last)
  {
    forall p | InBand(c, p) && LastAt(Ops(ev), p).None?
      ensures QuoteAt(x(Base(t)), p) == QuoteAt(x(ev.last), p)
    {
      Untouched(x, ev, Base(t), p);
    }
  }

  // A snapshot fetched in the middle of an event does not date from inside that event's ids.
  predicate FetchedOutside(c: Config, t: Tracker, ms: seq<Message>, f: Fetches)
    requires ConfigOk(c)
    decreases |ms|
  {
    ms == [] || Continues(t, ms[0]) || !Judge(t, ms[0].first, ms[0].last).Lost? ||
    (var got := f(t.resyncs);
     && (|ms| == 1 || got.None? || got.value.id + 1 < ms[0].first || ms[0].last <= got.value.id)
     && FetchedOutside(c, Receive(c, t, ms[0], got), ms[1..], f))
  }

  lemma {:induction false} OutsideTrue(c: Config, x: Exchange, t: Tracker, ms: seq<Message>, f: Fetches,
      first: nat, last: nat)
    requires ConfigOk(c) && OneEvent(ms, first, last) && FetchedOutside(c, t, ms, f)
    requires ms == [] || !(Continues(t, ms[0]) || Judge(t, first, last).Apply?)
    ensures TakenTrue(c, x, t, ms, f)
    decreases |ms|
  {
    if ms != [] && Judge(t, first, last).Lost? {
      OutsideTrue(c, x, Receive(c, t, ms[0], f(t.resyncs)), ms[1..], f, first, last);
    }
  }

  // The event's level sets reach the book.
  predicate Applies(t: Tracker, ev: DepthEvent) {
    if t.haveEvent && t.curU == ev.first then t.curApply else Judge(t, ev.first, ev.last).Apply?
  }

  // What the tracker remembers of the last event.
  ghost predicate Boundary(t: Tracker, evs: seq<DepthEvent>) {
    t.haveEvent ==>
      && evs != [] && t.curU == evs[|evs| - 1].first
      && (t.curApply ==> t.mode.Streaming? && t.prevU == evs[|evs| - 1].last)
  }

  lemma {:induction false} EndsAt(c: Config, t: Tracker, ms: seq<Message>, f: Fetches, first: nat, last: nat)
    requires ConfigOk(c) && OneEvent(ms, first, last) && ms != []
    requires t.haveEvent && t.curU == first && t.curApply ==> t.mode.Streaming? && t.prevU == last
    ensures var t' := Feed(c, t, ms, f);
      t'.haveEvent ==> t'.curU == first && (t'.curApply ==> t'.mode.Streaming? && t'.prevU == last)
    decreases |ms|
  {
    hide PutAll;
    var t1 := Receive(c, t, ms[0], f(t.resyncs));
    if |ms| == 1 {
      assert ms[1..] == [];
    } else {
      EndsAt(c, t1, ms[1..], f, first, last);
    }
  }

  // Neighbouring events with one first id are one event.
  predicate Distinct(evs: seq<DepthEvent>) {
    forall i :: 0 < i < |evs| ==> evs[i - 1].first == evs[i].first ==> evs[i - 1] == evs[i]
  }

  lemma {:induction false} BoundaryAlways(c: Config, s: Snapshot, evs: seq<DepthEvent>, f: Fetches, i: nat)
    requires ConfigOk(c) && Distinct(evs) && i <= |evs|
    ensures Boundary(AtBoundary(c, s, evs, f, i), evs[..i])
  {
    hide Feed, Messages;
    if i > 0 {
      BoundaryAlways(c, s, evs, f, i - 1);
      NextBoundary(c, s, evs, f, i - 1);
      var t, ev := AtBoundary(c, s, evs, f, i - 1), evs[i - 1];
      if t.haveEvent && t.curU == ev.first { assert evs[i - 2] == ev; }
      EndsAt(c, t, Messages(ev), f, ev.first, ev.last);
    }
  }

  // Without a snapshot from inside its ids, an event is taken up whole or not at all, and truly exactly when no zero
  // in the band meets the other side.
  lemma OutsideEvent(c: Config, x: Exchange, t: Tracker, ev: DepthEvent, f: Fetches)
    requires ConfigOk(c) && ExchangeOk(x) && Truthful(x, ev) && FetchedOutside(c, t, Messages(ev), f)
    requires t.haveEvent && t.curU == ev.first && t.curApply ==> Base(t) == ev.last
    ensures TakenTrue(c, x, t, Messages(ev), f) <==> (Applies(t, ev) ==> NoForeignZero(c, x, ev))
  {
    hide OpsTrue, NoForeignZero, Truthful, ExchangeOk, Covered, Ops, Messages;
    OpsOfMessages(ev);
    ZeroRemovesEitherSide(c, x, ev);
    if Continues(t, Messages(ev)[0]) {
    } else if Judge(t, ev.first, ev.last).Apply? {
      StartCovered(c, x, t, ev);
    } else {
      OutsideTrue(c, x, t, Messages(ev), f, ev.first, ev.last);
    }
  }

  ghost predicate FeedTrue(x: Exchange, evs: seq<DepthEvent>) {
    Distinct(evs) && forall i :: 0 <= i < |evs| ==> Truthful(x, evs[i])
  }

  // No snapshot fetched during the run dates from inside the event that asked for it.
  predicate RunFetchedOutside(c: Config, s: Snapshot, evs: seq<DepthEvent>, f: Fetches, n: nat)
    requires ConfigOk(c) && n <= |evs|
  {
    forall i :: 0 <= i < n ==> FetchedOutside(c, AtBoundary(c, s, evs, f, i), Messages(evs[i]), f)
  }

  // No event that reaches the book sets a size to zero where, in the band, the other side stands.
  ghost predicate AppliedZerosOwn(c: Config, x: Exchange, s: Snapshot, evs: seq<DepthEvent>, f: Fetches, n: nat)
    requires ConfigOk(c) && n <= |evs|
  {
    forall i :: 0 <= i < n ==> Applies(AtBoundary(c, s, evs, f, i), evs[i]) ==> NoForeignZero(c, x, evs[i])
  }

  // Recovery of a truthful feed: at every event boundary the band shows the exchange's book at the snapshot id while
  // seeking, and at the last applied id while streaming, if and only if no applied zero meets the other side.
  lemma RecoveryExact(c: Config, x: Exchange, s: Snapshot, evs: seq<DepthEvent>, f: Fetches, n: nat)
    requires BandOk(c) && ExchangeOk(x) && SnapshotTrue(c, x, s) && FetchesTrue(c, x, f) && FeedTrue(x, evs)
    requires n <= |evs| && RunFetchedOutside(c, s, evs, f, n)
    ensures (forall i :: 0 <= i <= n ==> Exact(c, x, AtBoundary(c, s, evs, f, i))) <==>
            AppliedZerosOwn(c, x, s, evs, f, n)
  {
    hide Exact, Truthful, TakenTrue, FetchedOutside, AtBoundary, FetchesTrue, SnapshotTrue, ExchangeOk, NoForeignZero,
      Applies, Messages;
    forall i | 0 <= i < n
      ensures TakenTrue(c, x, AtBoundary(c, s, evs, f, i), Messages(evs[i]), f) <==>
        (Applies(AtBoundary(c, s, evs, f, i), evs[i]) ==> NoForeignZero(c, x, evs[i]))
    {
      BoundaryAlways(c, s, evs, f, i);
      var t := AtBoundary(c, s, evs, f, i);
      if t.haveEvent && t.curU == evs[i].first { assert evs[i - 1] == evs[i]; }
      OutsideEvent(c, x, t, evs[i], f);
    }
    RunExact(c, x, s, evs, f, n);
  }

  // ----- what is seen at event boundaries

  // Whether the book was crossed when last looked at, and how often it was newly so.
  datatype Watch = Watch(crossed: bool, seen: nat)

  ghost function Observe(w: Watch, m: Ladder): Watch {
    Watch(LadderCrossed(m), w.seen + if LadderCrossed(m) && !w.crossed then 1 else 0)
  }

  // The consumer looks when a new event begins after one that was applied, and when a snapshot has been loaded.
  ghost function Watched(c: Config, w: Watch, t: Tracker, m: Message, fetched: Option<Snapshot>): Watch
    requires ConfigOk(c)
  {
    if Continues(t, m) then w
    else
      var w1 := if t.haveEvent && t.curApply then Observe(w, t.ladder) else w;
      if Judge(t, m.first, m.last).Lost? && fetched.Some?
      then Observe(Watch(false, w1.seen), PutAll(c, map[], fetched.value.levels)) else w1
  }

  ghost function WatchAll(c: Config, w: Watch, t: Tracker, ms: seq<Message>, f: Fetches): Watch
    requires ConfigOk(c)
    decreases |ms|
  {
    if ms == [] then w
    else WatchAll(c, Watched(c, w, t, ms[0], f(t.resyncs)), Receive(c, t, ms[0], f(t.resyncs)), ms[1..], f)
  }

  ghost function WatchEvents(c: Config, s: Snapshot, evs: seq<DepthEvent>, f: Fetches, n: nat): Watch
    requires ConfigOk(c) && n <= |evs|
  {
    if n == 0 then Observe(Watch(false, 0), Begun(c, s).ladder)
    else WatchAll(c, WatchEvents(c, s, evs, f, n - 1), AtBoundary(c, s, evs, f, n - 1), Messages(evs[n - 1]), f)
  }

  lemma {:induction false} WatchConcat(c: Config, w: Watch, t: Tracker, a: seq<Message>, b: seq<Message>, f: Fetches)
    requires ConfigOk(c)
    ensures WatchAll(c, w, t, a + b, f) == WatchAll(c, WatchAll(c, w, t, a, f), Feed(c, t, a, f), b, f)
    decreases |a|
  {
    hide Receive, Watched;
    if a == [] {
      assert a + b == b;
    } else {
      assert (a + b)[1..] == a[1..] + b;
      WatchConcat(c, Watched(c, w, t, a[0], f(t.resyncs)), Receive(c, t, a[0], f(t.resyncs)), a[1..], b, f);
    }
  }

  // Watching the messages one after the other is watching the events one after the other.
  lemma {:induction false} WatchFlat(c: Config, s: Snapshot, evs: seq<DepthEvent>, f: Fetches, n: nat)
    requires ConfigOk(c) && n <= |evs|
    ensures WatchAll(c, Observe(Watch(false, 0), Begun(c, s).ladder), Begun(c, s), Flat(evs[..n]), f) ==
            WatchEvents(c, s, evs, f, n)
  {
    hide Feed, Messages, Begun, Observe;
    if n > 0 {
      WatchFlat(c, s, evs, f, n - 1);
      assert evs[..n][..n - 1] == evs[..n - 1];
      FeedFlat(c, Begun(c, s), evs[..n - 1], f);
      WatchConcat(c, Observe(Watch(false, 0), Begun(c, s).ladder), Begun(c, s), Flat(evs[..n - 1]), Messages(evs[n - 1]), f);
    }
  }

  // More of an event is not looked at.
  lemma {:induction false} NotMidEvent(c: Config, w: Watch, t: Tracker, ms: seq<Message>, f: Fetches, first: nat, last: nat)
    requires ConfigOk(c) && OneEvent(ms, first, last) && t.haveEvent && t.curU == first
    ensures WatchAll(c, w, t, ms, f) == w
    decreases |ms|
  {
    hide PutAll, PutOp;
    if ms != [] { NotMidEvent(c, w, Receive(c, t, ms[0], f(t.resyncs)), ms[1..], f, first, last); }
  }

  // A whole event that leaves no ids missing has the book looked at once, as the event before it left it, if that was
  // another one and was applied; so what is crossed in the middle of an event is never counted.
  lemma ObservedOnce(c: Config, w: Watch, t: Tracker, ev: DepthEvent, f: Fetches)
    requires ConfigOk(c) && !FitOf(t, ev).Breaks?
    ensures WatchAll(c, w, t, Messages(ev), f) ==
      if !FitOf(t, ev).More? && t.haveEvent && t.curApply then Observe(w, t.ladder) else w
  {
    hide Messages, Observe, PutAll, PutOp;
    var ms := Messages(ev);
    if FitOf(t, ev).More? {
      NotMidEvent(c, w, t, ms, f, ev.first, ev.last);
    } else {
      NotMidEvent(c, Watched(c, w, t, ms[0], f(t.resyncs)), Receive(c, t, ms[0], f(t.resyncs)), ms[1..], f, ev.first, ev.last);
    }
  }

  ghost predicate CrossedInBand(c: Config, d: Depth) {
    exists p, q :: InBand(c, p) && InBand(c, q) && q <= p && p in d.bids && q in d.asks
  }

  ghost predicate NeverCrosses(c: Config, x: Exchange) {
    forall id {:trigger x(id)} :: !CrossedInBand(c, x(id))
  }

  // The ladder's levels are those of the band.
  ghost predicate Banded(c: Config, m: Ladder)
    requires ConfigOk(c)
  {
    forall i :: i in m ==> 0 <= i < NumLevels(c)
  }

  lemma {:induction false} StaysBanded(c: Config, m: Ladder, ops: seq<Op>)
    requires BandOk(c) && Banded(c, m)
    ensures Banded(c, PutAll(c, m, ops))
    decreases |ops|
  {
    if ops != [] {
      BandIndex(c, ops[0].price);
      StaysBanded(c, PutOp(c, m, ops[0]), ops[1..]);
    }
  }

  // A ladder that mirrors a book is crossed exactly when the book is, in the band.
  lemma MirrorsCrossed(c: Config, m: Ladder, d: Depth)
    requires BandOk(c) && DepthOk(d) && Banded(c, m) && Mirrors(c, m, d)
    ensures LadderCrossed(m) <==> CrossedInBand(c, d)
  {
    hide Banded;
    if LadderCrossed(m) {
      var i, j :| i in m && j in m && j <= i && m[i].side == Buy && m[j].side == Sell;
      LevelMirrors(c, m, d, i);
      LevelMirrors(c, m, d, j);
      assert c.minPrice + i in d.bids && c.minPrice + j in d.asks;
    }
    if CrossedInBand(c, d) {
      var p, q :| InBand(c, p) && InBand(c, q) && q <= p && p in d.bids && q in d.asks;
      BandIndex(c, p);
      BandIndex(c, q);
      assert QuoteAt(d, p).Some? && QuoteAt(d, q).Some?;
      assert p - c.minPrice in m && q - c.minPrice in m;
    }
  }

  lemma LevelMirrors(c: Config, m: Ladder, d: Depth, i: int)
    requires BandOk(c) && Banded(c, m) && Mirrors(c, m, d) && i in m
    ensures InBand(c, c.minPrice + i) && QuoteAt(d, c.minPrice + i) == Some(m[i])
  {
    BandIndex(c, c.minPrice + i);
  }

  lemma {:induction false} FeedBanded(c: Config, t: Tracker, ms: seq<Message>, f: Fetches)
    requires BandOk(c) && Banded(c, t.ladder)
    ensures Banded(c, Feed(c, t, ms, f).ladder)
    decreases |ms|
  {
    hide PutAll, Banded;
    if ms != [] {
      ReceiveBanded(c, t, ms[0], f(t.resyncs));
      FeedBanded(c, Receive(c, t, ms[0], f(t.resyncs)), ms[1..], f);
    }
  }

  lemma ReceiveBanded(c: Config, t: Tracker, m: Message, fetched: Option<Snapshot>)
    requires BandOk(c) && Banded(c, t.ladder)
    ensures Banded(c, Receive(c, t, m, fetched).ladder)
  {
    if m.op.Some? {
      StaysBanded(c, t.ladder, [m.op.value]);
      assert PutAll(c, t.ladder, [m.op.value]) == PutOp(c, t.ladder, m.op.value);
    }
    if fetched.Some? { StaysBanded(c, map[], fetched.value.levels); }
  }

  lemma {:induction false} BoundaryBanded(c: Config, s: Snapshot, evs: seq<DepthEvent>, f: Fetches, i: nat)
    requires BandOk(c) && i <= |evs|
    ensures Banded(c, AtBoundary(c, s, evs, f, i).ladder)
  {
    hide Feed, PutAll, Banded, Messages;
    if i == 0 {
      NoLevelsBanded(c);
      StaysBanded(c, map[], s.levels);
    } else {
      BoundaryBanded(c, s, evs, f, i - 1);
      NextBoundary(c, s, evs, f, i - 1);
      FeedBanded(c, AtBoundary(c, s, evs, f, i - 1), Messages(evs[i - 1]), f);
    }
  }

  lemma NoLevelsBanded(c: Config)
    requires BandOk(c)
    ensures Banded(c, map[])
  {
  }

  lemma TrueNotCrossed(c: Config, x: Exchange, m: Ladder, id: nat, w: Watch)
    requires BandOk(c) && ExchangeOk(x) && NeverCrosses(c, x) && Banded(c, m) && Mirrors(c, m, x(id)) && w.seen == 0
    ensures Observe(w, m) == Watch(false, 0)
  {
    hide LadderCrossed, CrossedInBand, Banded, Mirrors;
    ExchangeAt(x, id);
    MirrorsCrossed(c, m, x(id));
  }

  lemma {:induction false} QuietEvent(c: Config, x: Exchange, t: Tracker, ms: seq<Message>, f: Fetches, first: nat)
    requires BandOk(c) && ExchangeOk(x) && NeverCrosses(c, x) && FetchesTrue(c, x, f)
    requires forall i :: 0 <= i < |ms| ==> ms[i].first == first
    requires t.haveEvent && t.curApply && t.curU != first ==> Exact(c, x, t) && Banded(c, t.ladder)
    ensures WatchAll(c, Watch(false, 0), t, ms, f) == Watch(false, 0)
    decreases |ms|
  {
    hide PutAll, Banded, Mirrors, ExchangeOk, NeverCrosses, Observe, SnapshotTrue, PutOp;
    if ms != [] {
      var m, got := ms[0], f(t.resyncs);
      if !Continues(t, m) {
        if t.haveEvent && t.curApply { TrueNotCrossed(c, x, t.ladder, Base(t), Watch(false, 0)); }
        if Judge(t, m.first, m.last).Lost? && got.Some? {
          var s := got.value;
          SnapshotMirrors(c, x, s);
          NoLevelsBanded(c);
          StaysBanded(c, map[], s.levels);
          TrueNotCrossed(c, x, PutAll(c, map[], s.levels), s.id, Watch(false, 0));
        }
      }
      QuietEvent(c, x, Receive(c, t, m, got), ms[1..], f, first);
    }
  }

  // While the ladder is exact at every boundary, an exchange that never crosses in the band is never seen crossed,
  // however its events look halfway and however often the book is loaded anew.
  lemma {:induction false} NoFalseAlarm(c: Config, x: Exchange, s: Snapshot, evs: seq<DepthEvent>, f: Fetches, n: nat)
    requires BandOk(c) && ExchangeOk(x) && NeverCrosses(c, x) && FetchesTrue(c, x, f) && n <= |evs|
    requires forall i :: 0 <= i <= n ==> Exact(c, x, AtBoundary(c, s, evs, f, i))
    ensures WatchEvents(c, s, evs, f, n) == Watch(false, 0)
  {
    hide Banded, NeverCrosses, ExchangeOk, FetchesTrue, WatchAll, Messages, Exact;
    BoundaryBanded(c, s, evs, f, if n == 0 then 0 else n - 1);
    if n == 0 {
      StartsSeeking(c, s, evs, f);
      assert Exact(c, x, AtBoundary(c, s, evs, f, 0));
      StartQuiet(c, x, s);
    } else {
      NoFalseAlarm(c, x, s, evs, f, n - 1);
      QuietEvent(c, x, AtBoundary(c, s, evs, f, n - 1), Messages(evs[n - 1]), f, evs[n - 1].first);
    }
  }

  lemma StartQuiet(c: Config, x: Exchange, s: Snapshot)
    requires BandOk(c) && ExchangeOk(x) && NeverCrosses(c, x) && Exact(c, x, Begun(c, s)) && Banded(c, Begun(c, s).ladder)
    ensures Observe(Watch(false, 0), Begun(c, s).ladder) == Watch(false, 0)
  {
    TrueNotCrossed(c, x, Begun(c, s).ladder, s.id, Watch(false, 0));
  }

  // ----- when a new snapshot is asked for, and that it brings the feed back

  // Every id from base on arrives, in order and once.
  predicate Unbroken(base: nat, evs: seq<DepthEvent>) {
    && (forall i :: 0 <= i < |evs| ==> evs[i].first <= evs[i].last)
    && (forall i :: 0 < i < |evs| ==> evs[i].first == evs[i - 1].last + 1)
    && (evs != [] ==> evs[0].first <= base + 1)
  }

  // What the next event is to the ladder, by ids alone: more of the current one, old, one that joins up - reaching
  // back to the snapshot while seeking, following on directly while streaming - or one that leaves ids missing.
  datatype Fit = More | Stale | Joins | Breaks

  function FitOf(t: Tracker, ev: DepthEvent): Fit {
    if t.haveEvent && t.curU == ev.first then More
    else if ev.last <= Base(t) then Stale
    else if ev.first == Base(t) + 1 || (t.mode.Seeking? && ev.first <= Base(t)) then Joins
    else Breaks
  }

  // A whole event fed, whatever the state: a new snapshot is asked for exactly when it leaves ids missing. Then, if
  // the fetch succeeds and there is no rest of the event that is newer, the ladder is the snapshot's, and seeking.
  lemma EventByIds(c: Config, t: Tracker, ev: DepthEvent, f: Fetches)
    requires ConfigOk(c)
    ensures var t' := Feed(c, t, Messages(ev), f);
      match FitOf(t, ev)
      case More => t' == if t.curApply then t.(ladder := PutAll(c, t.ladder, Ops(ev))) else t
      case Stale => t' == t.(haveEvent := true, curU := ev.first, curApply := false)
      case Joins =>
        t' == Tracker(Streaming, t.snapId, ev.last, true, ev.first, true, t.gaps, t.resyncs, PutAll(c, t.ladder, Ops(ev)))
      case Breaks =>
        && t'.resyncs > t.resyncs && t'.gaps >= t.gaps + (if t.mode.Streaming? then 1 else 0)
        && (f(t.resyncs).Some? ==>
              var s := f(t.resyncs).value;
              |Messages(ev)| == 1 || ev.last <= s.id ==> Reloaded(c, t, t', ev, s))
        && (f(t.resyncs).None? && |Messages(ev)| == 1 ==>
              t' == t.(haveEvent := false, curU := ev.first, curApply := false, resyncs := t.resyncs + 1,
                       gaps := t.gaps + if t.mode.Streaming? then 1 else 0))
  {
    hide PutAll, Messages;
    var ms := Messages(ev);
    OpsOfMessages(ev);
    match FitOf(t, ev)
    case More => Carries(c, t, ms, f, ev.first, ev.last);
    case Stale => Carries(c, Receive(c, t, ms[0], f(t.resyncs)), ms[1..], f, ev.first, ev.last);
    case Joins =>
      var t2 := t.(haveEvent := true, curU := ev.first, curApply := true, mode := Streaming, prevU := ev.last);
      assert Receive(c, t2, ms[0], f(t.resyncs)) == Receive(c, t, ms[0], f(t.resyncs));
      Carries(c, t2, ms, f, ev.first, ev.last);
    case Breaks => BreaksResync(c, t, ms, f, ev.first, ev.last);
  }

  // The ladder is the new snapshot's.
  ghost predicate Reloaded(c: Config, t: Tracker, t': Tracker, ev: DepthEvent, s: Snapshot)
    requires ConfigOk(c)
  {
    && t'.mode.Seeking? && t'.snapId == s.id && t'.ladder == PutAll(c, map[], s.levels)
    && t'.resyncs == t.resyncs + 1 && t'.gaps == t.gaps + (if t.mode.Streaming? then 1 else 0)
    && !t'.curApply && (t'.haveEvent ==> t'.curU == ev.first && ev.last <= s.id)
  }

  lemma {:induction false} OnlyGrow(c: Config, t: Tracker, ms: seq<Message>, f: Fetches)
    requires ConfigOk(c)
    ensures Feed(c, t, ms, f).resyncs >= t.resyncs && Feed(c, t, ms, f).gaps >= t.gaps
    decreases |ms|
  {
    hide PutAll;
    if ms != [] { OnlyGrow(c, Receive(c, t, ms[0], f(t.resyncs)), ms[1..], f); }
  }

  lemma BreaksResync(c: Config, t: Tracker, ms: seq<Message>, f: Fetches, first: nat, last: nat)
    requires ConfigOk(c) && OneEvent(ms, first, last) && ms != [] && FitOf(t, DepthEvent(first, last, [], [])).Breaks?
    ensures var t' := Feed(c, t, ms, f);
      && t'.resyncs > t.resyncs && t'.gaps >= t.gaps + (if t.mode.Streaming? then 1 else 0)
      && (f(t.resyncs).Some? ==>
            var s := f(t.resyncs).value;
            |ms| == 1 || last <= s.id ==> Reloaded(c, t, t', DepthEvent(first, last, [], []), s))
      && (f(t.resyncs).None? && |ms| == 1 ==>
            t' == t.(haveEvent := false, curU := first, curApply := false, resyncs := t.resyncs + 1,
                       gaps := t.gaps + if t.mode.Streaming? then 1 else 0))
  {
    hide PutAll;
    var t1 := Receive(c, t, ms[0], f(t.resyncs));
    OnlyGrow(c, t1, ms[1..], f);
    if |ms| == 1 {
      assert ms[1..] == [];
    } else if f(t.resyncs).Some? && last <= f(t.resyncs).value.id {
      Carries(c, Receive(c, t1, ms[1], f(t1.resyncs)), ms[1..][1..], f, first, last);
    }
  }

  // Followed without a break from the base of a seeking tracker.
  lemma {:induction false} UnbrokenFrom(c: Config, t: Tracker, evs: seq<DepthEvent>, f: Fetches, n: nat)
    requires ConfigOk(c) && t.mode.Seeking? && Unbroken(t.snapId, evs) && n <= |evs|
    requires t.haveEvent && evs != [] && t.curU == evs[0].first ==> !t.curApply && evs[0].last <= t.snapId
    ensures var u := FeedEvents(c, t, evs[..n], f);
      && u.gaps == t.gaps && u.resyncs == t.resyncs && (n == 0 ==> u == t)
      && (n > 0 ==> u.haveEvent && u.curU == evs[n - 1].first)
      && if n > 0 && evs[n - 1].last > t.snapId then u.mode.Streaming? && u.prevU == evs[n - 1].last
         else u.mode.Seeking? && u.snapId == t.snapId
  {
    hide PutAll, Feed, Messages;
    if n > 0 {
      UnbrokenFrom(c, t, evs, f, n - 1);
      assert evs[..n][..n - 1] == evs[..n - 1];
      EventByIds(c, FeedEvents(c, t, evs[..n - 1], f), evs[n - 1], f);
    }
  }

  // A feed without a break is followed to its end without a gap or a new snapshot: events up to the snapshot id
  // are skipped, the one that straddles it starts the streaming, and every later one is applied.
  lemma UnbrokenStreams(c: Config, s: Snapshot, evs: seq<DepthEvent>, f: Fetches, n: nat)
    requires BandOk(c) && Unbroken(s.id, evs) && n <= |evs|
    ensures var t := AtBoundary(c, s, evs, f, n);
      && t.gaps == 0 && t.resyncs == 0
      && if n > 0 && evs[n - 1].last > s.id then t.mode.Streaming? && t.prevU == evs[n - 1].last
         else t.mode.Seeking? && t.snapId == s.id
  {
    hide PutAll;
    UnbrokenFrom(c, Begun(c, s), evs, f, n);
  }

  lemma {:induction false} EventsConcat(c: Config, t: Tracker, a: seq<DepthEvent>, b: seq<DepthEvent>, f: Fetches)
    requires ConfigOk(c)
    ensures FeedEvents(c, t, a + b, f) == FeedEvents(c, FeedEvents(c, t, a, f), b, f)
    decreases |b|
  {
    hide Feed, Messages;
    if b == [] {
      assert a + b == a;
    } else {
      assert (a + b)[..|a + b| - 1] == a + b[..|b| - 1];
      EventsConcat(c, t, a, b[..|b| - 1], f);
    }
  }

  // Event i leaves ids missing, the fetch it asks for brings a snapshot no older than what is left of the event, and
  // from there on the events up to n follow without a break.
  predicate BreaksOff(c: Config, s: Snapshot, evs: seq<DepthEvent>, f: Fetches, i: nat, n: nat)
    requires ConfigOk(c) && i + 1 < n <= |evs|
  {
    var t := AtBoundary(c, s, evs, f, i);
    && FitOf(t, evs[i]).Breaks? && f(t.resyncs).Some?
    && var again := f(t.resyncs).value.id;
       && (|Messages(evs[i])| == 1 || evs[i].last <= again)
       && Unbroken(again, evs[i + 1..n]) && evs[n - 1].last > again
       && (evs[i + 1].first == evs[i].first ==> evs[i + 1].last <= again)
  }

  // Recovery: wherever a run has got to, after such an event it ends in streaming at the last id, with one new snapshot.
  lemma CatchesUp(c: Config, s: Snapshot, evs: seq<DepthEvent>, f: Fetches, i: nat, n: nat)
    requires ConfigOk(c) && i + 1 < n <= |evs| && BreaksOff(c, s, evs, f, i, n)
    ensures var t, u := AtBoundary(c, s, evs, f, i), AtBoundary(c, s, evs, f, n);
      && u.mode.Streaming? && u.prevU == evs[n - 1].last
      && u.resyncs == t.resyncs + 1 && u.gaps == t.gaps + if t.mode.Streaming? then 1 else 0
  {
    hide PutAll, Feed, Messages, Unbroken;
    var t, v := AtBoundary(c, s, evs, f, i), AtBoundary(c, s, evs, f, i + 1);
    var rest := evs[i + 1..n];
    NextBoundary(c, s, evs, f, i);
    EventByIds(c, t, evs[i], f);
    UnbrokenFrom(c, v, rest, f, |rest|);
    assert rest[..|rest|] == rest && rest[|rest| - 1] == evs[n - 1] && rest[0] == evs[i + 1];
    EventsConcat(c, Begun(c, s), evs[..i + 1], rest, f);
    assert evs[..i + 1] + rest == evs[..n];
  }

  // And on a truthful feed the band then shows the exchange at that last id.
  lemma CaughtUpExact(c: Config, x: Exchange, s: Snapshot, evs: seq<DepthEvent>, f: Fetches, i: nat, n: nat)
    requires BandOk(c) && ExchangeOk(x) && SnapshotTrue(c, x, s) && FetchesTrue(c, x, f) && FeedTrue(x, evs)
    requires i + 1 < n <= |evs| && RunFetchedOutside(c, s, evs, f, n) && AppliedZerosOwn(c, x, s, evs, f, n)
    requires BreaksOff(c, s, evs, f, i, n)
    ensures Mirrors(c, AtBoundary(c, s, evs, f, n).ladder, x(evs[n - 1].last))
  {
    hide ExchangeOk, SnapshotTrue, FetchesTrue, FeedTrue, RunFetchedOutside, AppliedZerosOwn, Mirrors, AtBoundary,
      BreaksOff;
    CatchesUp(c, s, evs, f, i, n);
    RecoveryExact(c, x, s, evs, f, n);
    assert Exact(c, x, AtBoundary(c, s, evs, f, n));
  }

  lemma StartsSeeking(c: Config, s: Snapshot, evs: seq<DepthEvent>, f: Fetches)
    requires ConfigOk(c)
    ensures AtBoundary(c, s, evs, f, 0) == Begun(c, s)
  {
    hide PutAll;
  }

  // ----- what goes wrong otherwise

  const BAND := Config(1, 2, 1)

  // Ids 1 to 3 leave the book empty; id 4 brings bids at both prices.
  function TwoBids(id: nat): Depth {
    if id < 4 then Depth(map[], map[]) else Depth(map[1 := 7, 2 := 7], map[])
  }

  const QUIET := DepthEvent(1, 1, [], [])
  const BOTH := DepthEvent(3, 4, [Level(1, 7), Level(2, 7)], [])

  function FromThree(k: nat): Option<Snapshot> {
    Some(Snapshot(3, []))
  }

  lemma BothMessages()
    ensures OpsOn(Buy, BOTH.bids) == [Op(Buy, 1, 7), Op(Buy, 2, 7)] && OpsOn(Sell, BOTH.asks) == []
    ensures Ops(QUIET) == [] && Ops(BOTH) == [Op(Buy, 1, 7), Op(Buy, 2, 7)]
    ensures Messages(QUIET) == [Message(1, 1, None)]
    ensures Messages(BOTH) == [Message(3, 4, Some(Op(Buy, 1, 7))), Message(3, 4, Some(Op(Buy, 2, 7)))]
  {
    assert OpsOn(Buy, BOTH.bids[1..]) == [Op(Buy, 2, 7)];
    assert Ops(BOTH) == [Op(Buy, 1, 7), Op(Buy, 2, 7)];
    assert Sent(3, 4, Ops(BOTH)[1..]) == [Message(3, 4, Some(Op(Buy, 2, 7)))];
  }

  lemma BothTruthful()
    ensures ExchangeOk(TwoBids) && FeedTrue(TwoBids, [QUIET, BOTH]) && NoForeignZero(BAND, TwoBids, BOTH)
    ensures SnapshotTrue(BAND, TwoBids, Snapshot(0, [])) && FetchesTrue(BAND, TwoBids, FromThree)
  {
    hide Truthful;
    BothMessages();
    QuietTruthful();
    BidsTruthful();
  }

  lemma QuietTruthful()
    ensures Truthful(TwoBids, QUIET)
  {
  }

  lemma BidsTruthful()
    ensures Truthful(TwoBids, BOTH)
  {
    hide OpsOn;
    BothMessages();
    var ops := OpsOn(Buy, BOTH.bids);
    assert ops[1..] == [Op(Buy, 2, 7)] && ops[1..][1..] == [];
    forall p
      ensures LastAt(ops, p) == if p == 2 then Some(ops[1]) else if p == 1 then Some(ops[0]) else None
    {
      assert LastAt(ops[1..][1..], p) == None;
    }
    assert LastAt(ops, 1).Some? && LastAt(ops, 2).Some?;
  }

  // The states of the run below, message by message.
  lemma TornRun()
    ensures AtBoundary(BAND, Snapshot(0, []), [QUIET, BOTH], FromThree, 1) ==
            Tracker(Streaming, 0, 1, true, 1, true, 0, 0, map[])
    ensures AtBoundary(BAND, Snapshot(0, []), [QUIET, BOTH], FromThree, 2) ==
            Tracker(Streaming, 3, 4, true, 3, true, 1, 1, map[1 := Quote(Buy, 7)])
  {
    hide Messages, AtBoundary;
    var s, evs := Snapshot(0, []), [QUIET, BOTH];
    BothMessages();
    StartsSeeking(BAND, s, evs, FromThree);
    NextBoundary(BAND, s, evs, FromThree, 0);
    NextBoundary(BAND, s, evs, FromThree, 1);
    var t1 := Tracker(Streaming, 0, 1, true, 1, true, 0, 0, map[]);
    NoMessages(BAND, t1, FromThree);
    assert Messages(QUIET)[1..] == [];
    var ms := Messages(BOTH);
    var t2 := Receive(BAND, t1, ms[0], FromThree(0));
    assert t2 == Tracker(Seeking, 3, 0, false, 3, false, 1, 1, map[]);
    var t3 := Receive(BAND, t2, ms[1], FromThree(1));
    assert t3.ladder == map[1 := Quote(Buy, 7)];
    NoMessages(BAND, t3, FromThree);
    assert ms[1..] == [ms[1]] && ms[1..][1..] == [];
  }

  // A run where all hypotheses of RecoveryExact hold but one: event 3-4 comes after a gap, and the snapshot taken at
  // its first level dates from id 3, inside it. The second level is applied, the first is lost for good.
  lemma TornEvent()
    ensures var s, evs := Snapshot(0, []), [QUIET, BOTH];
      && ExchangeOk(TwoBids) && SnapshotTrue(BAND, TwoBids, s) && FetchesTrue(BAND, TwoBids, FromThree)
      && FeedTrue(TwoBids, evs) && AppliedZerosOwn(BAND, TwoBids, s, evs, FromThree, 2)
      && Exact(BAND, TwoBids, AtBoundary(BAND, s, evs, FromThree, 1))
      && !Exact(BAND, TwoBids, AtBoundary(BAND, s, evs, FromThree, 2))
  {
    hide FeedTrue, FetchesTrue, SnapshotTrue, ExchangeOk, AtBoundary, Messages;
    var s, evs := Snapshot(0, []), [QUIET, BOTH];
    BothTruthful();
    BothMessages();
    TornRun();
    assert NoForeignZero(BAND, TwoBids, QUIET);
    assert QuoteAt(TwoBids(4), 1) == Some(Quote(Buy, 7)) && ToIndex(BAND, 1) == 0;
  }

  function AskThenBid(id: nat): Depth {
    if id < 1 then Depth(map[], map[1 := 5]) else Depth(map[1 := 7], map[])
  }

  const TURN := DepthEvent(1, 1, [Level(1, 7)], [Level(1, 0)])

  lemma TurnOps()
    ensures OpsOn(Buy, TURN.bids) == [Op(Buy, 1, 7)] && OpsOn(Sell, TURN.asks) == [Op(Sell, 1, 0)]
    ensures Ops(TURN) == [Op(Buy, 1, 7), Op(Sell, 1, 0)]
  {
  }

  lemma TurnTruthful()
    ensures ExchangeOk(AskThenBid) && Truthful(AskThenBid, TURN)
  {
    hide OpsOn;
    TurnOps();
  }

  const ASK_STANDS := Snapshot(0, [Op(Sell, 1, 5)])

  function NoFetch(k: nat): Option<Snapshot> {
    None
  }

  lemma TurnRun()
    ensures AtBoundary(BAND, ASK_STANDS, [TURN], NoFetch, 0) == Begun(BAND, ASK_STANDS)
    ensures Begun(BAND, ASK_STANDS).ladder == map[0 := Quote(Sell, 5)]
    ensures AtBoundary(BAND, ASK_STANDS, [TURN], NoFetch, 1) == Tracker(Streaming, 0, 1, true, 1, true, 0, 0, map[])
  {
    hide AtBoundary, Messages;
    TurnOps();
    StartsSeeking(BAND, ASK_STANDS, [TURN], NoFetch);
    NextBoundary(BAND, ASK_STANDS, [TURN], NoFetch, 0);
    var t0, ms := Begun(BAND, ASK_STANDS), Messages(TURN);
    assert t0.ladder == map[0 := Quote(Sell, 5)];
    var t2 := t0.(haveEvent := true, curU := 1, curApply := true, mode := Streaming, prevU := 1);
    assert Receive(BAND, t2, ms[0], None) == Receive(BAND, t0, ms[0], None);
    OpsOfMessages(TURN);
    Carries(BAND, t2, ms, NoFetch, 1, 1);
    var ops := Ops(TURN);
    assert PutAll(BAND, PutOp(BAND, t0.ladder, ops[0]), ops[1..]) == map[];
  }

  lemma AskShown()
    ensures SnapshotTrue(BAND, AskThenBid, ASK_STANDS) && FetchesTrue(BAND, AskThenBid, NoFetch)
  {
  }

  // A run where all hypotheses of RecoveryExact hold, and its condition does not: a level turns from ask to bid within
  // one event, and the zero for the ask, sent after the bid, wipes it out.
  lemma AskTurnsBid()
    ensures ExchangeOk(AskThenBid) && SnapshotTrue(BAND, AskThenBid, ASK_STANDS) && FetchesTrue(BAND, AskThenBid, NoFetch)
    ensures FeedTrue(AskThenBid, [TURN]) && RunFetchedOutside(BAND, ASK_STANDS, [TURN], NoFetch, 1)
    ensures !NoForeignZero(BAND, AskThenBid, TURN) && QuoteAt(AskThenBid(1), 1) == Some(Quote(Buy, 7))
    ensures var t := AtBoundary(BAND, ASK_STANDS, [TURN], NoFetch, 1);
      t.mode.Streaming? && t.prevU == 1 && t.ladder == map[] && !Exact(BAND, AskThenBid, t)
  {
    hide Truthful, ExchangeOk, AtBoundary, Messages, SnapshotTrue, FetchesTrue;
    TurnTruthful();
    TurnOps();
    TurnRun();
    AskShown();
    var ops := Ops(TURN);
    assert LastAt(ops[1..], 1) == Some(Op(Sell, 1, 0));
    assert LastAt(ops, 1) == Some(Op(Sell, 1, 0)) && Standing(SideOf(AskThenBid(1), true), 1) == 7;
    assert ToIndex(BAND, 1) == 0;
  }
}
