/**
 The parts put together: a generated file, read, parsed, delivered with or without a gap injected, through the
 ring under any schedule of the two threads, sequenced and applied.
 */
module Engine {
  import opened BookSpec
  import opened MarketEvents
  import opened SpscRings
  import Delivery
  import Framing
  import Generators
  import Pipeline
  import Recovery
  import Wire

  // Frame i of a file carries number i + 1.
  function StreamOf(evs: seq<MarketEvent>): Recovery.Stream {
    n => if 1 <= n <= |evs| then evs[n - 1] else CLEAN_EVENT
  }

  // The two replays of a stream agree: number by number, and event by event.
  lemma {:induction false} ReplaysAgree(evs: seq<MarketEvent>, n: nat)
    requires n <= |evs|
    ensures Recovery.Replay(Generators.DEFAULT_CONFIG, StreamOf(evs), 1, n + 1) == Generators.Replay(evs[..n]).book
  {
    hide WellFormed, Apply;
    if n > 0 {
      ReplaysAgree(evs, n - 1);
      assert evs[..n][..n - 1] == evs[..n - 1];
    }
  }

  // ----- the channel between the threads

  // What the consumer has popped is, under Block, a prefix of what the producer set out to send, and all of it once
  // the producer is idle and the ring empty; under either policy it was sent, in the order it was sent.
  lemma ThroughChannel<T>(k: nat, p: Policy, blank: T, acts: seq<Action<T>>, toSend: seq<T>)
    requires 1 <= k < 64 && Possible(k, p, blank, acts) && Exec(k, p, blank, acts).offered <= toSend
    ensures var s := Exec(k, p, blank, acts);
      && (p.Block? ==> s.popped <= toSend)
      && (p.Block? && s.offered == toSend && s.prod.PIdle? && s.popped == s.pushed ==> s.popped == toSend)
      && |s.popped| <= |s.keptAt|
      && (forall i :: 0 <= i < |s.popped| ==> s.keptAt[i] < |toSend| && s.popped[i] == toSend[s.keptAt[i]])
      && (forall i, j :: 0 <= i < j < |s.popped| ==> s.keptAt[i] < s.keptAt[j])
  {
    hide Exec, Possible, IndexInv;
    Always(k, p, blank, acts);
    var s := Exec(k, p, blank, acts);
    assert s.popped == s.pushed[..|s.popped|] && s.offered == toSend[..|s.offered|];
    assert p.Block? ==> s.pushed == s.offered[..|s.pushed|];
  }

  // ----- end to end

  lemma GoodAt(g: Generators.Generator)
    requires g.Valid()
    ensures Generators.Good(g.sent, g.live, g.nextRef)
    ensures forall i :: 0 <= i < |g.sent| ==> Wire.Encodable(g.sent[i])
  {
    hide Generators.Mirrors, Generators.Sound;
  }

  // What the producer sends for a generated file.
  ghost function ToSend(g: Generators.Generator, gapAt: nat, distance: nat): seq<Delivery.Msg>
    reads g.w
  {
    Delivery.Delivered(Delivery.Parsed(Framing.EventsIn(Framing.Frames(g.w.os))), gapAt, distance)
  }

  ghost function EventsSent(g: Generators.Generator): seq<MarketEvent>
    requires g.Valid()
    reads g, g.w
  {
    GoodAt(g);
    Generators.EventsOf(g.sent)
  }

  // Every message carries the event of its number.
  lemma SentEvents(g: Generators.Generator, gapAt: nat, distance: nat, m: Delivery.Msg)
    requires g.Valid() && m in ToSend(g, gapAt, distance)
    ensures m.event == StreamOf(EventsSent(g))(m.sequence)
  {
    hide Generators.Generator.Valid, Generators.Good, Generators.Mirrors, Generators.Replay;
    hide Delivery.Delivered, Delivery.Parsed, Framing.Frames;
    g.Generated();
    GoodAt(g);
    Delivery.DeliveredKeeps(Framing.EventsIn(Framing.Frames(g.w.os)), gapAt, distance);
  }

  // Everything sent has arrived: the book holds the generator's live orders, and no published book was crossed.
  ghost predicate Settled(g: Generators.Generator, f: Recovery.Feed)
    reads g
  {
    && Generators.Mirrors(f.book.orders, g.live) && !f.seqr.stale && f.seqr.expected == |g.sent| + 1
    && |f.published| == |g.sent| && forall k :: 0 <= k < |f.published| ==> !Crossed(f.published[k].book)
  }

  // Whatever the generator drew, and with or without a gap injected, as long as the buffer can hold what overtakes
  // the held frame: once every message is in, the feed has settled.
  lemma AllArrived(g: Generators.Generator, gapAt: nat, distance: nat, capacity: nat)
    requires g.Valid() && Delivery.OvertakingAll(|g.sent|, gapAt, distance) <= capacity
    ensures Settled(g, Recovery.Run(Generators.DEFAULT_CONFIG, 1, capacity, StreamOf(EventsSent(g)),
                                    Delivery.Numbers(ToSend(g, gapAt, distance))))
  {
    hide Generators.Generator.Valid, Generators.Good, Generators.Mirrors, Generators.Replay, Recovery.Replay;
    hide Recovery.Run, Delivery.Delivered, Delivery.Parsed, Framing.Frames, Crossed, Delivery.Late, Delivery.Overtaking;
    hide Delivery.OvertakingAll, Delivery.FirstUnparsed, Delivery.Numbers;
    g.Generated();
    GoodAt(g);
    var evs, frames := EventsSent(g), Framing.EventsIn(Framing.Frames(g.w.os));
    var c, stream, n := Generators.DEFAULT_CONFIG, StreamOf(evs), |g.sent|;
    Delivery.AllParse(frames, gapAt, distance);
    Delivery.GapInjection(c, capacity, stream, frames, gapAt, distance);
    ReplaysAgree(evs, n);
    assert evs[..n] == evs;
    var f := Recovery.Run(c, 1, capacity, stream, Delivery.Numbers(ToSend(g, gapAt, distance)));
    forall k | 0 <= k < |f.published|
      ensures !Crossed(f.published[k].book)
    {
      ReplaysAgree(evs, k + 1);
    }
  }

  // Where the consumer's feed f is when the ring has reached state s: where the recovery theorems say, with what has
  // been popped; and under Block, once the producer is done and the ring empty, settled.
  ghost predicate Outcome(g: Generators.Generator, gapAt: nat, distance: nat, capacity: nat, p: Policy,
      s: Ring<Delivery.Msg>, f: Recovery.Feed)
    requires g.Valid()
    reads g, g.w
  {
    var c, stream, toSend := Generators.DEFAULT_CONFIG, StreamOf(EventsSent(g)), ToSend(g, gapAt, distance);
    && f == Recovery.Run(c, 1, capacity, stream, Delivery.Numbers(s.popped)) && Recovery.FeedOk(f, c, stream)
    && (p.Block? ==> s.popped <= toSend)
    && (p.Block? && s.offered == toSend && s.prod.PIdle? && s.popped == s.pushed ==>
          (Delivery.OvertakingAll(|g.sent|, gapAt, distance) <= capacity ==> Settled(g, f)))
  }

  // At any moment of any schedule, under either policy, with or without a gap injected.
  method EndToEnd(g: Generators.Generator, gapAt: nat, distance: nat, capacity: nat,
      k: nat, p: Policy, blank: Delivery.Msg, acts: seq<Action<Delivery.Msg>>)
    returns (consumer: Pipeline.Consumer)
    requires g.Valid() && 1 <= k < 64 && Possible(k, p, blank, acts)
    requires Exec(k, p, blank, acts).offered <= ToSend(g, gapAt, distance)
    ensures fresh(consumer) && consumer.Valid()
    ensures Outcome(g, gapAt, distance, capacity, p, Exec(k, p, blank, acts), consumer.Now())
  {
    hide Generators.Generator.Valid, Possible, Exec, Settled, Recovery.Run, Recovery.FeedOk, Pipeline.Consumer.Valid;
    hide ToSend, EventsSent, Delivery.OvertakingAll;
    var s := Exec(k, p, blank, acts);
    ghost var stream := StreamOf(EventsSent(g));
    ThroughChannel(k, p, blank, acts, ToSend(g, gapAt, distance));
    forall i | 0 <= i < |s.popped|
      ensures s.popped[i].event == stream(s.popped[i].sequence)
    {
      SentEvents(g, gapAt, distance, s.popped[i]);
    }
    if Delivery.OvertakingAll(|g.sent|, gapAt, distance) <= capacity { AllArrived(g, gapAt, distance, capacity); }
    consumer := new Pipeline.Consumer(Generators.DEFAULT_CONFIG, 0x1_0000, 1, capacity);
    NewConsumer(consumer.Now(), capacity);
    consumer.Consume(s.popped, stream);
  }

  lemma NewConsumer(f: Recovery.Feed, capacity: nat)
    requires f == Recovery.NewFeed(Normalise(Generators.DEFAULT_CONFIG), 1, capacity)
    ensures Normalise(Generators.DEFAULT_CONFIG) == Generators.DEFAULT_CONFIG
    ensures f.seqr.expected == 1 && f.seqr.capacity == capacity
  {
  }
}
