/** Gap detection and the bounded reorder buffer, as a value and as the class that updates it in place. */
module Sequencers {
  import opened Arith
  import opened MarketEvents

  datatype Disposition = ApplyNow | Drop | Buffered | Overflow

  datatype SequencerStats = SequencerStats(
    accepted: nat, duplicates: nat, bufferedReleased: nat, gapEpisodes: nat, missingTotal: nat,
    reorderOverflow: nat, snapshotRecoveries: nat)

  const ZERO_STATS := SequencerStats(0, 0, 0, 0, 0, 0, 0)

  datatype SeqState = SeqState(
    capacity: nat, expected: nat, stale: bool, needsSnapshot: bool, reorder: map<nat, MarketEvent>, stats: SequencerStats)

  function Start(startSeq: nat, capacity: nat): SeqState {
    SeqState(capacity, startSeq, false, false, map[], ZERO_STATS)
  }

  function OpenGap(s: SeqState, seqNo: nat): SeqState
    requires seqNo >= s.expected
  {
    if s.stale then s
    else s.(stale := true, stats := s.stats.(gapEpisodes := s.stats.gapEpisodes + 1,
                                             missingTotal := s.stats.missingTotal + (seqNo - s.expected)))
  }

  function Offer(s: SeqState, seqNo: nat, ev: MarketEvent): (SeqState, Disposition) {
    var st := s.stats;
    if seqNo < s.expected then (s.(stats := st.(duplicates := st.duplicates + 1)), Drop)
    else if seqNo == s.expected then (s.(expected := seqNo + 1, stats := st.(accepted := st.accepted + 1)), ApplyNow)
    else
      var g := OpenGap(s, seqNo);
      if |g.reorder| >= g.capacity then
        (g.(needsSnapshot := true, stats := g.stats.(reorderOverflow := g.stats.reorderOverflow + 1)), Overflow)
      else
        // an event already buffered under this number stays; the new one is not stored
        (g.(reorder := if seqNo in g.reorder then g.reorder else g.reorder[seqNo := ev]), Buffered)
  }

  function PopReady(s: SeqState): (SeqState, Option<MarketEvent>) {
    if s.expected in s.reorder then
      var rest := s.reorder - {s.expected};
      (s.(reorder := rest, expected := s.expected + 1, stale := s.stale && rest != map[],
          stats := s.stats.(accepted := s.stats.accepted + 1, bufferedReleased := s.stats.bufferedReleased + 1)),
       Some(s.reorder[s.expected]))
    else (s.(stale := s.stale && s.reorder != map[]), None)
  }

  function Resync(s: SeqState, snapshotSeq: nat): SeqState {
    s.(reorder := map[], expected := snapshotSeq + 1, stale := false, needsSnapshot := false,
       stats := s.stats.(snapshotRecoveries := s.stats.snapshotRecoveries + 1))
  }

  class Sequencer {
    const capacity: nat
    var expected: nat
    var stale: bool
    var needsSnapshot: bool
    var reorder: map<nat, MarketEvent>
    var stats: SequencerStats
    // Every offer so far, the repeated future ones that the buffer had already, and the buffered ones a
    // resync threw away.
    ghost var offered: nat
    ghost var absorbed: nat
    ghost var discarded: nat

    function State(): SeqState
      reads this
    {
      SeqState(capacity, expected, stale, needsSnapshot, reorder, stats)
    }

    // Offers are conserved, and the buffer is bounded.
    ghost predicate Valid()
      reads this
    {
      && |reorder| <= capacity
      && offered == stats.accepted + stats.duplicates + stats.reorderOverflow + |reorder| + absorbed + discarded
    }

    constructor (startSeq: nat, capacity: nat)
      ensures Valid() && State() == Start(startSeq, capacity)
    {
      this.capacity := capacity;
      expected, stale, needsSnapshot, reorder, stats := startSeq, false, false, map[], ZERO_STATS;
      offered, absorbed, discarded := 0, 0, 0;
    }

    method TryOffer(seqNo: nat, ev: MarketEvent) returns (d: Disposition)
      requires Valid()
      modifies this
      ensures Valid() && (State(), d) == Offer(old(State()), seqNo, ev) && offered == old(offered) + 1
      ensures absorbed == old(absorbed) + if d == Buffered && seqNo in old(reorder) then 1 else 0
      ensures discarded == old(discarded)
      ensures d == Overflow <==> seqNo > old(expected) && |old(reorder)| == capacity
      ensures needsSnapshot <==> old(needsSnapshot) || d == Overflow
    {
      offered := offered + 1;
      if seqNo < expected {
        stats := stats.(duplicates := stats.duplicates + 1);
        return Drop;
      }
      if seqNo == expected {
        expected := expected + 1;
        stats := stats.(accepted := stats.accepted + 1);
        return ApplyNow;
      }
      d := Keep(seqNo, ev);
    }

    // A number from the future: open the gap, and keep the event if there is room.
    method Keep(seqNo: nat, ev: MarketEvent) returns (d: Disposition)
      requires |reorder| <= capacity && seqNo > expected
      requires offered == stats.accepted + stats.duplicates + stats.reorderOverflow + |reorder| + absorbed + discarded + 1
      modifies `stats, `stale, `needsSnapshot, `reorder, `absorbed
      ensures Valid() && (State(), d) == Offer(old(State()), seqNo, ev)
      ensures absorbed == old(absorbed) + if d == Buffered && seqNo in old(reorder) then 1 else 0
      ensures d == Overflow <==> |old(reorder)| == capacity
      ensures needsSnapshot <==> old(needsSnapshot) || d == Overflow
    {
      if !stale {
        stats := stats.(gapEpisodes := stats.gapEpisodes + 1);
        stats := stats.(missingTotal := stats.missingTotal + (seqNo - expected));
        stale := true;
      }
      if |reorder| >= capacity {
        stats := stats.(reorderOverflow := stats.reorderOverflow + 1);
        needsSnapshot := true;
        return Overflow;
      }
      if seqNo in reorder {
        absorbed := absorbed + 1;
      } else {
        reorder := reorder[seqNo := ev];
      }
      return Buffered;
    }

    method TryPop() returns (out: Option<MarketEvent>)
      requires Valid()
      modifies this
      ensures Valid() && (State(), out) == PopReady(old(State()))
      ensures offered == old(offered) && absorbed == old(absorbed) && discarded == old(discarded)
    {
      if expected !in reorder {
        if reorder == map[] { stale := false; }
        return None;
      }
      out := Some(reorder[expected]);
      OneLess(reorder, expected);
      reorder := reorder - {expected};
      expected := expected + 1;
      stats := stats.(accepted := stats.accepted + 1);
      stats := stats.(bufferedReleased := stats.bufferedReleased + 1);
      if reorder == map[] { stale := false; }
    }

    method ResyncToSnapshot(snapshotSeq: nat)
      requires Valid()
      modifies this
      ensures Valid() && State() == Resync(old(State()), snapshotSeq)
      ensures expected == snapshotSeq + 1 && reorder == map[] && !stale && !needsSnapshot
      ensures offered == old(offered) && absorbed == old(absorbed) && discarded == old(discarded) + |old(reorder)|
    {
      discarded := discarded + |reorder|;
      reorder := map[];
      expected := snapshotSeq + 1;
      stale := false;
      needsSnapshot := false;
      stats := stats.(snapshotRecoveries := stats.snapshotRecoveries + 1);
    }
  }
}
