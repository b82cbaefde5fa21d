/**
 Which arrival orders a bounded reorder buffer absorbs without a trace, and the producer's gap injection as
 one such order.
 */
module Delivery {
  import opened BookSpec
  import opened MarketEvents
  import opened Recovery

  // ----- a reference that does not mention the sequencer

  function Range(lo: nat, hi: nat): (a: seq<nat>)
    ensures |a| == (if lo <= hi then hi - lo else 0) && forall i :: 0 <= i < |a| ==> a[i] == lo + i
  {
    seq(if lo <= hi then hi - lo else 0, i => lo + i)
  }

  lemma InRange(lo: nat, hi: nat)
    ensures forall k: nat :: k in SetOf(Range(lo, hi)) <==> lo <= k < hi
  {
    forall k: nat | lo <= k < hi
      ensures k in Range(lo, hi)
    {
      assert Range(lo, hi)[k - lo] == k;
    }
  }

  // The least number from start on that is not in s.
  function Mex(start: nat, s: set<nat>): (m: nat)
    ensures start <= m && m !in s && forall k :: start <= k < m ==> k in s
    decreases |s|
  {
    if start in s then
      var rest := s - {start};
      var m := Mex(start + 1, rest);
      assert forall k :: start + 1 <= k < m ==> k in s by {
        forall k | start + 1 <= k < m ensures k in s { assert k in rest; }
      }
      m
    else start
  }

  lemma MexIs(start: nat, s: set<nat>, m: nat)
    requires start <= m && m !in s && forall k :: start <= k < m ==> k in s
    ensures Mex(start, s) == m
  {
  }

  // The numbers that wait for the missing one.
  function Pending(start: nat, s: set<nat>): set<nat> {
    set k | k in s && k > Mex(start, s)
  }

  // When a number arrives early there is room to keep it.
  predicate Fits(start: nat, capacity: nat, s: set<nat>, x: nat) {
    x > Mex(start, s) ==> |Pending(start, s)| < capacity
  }

  predicate Lossless(start: nat, capacity: nat, a: seq<nat>) {
    a == [] || (Lossless(start, capacity, a[..|a| - 1]) && Fits(start, capacity, SetOf(a[..|a| - 1]), a[|a| - 1]))
  }

  // What the arrivals alone determine about the sequencer's state.
  ghost predicate Determined(f: Feed, start: nat, s: set<nat>) {
    && f.base == start && f.received == s && Extra(f) == 0
    && f.seqr.expected == Mex(start, s) && f.seqr.reorder.Keys == Pending(start, s)
    && |f.seqr.reorder| == |Pending(start, s)|
  }

  lemma DeterminedIs(f: Feed, c: Config, stream: Stream, start: nat, s: set<nat>)
    requires ConfigOk(c) && FeedOk(f, c, stream) && f.base == start && f.received == s && Extra(f) == 0
    ensures Determined(f, start, s)
  {
    hide WellFormed, InOrder, Replays, Replay, EachOnce, Mex;
    MexIs(start, s, f.seqr.expected);
    assert f.seqr.reorder.Keys == Pending(start, s);
  }

  // As long as nothing has overflowed, the arrivals alone determine the sequencer's state; and nothing
  // overflows exactly when the arrivals are lossless.
  lemma {:induction false} LosslessState(c: Config, start: nat, capacity: nat, stream: Stream, a: seq<nat>)
    requires ConfigOk(c)
    ensures Run(c, start, capacity, stream, a).seqr.stats.snapshotRecoveries == 0 <==> Lossless(start, capacity, a)
    ensures Lossless(start, capacity, a) ==> Determined(Run(c, start, capacity, stream, a), start, SetOf(a))
  {
    hide FeedOk, Handle, Determined, Pending, Mex;
    var f := Run(c, start, capacity, stream, a);
    RunOk(c, start, capacity, stream, a);
    if a == [] {
      assert SetOf(a) == {};
      DeterminedIs(f, c, stream, start, {});
    } else {
      var before, x := a[..|a| - 1], a[|a| - 1];
      var g := Run(c, start, capacity, stream, before);
      LosslessState(c, start, capacity, stream, before);
      RunOk(c, start, capacity, stream, before);
      Handled(g, c, stream, x);
      if Lossless(start, capacity, before) {
        DeterminedSizes(g, start, SetOf(before));
        if Lossless(start, capacity, a) {
          assert f.received == SetOf(a) by { assert a == before + [x]; }
          DeterminedIs(f, c, stream, start, SetOf(a));
        }
      }
    }
  }

  lemma DeterminedSizes(f: Feed, start: nat, s: set<nat>)
    requires Determined(f, start, s)
    ensures f.base == start && f.received == s && Extra(f) == 0
    ensures f.seqr.expected == Mex(start, s) && |f.seqr.reorder| == |Pending(start, s)|
  {
  }

  // One publication per number, in order, each of the clean run's book after that number.
  ghost predicate CleanRun(published: seq<Published>, c: Config, stream: Stream, start: nat, n: nat)
    requires ConfigOk(c) && start <= n
  {
    && |published| == n - start
    && forall k :: 0 <= k < |published| ==>
         published[k].number == start + k && published[k].book == Replay(c, stream, start, start + k + 1)
  }

  // A feed that never started over is a clean run up to the number it expects, and stale if something waits.
  lemma CleanSoFar(f: Feed, c: Config, stream: Stream, start: nat)
    requires ConfigOk(c) && FeedOk(f, c, stream) && f.base == start && Extra(f) == 0
    ensures start <= f.seqr.expected && f.book == Replay(c, stream, start, f.seqr.expected)
    ensures CleanRun(f.published, c, stream, start, f.seqr.expected) && (f.seqr.stale <==> |f.seqr.reorder| > 0)
  {
    hide WellFormed, Replay, InOrder;
    assert f.seqr.reorder != map[] ==> |f.seqr.reorder| > 0;
  }

  // Reordering that fits is invisible: once every number up to n has arrived, the book is the one a clean
  // run leaves, nothing is stale, and every event was applied once, in order.
  lemma ReorderingInvisible(c: Config, start: nat, capacity: nat, stream: Stream, a: seq<nat>, n: nat)
    requires ConfigOk(c) && start <= n && Lossless(start, capacity, a)
    requires SetOf(a) == SetOf(Range(start, n))
    ensures var f := Run(c, start, capacity, stream, a);
      && f.book == Replay(c, stream, start, n) && !f.seqr.stale && f.seqr.expected == n
      && CleanRun(f.published, c, stream, start, n)
  {
    hide FeedOk, Replay, Run, Lossless, CleanRun, SetOf, Range, Mex;
    var f := Run(c, start, capacity, stream, a);
    RunOk(c, start, capacity, stream, a);
    LosslessState(c, start, capacity, stream, a);
    InRange(start, n);
    MexIs(start, SetOf(a), n);
    assert Pending(start, SetOf(a)) == {};
    CleanSoFar(f, c, stream, start);
  }

  // A number that never arrives holds the book back for good, short of an overflow.
  lemma PermanentGap(c: Config, start: nat, capacity: nat, stream: Stream, a: seq<nat>, lost: nat)
    requires ConfigOk(c) && start <= lost && lost !in a && Lossless(start, capacity, a)
    ensures Run(c, start, capacity, stream, a).seqr.expected <= lost
  {
    hide WellFormed, Replay, Run, Lossless;
    LosslessState(c, start, capacity, stream, a);
    assert lost !in SetOf(a);
  }

  // ----- the producer's gap injection

  datatype Msg = Msg(event: MarketEvent, sequence: nat)

  // Frame i carries sequence number i + 1; a frame that does not parse is numbered but not sent.
  function Parsed(frames: seq<Option<MarketEvent>>): seq<Msg> {
    if frames == [] then []
    else
      var last := frames[|frames| - 1];
      Parsed(frames[..|frames| - 1]) + if last.Some? then [Msg(last.value, |frames|)] else []
  }

  datatype Held = Held(sent: seq<Msg>, held: Option<Msg>, releaseAt: nat)

  // One parsed message through the hold-back logic.
  function HoldStep(h: Held, m: Msg, gapAt: nat, distance: nat): Held {
    if gapAt != 0 && distance != 0 && h.held.None? && m.sequence == gapAt then
      Held(h.sent, Some(m), m.sequence + distance)
    else if h.held.Some? && m.sequence >= h.releaseAt then
      Held(h.sent + [m, h.held.value], None, h.releaseAt)
    else Held(h.sent + [m], h.held, h.releaseAt)
  }

  function HoldAll(ms: seq<Msg>, gapAt: nat, distance: nat): Held {
    if ms == [] then Held([], None, 0)
    else HoldStep(HoldAll(ms[..|ms| - 1], gapAt, distance), ms[|ms| - 1], gapAt, distance)
  }

  lemma HoldOneMore(ms: seq<Msg>, m: Msg, gapAt: nat, distance: nat)
    ensures HoldAll(ms + [m], gapAt, distance) == HoldStep(HoldAll(ms, gapAt, distance), m, gapAt, distance)
  {
    assert (ms + [m])[..|ms|] == ms;
  }

  function Delivered(ms: seq<Msg>, gapAt: nat, distance: nat): seq<Msg> {
    var h := HoldAll(ms, gapAt, distance);
    h.sent + if h.held.Some? then [h.held.value] else []
  }

  lemma NothingHeld(gapAt: nat, distance: nat)
    ensures HoldAll([], gapAt, distance) == Held([], None, 0)
  {
  }

  method Produce(frames: seq<Option<MarketEvent>>, gapAt: nat, distance: nat) returns (sent: seq<Msg>)
    ensures sent == Delivered(Parsed(frames), gapAt, distance)
  {
    hide HoldAll;
    NothingHeld(gapAt, distance);
    sent := [];
    var holding, held := false, Msg(CLEAN_EVENT, 0);
    var releaseAt: nat := 0;
    for i := 0 to |frames|
      invariant HoldAll(Parsed(frames[..i]), gapAt, distance) ==
                Held(sent, if holding then Some(held) else None, releaseAt)
    {
      assert frames[..i + 1][..i] == frames[..i];
      assert Parsed(frames[..i]) + [] == Parsed(frames[..i]);
      if frames[i].None? { continue; }
      var m := Msg(frames[i].value, i + 1);
      HoldOneMore(Parsed(frames[..i]), m, gapAt, distance);
      if gapAt != 0 && distance != 0 && !holding && i + 1 == gapAt {
        holding := true;
        held := m;
        releaseAt := i + 1 + distance;
        continue;
      }
      sent := sent + [m];
      if holding && i + 1 >= releaseAt {
        sent := sent + [held];
        holding := false;
      }
    }
    assert frames[..|frames|] == frames;
    if holding {
      sent := sent + [held];
    }
  }

  // ----- the order the injection produces

  function Numbers(ms: seq<Msg>): (a: seq<nat>)
    ensures |a| == |ms| && forall i :: 0 <= i < |a| ==> a[i] == ms[i].sequence
  {
    seq(|ms|, i requires 0 <= i < |ms| => ms[i].sequence)
  }

  // Numbers from 1 on that rise, with gaps perhaps.
  ghost predicate Rising(a: seq<nat>) {
    (forall i :: 0 <= i < |a| ==> a[i] >= 1) && forall i, j :: 0 <= i < j < |a| ==> a[i] < a[j]
  }

  lemma {:induction false} ParsedRise(frames: seq<Option<MarketEvent>>)
    ensures Rising(Numbers(Parsed(frames)))
    ensures forall i :: 0 <= i < |Parsed(frames)| ==> Parsed(frames)[i].sequence <= |frames|
  {
    if frames != [] { ParsedRise(frames[..|frames| - 1]); }
  }

  // The place of the frame to hold back among those that parse, or their number if it is not among them.
  function Place(ms: seq<Msg>, gapAt: nat): (k: nat)
    ensures k <= |ms| && (k < |ms| ==> ms[k].sequence == gapAt)
    ensures forall i :: 0 <= i < k ==> ms[i].sequence != gapAt
  {
    if ms == [] || ms[0].sequence == gapAt then 0 else 1 + Place(ms[1..], gapAt)
  }

  // How many messages pass until the held one is released: those below releaseAt, and the one that is not.
  function Passing(ms: seq<Msg>, releaseAt: nat): (o: nat)
    ensures o <= |ms|
  {
    if ms == [] then 0 else if ms[0].sequence >= releaseAt then 1 else 1 + Passing(ms[1..], releaseAt)
  }

  // Some frame is held back: injection is on, and the frame is sent at all.
  predicate Injects(ms: seq<Msg>, gapAt: nat, distance: nat) {
    gapAt != 0 && distance != 0 && Place(ms, gapAt) < |ms|
  }

  // How many messages overtake the held one.
  function Overtaking(ms: seq<Msg>, gapAt: nat, distance: nat): (o: nat)
    ensures Injects(ms, gapAt, distance) ==> Place(ms, gapAt) + o < |ms|
  {
    if Injects(ms, gapAt, distance) then Passing(ms[Place(ms, gapAt) + 1..], gapAt + distance) else 0
  }

  function HoldFrom(h: Held, ms: seq<Msg>, gapAt: nat, distance: nat): Held
    decreases |ms|
  {
    if ms == [] then h else HoldFrom(HoldStep(h, ms[0], gapAt, distance), ms[1..], gapAt, distance)
  }

  lemma {:induction false} HoldSplit(a: seq<Msg>, b: seq<Msg>, gapAt: nat, distance: nat)
    ensures HoldAll(a + b, gapAt, distance) == HoldFrom(HoldAll(a, gapAt, distance), b, gapAt, distance)
    decreases |b|
  {
    hide HoldStep, HoldAll;
    if b == [] {
      assert a + b == a;
    } else {
      HoldOneMore(a, b[0], gapAt, distance);
      HoldSplit(a + [b[0]], b[1..], gapAt, distance);
      assert a + [b[0]] + b[1..] == a + b;
    }
  }

  predicate Without(ms: seq<Msg>, number: nat) {
    forall i :: 0 <= i < |ms| ==> ms[i].sequence != number
  }

  // While no frame to hold comes, nothing is held.
  lemma {:induction false} FreeRun(sent: seq<Msg>, releaseAt: nat, ms: seq<Msg>, gapAt: nat, distance: nat)
    requires gapAt == 0 || distance == 0 || Without(ms, gapAt)
    ensures HoldFrom(Held(sent, None, releaseAt), ms, gapAt, distance) == Held(sent + ms, None, releaseAt)
    decreases |ms|
  {
    if ms == [] {
      assert sent + ms == sent;
    } else {
      FreeRun(sent + [ms[0]], releaseAt, ms[1..], gapAt, distance);
      assert sent + [ms[0]] + ms[1..] == sent + ms;
    }
  }

  // Everything sent once the frames run out.
  function AllSent(h: Held): seq<Msg> {
    h.sent + if h.held.Some? then [h.held.value] else []
  }

  // A held message goes right behind those that pass it.
  lemma {:induction false} WaitRun(sent: seq<Msg>, m: Msg, releaseAt: nat, ms: seq<Msg>, gapAt: nat, distance: nat)
    requires Without(ms, gapAt)
    ensures var o := Passing(ms, releaseAt);
      AllSent(HoldFrom(Held(sent, Some(m), releaseAt), ms, gapAt, distance)) == sent + ms[..o] + [m] + ms[o..]
    decreases |ms|
  {
    if ms == [] {
      assert sent + ms[..0] + [m] + ms[0..] == sent + [m];
    } else if ms[0].sequence >= releaseAt {
      FreeRun(sent + [ms[0], m], releaseAt, ms[1..], gapAt, distance);
      assert sent + [ms[0], m] + ms[1..] + [] == sent + ms[..1] + [m] + ms[1..];
    } else {
      WaitRun(sent + [ms[0]], m, releaseAt, ms[1..], gapAt, distance);
      var o := Passing(ms[1..], releaseAt);
      assert sent + [ms[0]] + ms[1..][..o] == sent + ms[..o + 1] && ms[1..][o..] == ms[o + 1..];
    }
  }

  // What leaves the producer: the parsed messages in order, but for the held one, which the overtaking ones precede.
  lemma DeliveredOrder(ms: seq<Msg>, gapAt: nat, distance: nat)
    requires Rising(Numbers(ms))
    ensures var k, o := Place(ms, gapAt), Overtaking(ms, gapAt, distance);
      Delivered(ms, gapAt, distance) ==
      if Injects(ms, gapAt, distance) then ms[..k] + ms[k + 1..k + 1 + o] + [ms[k]] + ms[k + 1 + o..] else ms
  {
    hide Passing, Place, Delivered, Rising, Numbers, Without;
    var k := Place(ms, gapAt);
    NotBefore(ms, gapAt);
    if Injects(ms, gapAt, distance) {
      Later(ms, k);
      HeldAt(ms, k, gapAt, distance);
    } else {
      NotHeldBack(ms, gapAt, distance);
    }
  }

  lemma NotBefore(ms: seq<Msg>, gapAt: nat)
    ensures Without(ms[..Place(ms, gapAt)], gapAt)
    ensures Place(ms, gapAt) == |ms| ==> Without(ms, gapAt)
  {
    hide Place;
  }

  lemma HeldAt(ms: seq<Msg>, k: nat, gapAt: nat, distance: nat)
    requires gapAt != 0 && distance != 0 && k < |ms| && ms[k].sequence == gapAt
    requires Without(ms[..k], gapAt) && Without(ms[k + 1..], gapAt)
    ensures var o := Passing(ms[k + 1..], gapAt + distance);
      k + 1 + o <= |ms| && Delivered(ms, gapAt, distance) == ms[..k] + ms[k + 1..k + 1 + o] + [ms[k]] + ms[k + 1 + o..]
  {
    hide Passing, Delivered, Without;
    var rest := ms[k + 1..];
    HeldBack(ms[..k], ms[k], rest, gapAt, distance);
    Resliced(ms, k + 1, Passing(rest, gapAt + distance));
    assert ms[..k] + [ms[k]] + rest == ms;
  }

  lemma Resliced(ms: seq<Msg>, k: nat, o: nat)
    requires k + o <= |ms|
    ensures ms[k..][..o] == ms[k..k + o] && ms[k..][o..] == ms[k + o..]
  {
  }

  lemma HeldBack(front: seq<Msg>, m: Msg, rest: seq<Msg>, gapAt: nat, distance: nat)
    requires gapAt != 0 && distance != 0 && m.sequence == gapAt
    requires Without(front, gapAt) && Without(rest, gapAt)
    ensures var o := Passing(rest, gapAt + distance);
      Delivered(front + [m] + rest, gapAt, distance) == front + rest[..o] + [m] + rest[o..]
  {
    hide HoldAll, HoldFrom, Passing;
    NothingHeld(gapAt, distance);
    HoldSplit([], front, gapAt, distance);
    assert [] + front == front;
    FreeRun([], 0, front, gapAt, distance);
    HoldOneMore(front, m, gapAt, distance);
    HoldSplit(front + [m], rest, gapAt, distance);
    WaitRun(front, m, gapAt + distance, rest, gapAt, distance);
  }

  lemma NotHeldBack(ms: seq<Msg>, gapAt: nat, distance: nat)
    requires gapAt == 0 || distance == 0 || Without(ms, gapAt)
    ensures Delivered(ms, gapAt, distance) == ms
  {
    hide HoldAll, HoldFrom;
    NothingHeld(gapAt, distance);
    HoldSplit([], ms, gapAt, distance);
    assert [] + ms == ms && ms + [] == ms;
    FreeRun([], 0, ms, gapAt, distance);
  }

  lemma Later(ms: seq<Msg>, k: nat)
    requires Rising(Numbers(ms)) && k < |ms|
    ensures Without(ms[k + 1..], ms[k].sequence)
  {
    var rest := ms[k + 1..];
    forall i | 0 <= i < |rest|
      ensures rest[i].sequence != ms[k].sequence
    {
      assert Numbers(ms)[k] < Numbers(ms)[k + 1 + i];
    }
  }

  // Each message sent carries the event of its own frame.
  lemma {:induction false} ParsedEvents(frames: seq<Option<MarketEvent>>)
    ensures forall m :: m in Parsed(frames) ==>
              1 <= m.sequence <= |frames| && frames[m.sequence - 1] == Some(m.event)
  {
    if frames != [] {
      ParsedEvents(frames[..|frames| - 1]);
    }
  }

  // What has been sent and what is held.
  function InHand(h: Held): multiset<Msg> {
    multiset(h.sent) + if h.held.Some? then multiset{h.held.value} else multiset{}
  }

  lemma HoldStepKeeps(h: Held, m: Msg, gapAt: nat, distance: nat)
    ensures InHand(HoldStep(h, m, gapAt, distance)) == InHand(h) + multiset{m}
  {
    assert multiset(h.sent + [m]) == multiset(h.sent) + multiset{m};
    if h.held.Some? {
      assert h.sent + [m, h.held.value] == h.sent + [m] + [h.held.value];
    }
  }

  // Nothing is lost or invented by holding back.
  lemma {:induction false} HoldKeeps(ms: seq<Msg>, gapAt: nat, distance: nat)
    ensures multiset(ms) == InHand(HoldAll(ms, gapAt, distance))
  {
    hide HoldStep, InHand;
    if ms == [] {
      NothingInHand(gapAt, distance);
    } else {
      HoldKeeps(ms[..|ms| - 1], gapAt, distance);
      HoldStepKeeps(HoldAll(ms[..|ms| - 1], gapAt, distance), ms[|ms| - 1], gapAt, distance);
      assert ms == ms[..|ms| - 1] + [ms[|ms| - 1]];
    }
  }

  lemma NothingInHand(gapAt: nat, distance: nat)
    ensures InHand(HoldAll([], gapAt, distance)) == multiset{}
  {
  }

  lemma DeliveredKeeps(frames: seq<Option<MarketEvent>>, gapAt: nat, distance: nat)
    ensures multiset(Delivered(Parsed(frames), gapAt, distance)) == multiset(Parsed(frames))
    ensures forall m :: m in Delivered(Parsed(frames), gapAt, distance) ==>
              1 <= m.sequence <= |frames| && frames[m.sequence - 1] == Some(m.event)
  {
    hide HoldAll, Parsed;
    HoldKeeps(Parsed(frames), gapAt, distance);
    ParsedEvents(frames);
    var sent := Delivered(Parsed(frames), gapAt, distance);
    forall m | m in sent
      ensures m in Parsed(frames)
    {
      assert m in multiset(sent);
    }
  }

  // ----- when the reorder buffer absorbs it

  lemma {:induction false} RangeSize(lo: nat, hi: nat)
    requires lo <= hi
    ensures |SetOf(Range(lo, hi))| == hi - lo
    decreases hi - lo
  {
    InRange(lo, hi);
    if lo < hi {
      RangeSize(lo, hi - 1);
      InRange(lo, hi - 1);
      assert SetOf(Range(lo, hi)) == SetOf(Range(lo, hi - 1)) + {hi - 1};
    } else {
      assert SetOf(Range(lo, hi)) == {};
    }
  }

  // Of different numbers from 1 on, those wait that are not below the least missing one.
  lemma PendingCount(q: seq<nat>)
    requires NoDup(q) && forall i :: 0 <= i < |q| ==> q[i] >= 1
    ensures |Pending(1, SetOf(q))| == |q| + 1 - Mex(1, SetOf(q))
  {
    hide Mex, Range, NoDup, SetOf, Pending;
    var s, g := SetOf(q), Mex(1, SetOf(q));
    DistinctSize(q);
    RangeSize(1, g);
    InRange(1, g);
    AllPositive(q);
    SplitAt(s, SetOf(Range(1, g)), g);
  }

  lemma AllPositive(q: seq<nat>)
    requires forall i :: 0 <= i < |q| ==> q[i] >= 1
    ensures forall x :: x in SetOf(q) ==> x >= 1
  {
  }

  lemma SplitAt(s: set<nat>, below: set<nat>, g: nat)
    requires g == Mex(1, s) && (forall x :: x in s ==> x >= 1) && forall x: nat :: x in below <==> 1 <= x < g
    ensures |s| == |below| + |Pending(1, s)|
  {
    hide Mex;
    assert s == below + Pending(1, s);
  }

  lemma PendingGrows(s: set<nat>, x: nat)
    requires x >= 1 && x !in s
    ensures x >= Mex(1, s)
    ensures x > Mex(1, s) ==> |Pending(1, s + {x})| == |Pending(1, s)| + 1
    ensures x == Mex(1, s) ==> |Pending(1, s + {x})| <= |Pending(1, s)|
  {
    hide Mex;
    if x > Mex(1, s) {
      MexIs(1, s + {x}, Mex(1, s));
      assert Pending(1, s + {x}) == Pending(1, s) + {x};
    } else {
      MexGrows(s, x);
      assert Pending(1, s + {x}) <= Pending(1, s);
      SubsetSize(Pending(1, s + {x}), Pending(1, s));
    }
  }

  lemma MexGrows(s: set<nat>, x: nat)
    ensures Mex(1, s) <= Mex(1, s + {x})
  {
    hide Mex;
    assert Mex(1, s + {x}) !in s + {x};
  }

  lemma SubsetSize(a: set<nat>, b: set<nat>)
    requires a <= b
    ensures |a| <= |b|
  {
    assert b == a + (b - a);
  }

  // Different numbers are lossless exactly when, at every moment, those that wait fit the buffer.
  lemma {:induction false} PeakExact(capacity: nat, a: seq<nat>)
    requires NoDup(a) && forall i :: 0 <= i < |a| ==> a[i] >= 1
    ensures Lossless(1, capacity, a) <==> forall i :: 0 <= i <= |a| ==> |Pending(1, SetOf(a[..i]))| <= capacity
  {
    hide Mex, Pending;
    if a == [] {
      PendingCount([]);
      MexIs(1, SetOf([]), 1);
      assert a[..0] == [];
    } else {
      var front, x := a[..|a| - 1], a[|a| - 1];
      PeakExact(capacity, front);
      assert forall i :: 0 <= i <= |front| ==> front[..i] == a[..i];
      assert a[..|a|] == a && x !in front && SetOf(a) == SetOf(front) + {x};
      assert front[..|front|] == front;
      PendingGrows(SetOf(front), x);
    }
  }

  // Rising numbers count up to the first one missing and lie beyond it from there.
  lemma {:induction false} RisingShape(a: seq<nat>, j: nat)
    requires Rising(a) && j + 1 < Mex(1, SetOf(a))
    ensures j < |a| && a[j] == j + 1
  {
    hide Mex;
    var g := Mex(1, SetOf(a));
    if j > 0 { RisingShape(a, j - 1); }
    assert j + 1 in SetOf(a);
    var p :| 0 <= p < |a| && a[p] == j + 1;
    if p < j { RisingShape(a, p); }
  }

  lemma RisingPrefix(a: seq<nat>, i: nat)
    requires Rising(a) && i <= |a|
    ensures Mex(1, SetOf(a[..i])) == Min(i + 1, Mex(1, SetOf(a)))
  {
    hide Mex;
    var g := Mex(1, SetOf(a));
    forall k | 1 <= k < Min(i + 1, g)
      ensures k in SetOf(a[..i])
    {
      RisingShape(a, k - 1);
      assert a[..i][k - 1] == k;
    }
    if i + 1 < g {
      RisingShape(a, i);
      assert forall j :: 0 <= j < i ==> a[j] < a[i];
    }
    assert Min(i + 1, g) !in SetOf(a[..i]);
    MexIs(1, SetOf(a[..i]), Min(i + 1, g));
  }

  lemma RisingDistinct(a: seq<nat>)
    requires Rising(a)
    ensures NoDup(a)
  {
  }

  // Held back at place k past the next o numbers.
  function HeldOrder(a: seq<nat>, k: nat, o: nat): (q: seq<nat>)
    requires k + o < |a|
    ensures |q| == |a|
    ensures forall i :: 0 <= i < |a| ==> q[i] == a[if k <= i < k + o then i + 1 else if i == k + o then k else i]
  {
    a[..k] + a[k + 1..k + 1 + o] + [a[k]] + a[k + 1 + o..]
  }

  lemma HeldDistinct(a: seq<nat>, k: nat, o: nat)
    requires Rising(a) && k + o < |a|
    ensures NoDup(HeldOrder(a, k, o)) && forall i :: 0 <= i < |a| ==> HeldOrder(a, k, o)[i] >= 1
  {
    hide HeldOrder;
  }

  // The least number missing while, and after, place k is held back.
  lemma HeldMex(a: seq<nat>, k: nat, o: nat, i: nat)
    requires Rising(a) && k + o < |a| && i <= |a|
    ensures var g := Mex(1, SetOf(a));
      Mex(1, SetOf(HeldOrder(a, k, o)[..i])) == if k < i <= k + o then Min(k + 1, g) else Min(i + 1, g)
  {
    hide Mex, HeldOrder;
    var q, g := HeldOrder(a, k, o), Mex(1, SetOf(a));
    if k < i <= k + o {
      HeldMissing(a, k, o, i);
    } else {
      RisingPrefix(a, i);
      HeldSet(a, k, o, i);
    }
  }

  lemma HeldSet(a: seq<nat>, k: nat, o: nat, i: nat)
    requires k + o < |a| && i <= |a| && !(k < i <= k + o)
    ensures SetOf(HeldOrder(a, k, o)[..i]) == SetOf(a[..i])
  {
    hide HeldOrder;
    var q := HeldOrder(a, k, o);
    forall x | x in a[..i]
      ensures x in q[..i]
    {
      var j :| 0 <= j < i && a[j] == x;
      assert q[..i][if k < j <= k + o then j - 1 else if j == k then k + o else j] == x by {
        if i <= k { assert q[j] == x; }
      }
    }
    forall x | x in q[..i]
      ensures x in a[..i]
    {
      var j :| 0 <= j < i && q[j] == x;
      assert a[..i][if k <= j < k + o then j + 1 else if j == k + o then k else j] == x;
    }
  }

  lemma HeldMissing(a: seq<nat>, k: nat, o: nat, i: nat)
    requires Rising(a) && k < i <= k + o < |a|
    ensures Mex(1, SetOf(HeldOrder(a, k, o)[..i])) == Min(k + 1, Mex(1, SetOf(a)))
  {
    hide Mex, HeldOrder;
    var q, g := HeldOrder(a, k, o), Mex(1, SetOf(a));
    var m := Min(k + 1, g);
    forall x | 1 <= x < m
      ensures x in SetOf(q[..i])
    {
      RisingShape(a, x - 1);
      assert q[..i][x - 1] == x;
    }
    if k + 1 < g {
      RisingShape(a, k);
    }
    forall j | 0 <= j < i
      ensures q[j] != m
    {
      var at := if k <= j < k + o then j + 1 else j;
      assert q[j] == a[at] && at != k;
      assert a[at] in a && (k + 1 < g ==> a[at] != a[k]);
      if k + 1 == g { assert g !in SetOf(a); }
    }
    MexIs(1, SetOf(q[..i]), m);
  }

  // Rising numbers, one held back past o others, are lossless exactly when the overtaking ones fit, and those beyond
  // the first that is missing for good.
  lemma HeldExact(a: seq<nat>, k: nat, o: nat, capacity: nat)
    requires Rising(a) && k + o < |a|
    ensures Lossless(1, capacity, HeldOrder(a, k, o)) <==> o <= capacity && |a| + 1 - Mex(1, SetOf(a)) <= capacity
  {
    hide Mex, HeldOrder, Lossless, Pending, NoDup, Rising;
    var q, g := HeldOrder(a, k, o), Mex(1, SetOf(a));
    HeldDistinct(a, k, o);
    PeakExact(capacity, q);
    forall i | 0 <= i <= |a|
      ensures |Pending(1, SetOf(q[..i]))| == i + 1 - (if k < i <= k + o then Min(k + 1, g) else Min(i + 1, g))
    {
      HeldMex(a, k, o, i);
      PrefixDistinct(q, i);
      PendingCount(q[..i]);
    }
    if o > 0 { assert |Pending(1, SetOf(q[..k + o]))| >= o; }
    LeastWithin(a);
    assert |Pending(1, SetOf(q[..|a|]))| == |a| + 1 - Min(|a| + 1, g);
  }

  lemma LeastWithin(a: seq<nat>)
    requires Rising(a)
    ensures Mex(1, SetOf(a)) <= |a| + 1
  {
    hide Mex;
    if |a| + 1 < Mex(1, SetOf(a)) { RisingShape(a, |a|); }
  }

  lemma PrefixDistinct(q: seq<nat>, i: nat)
    requires NoDup(q) && i <= |q| && forall j :: 0 <= j < |q| ==> q[j] >= 1
    ensures NoDup(q[..i]) && forall j :: 0 <= j < |q[..i]| ==> q[..i][j] >= 1
  {
  }

  lemma RisingExact(a: seq<nat>, capacity: nat)
    requires Rising(a)
    ensures Lossless(1, capacity, a) <==> |a| + 1 - Mex(1, SetOf(a)) <= capacity
  {
    hide Mex, Lossless, Pending, NoDup, Rising;
    var g := Mex(1, SetOf(a));
    RisingDistinct(a);
    FromOne(a);
    PeakExact(capacity, a);
    forall i | 0 <= i <= |a|
      ensures |Pending(1, SetOf(a[..i]))| == i + 1 - Min(i + 1, g)
    {
      RisingPrefix(a, i);
      PrefixDistinct(a, i);
      PendingCount(a[..i]);
    }
    LeastWithin(a);
    assert |Pending(1, SetOf(a[..|a|]))| == |a| + 1 - Min(|a| + 1, g);
  }

  lemma FromOne(a: seq<nat>)
    requires Rising(a)
    ensures forall i :: 0 <= i < |a| ==> a[i] >= 1
  {
  }

  // ----- end to end

  // The number of the first frame that does not parse, or of none.
  function FirstUnparsed(frames: seq<Option<MarketEvent>>): (g: nat)
    ensures 1 <= g <= |frames| + 1 && (g <= |frames| ==> frames[g - 1].None?)
    ensures forall i :: 0 <= i < g - 1 ==> frames[i].Some?
  {
    if frames == [] then 1
    else
      var g := FirstUnparsed(frames[..|frames| - 1]);
      if g <= |frames| - 1 then g else if frames[|frames| - 1].None? then |frames| else |frames| + 1
  }

  lemma {:induction false} ParsedNumbers(frames: seq<Option<MarketEvent>>)
    ensures forall x: nat :: x in Numbers(Parsed(frames)) <==> 1 <= x <= |frames| && frames[x - 1].Some?
  {
    if frames != [] {
      var n, front := |frames|, frames[..|frames| - 1];
      ParsedNumbers(front);
      assert Numbers(Parsed(frames)) == Numbers(Parsed(front)) + if frames[n - 1].Some? then [n] else [];
    }
  }

  lemma FirstUnparsedIs(frames: seq<Option<MarketEvent>>)
    ensures Mex(1, SetOf(Numbers(Parsed(frames)))) == FirstUnparsed(frames)
    ensures FirstUnparsed(frames) <= |Parsed(frames)| + 1
  {
    hide Mex, Parsed, FirstUnparsed;
    ParsedNumbers(frames);
    ParsedRise(frames);
    MexIs(1, SetOf(Numbers(Parsed(frames))), FirstUnparsed(frames));
    LeastWithin(Numbers(Parsed(frames)));
  }

  // How many frames after the first that does not parse do.
  function Late(frames: seq<Option<MarketEvent>>): (n: nat) {
    FirstUnparsedIs(frames);
    |Parsed(frames)| + 1 - FirstUnparsed(frames)
  }

  // What the producer sends is absorbed exactly when the messages that overtake a held one fit the buffer, and those
  // behind the first frame that does not parse.
  lemma GapExact(frames: seq<Option<MarketEvent>>, gapAt: nat, distance: nat, capacity: nat)
    ensures Lossless(1, capacity, Numbers(Delivered(Parsed(frames), gapAt, distance))) <==>
            Overtaking(Parsed(frames), gapAt, distance) <= capacity && Late(frames) <= capacity
    ensures SetOf(Numbers(Delivered(Parsed(frames), gapAt, distance))) == SetOf(Numbers(Parsed(frames)))
  {
    hide Mex, Lossless, Parsed, Delivered, Passing, Place, HeldOrder, Rising, FirstUnparsed, Numbers, SetOf;
    var ms := Parsed(frames);
    var a, k, o := Numbers(ms), Place(ms, gapAt), Overtaking(ms, gapAt, distance);
    ParsedRise(frames);
    FirstUnparsedIs(frames);
    DeliveredOrder(ms, gapAt, distance);
    if Injects(ms, gapAt, distance) {
      HeldNumbers(ms, k, o);
      HeldExact(a, k, o, capacity);
      HeldSet(a, k, o, |a|);
      WholePrefix(a);
      WholePrefix(HeldOrder(a, k, o));
    } else {
      RisingExact(a, capacity);
    }
  }

  lemma HeldNumbers(ms: seq<Msg>, k: nat, o: nat)
    requires k + o < |ms|
    ensures Numbers(ms[..k] + ms[k + 1..k + 1 + o] + [ms[k]] + ms[k + 1 + o..]) == HeldOrder(Numbers(ms), k, o)
  {
    hide HeldOrder;
  }

  lemma WholePrefix(a: seq<nat>)
    ensures a[..|a|] == a
  {
  }

  // From frames to book, whatever parses and whatever is held back, over a channel that loses nothing: the consumer
  // never starts over exactly when all that waits fits the buffer; and then it ends with the clean run's book of every
  // frame before the first that does not parse, stale if frames behind that one did arrive.
  lemma GapInjection(c: Config, capacity: nat, stream: Stream, frames: seq<Option<MarketEvent>>, gapAt: nat, distance: nat)
    requires ConfigOk(c)
    requires forall i :: 0 <= i < |frames| && frames[i].Some? ==> frames[i] == Some(stream(i + 1))
    ensures var f := Run(c, 1, capacity, stream, Numbers(Delivered(Parsed(frames), gapAt, distance)));
      var fits := Overtaking(Parsed(frames), gapAt, distance) <= capacity && Late(frames) <= capacity;
      && (f.seqr.stats.snapshotRecoveries == 0 <==> fits)
      && (fits ==>
            && f.seqr.expected == FirstUnparsed(frames) && f.book == Replay(c, stream, 1, FirstUnparsed(frames))
            && CleanRun(f.published, c, stream, 1, FirstUnparsed(frames)) && (f.seqr.stale <==> Late(frames) > 0))
  {
    hide Lossless, Run, Parsed, Delivered, CleanRun, SetOf, Replay, Overtaking, Numbers, FeedOk, Mex, FirstUnparsed,
      Pending;
    var ms := Parsed(frames);
    var a := Numbers(Delivered(ms, gapAt, distance));
    GapExact(frames, gapAt, distance, capacity);
    LosslessState(c, 1, capacity, stream, a);
    FirstUnparsedIs(frames);
    ParsedRise(frames);
    RisingDistinct(Numbers(ms));
    FromOne(Numbers(ms));
    PendingCount(Numbers(ms));
    var f := Run(c, 1, capacity, stream, a);
    RunOk(c, 1, capacity, stream, a);
    if Lossless(1, capacity, a) { CleanSoFar(f, c, stream, 1); }
  }

  // How many of n messages overtake the held one when every frame parses.
  function OvertakingAll(n: nat, gapAt: nat, distance: nat): nat {
    if gapAt == 0 || distance == 0 || gapAt > n then 0 else Min(distance, n - gapAt)
  }

  // When every frame parses nothing is late.
  lemma AllParse(frames: seq<Option<MarketEvent>>, gapAt: nat, distance: nat)
    requires forall i :: 0 <= i < |frames| ==> frames[i].Some?
    ensures FirstUnparsed(frames) == |frames| + 1 && |Parsed(frames)| == |frames| && Late(frames) == 0
    ensures Overtaking(Parsed(frames), gapAt, distance) == OvertakingAll(|frames|, gapAt, distance)
  {
    hide Parsed, Passing, Place;
    var ms, n := Parsed(frames), |frames|;
    EveryNumber(frames);
    var k := Place(ms, gapAt);
    if gapAt != 0 && gapAt <= n {
      assert ms[gapAt - 1].sequence == gapAt;
      assert k == gapAt - 1;
      PassingCount(ms[gapAt..], gapAt + 1, gapAt + distance);
    }
  }

  lemma {:induction false} EveryNumber(frames: seq<Option<MarketEvent>>)
    requires forall i :: 0 <= i < |frames| ==> frames[i].Some?
    ensures |Parsed(frames)| == |frames| && forall i :: 0 <= i < |frames| ==> Parsed(frames)[i].sequence == i + 1
  {
    if frames != [] { EveryNumber(frames[..|frames| - 1]); }
  }

  lemma {:induction false} PassingCount(ms: seq<Msg>, from: nat, releaseAt: nat)
    requires forall i :: 0 <= i < |ms| ==> ms[i].sequence == from + i
    ensures Passing(ms, releaseAt) == Min(if from <= releaseAt then releaseAt - from + 1 else 1, |ms|)
  {
    if ms != [] { PassingCount(ms[1..], from + 1, releaseAt); }
  }
}
