/**
 The single-producer single-consumer ring and the channel around it, as the interleaving of the two threads'
 atomic steps. The counters wrap at 2^64; an acquire load may return any value already published that is no
 older than the one loaded before.
 */
module SpscRings {
  import opened Arith
  import opened MarketEvents

  datatype Policy = Block | DropNew

  // Where the producer is inside send/push, with the item it carries.
  datatype Producer<T> =
    | PIdle
    | PCheck(item: T)    // about to compare tail with the cached head
    | PReload(item: T)   // the cache said full: about to load head
    | PWrite(item: T)    // about to write the slot
    | PPublish(item: T)  // slot written: about to store tail
    | PFull(item: T)     // push returned false

  // Where the consumer is inside receive/pop.
  datatype Consumer<T> =
    | CIdle
    | CCheck             // about to compare head with the cached tail
    | CReload            // the cache said empty: about to load tail
    | CRead              // about to read the slot
    | CRelease(item: T)  // slot read: about to store head

  datatype Ring<T> = Ring(
    buffer: seq<T>, head: nat, tail: nat, cachedHead: nat, cachedTail: nat,
    prod: Producer<T>, cons: Consumer<T>, dropped: nat,
    // history: what was passed to send, what was published and from which offer, what was popped, and how
    // many pops (pushes) the value in cachedHead (cachedTail) stands for
    offered: seq<T>, pushed: seq<T>, keptAt: seq<nat>, popped: seq<T>, seenHead: nat, seenTail: nat)

  // One atomic step of either thread; lag is how many publications a load is behind.
  datatype Action<T> =
    | Send(item: T) | ProdCheck | ProdReload(lag: nat) | ProdWrite | ProdPublish | ProdFull
    | Receive | ConsCheck | ConsReload(lag: nat) | ConsRead | ConsRelease

  function Wrap(x: int): (w: nat)
    ensures w < TWO_64
  {
    x % TWO_64
  }

  // The slot of a counter: its low bits.
  function Slot(k: nat, counter: nat): (i: nat)
    ensures i < Pow2(k)
  {
    MaskIsMod(counter, k);
    BitAnd(counter, Pow2(k) - 1)
  }

  function NewRing<T>(k: nat, blank: T): Ring<T> {
    Ring(seq(Pow2(k), _ => blank), 0, 0, 0, 0, PIdle, CIdle, 0, [], [], [], [], 0, 0)
  }

  predicate Enabled<T>(s: Ring<T>, a: Action<T>) {
    match a
    case Send(_) => s.prod.PIdle?
    case ProdCheck => s.prod.PCheck?
    case ProdReload(lag) => s.prod.PReload? && lag <= Wrap(s.head - s.cachedHead)
    case ProdWrite => s.prod.PWrite?
    case ProdPublish => s.prod.PPublish?
    case ProdFull => s.prod.PFull?
    case Receive => s.cons.CIdle?
    case ConsCheck => s.cons.CCheck?
    case ConsReload(lag) => s.cons.CReload? && lag <= Wrap(s.tail - s.cachedTail)
    case ConsRead => s.cons.CRead?
    case ConsRelease => s.cons.CRelease?
  }

  function Step<T>(k: nat, p: Policy, s: Ring<T>, a: Action<T>): Ring<T>
    requires Enabled(s, a) && |s.buffer| == Pow2(k)
  {
    match a
    case Send(x) => s.(prod := PCheck(x), offered := s.offered + [x])
    case ProdCheck =>
      s.(prod := if Wrap(s.tail - s.cachedHead) >= Pow2(k) then PReload(s.prod.item) else PWrite(s.prod.item))
    case ProdReload(lag) =>
      var h := Wrap(s.head - lag);
      s.(cachedHead := h, seenHead := if lag <= |s.popped| then |s.popped| - lag else 0,
         prod := if Wrap(s.tail - h) >= Pow2(k) then PFull(s.prod.item) else PWrite(s.prod.item))
    case ProdWrite => s.(buffer := s.buffer[Slot(k, s.tail) := s.prod.item], prod := PPublish(s.prod.item))
    case ProdPublish =>
      s.(tail := Wrap(s.tail + 1), prod := PIdle,
         pushed := s.pushed + [s.prod.item], keptAt := s.keptAt + [if s.offered == [] then 0 else |s.offered| - 1])
    case ProdFull =>
      if p.Block? then s.(prod := PCheck(s.prod.item)) else s.(prod := PIdle, dropped := s.dropped + 1)
    case Receive => s.(cons := CCheck)
    case ConsCheck => s.(cons := if s.head == s.cachedTail then CReload else CRead)
    case ConsReload(lag) =>
      var t := Wrap(s.tail - lag);
      s.(cachedTail := t, seenTail := if lag <= |s.pushed| then |s.pushed| - lag else 0,
         cons := if s.head == t then CIdle else CRead)
    case ConsRead => s.(cons := CRelease(s.buffer[Slot(k, s.head)]))
    case ConsRelease => s.(head := Wrap(s.head + 1), cons := CIdle, popped := s.popped + [s.cons.item])
  }

  // ----- wrapping arithmetic

  lemma WrapDiff(a: nat, b: nat)
    requires b <= a < b + TWO_64
    ensures Wrap(Wrap(a) - Wrap(b)) == a - b
  {
    assert a == TWO_64 * (a / TWO_64) + Wrap(a) && b == TWO_64 * (b / TWO_64) + Wrap(b);
    ModUnique(Wrap(a) - Wrap(b), TWO_64, b / TWO_64 - a / TWO_64, a - b);
  }

  lemma WrapBack(a: nat, lag: nat)
    requires lag <= a
    ensures Wrap(Wrap(a) - lag) == Wrap(a - lag)
  {
    assert a == TWO_64 * (a / TWO_64) + Wrap(a);
    assert Wrap(a) - lag == TWO_64 * ((Wrap(a) - lag) / TWO_64) + Wrap(Wrap(a) - lag);
    ModUnique(a - lag, TWO_64, a / TWO_64 + (Wrap(a) - lag) / TWO_64, Wrap(Wrap(a) - lag));
  }

  lemma WrapNext(a: nat)
    ensures Wrap(Wrap(a) + 1) == Wrap(a + 1)
  {
    assert a == TWO_64 * (a / TWO_64) + Wrap(a);
    assert Wrap(a) + 1 == TWO_64 * ((Wrap(a) + 1) / TWO_64) + Wrap(Wrap(a) + 1);
    ModUnique(a + 1, TWO_64, a / TWO_64 + (Wrap(a) + 1) / TWO_64, Wrap(Wrap(a) + 1));
  }

  // Masking a wrapped counter gives the slot of the counter that never wraps.
  lemma SlotOf(k: nat, n: nat)
    requires k <= 64
    ensures Slot(k, Wrap(n)) == n % Pow2(k)
  {
    MaskIsMod(Wrap(n), k);
    Pow2Add(k, 64 - k);
    Pow2Of64();
    ModOfMod(n, Pow2(k), Pow2(64 - k));
  }

  lemma SlotsApart(k: nat, i: nat, j: nat)
    requires i < j < i + Pow2(k)
    ensures i % Pow2(k) != j % Pow2(k)
  {
    var c := Pow2(k);
    if i % c == j % c {
      var d := j / c - i / c;
      assert i == c * (i / c) + i % c && j == c * (j / c) + j % c;
      assert j - i == c * d;
      if d <= 0 { MulLe(d, 0, c); } else { MulLe(1, d, c); }
    }
  }

  // ----- the invariant

  // cached_head <= head <= cached_tail <= tail <= cached_head + capacity, counted without wrapping; and a producer that
  // has found no room has found the ring full as of the head it last loaded.
  ghost predicate IndexInv<T>(k: nat, s: Ring<T>) {
    && s.head == Wrap(|s.popped|) && s.tail == Wrap(|s.pushed|)
    && s.cachedHead == Wrap(s.seenHead) && s.cachedTail == Wrap(s.seenTail)
    && s.seenHead <= |s.popped| <= s.seenTail <= |s.pushed| <= s.seenHead + Pow2(k)
    && (s.prod.PWrite? || s.prod.PPublish? ==> |s.pushed| < s.seenHead + Pow2(k))
    && (s.prod.PReload? || s.prod.PFull? ==> |s.pushed| == s.seenHead + Pow2(k))
    && (s.cons.CRead? || s.cons.CRelease? ==> |s.popped| < s.seenTail)
  }

  // Consumed, then in flight, is what was pushed.
  ghost predicate DataInv<T>(k: nat, s: Ring<T>) {
    && |s.buffer| == Pow2(k)
    && s.popped <= s.pushed
    && (forall i :: |s.popped| <= i < |s.pushed| ==> s.buffer[i % Pow2(k)] == s.pushed[i])
    && (s.prod.PPublish? ==> s.buffer[|s.pushed| % Pow2(k)] == s.prod.item)
    && (s.cons.CRelease? ==> |s.popped| < |s.pushed| && s.cons.item == s.pushed[|s.popped|])
  }

  // What is published was offered, below the limit, in the same order.
  ghost predicate Kept<T>(offered: seq<T>, pushed: seq<T>, keptAt: seq<nat>, limit: int) {
    && |keptAt| == |pushed| && limit <= |offered|
    && (forall i :: 0 <= i < |keptAt| ==> keptAt[i] < limit && pushed[i] == offered[keptAt[i]])
    && (forall i, j :: 0 <= i < j < |keptAt| ==> keptAt[i] < keptAt[j])
  }

  // Every offer is published, dropped, or the one in the producer's hands; what is published was offered, in
  // the same order; and Block drops nothing.
  ghost predicate ChannelInv<T>(p: Policy, s: Ring<T>) {
    var inHand := if s.prod.PIdle? then 0 else 1;
    && |s.offered| == |s.pushed| + s.dropped + inHand
    && (!s.prod.PIdle? ==> s.offered[|s.offered| - 1] == s.prod.item)
    && Kept(s.offered, s.pushed, s.keptAt, |s.offered| - inHand)
    && (p.Block? ==> s.dropped == 0 && s.pushed <= s.offered)
  }

  ghost predicate Inv<T>(k: nat, p: Policy, s: Ring<T>) {
    IndexInv(k, s) && DataInv(k, s) && ChannelInv(p, s)
  }

  lemma NewInv<T>(k: nat, p: Policy, blank: T)
    ensures Inv(k, p, NewRing(k, blank))
  {
  }

  lemma IndexStep<T>(k: nat, p: Policy, s: Ring<T>, a: Action<T>)
    requires 1 <= k < 64 && IndexInv(k, s) && |s.buffer| == Pow2(k) && Enabled(s, a)
    ensures IndexInv(k, Step(k, p, s, a))
  {
    if a.Send? || a.ProdCheck? || a.ProdReload? || a.ProdWrite? || a.ProdPublish? || a.ProdFull? {
      ProducerIndexStep(k, p, s, a);
    } else {
      ConsumerIndexStep(k, p, s, a);
    }
  }

  lemma ProducerIndexStep<T>(k: nat, p: Policy, s: Ring<T>, a: Action<T>)
    requires 1 <= k < 64 && IndexInv(k, s) && |s.buffer| == Pow2(k) && Enabled(s, a)
    requires a.Send? || a.ProdCheck? || a.ProdReload? || a.ProdWrite? || a.ProdPublish? || a.ProdFull?
    ensures IndexInv(k, Step(k, p, s, a))
  {
    hide Wrap, Slot, Pow2;
    match a
    case ProdCheck => ProducerRoom(k, s);
    case ProdReload(lag) =>
      ReloadUnwrapped(k, s, lag);
      HeadWithin(k, s, lag);
    case ProdPublish => WrapNext(|s.pushed|);
    case _ =>
  }

  lemma ConsumerIndexStep<T>(k: nat, p: Policy, s: Ring<T>, a: Action<T>)
    requires 1 <= k < 64 && IndexInv(k, s) && |s.buffer| == Pow2(k) && Enabled(s, a)
    requires a.Receive? || a.ConsCheck? || a.ConsReload? || a.ConsRead? || a.ConsRelease?
    ensures IndexInv(k, Step(k, p, s, a))
  {
    hide Wrap, Slot, Pow2;
    match a
    case ConsCheck => ConsumerWork(k, s);
    case ConsReload(lag) => TailWithin(k, s, lag);
    case ConsRelease => WrapNext(|s.popped|);
    case _ =>
  }

  // A load returns a value no older than the last one and no newer than the last published.
  lemma HeadWithin<T>(k: nat, s: Ring<T>, lag: nat)
    requires 1 <= k < 64 && IndexInv(k, s) && lag <= Wrap(s.head - s.cachedHead)
    ensures lag <= |s.popped| && s.seenHead <= |s.popped| - lag && Wrap(s.head - lag) == Wrap(|s.popped| - lag)
  {
    hide Wrap;
    Pow2Of64();
    Pow2Less(k, 64);
    WrapDiff(|s.popped|, s.seenHead);
    WrapBack(|s.popped|, lag);
  }

  lemma TailWithin<T>(k: nat, s: Ring<T>, lag: nat)
    requires 1 <= k < 64 && IndexInv(k, s) && lag <= Wrap(s.tail - s.cachedTail)
    ensures lag <= |s.pushed| && s.seenTail <= |s.pushed| - lag && Wrap(s.tail - lag) == Wrap(|s.pushed| - lag)
    ensures s.head == Wrap(s.tail - lag) <==> |s.popped| == |s.pushed| - lag
  {
    hide Wrap;
    Pow2Of64();
    Pow2Less(k, 64);
    WrapDiff(|s.pushed|, s.seenTail);
    WrapBack(|s.pushed|, lag);
    SameCounter(|s.pushed| - lag, |s.popped|);
  }

  lemma DataStep<T>(k: nat, p: Policy, s: Ring<T>, a: Action<T>)
    requires 1 <= k < 64 && IndexInv(k, s) && DataInv(k, s) && Enabled(s, a)
    ensures DataInv(k, Step(k, p, s, a))
  {
    hide Wrap, Slot;
    var c := Pow2(k);
    match a
    case ProdWrite =>
      SlotOf(k, |s.pushed|);
      forall i | |s.popped| <= i < |s.pushed|
        ensures i % c != |s.pushed| % c
      {
        SlotsApart(k, i, |s.pushed|);
      }
    case ConsRead => SlotOf(k, |s.popped|);
    case _ =>
  }

  lemma ChannelStep<T>(k: nat, p: Policy, s: Ring<T>, a: Action<T>)
    requires ChannelInv(p, s) && Enabled(s, a) && |s.buffer| == Pow2(k)
    ensures ChannelInv(p, Step(k, p, s, a))
  {
    hide Wrap, Slot, Pow2, Kept;
    match a
    case Send(x) => KeptLonger(s.offered, s.pushed, s.keptAt, x);
    case ProdPublish =>
      KeptMore(s.offered, s.pushed, s.keptAt, |s.offered| - 1);
      if p.Block? { NextInLine(s.offered, s.pushed); }
    case ProdFull => KeptBelow(s.offered, s.pushed, s.keptAt, |s.offered| - 1);
    case _ =>
  }

  lemma KeptLonger<T>(offered: seq<T>, pushed: seq<T>, keptAt: seq<nat>, x: T)
    requires Kept(offered, pushed, keptAt, |offered|)
    ensures Kept(offered + [x], pushed, keptAt, |offered|)
  {
  }

  lemma KeptMore<T>(offered: seq<T>, pushed: seq<T>, keptAt: seq<nat>, at: nat)
    requires at < |offered| && Kept(offered, pushed, keptAt, at)
    ensures Kept(offered, pushed + [offered[at]], keptAt + [at], at + 1)
  {
  }

  lemma KeptBelow<T>(offered: seq<T>, pushed: seq<T>, keptAt: seq<nat>, limit: nat)
    requires limit < |offered| && Kept(offered, pushed, keptAt, limit)
    ensures Kept(offered, pushed, keptAt, limit + 1)
  {
  }

  lemma NextInLine<T>(offered: seq<T>, pushed: seq<T>)
    requires pushed <= offered && |pushed| < |offered|
    ensures pushed + [offered[|pushed|]] <= offered
  {
  }

  // While the producer writes a slot and the consumer reads one, they are different slots.
  lemma NoCollision<T>(k: nat, p: Policy, s: Ring<T>)
    requires 1 <= k < 64 && Inv(k, p, s) && s.prod.PWrite? && s.cons.CRead?
    ensures Slot(k, s.tail) != Slot(k, s.head)
  {
    SlotOf(k, |s.pushed|);
    SlotOf(k, |s.popped|);
    SlotsApart(k, |s.popped|, |s.pushed|);
  }

  // Wrapping at 2^64 is harmless: every decision and every slot is the one a ring with counters that never
  // wrap would take.
  lemma ProducerUnwrapped<T>(k: nat, p: Policy, s: Ring<T>, a: Action<T>)
    requires 1 <= k < 64 && IndexInv(k, s) && |s.buffer| == Pow2(k) && Enabled(s, a)
    ensures a.ProdCheck? ==>
      Step(k, p, s, a).prod ==
      if |s.pushed| - s.seenHead >= Pow2(k) then PReload(s.prod.item) else PWrite(s.prod.item)
    ensures a.ProdReload? ==>
      Step(k, p, s, a).prod ==
      if |s.pushed| - (|s.popped| - a.lag) >= Pow2(k) then PFull(s.prod.item) else PWrite(s.prod.item)
    ensures a.ProdWrite? ==> Step(k, p, s, a).buffer == s.buffer[|s.pushed| % Pow2(k) := s.prod.item]
  {
    hide Wrap, Slot, Pow2;
    match a
    case ProdCheck => ProducerRoom(k, s);
    case ProdReload(lag) => ReloadUnwrapped(k, s, lag);
    case ProdWrite => SlotOf(k, |s.pushed|);
    case _ =>
  }

  lemma ReloadUnwrapped<T>(k: nat, s: Ring<T>, lag: nat)
    requires 1 <= k < 64 && IndexInv(k, s) && lag <= Wrap(s.head - s.cachedHead)
    ensures lag <= |s.popped| && Wrap(s.tail - Wrap(s.head - lag)) == |s.pushed| - (|s.popped| - lag)
  {
    hide Wrap;
    Pow2Of64();
    Pow2Less(k, 64);
    HeadWithin(k, s, lag);
    WrapDiff(|s.pushed|, |s.popped| - lag);
  }

  lemma ConsumerUnwrapped<T>(k: nat, p: Policy, s: Ring<T>, a: Action<T>)
    requires 1 <= k < 64 && IndexInv(k, s) && |s.buffer| == Pow2(k) && Enabled(s, a)
    ensures a.ConsCheck? ==> Step(k, p, s, a).cons == if |s.popped| == s.seenTail then CReload else CRead
    ensures a.ConsReload? ==> Step(k, p, s, a).cons == if |s.popped| == |s.pushed| - a.lag then CIdle else CRead
    ensures a.ConsRead? ==> Step(k, p, s, a).cons == CRelease(s.buffer[|s.popped| % Pow2(k)])
  {
    hide Wrap, Slot, Pow2;
    match a
    case ConsCheck => ConsumerWork(k, s);
    case ConsReload(lag) => TailWithin(k, s, lag);
    case ConsRead => SlotOf(k, |s.popped|);
    case _ =>
  }

  lemma SameCounter(a: nat, b: nat)
    requires b <= a < b + TWO_64
    ensures Wrap(a) == Wrap(b) <==> a == b
  {
    WrapDiff(a, b);
  }

  // With a fresh load, a push that gives up really found the ring full, and a pop that gives up, empty.
  lemma GivesUpTruly<T>(k: nat, p: Policy, s: Ring<T>)
    requires 1 <= k < 64 && IndexInv(k, s) && DataInv(k, s)
    ensures s.prod.PReload? ==>
      (Step(k, p, s, ProdReload(0)).prod.PFull? <==> |s.pushed| - |s.popped| == Pow2(k))
    ensures s.cons.CReload? ==> (Step(k, p, s, ConsReload(0)).cons.CIdle? <==> s.pushed == s.popped)
  {
    hide Wrap, Slot, DataInv;
    EmptyMeans(k, s);
    if s.prod.PReload? { ProducerUnwrapped(k, p, s, ProdReload(0)); }
    if s.cons.CReload? { ConsumerUnwrapped(k, p, s, ConsReload(0)); }
  }

  // ----- runs

  // The state after a schedule, if every step of it was possible.
  function Exec<T>(k: nat, p: Policy, blank: T, acts: seq<Action<T>>): (r: Ring<T>)
    requires Possible(k, p, blank, acts)
    ensures |r.buffer| == Pow2(k)
    decreases |acts|, 1
  {
    if acts == [] then NewRing(k, blank)
    else
      Step(k, p, Exec(k, p, blank, acts[..|acts| - 1]), acts[|acts| - 1])
  }

  predicate Possible<T>(k: nat, p: Policy, blank: T, acts: seq<Action<T>>)
    decreases |acts|, 0
  {
    acts == [] ||
    (Possible(k, p, blank, acts[..|acts| - 1]) && Enabled(Exec(k, p, blank, acts[..|acts| - 1]), acts[|acts| - 1]))
  }

  lemma {:induction false} Always<T>(k: nat, p: Policy, blank: T, acts: seq<Action<T>>)
    requires 1 <= k < 64 && Possible(k, p, blank, acts)
    ensures Inv(k, p, Exec(k, p, blank, acts))
  {
    if acts == [] {
      NewInv(k, p, blank);
    } else {
      var s, a := Exec(k, p, blank, acts[..|acts| - 1]), acts[|acts| - 1];
      Always(k, p, blank, acts[..|acts| - 1]);
      IndexStep(k, p, s, a);
      DataStep(k, p, s, a);
      ChannelStep(k, p, s, a);
    }
  }

  // ----- when something is dropped

  // How often a schedule has the producer find the ring full.
  function Fulls<T>(acts: seq<Action<T>>): nat {
    if acts == [] then 0 else Fulls(acts[..|acts| - 1]) + if acts[|acts| - 1].ProdFull? then 1 else 0
  }

  // DropNew drops one item each time, and Block none.
  lemma {:induction false} DropsExact<T>(k: nat, p: Policy, blank: T, acts: seq<Action<T>>)
    requires Possible(k, p, blank, acts)
    ensures Exec(k, p, blank, acts).dropped == if p.DropNew? then Fulls(acts) else 0
  {
    hide Wrap, Slot, Pow2;
    if acts != [] { DropsExact(k, p, blank, acts[..|acts| - 1]); }
  }

  lemma ExecOneMore<T>(k: nat, p: Policy, blank: T, acts: seq<Action<T>>, a: Action<T>)
    requires Possible(k, p, blank, acts + [a])
    ensures Possible(k, p, blank, acts) && Enabled(Exec(k, p, blank, acts), a)
    ensures Exec(k, p, blank, acts + [a]) == Step(k, p, Exec(k, p, blank, acts), a)
  {
    hide Step, Enabled;
    assert (acts + [a])[..|acts|] == acts;
  }

  // From an idle producer on, whatever is published was offered later.
  ghost predicate LaterOffers<T>(s: Ring<T>, t: Ring<T>) {
    && |s.keptAt| <= |t.keptAt| && t.keptAt[..|s.keptAt|] == s.keptAt
    && |s.offered| + (if t.prod.PIdle? then 0 else 1) <= |t.offered|
    && forall j :: |s.keptAt| <= j < |t.keptAt| ==> t.keptAt[j] >= |s.offered|
  }

  lemma LaterStep<T>(k: nat, p: Policy, s: Ring<T>, t: Ring<T>, a: Action<T>)
    requires LaterOffers(s, t) && Enabled(t, a) && |t.buffer| == Pow2(k)
    ensures LaterOffers(s, Step(k, p, t, a))
  {
    hide Wrap, Slot, Pow2;
  }

  lemma {:induction false} PublishedLater<T>(k: nat, p: Policy, blank: T, acts: seq<Action<T>>, more: seq<Action<T>>)
    requires Possible(k, p, blank, acts + more)
    ensures Possible(k, p, blank, acts)
    ensures var s := Exec(k, p, blank, acts); s.prod.PIdle? ==> LaterOffers(s, Exec(k, p, blank, acts + more))
    decreases |more|
  {
    hide Step, Enabled, LaterOffers;
    if more == [] {
      assert acts + more == acts;
      if Exec(k, p, blank, acts).prod.PIdle? { SameOffers(Exec(k, p, blank, acts)); }
    } else {
      var front, a := more[..|more| - 1], more[|more| - 1];
      assert acts + more == acts + front + [a];
      ExecOneMore(k, p, blank, acts + front, a);
      PublishedLater(k, p, blank, acts, front);
      if Exec(k, p, blank, acts).prod.PIdle? {
        LaterStep(k, p, Exec(k, p, blank, acts), Exec(k, p, blank, acts + front), a);
      }
    }
  }

  lemma SameOffers<T>(s: Ring<T>)
    requires s.prod.PIdle?
    ensures LaterOffers(s, s)
  {
  }

  // A send that finds the ring full, as of the head it has just loaded: DropNew gives the offer up for good, whatever
  // follows, and Block keeps it in hand and tries again. Nothing else changes.
  lemma FullRing<T>(k: nat, p: Policy, blank: T, acts: seq<Action<T>>, more: seq<Action<T>>)
    requires 1 <= k < 64 && Possible(k, p, blank, acts + [ProdFull] + more)
    ensures Possible(k, p, blank, acts) && Possible(k, p, blank, acts + [ProdFull])
    ensures var s, t := Exec(k, p, blank, acts), Exec(k, p, blank, acts + [ProdFull]);
      && s.prod.PFull? && |s.pushed| == s.seenHead + Pow2(k) && s.offered != []
      && t.pushed == s.pushed && t.offered == s.offered && t.popped == s.popped && t.cons == s.cons
      && match p
         case DropNew => t.prod.PIdle? && t.dropped == s.dropped + 1 &&
                         |s.offered| - 1 !in Exec(k, p, blank, acts + [ProdFull] + more).keptAt
         case Block => t.prod == PCheck(s.offered[|s.offered| - 1]) && t.dropped == 0
  {
    hide Wrap, Slot, Pow2, DataInv, Possible, Exec;
    PublishedLater(k, p, blank, acts + [ProdFull], more);
    ExecOneMore(k, p, blank, acts, ProdFull);
    Always(k, p, blank, acts);
    var s, t := Exec(k, p, blank, acts), Exec(k, p, blank, acts + [ProdFull]);
    if p.DropNew? {
      var u := Exec(k, p, blank, acts + [ProdFull] + more);
      forall j | 0 <= j < |u.keptAt|
        ensures u.keptAt[j] != |s.offered| - 1
      {
        if j < |s.keptAt| { assert u.keptAt[j] == s.keptAt[j]; }
      }
    }
  }

  // ----- push and pop as one thread runs them when the other is still

  class SpscRing<T> {
    const k: nat
    const buffer: array<T>
    var head: nat
    var tail: nat
    var cachedHead: nat
    var cachedTail: nat
    ghost var pushed: seq<T>
    ghost var popped: seq<T>
    ghost var seenHead: nat
    ghost var seenTail: nat

    ghost function View(prod: Producer<T>, cons: Consumer<T>): Ring<T>
      reads this, buffer
    {
      Ring(buffer[..], head, tail, cachedHead, cachedTail, prod, cons, 0, [], pushed, [], popped, seenHead, seenTail)
    }

    ghost predicate Valid()
      reads this, buffer
    {
      1 <= k < 64 && buffer.Length == Pow2(k) && IndexInv(k, View(PIdle, CIdle)) && DataInv(k, View(PIdle, CIdle))
    }

    constructor (k: nat, blank: T)
      requires 1 <= k < 64
      ensures Valid() && fresh(buffer) && this.k == k && pushed == popped == []
    {
      this.k := k;
      buffer := new T[Pow2(k)](_ => blank);
      head, tail, cachedHead, cachedTail := 0, 0, 0, 0;
      pushed, popped, seenHead, seenTail := [], [], 0, 0;
    }

    method Push(item: T) returns (ok: bool)
      requires Valid()
      modifies this, buffer
      ensures Valid() && popped == old(popped)
      ensures ok <==> |old(pushed)| - |popped| < Pow2(k)
      ensures pushed == if ok then old(pushed) + [item] else old(pushed)
    {
      hide Wrap, Slot, DataInv, Pow2;
      ghost var s0 := View(PIdle, CIdle);
      ProducerRoom(k, s0);
      if Wrap(tail - cachedHead) >= Pow2(k) {
        cachedHead, seenHead := head, |popped|;
        assert buffer[..] == s0.buffer;
        HeadLoaded(k, View(PIdle, CIdle));
        SameData(k, s0, View(PIdle, CIdle));
        if Wrap(tail - cachedHead) >= Pow2(k) {
          return false;
        }
      }
      assert buffer[..] == s0.buffer;
      ghost var s := View(PWrite(item), CIdle);
      SameData(k, s0, s);
      WriteThenPublish(k, s);
      buffer[Slot(k, tail)] := item;
      tail, pushed := Wrap(tail + 1), pushed + [item];
      ghost var s' := Step(k, DropNew, Step(k, DropNew, s, ProdWrite), ProdPublish);
      assert buffer[..] == s'.buffer;
      SameData(k, s', View(PIdle, CIdle));
      return true;
    }

    method Pop() returns (out: Option<T>)
      requires Valid()
      modifies this
      ensures Valid() && pushed == old(pushed)
      ensures out.None? <==> old(popped) == pushed
      ensures popped == if out.None? then old(popped) else old(popped) + [out.value]
      ensures popped <= pushed
    {
      hide Wrap, Slot, DataInv, Pow2;
      ghost var s0 := View(PIdle, CIdle);
      ConsumerWork(k, s0);
      EmptyMeans(k, s0);
      if head == cachedTail {
        cachedTail, seenTail := tail, |pushed|;
        TailLoaded(k, View(PIdle, CIdle));
        SameData(k, s0, View(PIdle, CIdle));
        if head == cachedTail {
          return None;
        }
      }
      ghost var s := View(PIdle, CRead);
      SameData(k, s0, s);
      ReadThenRelease(k, s);
      var item := buffer[Slot(k, head)];
      head, popped := Wrap(head + 1), popped + [item];
      SameData(k, Step(k, DropNew, Step(k, DropNew, s, ConsRead), ConsRelease), View(PIdle, CIdle));
      return Some(item);
    }
  }

  lemma SameData<T>(k: nat, s: Ring<T>, s': Ring<T>)
    requires DataInv(k, s) && s'.buffer == s.buffer && s'.pushed == s.pushed && s'.popped == s.popped
    requires !s'.prod.PPublish? && !s'.cons.CRelease?
    ensures DataInv(k, s')
  {
  }

  // The cached head tells the truth when it says there is room; when it does not, loading head settles it.
  lemma ProducerRoom<T>(k: nat, s: Ring<T>)
    requires 1 <= k < 64 && IndexInv(k, s)
    ensures Wrap(s.tail - s.cachedHead) == |s.pushed| - s.seenHead
  {
    Pow2Of64();
    Pow2Less(k, 64);
    WrapDiff(|s.pushed|, s.seenHead);
  }

  lemma HeadLoaded<T>(k: nat, s: Ring<T>)
    requires 1 <= k < 64 && s.head == Wrap(|s.popped|) && s.tail == Wrap(|s.pushed|) && s.cachedHead == s.head
    requires |s.popped| <= |s.pushed| <= |s.popped| + Pow2(k)
    ensures Wrap(s.tail - s.cachedHead) == |s.pushed| - |s.popped|
  {
    Pow2Of64();
    Pow2Less(k, 64);
    WrapDiff(|s.pushed|, |s.popped|);
  }

  lemma ConsumerWork<T>(k: nat, s: Ring<T>)
    requires 1 <= k < 64 && IndexInv(k, s)
    ensures s.head == s.cachedTail <==> |s.popped| == s.seenTail
  {
    Pow2Of64();
    Pow2Less(k, 64);
    SameCounter(s.seenTail, |s.popped|);
  }

  lemma TailLoaded<T>(k: nat, s: Ring<T>)
    requires 1 <= k < 64 && s.head == Wrap(|s.popped|) && s.tail == Wrap(|s.pushed|) && s.cachedTail == s.tail
    requires |s.popped| <= |s.pushed| <= |s.popped| + Pow2(k)
    ensures s.head == s.cachedTail <==> |s.popped| == |s.pushed|
  {
    Pow2Of64();
    Pow2Less(k, 64);
    SameCounter(|s.pushed|, |s.popped|);
  }

  lemma EmptyMeans<T>(k: nat, s: Ring<T>)
    requires DataInv(k, s)
    ensures |s.buffer| == Pow2(k) && |s.popped| <= |s.pushed|
    ensures s.popped == s.pushed <==> |s.popped| == |s.pushed|
  {
    assert s.popped == s.pushed[..|s.popped|];
  }

  lemma WriteThenPublish<T>(k: nat, s: Ring<T>)
    requires 1 <= k < 64 && IndexInv(k, s) && DataInv(k, s) && s.prod.PWrite?
    ensures |s.buffer| == Pow2(k)
    ensures var s' := Step(k, DropNew, Step(k, DropNew, s, ProdWrite), ProdPublish);
      IndexInv(k, s') && DataInv(k, s')
  {
    hide IndexInv, DataInv, Slot, Wrap;
    EmptyMeans(k, s);
    IndexStep(k, DropNew, s, ProdWrite);
    DataStep(k, DropNew, s, ProdWrite);
    var t := Step(k, DropNew, s, ProdWrite);
    IndexStep(k, DropNew, t, ProdPublish);
    DataStep(k, DropNew, t, ProdPublish);
  }

  lemma ReadThenRelease<T>(k: nat, s: Ring<T>)
    requires 1 <= k < 64 && IndexInv(k, s) && DataInv(k, s) && s.cons.CRead?
    ensures |s.buffer| == Pow2(k) && |s.popped| < |s.pushed|
    ensures s.buffer[Slot(k, s.head)] == s.pushed[|s.popped|]
    ensures s.popped + [s.pushed[|s.popped|]] == s.pushed[..|s.popped| + 1]
    ensures var s' := Step(k, DropNew, Step(k, DropNew, s, ConsRead), ConsRelease);
      IndexInv(k, s') && DataInv(k, s')
  {
    hide Slot, Wrap;
    IndexStep(k, DropNew, s, ConsRead);
    DataStep(k, DropNew, s, ConsRead);
    var t := Step(k, DropNew, s, ConsRead);
    IndexStep(k, DropNew, t, ConsRelease);
    DataStep(k, DropNew, t, ConsRelease);
    assert s.popped == s.pushed[..|s.popped|];
  }
}
