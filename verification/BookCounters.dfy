/** What each statistic of the order book counts over a whole run. */
module BookCounters {
  import opened Arith
  import opened BookSpec
  import opened Generators
  import opened MarketEvents
  import opened OrderBooks

  datatype Statistic = Applied | Adds | Cancels | Deletes | Executes | Replacements | Trades | Rejected | UnknownRef | CrossedAfter

  // An event is one of those counted, as far as its kind, its fields and the books before and after it tell.
  ghost predicate IsOne(what: Statistic, b: Book, ev: MarketEvent, b': Book) {
    match what
    case Applied => true
    case Adds => ev.kind == Add
    case Cancels => ev.kind == Cancel
    case Deletes => ev.kind == Delete
    case Executes => ev.kind in {Execute, ExecuteWithPrice}
    case Replacements => ev.kind == Replace
    case Trades => ev.kind == Trade
    case Rejected =>
      && (ev.kind == Add || (ev.kind == Replace && ev.orderRef in b.orders))
      && !(b.cfg.minPrice <= ev.priceTicks <= b.cfg.maxPrice)
    case UnknownRef => ev.kind in {Cancel, Delete, Execute, ExecuteWithPrice, Replace} && ev.orderRef !in b.orders
    case CrossedAfter => Crossed(b')
  }

  ghost predicate Counts(what: Statistic, evs: seq<MarketEvent>, k: nat)
    requires k < |evs|
  {
    IsOne(what, Replay(evs[..k]).book, evs[k], Replay(evs[..k + 1]).book)
  }

  ghost function Counted(what: Statistic, evs: seq<MarketEvent>): set<nat> {
    set k | 0 <= k < |evs| && Counts(what, evs, k)
  }

  lemma SameCounts(what: Statistic, evs: seq<MarketEvent>, n: nat, k: nat)
    requires k < n <= |evs|
    ensures Counts(what, evs[..n], k) == Counts(what, evs, k)
  {
    assert evs[..n][..k] == evs[..k] && evs[..n][..k + 1] == evs[..k + 1];
  }

  lemma OneMoreCounted(what: Statistic, evs: seq<MarketEvent>)
    requires evs != []
    ensures |Counted(what, evs)| == |Counted(what, evs[..|evs| - 1])| + if Counts(what, evs, |evs| - 1) then 1 else 0
  {
    hide Counts;
    var n, before := |evs| - 1, evs[..|evs| - 1];
    forall k | 0 <= k < n
      ensures Counts(what, before, k) == Counts(what, evs, k)
    {
      SameCounts(what, evs, n, k);
    }
    OneMoreBelow(Counted(what, before), Counted(what, evs), n, Counts(what, evs, n));
  }

  // The statistics a run ought to end with.
  ghost function Ought(evs: seq<MarketEvent>): Stats {
    Stats(|Counted(Applied, evs)|, |Counted(Adds, evs)|, |Counted(Cancels, evs)|, |Counted(Deletes, evs)|,
          |Counted(Executes, evs)|, |Counted(Replacements, evs)|, |Counted(Trades, evs)|, |Counted(Rejected, evs)|,
          |Counted(UnknownRef, evs)|, |Counted(CrossedAfter, evs)|)
  }

  // Every statistic counts exactly its events.
  lemma {:induction false} StatisticsExact(evs: seq<MarketEvent>)
    ensures Replay(evs).stats == Ought(evs)
  {
    hide Counted, One, Replay;
    if evs == [] {
      NothingCounted();
    } else {
      StatisticsExact(evs[..|evs| - 1]);
      ReplayCounting(evs);
      OneMore(Applied, evs);
      OneMore(Adds, evs);
      OneMore(Cancels, evs);
      OneMore(Deletes, evs);
      OneMore(Executes, evs);
      OneMore(Replacements, evs);
      OneMore(Trades, evs);
      OneMore(Rejected, evs);
      OneMore(UnknownRef, evs);
      OneMore(CrossedAfter, evs);
    }
  }

  lemma NothingCounted()
    ensures Replay([]).stats == Ought([])
  {
    assert forall what :: Counted(what, []) == {};
  }

  lemma OneMore(what: Statistic, evs: seq<MarketEvent>)
    requires evs != []
    ensures |Counted(what, evs)| == |Counted(what, evs[..|evs| - 1])| +
      One(what, Replay(evs[..|evs| - 1]).book, evs[|evs| - 1], Replay(evs).book)
  {
    hide Counted, Counts, IsOne, Replay;
    OneMoreCounted(what, evs);
    LastCounts(what, evs);
  }

  ghost function One(what: Statistic, b: Book, ev: MarketEvent, b': Book): nat {
    if IsOne(what, b, ev, b') then 1 else 0
  }

  lemma LastCounts(what: Statistic, evs: seq<MarketEvent>)
    requires evs != []
    ensures Counts(what, evs, |evs| - 1) ==
            IsOne(what, Replay(evs[..|evs| - 1]).book, evs[|evs| - 1], Replay(evs).book)
  {
    hide Replay, IsOne;
    assert evs[..|evs|] == evs;
  }

  // What one event adds to each statistic.
  ghost predicate Counting(st: Stats, st': Stats, b: Book, ev: MarketEvent, b': Book) {
    && st'.applied == st.applied + One(Applied, b, ev, b') && st'.adds == st.adds + One(Adds, b, ev, b')
    && st'.cancels == st.cancels + One(Cancels, b, ev, b') && st'.deletes == st.deletes + One(Deletes, b, ev, b')
    && st'.executes == st.executes + One(Executes, b, ev, b')
    && st'.replacements == st.replacements + One(Replacements, b, ev, b')
    && st'.trades == st.trades + One(Trades, b, ev, b')
    && st'.rejectedOutOfBand == st.rejectedOutOfBand + One(Rejected, b, ev, b')
    && st'.unknownRef == st.unknownRef + One(UnknownRef, b, ev, b')
    && st'.crossedObserved == st.crossedObserved + One(CrossedAfter, b, ev, b')
  }

  lemma ReplayCounting(evs: seq<MarketEvent>)
    requires evs != []
    ensures var r, r' := Replay(evs[..|evs| - 1]), Replay(evs);
      Counting(r.stats, r'.stats, r.book, evs[|evs| - 1], r'.book)
  {
    hide Apply, WellFormed, Crossed, Dispatched, Counting;
    var r := Replay(evs[..|evs| - 1]);
    DispatchCounting(r.stats, r.book, evs[|evs| - 1], Replay(evs).book);
  }

  lemma DispatchCounting(st: Stats, b: Book, ev: MarketEvent, b': Book)
    requires ConfigOk(b.cfg)
    ensures var d := Dispatched(st, b, ev);
      Counting(st, d.(applied := d.applied + 1, crossedObserved := d.crossedObserved + if Crossed(b') then 1 else 0),
               b, ev, b')
  {
    hide Crossed;
  }
}
