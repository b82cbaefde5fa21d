/**
 The Nasdaq TotalView-ITCH 5.0 messages as lists of parts, and what the parser reads in terms of them alone: no offset
 and no message length is written down here.
 */
module Layouts {
  import opened MarketEvents
  import opened Wire

  // A part of a message: a field the parser takes, or so many bytes of fields it passes over.
  datatype Part = Locate | Clock | Ref | NewRef | Way | Shares | Stock | Price | Match | Other(bytes: nat)

  function Width(p: Part): nat {
    match p
    case Locate => 2
    case Clock => 6
    case Ref | NewRef | Match | Stock => 8
    case Way => 1
    case Shares | Price => 4
    case Other(n) => n
  }

  // What follows the common header of kind, stock locate, tracking number and timestamp.
  function Body(kind: byte): Option<seq<Part>> {
    if kind == Code('A') then Some([Ref, Way, Shares, Stock, Price])
    else if kind == Code('F') then Some([Ref, Way, Shares, Stock, Price, Other(4)])
    else if kind == Code('E') then Some([Ref, Shares, Match])
    else if kind == Code('C') then Some([Ref, Shares, Match, Other(1), Price])
    else if kind == Code('X') then Some([Ref, Shares])
    else if kind == Code('D') then Some([Ref])
    else if kind == Code('U') then Some([Ref, NewRef, Shares, Price])
    else if kind == Code('P') then Some([Ref, Way, Shares, Stock, Price, Match])
    else Passed(kind)
  }

  // The kinds of which only the header is read: the widths of their fields.
  function Passed(kind: byte): Option<seq<Part>> {
    if kind == Code('S') then Some([Other(1)])                                     // system event: its code
    else if kind == Code('R') then Some([Other(8 + 1 + 1 + 4 + 1 + 1 + 2 + 1 + 1 + 1 + 1 + 1 + 4 + 1)])  // directory
    else if kind == Code('H') then Some([Other(8 + 1 + 1 + 4)])                    // trading action
    else if kind == Code('Y') then Some([Other(8 + 1)])                            // short sale restriction
    else if kind == Code('L') then Some([Other(4 + 8 + 1 + 1 + 1)])                // participant position
    else if kind == Code('V') then Some([Other(8 + 8 + 8)])                        // decline levels
    else if kind == Code('W') then Some([Other(1)])                                // breaker status
    else if kind == Code('K') then Some([Other(8 + 4 + 1 + 4)])                    // quoting period
    else if kind == Code('J') then Some([Other(8 + 4 + 4 + 4 + 4)])                // auction collar
    else if kind == Code('h') then Some([Other(8 + 1 + 1)])                        // operational halt
    else if kind == Code('Q') then Some([Other(8 + 8 + 4 + 8 + 1)])                // cross trade
    else if kind == Code('B') then Some([Other(8)])                                // broken trade
    else if kind == Code('I') then Some([Other(8 + 8 + 1 + 8 + 4 + 4 + 4 + 1 + 1)])                      // imbalance
    else if kind == Code('N') then Some([Other(8 + 1)])                            // price improvement
    else if kind == Code('O') then Some([Other(8 + 1 + 4 + 4 + 4 + 8 + 4 + 4)])    // direct listing
    else None
  }

  const HEADER := [Other(1), Locate, Other(2), Clock]

  function EventKind(kind: byte): EventType {
    if kind == Code('A') || kind == Code('F') then Add
    else if kind == Code('E') then Execute
    else if kind == Code('C') then ExecuteWithPrice
    else if kind == Code('X') then Cancel
    else if kind == Code('D') then Delete
    else if kind == Code('U') then Replace
    else if kind == Code('P') then Trade
    else if kind == Code('S') then SystemEvent
    else Unknown
  }

  function Length(ps: seq<Part>): nat {
    if ps == [] then 0 else Width(ps[0]) + Length(ps[1..])
  }

  // The part at position at goes into the event.
  function Take(e: MarketEvent, p: Part, msg: seq<byte>, at: nat): MarketEvent
    requires at + Width(p) <= |msg|
  {
    LoadsAgree(msg, at);
    match p
    case Locate => e.(stockLocate := Load(msg, at, 2))
    case Clock => e.(timestampNs := Load(msg, at, 6))
    case Ref => e.(orderRef := Load(msg, at, 8))
    case NewRef => e.(newOrderRef := Load(msg, at, 8))
    case Way => e.(side := if msg[at] == 'B' as int then Buy else if msg[at] == 'S' as int then Sell else NoSide)
    case Shares => e.(size := Load(msg, at, 4))
    case Stock => e.(symbol := msg[at..at + 8])
    case Price => e.(priceTicks := Load(msg, at, 4))
    case Match => e.(matchNumber := Load(msg, at, 8))
    case Other(_) => e
  }

  // The parts one after the other, from position at on.
  function TakeAll(e: MarketEvent, ps: seq<Part>, msg: seq<byte>, at: nat): MarketEvent
    requires at + Length(ps) <= |msg|
    decreases |ps|
  {
    if ps == [] then e else TakeAll(Take(e, ps[0], msg, at), ps[1..], msg, at + Width(ps[0]))
  }

  // What any bytes at all say.
  function Read(msg: seq<byte>): ParseResult {
    if msg == [] then ShortBuffer
    else
      match Body(msg[0])
      case None => UnknownType
      case Some(ps) =>
        if |msg| < Length(HEADER + ps) then ShortBuffer
        else Parsed(TakeAll(CLEAN_EVENT.(kind := EventKind(msg[0])), HEADER + ps, msg, 0))
  }

  // ----- the parser reads just that

  lemma TakeNext(e: MarketEvent, p: Part, ps: seq<Part>, msg: seq<byte>, at: nat)
    requires at + Width(p) + Length(ps) <= |msg|
    ensures Length([p] + ps) == Width(p) + Length(ps)
    ensures TakeAll(e, [p] + ps, msg, at) == TakeAll(Take(e, p, msg, at), ps, msg, at + Width(p))
  {
    assert ([p] + ps)[1..] == ps;
  }

  lemma Lengthen(p: Part, ps: seq<Part>)
    ensures Length([p] + ps) == Width(p) + Length(ps)
  {
    assert ([p] + ps)[1..] == ps;
  }

  lemma HeaderTaken(e: MarketEvent, ps: seq<Part>, msg: seq<byte>)
    ensures Length(HEADER + ps) == 11 + Length(ps)
    ensures 11 + Length(ps) <= |msg| ==> LoadBe16(msg, 1) < TWO_16 && LoadBe48(msg, 5) < TWO_48
    ensures 11 + Length(ps) <= |msg| ==>
      TakeAll(e, HEADER + ps, msg, 0) ==
      TakeAll(e.(stockLocate := LoadBe16(msg, 1), timestampNs := LoadBe48(msg, 5)), ps, msg, 11)
  {
    hide TakeAll, Length, LoadBe16, LoadBe48, Load;
    var c := [Clock] + ps;
    var t := [Other(2)] + c;
    var l := [Locate] + t;
    assert HEADER + ps == [Other(1)] + l;
    Lengthen(Clock, ps);
    Lengthen(Other(2), c);
    Lengthen(Locate, t);
    Lengthen(Other(1), l);
    if 11 + Length(ps) <= |msg| {
      LoadsAgree(msg, 1);
      LoadsAgree(msg, 5);
      TakeNext(e, Other(1), l, msg, 0);
      TakeNext(e, Locate, t, msg, 1);
      var e1 := e.(stockLocate := LoadBe16(msg, 1));
      TakeNext(e1, Other(2), c, msg, 3);
      TakeNext(e1, Clock, ps, msg, 5);
    }
  }

  lemma NoneLeft(e: MarketEvent, msg: seq<byte>, at: nat)
    requires at <= |msg|
    ensures Length([]) == 0 && TakeAll(e, [], msg, at) == e
  {
  }

  // The parts of a reduction, and of an order, with what may follow them.
  lemma SharesTaken(e: MarketEvent, rest: seq<Part>, msg: seq<byte>)
    ensures Length([Ref, Shares] + rest) == 12 + Length(rest)
    ensures 23 + Length(rest) <= |msg| ==> LoadBe64(msg, 11) < TWO_64 && LoadBe32(msg, 19) < TWO_32
    ensures 23 + Length(rest) <= |msg| ==>
      TakeAll(e, [Ref, Shares] + rest, msg, 11) ==
      TakeAll(e.(orderRef := LoadBe64(msg, 11), size := LoadBe32(msg, 19)), rest, msg, 23)
  {
    hide TakeAll, Length, LoadBe64, LoadBe32, Load;
    var tail := [Shares] + rest;
    assert [Ref, Shares] + rest == [Ref] + tail;
    Lengthen(Shares, rest);
    Lengthen(Ref, tail);
    if 23 + Length(rest) <= |msg| {
      LoadsAgree(msg, 11);
      LoadsAgree(msg, 19);
      TakeNext(e, Ref, tail, msg, 11);
      TakeNext(e.(orderRef := LoadBe64(msg, 11)), Shares, rest, msg, 19);
    }
  }

  lemma OrderTaken(e: MarketEvent, rest: seq<Part>, msg: seq<byte>)
    ensures Length([Ref, Way, Shares, Stock, Price] + rest) == 25 + Length(rest)
    ensures 36 + Length(rest) <= |msg| ==>
      LoadBe64(msg, 11) < TWO_64 && LoadBe32(msg, 20) < TWO_32 && LoadBe32(msg, 32) < TWO_32
    ensures 36 + Length(rest) <= |msg| ==>
      TakeAll(e, [Ref, Way, Shares, Stock, Price] + rest, msg, 11) ==
      TakeAll(e.(orderRef := LoadBe64(msg, 11), side := DecodeSide(msg[19]), size := LoadBe32(msg, 20),
                 symbol := msg[24..32], priceTicks := LoadBe32(msg, 32)), rest, msg, 36)
  {
    hide TakeAll, Length, LoadBe64, LoadBe32, Load;
    var t := [Stock, Price] + rest;
    var t2 := [Shares] + t;
    var t1 := [Way] + t2;
    assert [Ref, Way, Shares, Stock, Price] + rest == [Ref] + t1;
    var e3 := e;
    LoadsAgree(msg, 11);
    LoadsAgree(msg, 20);
    if |msg| >= 24 {
      e3 := e.(orderRef := LoadBe64(msg, 11), side := DecodeSide(msg[19]), size := LoadBe32(msg, 20));
    }
    PricesTaken(e3, rest, msg);
    Lengthen(Shares, t);
    Lengthen(Way, t2);
    Lengthen(Ref, t1);
    if 36 + Length(rest) <= |msg| {
      TakeNext(e, Ref, t1, msg, 11);
      var e1 := e.(orderRef := LoadBe64(msg, 11));
      TakeNext(e1, Way, t2, msg, 19);
      TakeNext(e1.(side := DecodeSide(msg[19])), Shares, t, msg, 20);
    }
  }

  // The stock and price of an order.
  lemma PricesTaken(e: MarketEvent, rest: seq<Part>, msg: seq<byte>)
    ensures Length([Stock, Price] + rest) == 12 + Length(rest)
    ensures 36 + Length(rest) <= |msg| ==>
      LoadBe32(msg, 32) < TWO_32 &&
      TakeAll(e, [Stock, Price] + rest, msg, 24) ==
      TakeAll(e.(symbol := msg[24..32], priceTicks := LoadBe32(msg, 32)), rest, msg, 36)
  {
    hide TakeAll, Length, LoadBe32, Load;
    var t := [Price] + rest;
    assert [Stock, Price] + rest == [Stock] + t;
    Lengthen(Price, rest);
    Lengthen(Stock, t);
    if 36 + Length(rest) <= |msg| {
      LoadsAgree(msg, 32);
      TakeNext(e, Stock, t, msg, 24);
      TakeNext(e.(symbol := msg[24..32]), Price, rest, msg, 32);
    }
  }

  lemma ReplaceTaken(e: MarketEvent, msg: seq<byte>)
    ensures Length([Ref, NewRef, Shares, Price]) == 24
    ensures 35 <= |msg| ==>
      LoadBe64(msg, 11) < TWO_64 && LoadBe64(msg, 19) < TWO_64 && LoadBe32(msg, 27) < TWO_32 && LoadBe32(msg, 31) < TWO_32
    ensures 35 <= |msg| ==>
      TakeAll(e, [Ref, NewRef, Shares, Price], msg, 11) ==
      e.(orderRef := LoadBe64(msg, 11), newOrderRef := LoadBe64(msg, 19), size := LoadBe32(msg, 27),
         priceTicks := LoadBe32(msg, 31))
  {
    hide TakeAll, Length, LoadBe64, LoadBe32, Load;
    var t3 := [Price] + [];
    var t2 := [Shares] + t3;
    var t1 := [NewRef] + t2;
    assert [Ref, NewRef, Shares, Price] == [Ref] + t1;
    assert Length([]) == 0 by { NoneLeft(e, [], 0); }
    Lengthen(Price, []);
    Lengthen(Shares, t3);
    Lengthen(NewRef, t2);
    Lengthen(Ref, t1);
    if 35 <= |msg| {
      LoadsAgree(msg, 11);
      LoadsAgree(msg, 19);
      LoadsAgree(msg, 27);
      LoadsAgree(msg, 31);
      TakeNext(e, Ref, t1, msg, 11);
      var e1 := e.(orderRef := LoadBe64(msg, 11));
      TakeNext(e1, NewRef, t2, msg, 19);
      var e2 := e1.(newOrderRef := LoadBe64(msg, 19));
      TakeNext(e2, Shares, t3, msg, 27);
      var e3 := e2.(size := LoadBe32(msg, 27));
      TakeNext(e3, Price, [], msg, 31);
      NoneLeft(e3.(priceTicks := LoadBe32(msg, 31)), msg, 35);
    }
  }

  // One more part, and no other.
  lemma LastTaken(e: MarketEvent, p: Part, msg: seq<byte>, at: nat)
    ensures Length([p]) == Width(p)
    ensures at + Width(p) <= |msg| ==> TakeAll(e, [p], msg, at) == Take(e, p, msg, at)
  {
    assert [p] == [p] + [];
    Lengthen(p, []);
    if at + Width(p) <= |msg| { NoneLeft(Take(e, p, msg, at), msg, at + Width(p)); }
  }

  predicate ReadsBody(kind: byte) {
    kind in {Code('A'), Code('F'), Code('E'), Code('C'), Code('X'), Code('D'), Code('U'), Code('P')}
  }

  lemma PassedOver(kind: byte)
    requires !ReadsBody(kind)
    ensures Body(kind) == Passed(kind)
    ensures match Passed(kind)
            case None => MessageLength(kind) == 0
            case Some(ps) => |ps| == 1 && ps[0].Other? && MessageLength(kind) == 11 + Width(ps[0])
  {
  }

  // The event after the header.
  function Headed(msg: seq<byte>): MarketEvent
    requires |msg| >= 11
  {
    LoadsAgree(msg, 1);
    LoadsAgree(msg, 5);
    CLEAN_EVENT.(kind := EventKind(msg[0]), stockLocate := LoadBe16(msg, 1), timestampNs := LoadBe48(msg, 5))
  }

  // The body as a list of parts is the body as the parser reads it.
  ghost predicate BodyAgrees(msg: seq<byte>, ps: seq<Part>) {
    && msg != [] && MessageLength(msg[0]) == 11 + Length(ps)
    && (11 + Length(ps) <= |msg| ==> TakeAll(Headed(msg), ps, msg, 11) == Fields(msg))
  }

  lemma OrderAgrees(msg: seq<byte>)
    requires msg != [] && msg[0] in {Code('A'), Code('F'), Code('P')}
    ensures BodyAgrees(msg, Body(msg[0]).value)
  {
    hide TakeAll, Length, LoadBe16, LoadBe32, LoadBe48, LoadBe64, Load;
    var ps := Body(msg[0]).value;
    var rest := ps[5..];
    assert ps == [Ref, Way, Shares, Stock, Price] + rest;
    var e := if |msg| >= 11 then Headed(msg) else CLEAN_EVENT;
    OrderTaken(e, rest, msg);
    var e1 := e;
    LoadsAgree(msg, 11);
    LoadsAgree(msg, 20);
    LoadsAgree(msg, 32);
    LoadsAgree(msg, 36);
    if |msg| >= 36 {
      e1 := e.(orderRef := LoadBe64(msg, 11), side := DecodeSide(msg[19]), size := LoadBe32(msg, 20),
               symbol := msg[24..32], priceTicks := LoadBe32(msg, 32));
      NoneLeft(e1, msg, 36);
    } else {
      NoneLeft(e, msg, 0);
    }
    LastTaken(e1, Other(4), msg, 36);
    LastTaken(e1, Match, msg, 36);
  }

  lemma SharesAgree(msg: seq<byte>)
    requires msg != [] && msg[0] in {Code('E'), Code('C'), Code('X')}
    ensures BodyAgrees(msg, Body(msg[0]).value)
  {
    hide TakeAll, Length, LoadBe16, LoadBe32, LoadBe48, LoadBe64, Load;
    var ps := Body(msg[0]).value;
    var rest := ps[2..];
    assert ps == [Ref, Shares] + rest;
    var e := if |msg| >= 11 then Headed(msg) else CLEAN_EVENT;
    SharesTaken(e, rest, msg);
    var e1 := e;
    LoadsAgree(msg, 11);
    LoadsAgree(msg, 19);
    LoadsAgree(msg, 23);
    if |msg| >= 23 {
      e1 := e.(orderRef := LoadBe64(msg, 11), size := LoadBe32(msg, 19));
      NoneLeft(e1, msg, 23);
    } else {
      NoneLeft(e, msg, 0);
    }
    LastTaken(e1, Match, msg, 23);
    PricedTaken(e1, msg);
  }

  // What follows the shares of an execution at a price.
  lemma PricedTaken(e: MarketEvent, msg: seq<byte>)
    ensures Length([Match, Other(1), Price]) == 13
    ensures 36 <= |msg| ==>
      LoadBe64(msg, 23) < TWO_64 && LoadBe32(msg, 32) < TWO_32 &&
      TakeAll(e, [Match, Other(1), Price], msg, 23) ==
      e.(matchNumber := LoadBe64(msg, 23), priceTicks := LoadBe32(msg, 32))
  {
    hide TakeAll, Length, LoadBe32, LoadBe64, Load;
    var t1 := [Other(1), Price];
    assert [Match, Other(1), Price] == [Match] + t1 && t1 == [Other(1)] + [Price];
    LastTaken(e, Price, msg, 32);
    Lengthen(Other(1), [Price]);
    Lengthen(Match, t1);
    if 36 <= |msg| {
      LoadsAgree(msg, 23);
      LoadsAgree(msg, 32);
      TakeNext(e, Match, t1, msg, 23);
      var e1 := e.(matchNumber := LoadBe64(msg, 23));
      TakeNext(e1, Other(1), [Price], msg, 31);
      LastTaken(e1, Price, msg, 32);
    }
  }

  lemma RefAgrees(msg: seq<byte>)
    requires msg != [] && msg[0] in {Code('D'), Code('U')}
    ensures BodyAgrees(msg, Body(msg[0]).value)
  {
    hide TakeAll, Length, LoadBe16, LoadBe32, LoadBe48, LoadBe64, Load;
    var e := if |msg| >= 11 then Headed(msg) else CLEAN_EVENT;
    LoadsAgree(msg, 11);
    LastTaken(e, Ref, msg, 11);
    ReplaceTaken(e, msg);
  }

  lemma PassedAgrees(msg: seq<byte>)
    requires msg != [] && !ReadsBody(msg[0]) && Passed(msg[0]).Some?
    ensures BodyAgrees(msg, Body(msg[0]).value)
  {
    hide TakeAll, Length, LoadBe16, LoadBe32, LoadBe48, LoadBe64, Load, Passed, MessageLength;
    PassedOver(msg[0]);
    var e := if |msg| >= 11 then Headed(msg) else CLEAN_EVENT;
    LastTaken(e, Body(msg[0]).value[0], msg, 11);
    assert Body(msg[0]).value == [Body(msg[0]).value[0]];
  }

  // For every sequence of bytes: the parser's offsets, lengths and cases are those of the published parts.
  lemma ParseReads(msg: seq<byte>)
    ensures Parse(msg) == Read(msg)
  {
    hide TakeAll, Length, LoadBe16, LoadBe32, LoadBe48, LoadBe64, Load, Passed, MessageLength, Fields;
    if msg != [] {
      var kind := msg[0];
      if kind in {Code('A'), Code('F'), Code('P')} {
        OrderAgrees(msg);
      } else if kind in {Code('E'), Code('C'), Code('X')} {
        SharesAgree(msg);
      } else if kind in {Code('D'), Code('U')} {
        RefAgrees(msg);
      } else {
        PassedOver(kind);
        if Passed(kind).Some? { PassedAgrees(msg); }
      }
      if Body(kind).Some? { HeaderTaken(CLEAN_EVENT.(kind := EventKind(kind)), Body(kind).value, msg); }
    }
  }
}
