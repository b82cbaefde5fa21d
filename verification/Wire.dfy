/**
 The ITCH 5.0 wire: big-endian integers, the message layouts the generator writes and the parser reads, and the
 length-prefixed framing of a file.
 */
module Wire {
  import opened Arith
  import opened MarketEvents

  // ----- big-endian integers

  const TWO_16: nat := 0x1_0000
  const TWO_48: nat := 0x1_0000_0000_0000

  // The low n bytes of v, most significant first.
  function Be(n: nat, v: nat): (bs: seq<byte>)
    ensures |bs| == n
  {
    if n == 0 then [] else Be(n - 1, v / 256) + [v % 256]
  }

  // The integer that n bytes from position at stand for.
  function Load(bs: seq<byte>, at: nat, n: nat): nat
    requires at + n <= |bs|
  {
    if n == 0 then 0 else 256 * Load(bs, at, n - 1) + bs[at + n - 1]
  }

  function LoadU8(bs: seq<byte>, at: nat): nat
    requires at < |bs|
  {
    bs[at]
  }

  function LoadBe16(bs: seq<byte>, at: nat): nat
    requires at + 2 <= |bs|
  {
    LoadU8(bs, at) * 0x100 + LoadU8(bs, at + 1)
  }

  function LoadBe32(bs: seq<byte>, at: nat): nat
    requires at + 4 <= |bs|
  {
    LoadU8(bs, at) * 0x100_0000 + LoadU8(bs, at + 1) * 0x1_0000 + LoadU8(bs, at + 2) * 0x100 + LoadU8(bs, at + 3)
  }

  function LoadBe48(bs: seq<byte>, at: nat): nat
    requires at + 6 <= |bs|
  {
    LoadU8(bs, at) * 0x100_0000_0000 + LoadU8(bs, at + 1) * 0x1_0000_0000 + LoadU8(bs, at + 2) * 0x100_0000 +
    LoadU8(bs, at + 3) * 0x1_0000 + LoadU8(bs, at + 4) * 0x100 + LoadU8(bs, at + 5)
  }

  function LoadBe64(bs: seq<byte>, at: nat): nat
    requires at + 8 <= |bs|
  {
    LoadU8(bs, at) * 0x100_0000_0000_0000 + LoadU8(bs, at + 1) * 0x1_0000_0000_0000 +
    LoadU8(bs, at + 2) * 0x100_0000_0000 + LoadU8(bs, at + 3) * 0x1_0000_0000 +
    LoadU8(bs, at + 4) * 0x100_0000 + LoadU8(bs, at + 5) * 0x1_0000 +
    LoadU8(bs, at + 6) * 0x100 + LoadU8(bs, at + 7)
  }

  lemma LoadsAgree(bs: seq<byte>, at: nat)
    ensures at + 2 <= |bs| ==> LoadBe16(bs, at) == Load(bs, at, 2) < TWO_16
    ensures at + 4 <= |bs| ==> LoadBe32(bs, at) == Load(bs, at, 4) < TWO_32
    ensures at + 6 <= |bs| ==> LoadBe48(bs, at) == Load(bs, at, 6) < TWO_48
    ensures at + 8 <= |bs| ==> LoadBe64(bs, at) == Load(bs, at, 8) < TWO_64
  {
    if at + 2 <= |bs| {
      assert Load(bs, at, 2) == 256 * Load(bs, at, 1) + bs[at + 1];
    }
    if at + 4 <= |bs| {
      assert Load(bs, at, 4) == 0x1_0000 * Load(bs, at, 2) + LoadU8(bs, at + 2) * 0x100 + LoadU8(bs, at + 3);
    }
    if at + 6 <= |bs| {
      assert Load(bs, at, 6) == 0x1_0000 * Load(bs, at, 4) + LoadU8(bs, at + 4) * 0x100 + LoadU8(bs, at + 5);
    }
    if at + 8 <= |bs| {
      assert Load(bs, at, 8) == 0x1_0000 * Load(bs, at, 6) + LoadU8(bs, at + 6) * 0x100 + LoadU8(bs, at + 7);
    }
  }

  function Pow256(n: nat): (p: nat)
    ensures p >= 1
  {
    if n == 0 then 1 else 256 * Pow256(n - 1)
  }

  // What is stored is loaded again, but for the bytes that did not fit.
  lemma {:induction false} LoadStored(bs: seq<byte>, at: nat, n: nat, v: nat)
    requires at + n <= |bs| && bs[at..at + n] == Be(n, v)
    ensures Load(bs, at, n) == v % Pow256(n)
  {
    if n > 0 {
      assert bs[at..at + n - 1] == bs[at..at + n][..n - 1] == Be(n - 1, v / 256);
      assert bs[at + n - 1] == bs[at..at + n][n - 1] == v % 256;
      LoadStored(bs, at, n - 1, v / 256);
      ModSplit(v, Pow256(n - 1), 256);
    }
  }

  lemma Widths()
    ensures Pow256(2) == TWO_16 && Pow256(4) == TWO_32 && Pow256(6) == TWO_48 && Pow256(8) == TWO_64
  {
    assert Pow256(4) == 0x1_0000 * Pow256(2);
    assert Pow256(6) == 0x1_0000 * Pow256(4);
    assert Pow256(8) == 0x1_0000 * Pow256(6);
  }

  // ----- messages

  function Code(c: char): byte
    requires c as int < 256
  {
    c as int
  }

  // The messages the generator writes, and the one other kind of execution. Prices and timestamps are as they are
  // computed: too wide for their fields.
  datatype Message =
    | System(ts: u64, code: byte)
    | AddOrder(ts: u64, ref: u64, side: byte, size: u32, symbol: seq<byte>, price: int)
    | Executed(ts: u64, ref: u64, shares: u32, matchNo: u64)
    | ExecutedAt(ts: u64, ref: u64, shares: u32, matchNo: u64, printable: byte, price: int)
    | Cancelled(ts: u64, ref: u64, shares: u32)
    | Deleted(ts: u64, ref: u64)
    | Replaced(ts: u64, ref: u64, newRef: u64, size: u32, price: int)
    | Traded(ts: u64, side: byte, size: u32, symbol: seq<byte>, price: int, matchNo: u64)

  predicate Encodable(m: Message) {
    (m.AddOrder? || m.Traded?) ==> |m.symbol| == 8
  }

  const LOCATE := 1

  // The 32 low bits of a price.
  function Low32(price: int): u32 {
    price % TWO_32
  }

  function Header(kind: char, ts: u64): (bs: seq<byte>)
    requires kind as int < 256
    ensures |bs| == 11
  {
    [Code(kind)] + Be(2, LOCATE) + Be(2, 0) + Be(6, ts)
  }

  function Encode(m: Message): (bs: seq<byte>)
    requires Encodable(m)
    ensures 0 < |bs| < 64
  {
    match m
    case System(ts, code) => Header('S', ts) + [code]
    case AddOrder(ts, ref, side, size, symbol, price) =>
      Header('A', ts) + Be(8, ref) + [side] + Be(4, size) + symbol + Be(4, Low32(price))
    case Executed(ts, ref, shares, matchNo) => Header('E', ts) + Be(8, ref) + Be(4, shares) + Be(8, matchNo)
    case ExecutedAt(ts, ref, shares, matchNo, printable, price) =>
      Header('C', ts) + Be(8, ref) + Be(4, shares) + Be(8, matchNo) + [printable] + Be(4, Low32(price))
    case Cancelled(ts, ref, shares) => Header('X', ts) + Be(8, ref) + Be(4, shares)
    case Deleted(ts, ref) => Header('D', ts) + Be(8, ref)
    case Replaced(ts, ref, newRef, size, price) =>
      Header('U', ts) + Be(8, ref) + Be(8, newRef) + Be(4, size) + Be(4, Low32(price))
    case Traded(ts, side, size, symbol, price, matchNo) =>
      Header('P', ts) + Be(8, 0) + [side] + Be(4, size) + symbol + Be(4, Low32(price)) + Be(8, matchNo)
  }

  function DecodeSide(c: byte): Side {
    if c == Code('B') then Buy else if c == Code('S') then Sell else NoSide
  }

  // What a message means: the timestamp keeps 48 bits, a price 32.
  function EventOf(m: Message): MarketEvent
    requires Encodable(m)
  {
    var e := CLEAN_EVENT.(timestampNs := m.ts % TWO_48, stockLocate := LOCATE);
    match m
    case System(_, _) => e.(kind := SystemEvent)
    case AddOrder(_, ref, side, size, symbol, price) =>
      e.(kind := Add, orderRef := ref, side := DecodeSide(side), size := size, symbol := symbol, priceTicks := Low32(price))
    case Executed(_, ref, shares, matchNo) =>
      e.(kind := Execute, orderRef := ref, size := shares, matchNumber := matchNo)
    case ExecutedAt(_, ref, shares, matchNo, _, price) =>
      e.(kind := ExecuteWithPrice, orderRef := ref, size := shares, matchNumber := matchNo, priceTicks := Low32(price))
    case Cancelled(_, ref, shares) => e.(kind := Cancel, orderRef := ref, size := shares)
    case Deleted(_, ref) => e.(kind := Delete, orderRef := ref)
    case Replaced(_, ref, newRef, size, price) =>
      e.(kind := Replace, orderRef := ref, newOrderRef := newRef, size := size, priceTicks := Low32(price))
    case Traded(_, side, size, symbol, price, matchNo) =>
      e.(kind := Trade, side := DecodeSide(side), size := size, symbol := symbol, priceTicks := Low32(price),
         matchNumber := matchNo)
  }

  // ----- the parser

  function MessageLength(kind: byte): nat {
    if kind == Code('S') then 12
    else if kind == Code('R') then 39
    else if kind == Code('H') then 25
    else if kind == Code('Y') then 20
    else if kind == Code('L') then 26
    else if kind == Code('V') then 35
    else if kind == Code('W') then 12
    else if kind == Code('K') then 28
    else if kind == Code('J') then 35
    else if kind == Code('h') then 21
    else if kind == Code('A') then 36
    else if kind == Code('F') then 40
    else if kind == Code('E') then 31
    else if kind == Code('C') then 36
    else if kind == Code('X') then 23
    else if kind == Code('D') then 19
    else if kind == Code('U') then 35
    else if kind == Code('P') then 44
    else if kind == Code('Q') then 40
    else if kind == Code('B') then 19
    else if kind == Code('I') then 50
    else if kind == Code('N') then 20
    else if kind == Code('O') then 48
    else 0
  }

  datatype ParseResult = Parsed(event: MarketEvent) | ShortBuffer | UnknownType

  function Parse(msg: seq<byte>): ParseResult {
    if |msg| == 0 then ShortBuffer
    else
      var kind := msg[0];
      var need := MessageLength(kind);
      if need == 0 then UnknownType
      else if |msg| < need then ShortBuffer
      else Parsed(Fields(msg))
  }

  function Fields(msg: seq<byte>): MarketEvent
    requires |msg| > 0 && 0 < MessageLength(msg[0]) <= |msg|
  {
    LoadsAgree(msg, 1);
    LoadsAgree(msg, 5);
    LoadsAgree(msg, 11);
    var kind := msg[0];
    var e := CLEAN_EVENT.(stockLocate := LoadBe16(msg, 1), timestampNs := LoadBe48(msg, 5));
    if kind == Code('A') || kind == Code('F') then
      LoadsAgree(msg, 20);
      LoadsAgree(msg, 32);
      e.(kind := Add, orderRef := LoadBe64(msg, 11), side := DecodeSide(msg[19]), size := LoadBe32(msg, 20),
         symbol := msg[24..32], priceTicks := LoadBe32(msg, 32))
    else if kind == Code('E') then
      LoadsAgree(msg, 19);
      LoadsAgree(msg, 23);
      e.(kind := Execute, orderRef := LoadBe64(msg, 11), size := LoadBe32(msg, 19), matchNumber := LoadBe64(msg, 23))
    else if kind == Code('C') then
      LoadsAgree(msg, 19);
      LoadsAgree(msg, 23);
      e.(kind := ExecuteWithPrice, orderRef := LoadBe64(msg, 11), size := LoadBe32(msg, 19),
         matchNumber := LoadBe64(msg, 23), priceTicks := LoadBe32(msg, 32))
    else if kind == Code('X') then
      LoadsAgree(msg, 19);
      e.(kind := Cancel, orderRef := LoadBe64(msg, 11), size := LoadBe32(msg, 19))
    else if kind == Code('D') then e.(kind := Delete, orderRef := LoadBe64(msg, 11))
    else if kind == Code('U') then
      LoadsAgree(msg, 19);
      LoadsAgree(msg, 27);
      e.(kind := Replace, orderRef := LoadBe64(msg, 11), newOrderRef := LoadBe64(msg, 19), size := LoadBe32(msg, 27),
         priceTicks := LoadBe32(msg, 31))
    else if kind == Code('P') then
      LoadsAgree(msg, 20);
      LoadsAgree(msg, 36);
      e.(kind := Trade, orderRef := LoadBe64(msg, 11), side := DecodeSide(msg[19]), size := LoadBe32(msg, 20),
         symbol := msg[24..32], priceTicks := LoadBe32(msg, 32), matchNumber := LoadBe64(msg, 36))
    else if kind == Code('S') then e.(kind := SystemEvent)
    else e
  }

  lemma SameLoads(msg: seq<byte>, rest: seq<byte>, at: nat)
    ensures at + 2 <= |msg| ==> LoadBe16(msg + rest, at) == LoadBe16(msg, at)
    ensures at + 4 <= |msg| ==> LoadBe32(msg + rest, at) == LoadBe32(msg, at)
    ensures at + 6 <= |msg| ==> LoadBe48(msg + rest, at) == LoadBe48(msg, at)
    ensures at + 8 <= |msg| ==> LoadBe64(msg + rest, at) == LoadBe64(msg, at)
  {
  }

  // Bytes after the message make no difference.
  lemma TrailingIgnored(msg: seq<byte>, rest: seq<byte>)
    requires Parse(msg).Parsed?
    ensures Parse(msg + rest) == Parse(msg)
  {
    hide MessageLength, LoadBe16, LoadBe32, LoadBe48, LoadBe64;
    NeedIs(msg[0]);
    SameLoads(msg, rest, 1);
    SameLoads(msg, rest, 5);
    SameLoads(msg, rest, 11);
    SameLoads(msg, rest, 19);
    SameLoads(msg, rest, 20);
    SameLoads(msg, rest, 23);
    SameLoads(msg, rest, 27);
    SameLoads(msg, rest, 31);
    SameLoads(msg, rest, 32);
    SameLoads(msg, rest, 36);
    assert |msg| >= 32 ==> (msg + rest)[24..32] == msg[24..32];
  }

  // The attribution at the end of an 'F' message is ignored: it reads as the plain add it extends.
  lemma AttributionIgnored(msg: seq<byte>)
    requires |msg| == 40 && msg[0] == Code('F')
    ensures Parse(msg) == Parse(msg[..36][0 := Code('A')])
  {
    hide MessageLength;
    NeedIs(0);
    var plain := msg[..36][0 := Code('A')];
    assert forall i :: 0 < i < 36 ==> plain[i] == msg[i];
    assert plain[24..32] == msg[24..32];
  }

  lemma NeedIs(kind: byte)
    ensures MessageLength(kind) > 0 ==> MessageLength(kind) >= 12
    ensures MessageLength(Code('A')) == 36 && MessageLength(Code('F')) == 40 && MessageLength(Code('E')) == 31
    ensures MessageLength(Code('C')) == 36 && MessageLength(Code('X')) == 23 && MessageLength(Code('D')) == 19
    ensures MessageLength(Code('U')) == 35 && MessageLength(Code('P')) == 44 && MessageLength(Code('S')) == 12
  {
  }

  // ----- round trip

  // What a field loads as, when a value was stored there.
  lemma Stored(bs: seq<byte>, at: nat, n: nat, v: nat)
    requires n in {2, 4, 6, 8} && at + n <= |bs| && bs[at..at + n] == Be(n, v)
    ensures n == 2 ==> LoadBe16(bs, at) == v % TWO_16
    ensures n == 4 ==> LoadBe32(bs, at) == v % TWO_32
    ensures n == 6 ==> LoadBe48(bs, at) == v % TWO_48
    ensures n == 8 ==> LoadBe64(bs, at) == v % TWO_64
  {
    hide Be, Load, Pow256, LoadBe16, LoadBe32, LoadBe48, LoadBe64;
    LoadsAgree(bs, at);
    LoadStored(bs, at, n, v);
    Widths();
  }

  lemma StoredHeader(kind: char, ts: u64, rest: seq<byte>)
    requires kind as int < 256
    ensures var bs := Header(kind, ts) + rest;
      bs[0] == Code(kind) && LoadBe16(bs, 1) == LOCATE && LoadBe48(bs, 5) == ts % TWO_48
  {
    hide Be, LoadBe16, LoadBe48;
    var bs := Header(kind, ts) + rest;
    assert bs[1..3] == Be(2, LOCATE) && bs[5..11] == Be(6, ts);
    Stored(bs, 1, 2, LOCATE);
    Stored(bs, 5, 6, ts);
  }

  // Parsing what was encoded yields the fields that were encoded, for every message.
  lemma ParseEncode(m: Message)
    requires Encodable(m)
    ensures Parse(Encode(m)) == Parsed(EventOf(m))
  {
    hide Be, Header, LoadBe16, LoadBe32, LoadBe48, LoadBe64, MessageLength, Fields;
    NeedIs(0);
    match m
    case System(ts, code) =>
      StoredHeader('S', ts, [code]);
      SystemFields(Encode(m));
    case AddOrder(_, _, _, _, _, _) => ParseAdd(m);
    case Executed(_, _, _, _) => ParseExecuted(m);
    case ExecutedAt(_, _, _, _, _, _) => ParseExecutedAt(m);
    case Cancelled(_, _, _) => ParseCancelled(m);
    case Deleted(_, _) => ParseDeleted(m);
    case Replaced(_, _, _, _, _) => ParseReplaced(m);
    case Traded(_, _, _, _, _, _) => ParseTraded(m);
  }

  lemma SystemFields(bs: seq<byte>)
    requires |bs| == 12 && bs[0] == Code('S')
    ensures Parse(bs) ==
      Parsed(CLEAN_EVENT.(kind := SystemEvent, stockLocate := LoadBe16(bs, 1), timestampNs := LoadBe48(bs, 5)))
  {
    hide LoadBe16, LoadBe48;
  }

  lemma ParseAdd(m: Message)
    requires Encodable(m) && m.AddOrder?
    ensures Parse(Encode(m)) == Parsed(EventOf(m))
  {
    hide Be, Header, LoadBe16, LoadBe32, LoadBe48, LoadBe64;
    var h, bs := Header('A', m.ts), Encode(m);
    var rest := Be(8, m.ref) + [m.side] + Be(4, m.size) + m.symbol + Be(4, Low32(m.price));
    assert bs == h + rest;
    StoredHeader('A', m.ts, rest);
    assert bs[11..19] == Be(8, m.ref) && bs[19] == m.side && bs[20..24] == Be(4, m.size);
    assert bs[24..32] == m.symbol && bs[32..36] == Be(4, Low32(m.price));
    Stored(bs, 11, 8, m.ref);
    Stored(bs, 20, 4, m.size);
    Stored(bs, 32, 4, Low32(m.price));
  }

  lemma ParseExecuted(m: Message)
    requires m.Executed?
    ensures Parse(Encode(m)) == Parsed(EventOf(m))
  {
    hide Be, Header, LoadBe16, LoadBe32, LoadBe48, LoadBe64;
    var h, bs := Header('E', m.ts), Encode(m);
    var rest := Be(8, m.ref) + Be(4, m.shares) + Be(8, m.matchNo);
    assert bs == h + rest;
    StoredHeader('E', m.ts, rest);
    assert bs[11..19] == Be(8, m.ref) && bs[19..23] == Be(4, m.shares) && bs[23..31] == Be(8, m.matchNo);
    Stored(bs, 11, 8, m.ref);
    Stored(bs, 19, 4, m.shares);
    Stored(bs, 23, 8, m.matchNo);
  }

  lemma ParseExecutedAt(m: Message)
    requires m.ExecutedAt?
    ensures Parse(Encode(m)) == Parsed(EventOf(m))
  {
    hide Be, Header, LoadBe16, LoadBe32, LoadBe48, LoadBe64;
    var h, bs := Header('C', m.ts), Encode(m);
    var rest := Be(8, m.ref) + Be(4, m.shares) + Be(8, m.matchNo) + [m.printable] + Be(4, Low32(m.price));
    assert bs == h + rest;
    StoredHeader('C', m.ts, rest);
    assert bs[11..19] == Be(8, m.ref) && bs[19..23] == Be(4, m.shares) && bs[23..31] == Be(8, m.matchNo);
    assert bs[32..36] == Be(4, Low32(m.price));
    Stored(bs, 11, 8, m.ref);
    Stored(bs, 19, 4, m.shares);
    Stored(bs, 23, 8, m.matchNo);
    Stored(bs, 32, 4, Low32(m.price));
  }

  lemma ParseCancelled(m: Message)
    requires m.Cancelled?
    ensures Parse(Encode(m)) == Parsed(EventOf(m))
  {
    hide Be, Header, LoadBe16, LoadBe32, LoadBe48, LoadBe64;
    var h, bs := Header('X', m.ts), Encode(m);
    var rest := Be(8, m.ref) + Be(4, m.shares);
    assert bs == h + rest;
    StoredHeader('X', m.ts, rest);
    assert bs[11..19] == Be(8, m.ref) && bs[19..23] == Be(4, m.shares);
    Stored(bs, 11, 8, m.ref);
    Stored(bs, 19, 4, m.shares);
  }

  lemma ParseDeleted(m: Message)
    requires m.Deleted?
    ensures Parse(Encode(m)) == Parsed(EventOf(m))
  {
    hide Be, Header, LoadBe16, LoadBe32, LoadBe48, LoadBe64;
    var bs := Encode(m);
    StoredHeader('D', m.ts, Be(8, m.ref));
    assert bs[11..19] == Be(8, m.ref);
    Stored(bs, 11, 8, m.ref);
  }

  lemma ParseReplaced(m: Message)
    requires m.Replaced?
    ensures Parse(Encode(m)) == Parsed(EventOf(m))
  {
    hide Be, Header, LoadBe16, LoadBe32, LoadBe48, LoadBe64;
    var h, bs := Header('U', m.ts), Encode(m);
    var rest := Be(8, m.ref) + Be(8, m.newRef) + Be(4, m.size) + Be(4, Low32(m.price));
    assert bs == h + rest;
    StoredHeader('U', m.ts, rest);
    assert bs[11..19] == Be(8, m.ref) && bs[19..27] == Be(8, m.newRef);
    assert bs[27..31] == Be(4, m.size) && bs[31..35] == Be(4, Low32(m.price));
    Stored(bs, 11, 8, m.ref);
    Stored(bs, 19, 8, m.newRef);
    Stored(bs, 27, 4, m.size);
    Stored(bs, 31, 4, Low32(m.price));
  }

  lemma ParseTraded(m: Message)
    requires Encodable(m) && m.Traded?
    ensures Parse(Encode(m)) == Parsed(EventOf(m))
  {
    hide Be, Header, LoadBe16, LoadBe32, LoadBe48, LoadBe64;
    var h, bs := Header('P', m.ts), Encode(m);
    var rest := Be(8, 0) + [m.side] + Be(4, m.size) + m.symbol + Be(4, Low32(m.price)) + Be(8, m.matchNo);
    assert bs == h + rest;
    StoredHeader('P', m.ts, rest);
    assert bs[11..19] == Be(8, 0) && bs[19] == m.side && bs[20..24] == Be(4, m.size);
    assert bs[24..32] == m.symbol && bs[32..36] == Be(4, Low32(m.price)) && bs[36..44] == Be(8, m.matchNo);
    Stored(bs, 11, 8, 0);
    Stored(bs, 20, 4, m.size);
    Stored(bs, 32, 4, Low32(m.price));
    Stored(bs, 36, 8, m.matchNo);
  }
}
