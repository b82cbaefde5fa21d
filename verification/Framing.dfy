/** Length-prefixed framing: the writer with its one reused buffer, and the file reader. */
module Framing {
  import opened Arith
  import opened MarketEvents
  import opened Wire

  // ----- frames

  function Frame(payload: seq<byte>): (bs: seq<byte>)
    ensures |bs| == 2 + |payload|
  {
    Be(2, |payload|) + payload
  }

  function Stream(payloads: seq<seq<byte>>): seq<byte> {
    if payloads == [] then [] else Frame(payloads[0]) + Stream(payloads[1..])
  }

  lemma {:induction false} StreamAppend(payloads: seq<seq<byte>>, p: seq<byte>)
    ensures Stream(payloads + [p]) == Stream(payloads) + Frame(p)
  {
    if payloads == [] {
      assert [p][1..] == [];
    } else {
      StreamAppend(payloads[1..], p);
      assert (payloads + [p])[1..] == payloads[1..] + [p];
    }
  }

  // The complete frame at the front of the bytes, if there is one.
  function FirstFrame(bs: seq<byte>): Option<seq<byte>> {
    if 2 > |bs| then None
    else if 2 + LoadBe16(bs, 0) > |bs| then None
    else Some(bs[2..2 + LoadBe16(bs, 0)])
  }

  function Frames(bs: seq<byte>): seq<seq<byte>>
    decreases |bs|
  {
    var first := FirstFrame(bs);
    if first.None? then [] else [first.value] + Frames(bs[2 + |first.value|..])
  }

  lemma FrontOfCut(p: seq<byte>, rest: seq<byte>, n: nat)
    requires |p| < TWO_16 && n <= 2 + |p| + |rest|
    ensures var bs := (Frame(p) + rest)[..n];
      if n < 2 + |p| then FirstFrame(bs) == None
      else FirstFrame(bs) == Some(p) && bs[2 + |p|..] == rest[..n - 2 - |p|]
  {
    hide LoadBe16, Be;
    var bs := (Frame(p) + rest)[..n];
    if n >= 2 {
      assert bs[0..2] == Be(2, |p|);
      Stored(bs, 0, 2, |p|);
    }
    if n >= 2 + |p| {
      assert bs[2..2 + |p|] == p && bs[2 + |p|..] == rest[..n - 2 - |p|];
    }
  }

  // Cut a stream of frames at any byte: reading it yields exactly the frames that are complete before the cut.
  lemma {:induction false} CutStream(payloads: seq<seq<byte>>, k: nat, n: nat)
    requires forall i :: 0 <= i < |payloads| ==> |payloads[i]| < TWO_16
    requires k <= |payloads| && |Stream(payloads[..k])| <= n <= |Stream(payloads)|
    requires k < |payloads| ==> n < |Stream(payloads[..k + 1])|
    ensures Frames(Stream(payloads)[..n]) == payloads[..k]
    decreases |payloads|
  {
    hide LoadBe16, Frame;
    if payloads != [] {
      var p, rest := payloads[0], Stream(payloads[1..]);
      FrontOfCut(p, rest, n);
      if k == 0 {
        assert payloads[..1][1..] == [];
      } else {
        assert payloads[..k][1..] == payloads[1..][..k - 1];
        if k < |payloads| { assert payloads[..k + 1][1..] == payloads[1..][..k]; }
        CutStream(payloads[1..], k - 1, n - 2 - |p|);
      }
    }
  }

  lemma FramesOfStream(payloads: seq<seq<byte>>)
    requires forall i :: 0 <= i < |payloads| ==> |payloads[i]| < TWO_16
    ensures Frames(Stream(payloads)) == payloads
  {
    assert payloads[..|payloads|] == payloads && Stream(payloads)[..|Stream(payloads)|] == Stream(payloads);
    CutStream(payloads, |payloads|, |Stream(payloads)|);
  }

  // ----- the file reader

  // The frames from a position on, found by looking there.
  lemma FramesFrom(data: seq<byte>, pos: nat)
    requires pos <= |data|
    ensures Frames(data[pos..]) ==
      if pos + 2 > |data| || pos + 2 + LoadBe16(data, pos) > |data| then []
      else var next := pos + 2 + LoadBe16(data, pos); [data[pos + 2..next]] + Frames(data[next..])
  {
    if pos + 2 <= |data| && pos + 2 + LoadBe16(data, pos) <= |data| {
      var len, rest := LoadBe16(data, pos), data[pos..];
      assert rest[2..2 + len] == data[pos + 2..pos + 2 + len] && rest[2 + len..] == data[pos + 2 + len..];
    }
  }

  datatype RawFrame = RawFrame(data: seq<byte>, len: nat, sequence: nat)

  class ItchFileSource {
    const data: seq<byte>  // empty when the file cannot be opened
    var pos: nat
    var seqNo: nat

    ghost predicate Valid()
      reads this
    {
      pos <= |data|
    }

    ghost function Rest(): seq<byte>
      requires Valid()
      reads this
    {
      data[pos..]
    }

    constructor (data: seq<byte>)
      ensures Valid() && Rest() == data && seqNo == 0
    {
      this.data := data;
      pos, seqNo := 0, 0;
    }

    // Hands out the frames in order, numbered from 1, and stops at a frame cut short.
    method NextFrame() returns (out: Option<RawFrame>)
      requires Valid()
      modifies this
      ensures Valid()
      ensures var fs := Frames(old(Rest()));
        if fs == [] then out == None && pos == old(pos) && seqNo == old(seqNo)
        else out == Some(RawFrame(fs[0], |fs[0]|, seqNo)) && seqNo == old(seqNo) + 1 && pos > old(pos) &&
             Frames(Rest()) == fs[1..]
    {
      hide LoadBe16, Frames;
      FramesFrom(data, pos);
      if pos + 2 > |data| { return None; }
      var len := LoadBe16(data, pos);
      var payload := pos + 2;
      if payload + len > |data| { return None; }
      seqNo := seqNo + 1;
      out := Some(RawFrame(data[payload..payload + len], len, seqNo));
      pos := payload + len;
    }
  }

  // What the producer makes of a frame: an event, or nothing when it does not parse.
  function EventIn(payload: seq<byte>): Option<MarketEvent> {
    match Parse(payload)
    case Parsed(e) => Some(e)
    case _ => None
  }

  function EventsIn(payloads: seq<seq<byte>>): (es: seq<Option<MarketEvent>>)
    ensures |es| == |payloads| && forall i :: 0 <= i < |es| ==> es[i] == EventIn(payloads[i])
  {
    seq(|payloads|, i requires 0 <= i < |payloads| => EventIn(payloads[i]))
  }

  // Reads a file to its end: every complete frame, in order, each parsed. It always terminates.
  method ReadAll(src: ItchFileSource) returns (events: seq<Option<MarketEvent>>)
    requires src.Valid() && src.seqNo == 0
    modifies src
    ensures events == EventsIn(Frames(old(src.Rest()))) && src.seqNo == |events|
  {
    hide Frames, Parse;
    events := [];
    ghost var fs := Frames(src.Rest());
    assert fs[0..] == fs;
    var r := src.NextFrame();
    while r.Some?
      invariant src.Valid()
      invariant |events| <= |fs| && events == EventsIn(fs[..|events|])
      invariant if r.Some? then |events| < |fs| && r.value.data == fs[|events|] && r.value.sequence == |events| + 1 &&
                                Frames(src.Rest()) == fs[|events| + 1..] && src.seqNo == |events| + 1
                else |events| == |fs| && src.seqNo == |events|
      decreases if r.Some? then |src.data| - src.pos + 1 else 0
    {
      assert fs[..|events| + 1] == fs[..|events|] + [fs[|events|]];
      match Parse(r.value.data) {
        case Parsed(e) => events := events + [Some(e)];
        case _ => events := events + [None];
      }
      r := src.NextFrame();
    }
    assert fs[..|fs|] == fs;
  }

  // ----- the writer

  lemma DivDiv(v: nat, a: nat, b: nat)
    requires a >= 1 && b >= 1
    ensures a * b >= 1 && v / a / b == v / (a * b)
  {
    var q := v / a;
    assert v == a * q + v % a && q == b * (q / b) + q % b;
    assert a * q == (a * b) * (q / b) + a * (q % b);
    MulLe(q % b, b - 1, a);
    MulLe(1, b, a);
    ModUnique(v, a * b, q / b, a * (q % b) + v % a);
  }

  // v shifted down by k bytes and cut to eight bits.
  function ByteOf(v: nat, k: nat): byte {
    v / Pow256(k) % 256
  }

  // The bytes of a value are its shifts.
  lemma {:induction false} ByteAt(n: nat, v: nat, i: nat)
    requires i < n
    ensures Be(n, v)[i] == ByteOf(v, n - 1 - i)
  {
    if i < n - 1 {
      ByteAt(n - 1, v / 256, i);
      DivDiv(v, 256, Pow256(n - 2 - i));
    }
  }

  // The bytes at position at are v's, and no other byte has changed.
  twostate predicate Written(buf: array<byte>, at: nat, n: nat, v: nat)
    reads buf
  {
    && at + n <= buf.Length
    && buf[..at + n] == old(buf[..at]) + Be(n, v)
    && buf[at + n..] == old(buf[at + n..])
  }

  lemma BytesAre(bs: seq<byte>, n: nat, v: nat)
    requires |bs| == n && forall i :: 0 <= i < n ==> bs[i] == ByteOf(v, n - 1 - i)
    ensures bs == Be(n, v)
  {
    forall i | 0 <= i < n
      ensures bs[i] == Be(n, v)[i]
    {
      ByteAt(n, v, i);
    }
  }

  method StoreBe16(buf: array<byte>, at: nat, v: nat)
    requires at + 2 <= buf.Length && v < TWO_16
    modifies buf
    ensures Written(buf, at, 2, v)
  {
    hide Be, ByteOf;
    buf[at] := ByteOf(v, 1);
    buf[at + 1] := ByteOf(v, 0);
    BytesAre(buf[at..at + 2], 2, v);
    assert buf[..at + 2] == buf[..at] + buf[at..at + 2];
  }

  method StoreBe32(buf: array<byte>, at: nat, v: u32)
    requires at + 4 <= buf.Length
    modifies buf
    ensures Written(buf, at, 4, v)
  {
    hide Be, ByteOf;
    buf[at] := ByteOf(v, 3);
    buf[at + 1] := ByteOf(v, 2);
    buf[at + 2] := ByteOf(v, 1);
    buf[at + 3] := ByteOf(v, 0);
    BytesAre(buf[at..at + 4], 4, v);
    assert buf[..at + 4] == buf[..at] + buf[at..at + 4];
  }

  // Keeps the low 48 bits.
  method StoreBe48(buf: array<byte>, at: nat, v: u64)
    requires at + 6 <= buf.Length
    modifies buf
    ensures Written(buf, at, 6, v)
  {
    hide Be, ByteOf;
    buf[at] := ByteOf(v, 5);
    buf[at + 1] := ByteOf(v, 4);
    buf[at + 2] := ByteOf(v, 3);
    buf[at + 3] := ByteOf(v, 2);
    buf[at + 4] := ByteOf(v, 1);
    buf[at + 5] := ByteOf(v, 0);
    BytesAre(buf[at..at + 6], 6, v);
    assert buf[..at + 6] == buf[..at] + buf[at..at + 6];
  }

  method StoreBe64(buf: array<byte>, at: nat, v: u64)
    requires at + 8 <= buf.Length
    modifies buf
    ensures Written(buf, at, 8, v)
  {
    hide Be, ByteOf;
    buf[at] := ByteOf(v, 7);
    buf[at + 1] := ByteOf(v, 6);
    buf[at + 2] := ByteOf(v, 5);
    buf[at + 3] := ByteOf(v, 4);
    buf[at + 4] := ByteOf(v, 3);
    buf[at + 5] := ByteOf(v, 2);
    buf[at + 6] := ByteOf(v, 1);
    buf[at + 7] := ByteOf(v, 0);
    BytesAre(buf[at..at + 8], 8, v);
    assert buf[..at + 8] == buf[..at] + buf[at..at + 8];
  }

  // A run of bytes copied to position at.
  method CopyTo(buf: array<byte>, at: nat, bs: seq<byte>)
    requires at + |bs| <= buf.Length
    modifies buf
    ensures buf[..at + |bs|] == old(buf[..at]) + bs && buf[at + |bs|..] == old(buf[at + |bs|..])
  {
    forall i | 0 <= i < |bs| {
      buf[at + i] := bs[i];
    }
    assert buf[at..at + |bs|] == bs;
    assert buf[..at + |bs|] == buf[..at] + buf[at..at + |bs|];
  }

  // One buffer serves every message: what an earlier, longer message left behind never reaches the stream.
  class ItchWriter {
    const buf: array<byte>
    var os: seq<byte>
    var count: nat
    ghost var written: seq<seq<byte>>

    ghost predicate Valid()
      reads this
    {
      && buf.Length == 64 && os == Stream(written) && count == |written|
      && forall i :: 0 <= i < |written| ==> |written[i]| < TWO_16
    }

    constructor ()
      ensures Valid() && fresh(buf) && written == []
    {
      buf := new byte[64](_ => 0);
      os, count, written := [], 0, [];
    }

    method Emit(len: nat)
      requires Valid() && len <= 64
      modifies this
      ensures Valid() && written == old(written) + [buf[..len]]
    {
      hide Be;
      var hdr := new byte[2](_ => 0);
      StoreBe16(hdr, 0, len);
      assert hdr[..] == Be(2, len);
      StreamAppend(written, buf[..len]);
      os := os + hdr[..];
      os := os + buf[..len];
      count := count + 1;
      written := written + [buf[..len]];
    }

    method Hdr(kind: char, ts: u64)
      requires Valid() && kind as int < 256
      modifies buf
      ensures buf[..11] == Header(kind, ts)
    {
      hide Be;
      buf[0] := Code(kind);
      assert buf[..1] == [Code(kind)];
      StoreBe16(buf, 1, LOCATE);
      StoreBe16(buf, 3, 0);
      StoreBe48(buf, 5, ts);
    }

    method EmitSystem(ts: u64, code: byte)
      requires Valid()
      modifies this, buf
      ensures Valid() && written == old(written) + [Encode(System(ts, code))]
    {
      hide Be, Header, Stream;
      Hdr('S', ts);
      buf[11] := code;
      assert buf[..12] == buf[..11] + [code];
      Emit(12);
    }

    method EmitAdd(ts: u64, ref: u64, side: byte, size: u32, symbol: seq<byte>, price: int)
      requires Valid() && |symbol| == 8
      modifies this, buf
      ensures Valid() && written == old(written) + [Encode(AddOrder(ts, ref, side, size, symbol, price))]
    {
      hide Be, Header, Stream;
      Hdr('A', ts);
      StoreBe64(buf, 11, ref);
      ghost var pre := buf[..19];
      buf[19] := side;
      assert buf[..20] == pre + [side];
      StoreBe32(buf, 20, size);
      CopyTo(buf, 24, symbol);
      StoreBe32(buf, 32, Low32(price));
      Emit(36);
    }

    method EmitExec(ts: u64, ref: u64, shares: u32, matchNo: u64)
      requires Valid()
      modifies this, buf
      ensures Valid() && written == old(written) + [Encode(Executed(ts, ref, shares, matchNo))]
    {
      hide Be, Header, Stream;
      Hdr('E', ts);
      StoreBe64(buf, 11, ref);
      StoreBe32(buf, 19, shares);
      StoreBe64(buf, 23, matchNo);
      Emit(31);
    }

    method EmitCancel(ts: u64, ref: u64, shares: u32)
      requires Valid()
      modifies this, buf
      ensures Valid() && written == old(written) + [Encode(Cancelled(ts, ref, shares))]
    {
      hide Be, Header, Stream;
      Hdr('X', ts);
      StoreBe64(buf, 11, ref);
      StoreBe32(buf, 19, shares);
      Emit(23);
    }

    method EmitDelete(ts: u64, ref: u64)
      requires Valid()
      modifies this, buf
      ensures Valid() && written == old(written) + [Encode(Deleted(ts, ref))]
    {
      hide Be, Header, Stream;
      Hdr('D', ts);
      StoreBe64(buf, 11, ref);
      Emit(19);
    }

    method EmitReplace(ts: u64, orig: u64, neu: u64, size: u32, price: int)
      requires Valid()
      modifies this, buf
      ensures Valid() && written == old(written) + [Encode(Replaced(ts, orig, neu, size, price))]
    {
      hide Be, Header, Stream;
      Hdr('U', ts);
      StoreBe64(buf, 11, orig);
      StoreBe64(buf, 19, neu);
      StoreBe32(buf, 27, size);
      StoreBe32(buf, 31, Low32(price));
      Emit(35);
    }

    method EmitTrade(ts: u64, side: byte, size: u32, symbol: seq<byte>, price: int, matchNo: u64)
      requires Valid() && |symbol| == 8
      modifies this, buf
      ensures Valid() && written == old(written) + [Encode(Traded(ts, side, size, symbol, price, matchNo))]
    {
      hide Be, Header, Stream;
      Hdr('P', ts);
      StoreBe64(buf, 11, 0);
      ghost var pre := buf[..19];
      buf[19] := side;
      assert buf[..20] == pre + [side];
      StoreBe32(buf, 20, size);
      CopyTo(buf, 24, symbol);
      StoreBe32(buf, 32, Low32(price));
      StoreBe64(buf, 36, matchNo);
      Emit(44);
    }
  }

  // ----- end to end

  function Payloads(ms: seq<Message>): (ps: seq<seq<byte>>)
    requires forall i :: 0 <= i < |ms| ==> Encodable(ms[i])
    ensures |ps| == |ms| && forall i :: 0 <= i < |ps| ==> ps[i] == Encode(ms[i])
  {
    seq(|ms|, i requires 0 <= i < |ms| => Encode(ms[i]))
  }

  // A written stream, cut at any byte, reads back as the events of exactly the messages complete before the cut.
  lemma RoundTrip(ms: seq<Message>, k: nat, n: nat)
    requires forall i :: 0 <= i < |ms| ==> Encodable(ms[i])
    requires k <= |ms| && |Stream(Payloads(ms)[..k])| <= n <= |Stream(Payloads(ms))|
    requires k < |ms| ==> n < |Stream(Payloads(ms)[..k + 1])|
    ensures var es := EventsIn(Frames(Stream(Payloads(ms))[..n]));
      |es| == k && forall i :: 0 <= i < k ==> es[i] == Some(EventOf(ms[i]))
  {
    hide Encode, Stream, Frames, EventOf, Parse;
    var ps := Payloads(ms);
    forall i | 0 <= i < |ms|
      ensures EventIn(ps[i]) == Some(EventOf(ms[i])) && |ps[i]| < TWO_16
    {
      ParseEncode(ms[i]);
    }
    CutStream(ps, k, n);
  }
}
