/** The message envelope and its framings: bare for datagrams, length-prefixed for streams. */
module Envelope {
  import opened Prelude

  type Byte = n: int | 0 <= n < 0x100
  type U16 = n: int | 0 <= n < 0x1_0000

  // `LengthDelimitedCodec`'s default limit on a frame.
  const MAX_FRAME_LENGTH := 8 * 1024 * 1024

  datatype Envelope = Envelope(messageType: U16, payload: seq<Byte>)

  datatype Refusal = TooShort | FrameTooLong

  function Be2(n: U16): (b: seq<Byte>)
    ensures |b| == 2
  {
    [n / 0x100, n % 0x100]
  }

  function FromBe2(b: seq<Byte>): U16
    requires |b| == 2
  {
    (b[0] as int) * 0x100 + b[1] as int
  }

  function Be4(n: nat): (b: seq<Byte>)
    requires n < 0x1_0000_0000
    ensures |b| == 4
  {
    Be2(n / 0x1_0000) + Be2(n % 0x1_0000)
  }

  function FromBe4(b: seq<Byte>): nat
    requires |b| == 4
  {
    FromBe2(b[..2]) * 0x1_0000 + FromBe2(b[2..])
  }

  lemma Be2RoundTrip(n: U16, b: seq<Byte>)
    requires |b| == 2
    ensures FromBe2(Be2(n)) == n && Be2(FromBe2(b)) == b
  {
  }

  lemma Be4RoundTrip(n: nat)
    requires n < 0x1_0000_0000
    ensures FromBe4(Be4(n)) == n
  {
    var hi, lo := n / 0x1_0000, n % 0x1_0000;
    Be2RoundTrip(hi, Be2(hi));
    Be2RoundTrip(lo, Be2(lo));
    assert Be4(n)[..2] == Be2(hi) && Be4(n)[2..] == Be2(lo);
  }

  // A growable byte buffer, written at the end and consumed from the front.
  class BytesMut {
    var bytes: seq<Byte>

    constructor ()
      ensures bytes == []
    {
      bytes := [];
    }

    method PutU16(n: U16)
      modifies this
      ensures bytes == old(bytes) + Be2(n)
    {
      bytes := bytes + [n / 0x100, n % 0x100];
    }

    method PutSlice(s: seq<Byte>)
      modifies this
      ensures bytes == old(bytes) + s
    {
      bytes := bytes + s;
    }

    method SplitTo(n: nat) returns (front: seq<Byte>)
      requires n <= |bytes|
      modifies this
      ensures front == old(bytes)[..n] && bytes == old(bytes)[n..]
    {
      front, bytes := bytes[..n], bytes[n..];
    }
  }

  // The envelope's own bytes: the type, then the payload to the end.
  function Body(e: Envelope): seq<Byte> {
    Be2(e.messageType) + e.payload
  }

  function FromBody(b: seq<Byte>): Result<Envelope, Refusal> {
    if |b| < 2 then Err(TooShort) else Ok(Envelope(FromBe2(b[..2]), b[2..]))
  }

  method EncodeTo(e: Envelope, buf: BytesMut)
    modifies buf
    ensures buf.bytes == old(buf.bytes) + Body(e)
  {
    buf.PutU16(e.messageType);
    buf.PutSlice(e.payload);
    assert buf.bytes == old(buf.bytes) + (Be2(e.messageType) + e.payload);
  }

  method DecodeFrom(bytes: seq<Byte>) returns (r: Result<Envelope, Refusal>)
    ensures r == if |bytes| < 2 then Err(TooShort)
                 else Ok(Envelope((bytes[0] as int) * 256 + bytes[1] as int, bytes[2..]))
    ensures r == FromBody(bytes)
  {
    if |bytes| < 2 {
      return Err(TooShort);
    }
    var messageType := (bytes[0] as int) * 0x100 + bytes[1] as int;
    r := Ok(Envelope(messageType, bytes[2..]));
  }

  method EncodeDatagram(e: Envelope) returns (datagram: seq<Byte>)
    ensures datagram == Body(e)
  {
    var buf := new BytesMut();
    EncodeTo(e, buf);
    datagram := buf.bytes;
  }

  // A datagram decodes to an envelope exactly when it is that envelope's encoding; the only
  // ones that do not decode are shorter than a type.
  lemma DatagramRoundTrip(e: Envelope, datagram: seq<Byte>)
    ensures FromBody(datagram) == Ok(e) <==> datagram == Body(e)
    ensures FromBody(datagram).Err? <==> |datagram| < 2
  {
    Be2RoundTrip(e.messageType, if |datagram| >= 2 then datagram[..2] else [0, 0]);
    assert Body(e)[..2] == Be2(e.messageType) && Body(e)[2..] == e.payload;
    if |datagram| >= 2 {
      assert datagram == datagram[..2] + datagram[2..];
    }
  }

  // Between the length and the end of a frame the decoder waits for that many bytes.
  datatype Waiting = Head | Data(length: nat)

  datatype Polled = NeedMore | Frame(envelope: Envelope) | Failed(error: Refusal)

  // One call of the decoder: what it returns, how it waits then, and what is left unread.
  datatype Turn = Turn(polled: Polled, waiting: Waiting, rest: seq<Byte>)

  function DataTurn(length: nat, src: seq<Byte>): Turn {
    if |src| < length then Turn(NeedMore, Data(length), src)
    else
      var r := FromBody(src[..length]);
      Turn(if r.Ok? then Frame(r.value) else Failed(r.error), Head, src[length..])
  }

  function OneTurn(waiting: Waiting, src: seq<Byte>): Turn {
    match waiting
    case Data(length) => DataTurn(length, src)
    case Head =>
      if |src| < 4 then Turn(NeedMore, Head, src)
      else if FromBe4(src[..4]) > MAX_FRAME_LENGTH then Turn(Failed(FrameTooLong), Head, src)
      else DataTurn(FromBe4(src[..4]), src[4..])
  }

  class EnvelopeCodec {
    var waiting: Waiting

    constructor ()
      ensures waiting == Head
    {
      waiting := Head;
    }

    method Decode(src: BytesMut) returns (polled: Polled)
      modifies this, src
      ensures Turn(polled, waiting, src.bytes) == OneTurn(old(waiting), old(src.bytes))
    {
      if waiting == Head {
        if |src.bytes| < 4 {
          return NeedMore;
        }
        var length := FromBe4(src.bytes[..4]);
        if length > MAX_FRAME_LENGTH {
          return Failed(FrameTooLong);
        }
        var head := src.SplitTo(4);
        waiting := Data(length);
      }
      var length := waiting.length;
      if |src.bytes| < length {
        return NeedMore;
      }
      var frame := src.SplitTo(length);
      waiting := Head;
      var r := DecodeFrom(frame);
      polled := if r.Ok? then Frame(r.value) else Failed(r.error);
    }

    method Encode(e: Envelope, dst: BytesMut) returns (r: Result<(), Refusal>)
      modifies dst
      ensures r.Ok? <==> Encodable(e)
      ensures dst.bytes == if r.Ok? then old(dst.bytes) + Framed(e) else old(dst.bytes)
    {
      var body := new BytesMut();
      EncodeTo(e, body);
      assert body.bytes == Body(e);
      if |body.bytes| > MAX_FRAME_LENGTH {
        return Err(FrameTooLong);
      }
      dst.PutSlice(Be4(|body.bytes|));
      dst.PutSlice(body.bytes);
      assert dst.bytes == old(dst.bytes) + (Be4(|Body(e)|) + Body(e));
      r := Ok(());
    }
  }

  predicate Encodable(e: Envelope) {
    |Body(e)| <= MAX_FRAME_LENGTH
  }

  function Framed(e: Envelope): seq<Byte>
    requires Encodable(e)
  {
    Be4(|Body(e)|) + Body(e)
  }

  // Byte by byte: the type's high byte, its low byte, the payload.
  lemma BodyBytes(e: Envelope)
    ensures |Body(e)| == 2 + |e.payload| && Body(e)[2..] == e.payload
    ensures (Body(e)[0] as int) * 256 + Body(e)[1] as int == e.messageType
  {
  }

  // A message is framed exactly up to eight mebibytes of type and payload: four bytes of
  // length, the most significant first, then its body.
  lemma FrameBytes(e: Envelope)
    ensures Encodable(e) <==> 2 + |e.payload| <= 8388608
    ensures Encodable(e) ==>
              && |Framed(e)| == 6 + |e.payload| && Framed(e)[4..] == Body(e)
              && Number(Framed(e)) == 2 + |e.payload|
  {
    if Encodable(e) {
      var n := |Body(e)|;
      var framed := Framed(e);
      assert framed[4..] == Body(e);
      assert framed[0] == (n / 0x1_0000) / 0x100 && framed[1] == (n / 0x1_0000) % 0x100;
      assert framed[2] == (n % 0x1_0000) / 0x100 && framed[3] == (n % 0x1_0000) % 0x100;
    }
  }

  function Number(b: seq<Byte>): nat
    requires |b| >= 4
  {
    (b[0] as int) * 16777216 + (b[1] as int) * 65536 + (b[2] as int) * 256 + b[3] as int
  }

  // What the decoder makes of unread bytes, between frames: it waits for the length, refuses
  // more than eight mebibytes, waits for as many bytes as it says, refuses fewer than a type,
  // and delivers anything else, leaving what follows unread.
  lemma FrameReads(src: seq<Byte>)
    ensures |src| < 4 ==> OneTurn(Head, src) == Turn(NeedMore, Head, src)
    ensures |src| >= 4 && Number(src) > 8388608 ==> OneTurn(Head, src) == Turn(Failed(FrameTooLong), Head, src)
    ensures |src| >= 4 && Number(src) <= 8388608 && |src| < 4 + Number(src) ==>
              OneTurn(Head, src) == Turn(NeedMore, Data(Number(src)), src[4..])
    ensures |src| >= 4 && Number(src) <= 8388608 && |src| >= 4 + Number(src) ==>
              && OneTurn(Head, src).rest == src[4 + Number(src)..] && OneTurn(Head, src).waiting == Head
              && if Number(src) < 2 then OneTurn(Head, src).polled == Failed(TooShort)
                 else OneTurn(Head, src).polled
                      == Frame(Envelope((src[4] as int) * 256 + src[5] as int, src[6..4 + Number(src)]))
  {
    if |src| >= 4 {
      assert FromBe4(src[..4]) == Number(src);
      var n := Number(src);
      if n <= 8388608 && |src| >= 4 + n {
        assert src[4..][n..] == src[4 + n..];
        assert n >= 2 ==> src[4..][..n][2..] == src[6..4 + n];
      }
    }
  }

  // A reader of a stream: what it has delivered, how it waits, what it holds unread, and
  // whether it has given up.
  datatype Reader = Reader(delivered: seq<Envelope>, waiting: Waiting, unread: seq<Byte>, failed: Option<Refusal>)

  // Decode until more bytes are needed, or the stream fails for good.
  function Drained(r: Reader): Reader
    decreases |r.unread|
  {
    if r.failed.Some? then r
    else
      var t := OneTurn(r.waiting, r.unread);
      match t.polled
      case NeedMore => r.(waiting := t.waiting, unread := t.rest)
      case Failed(error) => r.(waiting := t.waiting, unread := t.rest, failed := Some(error))
      case Frame(e) =>
        FrameConsumes(r.waiting, r.unread);
        Drained(Reader(r.delivered + [e], t.waiting, t.rest, None))
  }

  lemma FrameConsumes(waiting: Waiting, src: seq<Byte>)
    requires OneTurn(waiting, src).polled.Frame?
    ensures |OneTurn(waiting, src).rest| < |src|
  {
  }

  // Nothing more is read from a stream that failed.
  function Fed(r: Reader, chunk: seq<Byte>): Reader {
    if r.failed.Some? then r else Drained(r.(unread := r.unread + chunk))
  }

  function FedAll(r: Reader, chunks: seq<seq<Byte>>): Reader
    decreases |chunks|
  {
    if chunks == [] then r else FedAll(Fed(r, chunks[0]), chunks[1..])
  }

  function Joined(chunks: seq<seq<Byte>>): seq<Byte> {
    if chunks == [] then [] else chunks[0] + Joined(chunks[1..])
  }

  // The connection's read loop over one chunk.
  method ReadChunk(codec: EnvelopeCodec, src: BytesMut, chunk: seq<Byte>)
    returns (delivered: seq<Envelope>, failed: Option<Refusal>)
    modifies codec, src
    ensures Reader(delivered, codec.waiting, src.bytes, failed)
         == Fed(Reader([], old(codec.waiting), old(src.bytes), None), chunk)
  {
    src.PutSlice(chunk);
    delivered, failed := [], None;
    ghost var goal := Drained(Reader([], codec.waiting, src.bytes, None));
    while true
      invariant failed == None
      invariant Drained(Reader(delivered, codec.waiting, src.bytes, None)) == goal
      decreases |src.bytes|
    {
      ghost var waiting, unread := codec.waiting, src.bytes;
      var polled := codec.Decode(src);
      match polled {
        case NeedMore => return;
        case Failed(error) => failed := Some(error); return;
        case Frame(e) =>
          FrameConsumes(waiting, unread);
          delivered := delivered + [e];
      }
    }
  }

  // What is decided about a prefix of the stream is not revised by what follows it.
  lemma TurnExtends(waiting: Waiting, src: seq<Byte>, more: seq<Byte>)
    ensures var t, u := OneTurn(waiting, src), OneTurn(waiting, src + more);
            if t.polled.NeedMore? then u == OneTurn(t.waiting, t.rest + more)
            else u == t.(rest := t.rest + more)
  {
    match waiting
    case Data(length) => DataExtends(length, src, more);
    case Head =>
      if |src| >= 4 {
        assert (src + more)[..4] == src[..4] && (src + more)[4..] == src[4..] + more;
        DataExtends(FromBe4(src[..4]), src[4..], more);
      }
  }

  lemma DataExtends(length: nat, src: seq<Byte>, more: seq<Byte>)
    ensures var t, u := DataTurn(length, src), DataTurn(length, src + more);
            if t.polled.NeedMore? then t == Turn(NeedMore, Data(length), src)
            else u == t.(rest := t.rest + more)
  {
    if |src| >= length {
      assert (src + more)[..length] == src[..length] && (src + more)[length..] == src[length..] + more;
    }
  }

  // What a reader tells its connection.
  function Told(r: Reader): (seq<Envelope>, Option<Refusal>) {
    (r.delivered, r.failed)
  }

  lemma {:induction false} DrainExtends(r: Reader, more: seq<Byte>)
    requires r.failed.None?
    ensures Told(Fed(Drained(r), more)) == Told(Fed(r, more))
    ensures Drained(r).failed.None? ==> Fed(Drained(r), more) == Fed(r, more)
    decreases |r.unread|
  {
    var t := OneTurn(r.waiting, r.unread);
    TurnExtends(r.waiting, r.unread, more);
    if t.polled.Frame? {
      FrameConsumes(r.waiting, r.unread);
      DrainExtends(Reader(r.delivered + [t.polled.envelope], t.waiting, t.rest, None), more);
    }
  }

  // However a stream is cut into chunks, the reader delivers the same envelopes and fails in
  // the same way; if it does not fail it is also left in the same state.
  lemma {:induction false} ChunksDoNotMatter(r: Reader, chunks: seq<seq<Byte>>)
    requires r == Drained(r)
    ensures Told(FedAll(r, chunks)) == Told(Fed(r, Joined(chunks)))
    ensures FedAll(r, chunks).failed.None? ==> FedAll(r, chunks) == Fed(r, Joined(chunks))
    decreases |chunks|
  {
    hide Drained;
    if chunks == [] {
      assert r.unread + [] == r.unread;
    } else {
      var first, rest := chunks[0], Joined(chunks[1..]);
      DrainedIsStable(r.(unread := r.unread + first));
      ChunksDoNotMatter(Fed(r, first), chunks[1..]);
      FedTwice(r, first, rest);
    }
  }

  lemma FedTwice(r: Reader, first: seq<Byte>, rest: seq<Byte>)
    ensures Told(Fed(Fed(r, first), rest)) == Told(Fed(r, first + rest))
    ensures Fed(r, first).failed.None? ==> Fed(Fed(r, first), rest) == Fed(r, first + rest)
    ensures Fed(r, first).failed.Some? ==> Fed(Fed(r, first), rest) == Fed(r, first)
  {
    hide Drained;
    if r.failed.None? {
      DrainExtends(r.(unread := r.unread + first), rest);
      assert r.unread + first + rest == r.unread + (first + rest);
    }
  }

  lemma {:induction false} DrainedIsStable(r: Reader)
    ensures Drained(Drained(r)) == Drained(r)
    decreases |r.unread|
  {
    if r.failed.None? {
      var t := OneTurn(r.waiting, r.unread);
      if t.polled.Frame? {
        FrameConsumes(r.waiting, r.unread);
        DrainedIsStable(Reader(r.delivered + [t.polled.envelope], t.waiting, t.rest, None));
      }
    }
  }

  function FramedAll(envelopes: seq<Envelope>): seq<Byte>
    requires forall e :: e in envelopes ==> Encodable(e)
  {
    if envelopes == [] then [] else Framed(envelopes[0]) + FramedAll(envelopes[1..])
  }

  lemma FrameDecodes(e: Envelope, more: seq<Byte>)
    requires Encodable(e)
    ensures OneTurn(Head, Framed(e) + more) == Turn(Frame(e), Head, more)
  {
    var src, body := Framed(e) + more, Body(e);
    Be4RoundTrip(|body|);
    assert src[..4] == Be4(|body|) && src[4..] == body + more;
    assert (body + more)[..|body|] == body && (body + more)[|body|..] == more;
    DatagramRoundTrip(e, body);
  }

  lemma FrameDrains(before: seq<Envelope>, e: Envelope, more: seq<Byte>)
    requires Encodable(e)
    ensures Drained(Reader(before, Head, Framed(e) + more, None)) == Drained(Reader(before + [e], Head, more, None))
  {
    hide OneTurn, Framed;
    FrameDecodes(e, more);
  }

  lemma {:induction false} FramesDrain(before: seq<Envelope>, envelopes: seq<Envelope>)
    requires forall e :: e in envelopes ==> Encodable(e)
    ensures Drained(Reader(before, Head, FramedAll(envelopes), None)) == Reader(before + envelopes, Head, [], None)
    decreases |envelopes|
  {
    if envelopes == [] {
      assert before + envelopes == before;
    } else {
      hide Drained, Framed;
      var e, rest := envelopes[0], envelopes[1..];
      FrameDrains(before, e, FramedAll(rest));
      FramesDrain(before + [e], rest);
      assert before + [e] + rest == before + envelopes;
    }
  }

  const START := Reader([], Head, [], None)

  // Encode any envelopes within the limit, cut the bytes anywhere: the reader delivers
  // exactly those envelopes and is left with nothing unread.
  lemma StreamRoundTrip(envelopes: seq<Envelope>, chunks: seq<seq<Byte>>)
    requires forall e :: e in envelopes ==> Encodable(e)
    requires Joined(chunks) == FramedAll(envelopes)
    ensures FedAll(START, chunks) == Reader(envelopes, Head, [], None)
  {
    ChunksDoNotMatter(START, chunks);
    FramesDrain([], envelopes);
    assert [] + FramedAll(envelopes) == FramedAll(envelopes);
    assert [] + envelopes == envelopes;
  }
}
