/** The BitTorrent peer message codec (boss/magnetite-common/src/proto.rs). */
module PeerWire {
  import opened Bytes
  import opened Words

  datatype PieceSlice = PieceSlice(index: nat, begin: nat, length: nat)

  datatype Message =
    | Keepalive
    | Choke
    | Unchoke
    | Interested
    | Uninterested
    | Have(pieceId: nat)
    | Bitfield(fieldData: seq<byte>)
    | Request(slice: PieceSlice)
    | Cancel(slice: PieceSlice)
    | Piece(index: nat, begin: nat, data: seq<byte>)
    | Port(dhtPort: nat)

  /** `Panics` is a piece message too short for its own header, which the source slices out of range. */
  datatype Parsed = Parsed(size: nat, message: Message) | Incomplete(missing: nat) | Violation | Panics

  const U32_LIMIT: nat := 0x1_0000_0000

  predicate SliceFits(s: PieceSlice)
  {
    s.index < U32_LIMIT && s.begin < U32_LIMIT && s.length < U32_LIMIT
  }

  /** Fields and lengths that fit the wire's integers. */
  predicate Sendable(m: Message)
  {
    match m
    case Have(id) => id < U32_LIMIT
    case Bitfield(data) => 1 + |data| < U32_LIMIT
    case Request(s) => SliceFits(s)
    case Cancel(s) => SliceFits(s)
    case Piece(index, begin, data) => index < U32_LIMIT && begin < U32_LIMIT && 9 + |data| < U32_LIMIT
    case Port(p) => p < 0x1_0000
    case _ => true
  }

  function SizeAndId(size: nat, id: byte): seq<byte>
    requires size < U32_LIMIT
  {
    PutU32(size) + [id]
  }

  function SliceBytes(s: PieceSlice): seq<byte>
    requires SliceFits(s)
  {
    PutU32(s.index) + PutU32(s.begin) + PutU32(s.length)
  }

  /** What `serialize` appends. A `Have` announces one byte but carries five. */
  function Wire(m: Message): seq<byte>
    requires Sendable(m)
  {
    match m
    case Keepalive => PutU32(0)
    case Choke => SizeAndId(1, 0)
    case Unchoke => SizeAndId(1, 1)
    case Interested => SizeAndId(1, 2)
    case Uninterested => SizeAndId(1, 3)
    case Have(id) => SizeAndId(1, 4) + PutU32(id)
    case Bitfield(data) => SizeAndId(1 + |data|, 5) + data
    case Request(s) => SizeAndId(13, 6) + SliceBytes(s)
    case Piece(index, begin, data) => SizeAndId(9 + |data|, 7) + (PutU32(index) + PutU32(begin)) + data
    case Cancel(s) => SizeAndId(13, 8) + SliceBytes(s)
    case Port(p) => SizeAndId(3, 9) + PutU16(p)
  }

  function SliceAt(body: seq<byte>): PieceSlice
    requires |body| == 13
  {
    PieceSlice(U32(body[1..5]), U32(body[5..9]), U32(body[9..13]))
  }

  /** A message body of the announced size, starting with its kind byte. */
  function ParseBody(body: seq<byte>): Parsed
    requires body != []
  {
    var total := 4 + |body|;
    match body[0]
    case 0 => if |body| == 1 then Parsed(total, Choke) else Violation
    case 1 => if |body| == 1 then Parsed(total, Unchoke) else Violation
    case 2 => if |body| == 1 then Parsed(total, Interested) else Violation
    case 3 => if |body| == 1 then Parsed(total, Uninterested) else Violation
    case 4 => if |body| == 5 then Parsed(total, Have(U32(body[1..5]))) else Violation
    case 5 => Parsed(total, Bitfield(body[1..]))
    case 6 => if |body| == 13 then Parsed(total, Request(SliceAt(body))) else Violation
    case 7 => if |body| >= 9 then Parsed(total, Piece(U32(body[1..5]), U32(body[5..9]), body[9..])) else Panics
    case 8 => if |body| == 13 then Parsed(total, Cancel(SliceAt(body))) else Violation
    case 9 => if |body| == 3 then Parsed(total, Port(U16(body[1], body[2]))) else Violation
    case _ => Violation
  }

  /** `deserialize_peek`. */
  function Peek(s: seq<byte>): (r: Parsed)
  {
    if |s| < 4 then Incomplete(4 - |s|)
    else
      var total := U32(s[..4]) + 4;
      if |s| < total then Incomplete(total - |s|)
      else if total == 4 then Parsed(4, Keepalive)
      else ParseBody(s[4..total])
  }

  // ---- Round trip

  lemma PeekBody(body: seq<byte>, tail: seq<byte>)
    requires body != [] && |body| < U32_LIMIT
    ensures Peek(PutU32(|body|) + body + tail) == ParseBody(body)
  {
    var s := PutU32(|body|) + body + tail;
    assert s[..4] == PutU32(|body|);
    assert s[4..4 + |body|] == body;
  }

  lemma SliceRoundTrip(id: byte, p: PieceSlice)
    requires SliceFits(p)
    ensures SliceAt([id] + SliceBytes(p)) == p
  {
    var body := [id] + SliceBytes(p);
    assert body[1..5] == PutU32(p.index) && body[5..9] == PutU32(p.begin) && body[9..13] == PutU32(p.length);
  }

  lemma RequestRoundTrip(p: PieceSlice)
    requires SliceFits(p)
    ensures ParseBody([6] + SliceBytes(p)) == Parsed(17, Request(p))
  {
    SliceRoundTrip(6, p);
  }

  lemma CancelRoundTrip(p: PieceSlice)
    requires SliceFits(p)
    ensures ParseBody([8] + SliceBytes(p)) == Parsed(17, Cancel(p))
  {
    SliceRoundTrip(8, p);
  }

  lemma PieceRoundTrip(index: nat, begin: nat, data: seq<byte>)
    requires index < U32_LIMIT && begin < U32_LIMIT
    ensures ParseBody([7] + (PutU32(index) + PutU32(begin)) + data) == Parsed(13 + |data|, Piece(index, begin, data))
  {
    var body := [7] + (PutU32(index) + PutU32(begin)) + data;
    assert body[1..5] == PutU32(index) && body[5..9] == PutU32(begin) && body[9..] == data;
  }

  /** The body of every message but the keepalive: its kind byte, then its fields. */
  function Body(m: Message): (s: seq<byte>)
    requires Sendable(m) && !m.Keepalive? && !m.Have?
    ensures 0 < |s| < U32_LIMIT
  {
    match m
    case Choke => [0]
    case Unchoke => [1]
    case Interested => [2]
    case Uninterested => [3]
    case Bitfield(data) => [5] + data
    case Request(s) => [6] + SliceBytes(s)
    case Piece(index, begin, data) => [7] + (PutU32(index) + PutU32(begin)) + data
    case Cancel(s) => [8] + SliceBytes(s)
    case Port(p) => [9] + PutU16(p)
  }

  lemma BitfieldRoundTrip(data: seq<byte>)
    ensures ParseBody([5] + data) == Parsed(5 + |data|, Bitfield(data))
  {
    assert ([5] + data)[1..] == data;
  }

  lemma PortRoundTrip(p: nat)
    requires p < 0x1_0000
    ensures ParseBody([9] + PutU16(p)) == Parsed(7, Port(p))
  {
    var body := [9] + PutU16(p);
    assert body[1] == PutU16(p)[0] && body[2] == PutU16(p)[1];
  }

  lemma BodyRoundTrip(m: Message)
    requires Sendable(m) && !m.Keepalive? && !m.Have?
    ensures ParseBody(Body(m)) == Parsed(4 + |Body(m)|, m)
  {
    match m {
      case Request(s) => RequestRoundTrip(s);
      case Cancel(s) => CancelRoundTrip(s);
      case Piece(index, begin, data) => PieceRoundTrip(index, begin, data);
      case Bitfield(data) => BitfieldRoundTrip(data);
      case Port(p) => PortRoundTrip(p);
      case _ =>
    }
  }

  /** The announced size is the size of the body that follows. */
  lemma WireLayout(m: Message)
    requires Sendable(m) && !m.Keepalive? && !m.Have?
    ensures Wire(m) == PutU32(|Body(m)|) + Body(m)
  {
    match m {
      case Request(s) => ConcatAssoc(PutU32(13), [6], SliceBytes(s));
      case Cancel(s) => ConcatAssoc(PutU32(13), [8], SliceBytes(s));
      case Piece(index, begin, data) =>
        ConcatAssoc(PutU32(9 + |data|), [7], PutU32(index) + PutU32(begin));
        ConcatAssoc(PutU32(9 + |data|), [7] + (PutU32(index) + PutU32(begin)), data);
      case Bitfield(data) => ConcatAssoc(PutU32(1 + |data|), [5], data);
      case Port(p) => ConcatAssoc(PutU32(3), [9], PutU16(p));
      case _ =>
    }
  }

  lemma RoundTrip(m: Message, tail: seq<byte>)
    requires Sendable(m) && !m.Have?
    ensures Peek(Wire(m) + tail) == Parsed(|Wire(m)|, m)
  {
    if m.Keepalive? {
      assert (Wire(m) + tail)[..4] == PutU32(0);
    } else {
      WireLayout(m);
      BodyRoundTrip(m);
      PeekBody(Body(m), tail);
    }
  }

  /** A serialized `Have` is always refused. */
  lemma HaveIsRefused(id: nat, tail: seq<byte>)
    requires id < U32_LIMIT
    ensures Peek(Wire(Have(id)) + tail) == Violation
  {
    assert Wire(Have(id)) + tail == PutU32(|[4 as byte]|) + [4] + (PutU32(id) + tail);
    PeekBody([4], PutU32(id) + tail);
  }

  lemma CutFrame(size: nat, body: seq<byte>, k: nat)
    requires size < U32_LIMIT && size <= |body| && k < 4 + size
    ensures var s := (PutU32(size) + body)[..k];
            Peek(s).Incomplete? && 0 < Peek(s).missing && Peek(s).missing <= 4 + size - k
  {
    var s := (PutU32(size) + body)[..k];
    if k >= 4 {
      assert s[..4] == PutU32(size);
    }
  }

  lemma CutHave(id: nat, k: nat)
    requires id < U32_LIMIT && 5 <= k <= 9
    ensures Peek(Wire(Have(id))[..k]) == Violation
  {
    var tail := PutU32(id)[..k - 5];
    assert Wire(Have(id))[..k] == PutU32(|[4 as byte]|) + [4] + tail;
    PeekBody([4], tail);
  }

  /**
   * A cut message asks for a positive number of bytes, never more than are missing. Only a `Have`
   * is refused before it is complete: once the one byte it announces is there.
   */
  lemma ProperPrefix(m: Message, k: nat)
    requires Sendable(m) && k < |Wire(m)|
    ensures var p := Peek(Wire(m)[..k]);
            if m.Have? && k >= 5 then p == Violation
            else p.Incomplete? && 0 < p.missing <= |Wire(m)| - k
  {
    if m.Keepalive? {
      assert PutU32(0) + [] == PutU32(0);
      CutFrame(0, [], k);
    } else if m.Have? {
      ConcatAssoc(PutU32(1), [4], PutU32(m.pieceId));
      if k < 5 {
        CutFrame(1, [4] + PutU32(m.pieceId), k);
      } else {
        CutHave(m.pieceId, k);
      }
    } else {
      WireLayout(m);
      CutFrame(|Body(m)|, Body(m), k);
    }
  }

  // ---- The layout of the protocol, in numbers

  /** How each message is laid out: four bytes of size, one of kind, then its fields. */
  function Standard(m: Message): seq<byte>
    requires Sendable(m)
  {
    match m
    case Keepalive => [0, 0, 0, 0]
    case Choke => [0, 0, 0, 1, 0]
    case Unchoke => [0, 0, 0, 1, 1]
    case Interested => [0, 0, 0, 1, 2]
    case Uninterested => [0, 0, 0, 1, 3]
    case Have(id) => [0, 0, 0, 5, 4] + PutU32(id)
    case Bitfield(data) => PutU32(1 + |data|) + [5] + data
    case Request(s) => [0, 0, 0, 13, 6] + PutU32(s.index) + PutU32(s.begin) + PutU32(s.length)
    case Piece(index, begin, data) => PutU32(9 + |data|) + [7] + PutU32(index) + PutU32(begin) + data
    case Cancel(s) => [0, 0, 0, 13, 8] + PutU32(s.index) + PutU32(s.begin) + PutU32(s.length)
    case Port(p) => [0, 0, 0, 3, 9] + PutU16(p)
  }

  lemma SmallHeader(size: byte, id: byte)
    ensures SizeAndId(size, id) == [0, 0, 0, size, id]
  {
    SmallWord(size);
  }

  lemma SliceLayout(id: byte, s: PieceSlice)
    requires SliceFits(s)
    ensures SizeAndId(13, id) + SliceBytes(s)
            == [0, 0, 0, 13, id] + PutU32(s.index) + PutU32(s.begin) + PutU32(s.length)
  {
    SmallHeader(13, id);
  }

  lemma PieceLayout(index: nat, begin: nat, data: seq<byte>)
    requires Sendable(Piece(index, begin, data))
    ensures Wire(Piece(index, begin, data)) == Standard(Piece(index, begin, data))
  {
    ConcatAssoc(SizeAndId(9 + |data|, 7), PutU32(index), PutU32(begin));
  }

  /** Everything but a `Have` is sent as laid out; a `Have` with the wrong size. */
  lemma SentAsLaidOut(m: Message)
    requires Sendable(m)
    ensures if m.Have? then Wire(m) == [0, 0, 0, 1, 4] + PutU32(m.pieceId) else Wire(m) == Standard(m)
  {
    match m {
      case Keepalive => SmallWord(0);
      case Choke => SmallHeader(1, 0);
      case Unchoke => SmallHeader(1, 1);
      case Interested => SmallHeader(1, 2);
      case Uninterested => SmallHeader(1, 3);
      case Have(_) => SmallHeader(1, 4);
      case Bitfield(_) =>
      case Request(s) => SliceLayout(6, s);
      case Piece(index, begin, data) => PieceLayout(index, begin, data);
      case Cancel(s) => SliceLayout(8, s);
      case Port(_) => SmallHeader(3, 9);
    }
  }

  /** A `Have` of the size that the protocol gives it is read. */
  lemma HaveIsRead(id: nat, tail: seq<byte>)
    requires id < U32_LIMIT
    ensures Peek([0, 0, 0, 5, 4] + PutU32(id) + tail) == Parsed(9, Have(id))
  {
    var body := [4 as byte] + PutU32(id);
    SmallWord(5);
    assert [0, 0, 0, 5, 4] + PutU32(id) + tail == PutU32(|body|) + body + tail;
    PeekBody(body, tail);
    assert body[1..5] == PutU32(id);
  }

  /** Every message, laid out as the protocol says, is read. */
  lemma StandardIsRead(m: Message, tail: seq<byte>)
    requires Sendable(m)
    ensures Peek(Standard(m) + tail) == Parsed(|Standard(m)|, m)
  {
    SentAsLaidOut(m);
    if m.Have? {
      HaveIsRead(m.pieceId, tail);
    } else {
      RoundTrip(m, tail);
    }
  }

  lemma FieldsAreRead(body: seq<byte>)
    requires |body| == 13
    ensures SliceFits(SliceAt(body)) && body == [body[0]] + SliceBytes(SliceAt(body))
  {
    WordIsItsBytes(body[1..5]);
    WordIsItsBytes(body[5..9]);
    WordIsItsBytes(body[9..13]);
  }

  lemma ShortIsRead(body: seq<byte>)
    requires |body| == 3
    ensures body == [body[0]] + PutU16(U16(body[1], body[2]))
  {
    var t := PutU16(U16(body[1], body[2]));
    assert t == [body[1], body[2]];
  }

  /** A body that is read is the body of the message read. */
  lemma BodyIsRead(body: seq<byte>)
    requires body != [] && |body| < U32_LIMIT && ParseBody(body).Parsed?
    ensures var m := ParseBody(body).message;
            && Sendable(m) && !m.Keepalive? && ParseBody(body).size == 4 + |body|
            && body == if m.Have? then [4] + PutU32(m.pieceId) else Body(m)
  {
    match body[0] {
      case 4 => WordIsItsBytes(body[1..5]);
      case 6 => FieldsAreRead(body);
      case 7 =>
        WordIsItsBytes(body[1..5]);
        WordIsItsBytes(body[5..9]);
      case 8 => FieldsAreRead(body);
      case 9 => ShortIsRead(body);
      case _ =>
    }
  }

  lemma FrameIsRead(size: seq<byte>, body: seq<byte>, m: Message)
    requires |size| == 4 && U32(size) == |body| && body != [] && ParseBody(body) == Parsed(4 + |body|, m)
    ensures Sendable(m) && size + body == Standard(m)
  {
    BodyIsRead(body);
    WordIsItsBytes(size);
    SentAsLaidOut(m);
    if m.Have? {
      SmallWord(5);
    } else {
      WireLayout(m);
    }
  }

  lemma PeekParts(s: seq<byte>, size: seq<byte>, body: seq<byte>)
    requires Peek(s).Parsed? && |size| == 4 && size <= s
    requires U32(size) + 4 <= |s| ==> body == s[4..U32(size) + 4]
    ensures |s| >= 4 && U32(size) == |body| && size + body <= s
    ensures Peek(s) == if body == [] then Parsed(4, Keepalive) else ParseBody(body)
  {
    assert s[..4] == size;
  }

  lemma PeekedIsStandard(s: seq<byte>, n: nat, m: Message)
    requires Peek(s) == Parsed(n, m)
    ensures Sendable(m) && n <= |s| && s[..n] == Standard(m)
  {
    var size := s[..4];
    var body := s[4..U32(size) + 4];
    PeekParts(s, size, body);
    if body == [] {
      WordIsItsBytes(size);
      SmallWord(0);
    } else {
      BodyIsRead(body);
      FrameIsRead(size, body, m);
    }
  }

  /** A buffer holds a message exactly when it starts with that message as the protocol lays it out. */
  lemma PeekExactly(s: seq<byte>, n: nat, m: Message)
    ensures Peek(s) == Parsed(n, m) <==> Sendable(m) && n <= |s| && s[..n] == Standard(m)
  {
    if Sendable(m) && n <= |s| && s[..n] == Standard(m) {
      StandardIsRead(m, s[n..]);
      assert s == s[..n] + s[n..];
    }
    if Peek(s) == Parsed(n, m) {
      PeekedIsStandard(s, n, m);
    }
  }

  /** What is no message: more bytes are asked for, a short piece panics, and the rest is refused. */
  lemma NoMessage(size: nat, body: seq<byte>)
    requires size < U32_LIMIT
    ensures forall k :: 0 <= k < 4 ==> Peek(PutU32(size)[..k]) == Incomplete(4 - k)
    ensures |body| < size ==> Peek(PutU32(size) + body) == Incomplete(size - |body|)
    ensures 0 < size <= |body| && body[0] >= 10 ==> Peek(PutU32(size) + body) == Violation
    ensures 0 < size <= |body| && body[0] == 7 && size < 9 ==> Peek(PutU32(size) + body) == Panics
    ensures 1 < size <= |body| && body[0] < 4 ==> Peek(PutU32(size) + body) == Violation
    ensures 0 < size <= |body| && body[0] == 4 && size != 5 ==> Peek(PutU32(size) + body) == Violation
    ensures 0 < size <= |body| && (body[0] == 6 || body[0] == 8) && size != 13 ==>
              Peek(PutU32(size) + body) == Violation
    ensures 0 < size <= |body| && body[0] == 9 && size != 3 ==> Peek(PutU32(size) + body) == Violation
  {
    var s := PutU32(size) + body;
    assert s[..4] == PutU32(size);
    assert size <= |body| ==> s[4..4 + size] == body[..size];
  }

  // ---- Streams of messages

  function WireAll(ms: seq<Message>): seq<byte>
    requires forall i :: 0 <= i < |ms| ==> Sendable(ms[i])
  {
    if ms == [] then [] else Wire(ms[0]) + WireAll(ms[1..])
  }

  /** Messages popped until the buffer is empty or something else happens, and what is left. */
  function PopWith(peek: seq<byte> -> Parsed, s: seq<byte>): (seq<Message>, seq<byte>)
    decreases |s|
  {
    if s == [] then ([], [])
    else
      match peek(s)
      case Parsed(size, m) =>
        if 0 < size <= |s| then
          var popped := PopWith(peek, s[size..]);
          ([m] + popped.0, popped.1)
        else ([], s)
      case _ => ([], s)
  }

  function PopAll(s: seq<byte>): (seq<Message>, seq<byte>)
  {
    PopWith(Peek, s)
  }

  lemma PeekSize(s: seq<byte>)
    requires Peek(s).Parsed?
    ensures 0 < Peek(s).size <= |s|
  {
  }

  lemma {:induction false} PopOne(
    peek: seq<byte> -> Parsed, w: seq<byte>, rest: seq<byte>, m: Message, ms: seq<Message>)
    requires w != [] && peek(w + rest) == Parsed(|w|, m)
    ensures PopWith(peek, w + rest) == ([m] + PopWith(peek, rest).0, PopWith(peek, rest).1)
    ensures PopWith(peek, w + rest) == ([m] + ms, []) <==> PopWith(peek, rest) == (ms, [])
  {
    assert (w + rest)[|w|..] == rest;
    var popped := PopWith(peek, rest).0;
    if [m] + popped == [m] + ms {
      assert popped == ([m] + popped)[1..] == ([m] + ms)[1..] == ms;
    }
  }

  lemma WireNonEmpty(m: Message)
    requires Sendable(m)
    ensures |Wire(m)| >= 4
  {
  }

  lemma FirstMessage(m: Message, rest: seq<byte>, ms: seq<Message>)
    requires Sendable(m)
    ensures !m.Have? ==> (PopAll(Wire(m) + rest) == ([m] + ms, []) <==> PopAll(rest) == (ms, []))
    ensures m.Have? ==> PopAll(Wire(m) + rest).0 == []
  {
    WireNonEmpty(m);
    if m.Have? {
      HaveIsRefused(m.pieceId, rest);
    } else {
      RoundTrip(m, rest);
      PopOne(Peek, Wire(m), rest, m, ms);
    }
  }

  /** Sending and popping gives the same list back, and empties the buffer, exactly when no `Have` is in it. */
  lemma {:induction false} StreamRoundTrip(ms: seq<Message>)
    requires forall i :: 0 <= i < |ms| ==> Sendable(ms[i])
    ensures PopAll(WireAll(ms)) == (ms, []) <==> forall i :: 0 <= i < |ms| ==> !ms[i].Have?
    decreases |ms|
  {
    if ms != [] {
      var m, rest := ms[0], WireAll(ms[1..]);
      FirstMessage(m, rest, ms[1..]);
      assert ms == [m] + ms[1..];
      if !m.Have? {
        StreamRoundTrip(ms[1..]);
      }
    }
  }

  // ---- Buffers

  class Buffer {
    var bytes: seq<byte>

    constructor ()
      ensures bytes == []
    {
      bytes := [];
    }

    method Put(header: seq<byte>, rest: seq<byte>)
      modifies this
      ensures bytes == old(bytes) + (header + rest)
    {
      ConcatAssoc(bytes, header, rest);
      bytes := bytes + header;
      bytes := bytes + rest;
    }

    method PutPiece(index: nat, begin: nat, data: seq<byte>)
      requires Sendable(Piece(index, begin, data))
      modifies this
      ensures bytes == old(bytes) + Wire(Piece(index, begin, data))
    {
      var header, place := SizeAndId(9 + |data|, 7), PutU32(index) + PutU32(begin);
      ghost var before := bytes;
      Put(header, place);
      ConcatAssoc(before, header + place, data);
      bytes := bytes + data;
    }

    method Serialize(m: Message)
      requires Sendable(m)
      modifies this
      ensures bytes == old(bytes) + Wire(m)
    {
      match m {
        case Keepalive => bytes := bytes + PutU32(0);
        case Choke => bytes := bytes + SizeAndId(1, 0);
        case Unchoke => bytes := bytes + SizeAndId(1, 1);
        case Interested => bytes := bytes + SizeAndId(1, 2);
        case Uninterested => bytes := bytes + SizeAndId(1, 3);
        case Have(id) => Put(SizeAndId(1, 4), PutU32(id));
        case Bitfield(data) => Put(SizeAndId(1 + |data|, 5), data);
        case Request(s) => Put(SizeAndId(13, 6), SliceBytes(s));
        case Cancel(s) => Put(SizeAndId(13, 8), SliceBytes(s));
        case Piece(index, begin, data) => PutPiece(index, begin, data);
        case Port(p) => Put(SizeAndId(3, 9), PutU16(p));
      }
    }

    /** `deserialize_pop`: consumes a whole message or nothing. */
    method Pop() returns (r: Parsed)
      modifies this
      ensures r == Peek(old(bytes))
      ensures r.Parsed? ==> r.size <= |old(bytes)| && bytes == old(bytes)[r.size..]
      ensures !r.Parsed? ==> bytes == old(bytes)
    {
      r := Peek(bytes);
      if r.Parsed? {
        PeekSize(bytes);
        bytes := bytes[r.size..];
      }
    }
  }

  lemma WireSplit(ms: seq<Message>, i: nat, sent: seq<byte>)
    requires i < |ms| && forall j :: 0 <= j < |ms| ==> Sendable(ms[j])
    ensures sent + WireAll(ms[i..]) == (sent + Wire(ms[i])) + WireAll(ms[i + 1..])
  {
    assert ms[i..][0] == ms[i] && ms[i..][1..] == ms[i + 1..];
    ConcatAssoc(sent, Wire(ms[i]), WireAll(ms[i + 1..]));
  }

  method SendAll(ms: seq<Message>, b: Buffer)
    requires b.bytes == [] && forall i :: 0 <= i < |ms| ==> Sendable(ms[i])
    modifies b
    ensures b.bytes == WireAll(ms)
  {
    assert ms[0..] == ms;
    for i := 0 to |ms|
      invariant b.bytes + WireAll(ms[i..]) == WireAll(ms)
    {
      WireSplit(ms, i, b.bytes);
      b.Serialize(ms[i]);
    }
  }

  lemma {:induction false} PopStep(
    peek: seq<byte> -> Parsed, s: seq<byte>, received: seq<Message>, size: nat, m: Message)
    requires 0 < size <= |s| && peek(s) == Parsed(size, m)
    ensures received + PopWith(peek, s).0 == (received + [m]) + PopWith(peek, s[size..]).0
    ensures PopWith(peek, s).1 == PopWith(peek, s[size..]).1
  {
    var popped := PopWith(peek, s[size..]).0;
    assert PopWith(peek, s).0 == [m] + popped;
    assert received + ([m] + popped) == (received + [m]) + popped;
  }

  method ReceiveAll(b: Buffer) returns (received: seq<Message>)
    modifies b
    ensures (received, b.bytes) == PopAll(old(b.bytes))
  {
    received := [];
    ghost var start := b.bytes;
    assert [] + PopAll(start).0 == PopAll(start).0;
    while b.bytes != []
      invariant PopAll(start).0 == received + PopWith(Peek, b.bytes).0
      invariant PopAll(start).1 == PopWith(Peek, b.bytes).1
      decreases |b.bytes|
    {
      ghost var before := b.bytes;
      var r := b.Pop();
      if !r.Parsed? {
        assert received + [] == received;
        return;
      }
      PeekSize(before);
      PopStep(Peek, before, received, r.size, r.message);
      received := received + [r.message];
    }
    assert received + [] == received;
  }

  /** The sending and the receiving side together, one buffer between them. */
  method Exchange(ms: seq<Message>) returns (received: seq<Message>, left: seq<byte>)
    requires forall i :: 0 <= i < |ms| ==> Sendable(ms[i])
    ensures received == ms && left == [] <==> forall i :: 0 <= i < |ms| ==> !ms[i].Have?
  {
    var b := new Buffer();
    SendAll(ms, b);
    received := ReceiveAll(b);
    left := b.bytes;
    StreamRoundTrip(ms);
  }
}
