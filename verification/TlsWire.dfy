/**
 * The wire form of a ClientHello (section 7.4.1.2 of RFC 5246, section 3 of RFC 6066, section 3.1 of
 * RFC 7301) and the proof that the decoder inverts it however the bytes are cut into records.
 */
module TlsWire {
  import opened Bytes
  import opened Words
  import opened Utf8
  import opened TlsModel

  // ---- Wire form

  function CodeOf(suite: CipherSuite): nat
  {
    match suite
    case EcdheEcdsaAes128GcmSha256 => 0xc02b
    case EcdheRsaAes128GcmSha256 => 0xc02f
    case EcdheEcdsaChacha20Poly1305Sha256 => 0xcca9
    case EcdheRsaChacha20Poly1305Sha256 => 0xcca8
    case EcdheEcdsaAes256GcmSha384 => 0xc02c
    case EcdheRsaAes256GcmSha384 => 0xc030
    case EcdheEcdsaAes256CbcSha => 0xc00a
    case EcdheEcdsaAes128CbcSha => 0xc009
    case EcdheRsaAes128CbcSha => 0xc013
    case EcdheRsaAes256CbcSha => 0xc014
    case DheRsaAes128CbcSha => 0x0033
    case DheRsaAes256CbcSha => 0x0039
    case RsaAes128CbcSha => 0x002f
    case RsaAes256CbcSha => 0x0035
    case Rsa3desEdeCbcSha => 0x000a
    case UnknownSuite(code) => code
  }

  function Flatten(fs: seq<Frame>): seq<byte>
  {
    if fs == [] then [] else fs[0].header + fs[0].body + Flatten(fs[1..])
  }

  function NameFrame(name: seq<byte>): (f: Frame)
    requires |name| < 0x1_0000
    ensures |f.header| == 3
  {
    Frame([0] + PutU16(|name|), name)
  }

  function AlpnFrame(protocol: seq<byte>): Frame
    requires |protocol| < 256
  {
    Frame([|protocol|], protocol)
  }

  function NameFrames(names: seq<seq<byte>>): (fs: seq<Frame>)
    requires forall i :: 0 <= i < |names| ==> |names[i]| < 0x1_0000
    ensures |fs| == |names| && forall i :: 0 <= i < |fs| ==> fs[i] == NameFrame(names[i])
  {
    seq(|names|, i requires 0 <= i < |names| => NameFrame(names[i]))
  }

  function AlpnFrames(protocols: seq<seq<byte>>): (fs: seq<Frame>)
    requires forall i :: 0 <= i < |protocols| ==> |protocols[i]| < 256
    ensures |fs| == |protocols| && forall i :: 0 <= i < |fs| ==> fs[i] == AlpnFrame(protocols[i])
  {
    seq(|protocols|, i requires 0 <= i < |protocols| => AlpnFrame(protocols[i]))
  }

  predicate ValidExtension(e: Extension)
  {
    match e
    case ServerName(names) =>
      && (forall i :: 0 <= i < |names| ==> |names[i]| < 0x1_0000 && IsUtf8(names[i]))
      && |Flatten(NameFrames(names))| < 0x1_0000 - 2
    case Alpn(protocols) =>
      && (forall i :: 0 <= i < |protocols| ==> |protocols[i]| < 256 && IsUtf8(protocols[i]))
      && |Flatten(AlpnFrames(protocols))| < 0x1_0000 - 2
    case UnknownExtension(id, data) =>
      id < 0x1_0000 && id != SERVER_NAME_ID && id != ALPN_ID && |data| < 0x1_0000
  }

  function ExtensionFrame(e: Extension): (f: Frame)
    requires ValidExtension(e)
    ensures |f.header| == 4
  {
    match e
    case ServerName(names) =>
      var list := Flatten(NameFrames(names));
      Frame(PutU16(SERVER_NAME_ID) + PutU16(2 + |list|), PutU16(|list|) + list)
    case Alpn(protocols) =>
      var list := Flatten(AlpnFrames(protocols));
      Frame(PutU16(ALPN_ID) + PutU16(2 + |list|), PutU16(|list|) + list)
    case UnknownExtension(id, data) => Frame(PutU16(id) + PutU16(|data|), data)
  }

  function ExtensionFrames(es: seq<Extension>): (fs: seq<Frame>)
    requires forall i :: 0 <= i < |es| ==> ValidExtension(es[i])
    ensures |fs| == |es| && forall i :: 0 <= i < |fs| ==> fs[i] == ExtensionFrame(es[i])
  {
    seq(|es|, i requires 0 <= i < |es| => ExtensionFrame(es[i]))
  }

  function SuiteBytes(suites: seq<CipherSuite>): (s: seq<byte>)
    requires forall i :: 0 <= i < |suites| ==> CodeOf(suites[i]) < 0x1_0000
    ensures |s| == 2 * |suites|
  {
    if suites == [] then [] else PutU16(CodeOf(suites[0])) + SuiteBytes(suites[1..])
  }

  /** What the wire format can carry, and named suites under their own name. */
  predicate WellFormed(h: ClientHello)
  {
    && |h.random.randomBytes| == 28 && h.random.gmtUnixTime < 0x1_0000_0000
    && |h.sessionId| <= 32
    && 2 * |h.cipherSuites| < 0x1_0000
    && (forall i :: 0 <= i < |h.cipherSuites| ==>
          CodeOf(h.cipherSuites[i]) < 0x1_0000 && SuiteOf(CodeOf(h.cipherSuites[i])) == h.cipherSuites[i])
    && |h.compressionMethods| < 256
    && (forall i :: 0 <= i < |h.extensions| ==> ValidExtension(h.extensions[i]))
    && |Flatten(ExtensionFrames(h.extensions))| < 0x1_0000
  }

  function SessionBytes(id: seq<byte>): seq<byte>
    requires |id| <= 32
  {
    [|id|] + id
  }

  function CipherBytes(suites: seq<CipherSuite>): seq<byte>
    requires 2 * |suites| < 0x1_0000
    requires forall i :: 0 <= i < |suites| ==> CodeOf(suites[i]) < 0x1_0000
  {
    PutU16(2 * |suites|) + SuiteBytes(suites)
  }

  function MethodBytes(n: nat): seq<byte>
    requires n < 256
  {
    [n] + seq(n, _ => 0)
  }

  function ExtensionBytes(es: seq<Extension>): seq<byte>
    requires forall i :: 0 <= i < |es| ==> ValidExtension(es[i])
    requires |Flatten(ExtensionFrames(es))| < 0x1_0000
  {
    PutU16(|Flatten(ExtensionFrames(es))|) + Flatten(ExtensionFrames(es))
  }

  function HelloBody(h: ClientHello): (s: seq<byte>)
    requires WellFormed(h)
    ensures |s| < 0x100_0000
  {
    [h.clientVersion.major, h.clientVersion.minor] + (PutU32(h.random.gmtUnixTime) + h.random.randomBytes)
    + (SessionBytes(h.sessionId) + (CipherBytes(h.cipherSuites)
       + (MethodBytes(|h.compressionMethods|) + ExtensionBytes(h.extensions))))
  }

  function PutU24(n: nat): (s: seq<byte>)
    requires n < 0x100_0000
    ensures |s| == 3 && U24(s[0], s[1], s[2]) == n
  {
    assert n / 0x1_0000 * 0x1_0000 + n % 0x1_0000 == n;
    var hi: byte, low: nat :| low < 0x1_0000 && hi * 0x1_0000 + low == n;
    [hi] + PutU16(low)
  }

  function Message(msgType: byte, body: seq<byte>): seq<byte>
    requires |body| < 0x100_0000
  {
    [msgType] + PutU24(|body|) + body
  }

  function HandshakeBytes(h: ClientHello): seq<byte>
    requires WellFormed(h)
  {
    Message(HANDSHAKE_CLIENT_HELLO, HelloBody(h))
  }

  // ---- Lists

  predicate FrameOk(kind: ListKind, f: Frame)
  {
    |f.header| == HeaderLen(kind) && BodyLen(kind, f.header) == |f.body|
  }

  /** Splitting a run of well-formed entries gives the entries back. */
  lemma {:induction false} FramesOfFlatten(kind: ListKind, fs: seq<Frame>)
    requires forall i :: 0 <= i < |fs| ==> FrameOk(kind, fs[i])
    ensures Framed(kind, Flatten(fs)) && Frames(kind, Flatten(fs)) == fs
    decreases |fs|
  {
    if fs != [] {
      var f, s := fs[0], Flatten(fs);
      assert FrameOk(kind, f);
      assert s[..HeaderLen(kind)] == f.header;
      assert AfterFirst(kind, s) == Flatten(fs[1..]);
      assert FirstFrame(kind, s) == f;
      FramesOfFlatten(kind, fs[1..]);
      assert fs == [f] + fs[1..];
    }
  }

  lemma {:induction false} CollectOk<T>(f: Frame --> Result<T>, fs: seq<Frame>, vs: seq<T>)
    requires |fs| == |vs|
    requires forall i :: 0 <= i < |fs| ==> f.requires(fs[i]) && f(fs[i]) == Ok(vs[i])
    ensures Collect(f, fs) == Ok(vs)
    decreases |fs|
  {
    if fs != [] {
      var n := |fs| - 1;
      CollectOk(f, fs[..n], vs[..n]);
      assert vs == vs[..n] + [vs[n]];
    }
  }

  lemma PrefixedBytes(list: seq<byte>, s: seq<byte>)
    requires |list| < 0x1_0000 && s == PutU16(|list|) + list
    ensures |s| == 2 + |list| && U16(s[0], s[1]) == |list| && s[2..2 + |list|] == list
  {
    var length := PutU16(|list|);
    assert s[0] == length[0] && s[1] == length[1];
  }

  lemma ListFrom<T>(kind: ListKind, f: Frame --> Result<T>, list: seq<byte>, s: seq<byte>)
    requires forall fr: Frame :: |fr.header| == HeaderLen(kind) ==> f.requires(fr)
    requires |s| == 2 + |list| && U16(s[0], s[1]) == |list| && s[2..2 + |list|] == list && Framed(kind, list)
    ensures ListOf(kind, f, s) == Collect(f, Frames(kind, list))
  {
    var n := U16(s[0], s[1]);
    assert n == |list| && s[2..2 + n] == list;
  }

  lemma ListRoundTrip<T>(kind: ListKind, f: Frame --> Result<T>, fs: seq<Frame>, vs: seq<T>, s: seq<byte>)
    requires forall fr: Frame :: |fr.header| == HeaderLen(kind) ==> f.requires(fr)
    requires |fs| == |vs| && |Flatten(fs)| < 0x1_0000
    requires forall i :: 0 <= i < |fs| ==> FrameOk(kind, fs[i]) && f(fs[i]) == Ok(vs[i])
    requires s == PutU16(|Flatten(fs)|) + Flatten(fs)
    ensures ListOf(kind, f, s) == Ok(vs)
  {
    PrefixedBytes(Flatten(fs), s);
    FramesOfFlatten(kind, fs);
    CollectOk(f, fs, vs);
    ListFrom(kind, f, Flatten(fs), s);
  }

  lemma ExtensionRoundTrip(e: Extension)
    requires ValidExtension(e)
    ensures FrameOk(ExtensionList, ExtensionFrame(e))
    ensures ExtensionOf(ExtensionFrame(e)) == Ok(e)
  {
    var f := ExtensionFrame(e);
    match e {
      case ServerName(names) =>
        ListRoundTrip(ServerNameList, ServerNameOf, NameFrames(names), names, f.body);
      case Alpn(protocols) =>
        ListRoundTrip(AlpnList, AlpnOf, AlpnFrames(protocols), protocols, f.body);
      case UnknownExtension(id, data) =>
    }
  }

  lemma ExtensionsRoundTrip(es: seq<Extension>)
    requires forall i :: 0 <= i < |es| ==> ValidExtension(es[i])
    requires |Flatten(ExtensionFrames(es))| < 0x1_0000
    ensures ListOf(ExtensionList, ExtensionOf, ExtensionBytes(es)) == Ok(es)
  {
    forall i | 0 <= i < |es|
      ensures FrameOk(ExtensionList, ExtensionFrames(es)[i]) && ExtensionOf(ExtensionFrames(es)[i]) == Ok(es[i])
    {
      ExtensionRoundTrip(es[i]);
    }
    ListRoundTrip(ExtensionList, ExtensionOf, ExtensionFrames(es), es, ExtensionBytes(es));
  }

  // ---- Fixed parts

  lemma {:induction false} SuiteBytesAt(suites: seq<CipherSuite>, i: nat)
    requires i < |suites|
    requires forall j :: 0 <= j < |suites| ==> CodeOf(suites[j]) < 0x1_0000
    ensures U16(SuiteBytes(suites)[2 * i], SuiteBytes(suites)[2 * i + 1]) == CodeOf(suites[i])
  {
    if i > 0 {
      SuiteBytesAt(suites[1..], i - 1);
      assert SuiteBytes(suites)[2..] == SuiteBytes(suites[1..]);
    }
  }

  lemma SuiteIsCode(codes: seq<byte>, front: seq<byte>, n: nat, i: nat, code: nat)
    requires i < n && 2 * n <= |front| && front <= codes && U16(front[2 * i], front[2 * i + 1]) == code
    ensures Suites(codes, n)[i] == SuiteOf(code)
  {
    assert codes[2 * i] == front[2 * i] && codes[2 * i + 1] == front[2 * i + 1];
  }

  lemma SuitesReadBack(suites: seq<CipherSuite>, tail: seq<byte>)
    requires forall i :: 0 <= i < |suites| ==>
               CodeOf(suites[i]) < 0x1_0000 && SuiteOf(CodeOf(suites[i])) == suites[i]
    ensures Suites(SuiteBytes(suites) + tail, |suites|) == suites
  {
    var codes := SuiteBytes(suites) + tail;
    forall i | 0 <= i < |suites|
      ensures Suites(codes, |suites|)[i] == suites[i]
    {
      SuiteBytesAt(suites, i);
      SuiteIsCode(codes, SuiteBytes(suites), |suites|, i, CodeOf(suites[i]));
    }
  }

  lemma CipherHeader(n: nat, codes: seq<byte>)
    requires 2 * n < 0x1_0000 && 2 * n <= |codes|
    ensures ParseCipherSuites(PutU16(2 * n) + codes) == Ok((Suites(codes, n), 2 + 2 * n))
  {
    var header, s := PutU16(2 * n), PutU16(2 * n) + codes;
    assert s[0] == header[0] && s[1] == header[1] && s[2..] == codes;
  }

  lemma SuitesRoundTrip(suites: seq<CipherSuite>, tail: seq<byte>)
    requires 2 * |suites| < 0x1_0000
    requires forall i :: 0 <= i < |suites| ==>
               CodeOf(suites[i]) < 0x1_0000 && SuiteOf(CodeOf(suites[i])) == suites[i]
    ensures ParseCipherSuites(CipherBytes(suites) + tail) == Ok((suites, |CipherBytes(suites)|))
  {
    var codes := SuiteBytes(suites) + tail;
    assert CipherBytes(suites) + tail == PutU16(2 * |suites|) + codes;
    CipherHeader(|suites|, codes);
    SuitesReadBack(suites, tail);
  }

  lemma {:induction false} MethodsRoundTrip(ms: seq<CompressionMethod>, tail: seq<byte>)
    ensures ParseMethods(seq(|ms|, _ => 0) + tail, |ms|) == Ok(ms)
    decreases |ms|
  {
    if ms != [] {
      MethodsRoundTrip(ms[1..], tail);
      assert (seq(|ms|, _ => 0) + tail)[1..] == seq(|ms| - 1, _ => 0) + tail;
      assert ms[0].NullCompression?;
      assert ms == [NullCompression] + ms[1..];
    }
  }

  lemma CompressionRoundTrip(ms: seq<CompressionMethod>, tail: seq<byte>)
    requires |ms| < 256
    ensures ParseCompressionMethods(MethodBytes(|ms|) + tail) == Ok((ms, |MethodBytes(|ms|)|))
  {
    assert (MethodBytes(|ms|) + tail)[1..] == seq(|ms|, _ => 0) + tail;
    MethodsRoundTrip(ms, tail);
  }

  lemma SessionRoundTrip(id: seq<byte>, tail: seq<byte>)
    requires |id| <= 32
    ensures ParseSessionId(SessionBytes(id) + tail) == Ok((id, |SessionBytes(id)|))
  {
    var s := SessionBytes(id) + tail;
    assert s[1..1 + |id|] == id;
  }

  lemma RandomRoundTrip(r: Random)
    requires |r.randomBytes| == 28 && r.gmtUnixTime < 0x1_0000_0000
    ensures ParseRandom(PutU32(r.gmtUnixTime) + r.randomBytes) == r
  {
    var s := PutU32(r.gmtUnixTime) + r.randomBytes;
    assert s[..4] == PutU32(r.gmtUnixTime) && s[4..] == r.randomBytes;
  }

  lemma TailFromParts(
    b: seq<byte>, c: seq<byte>, d: seq<byte>, e: seq<byte>,
    id: seq<byte>, suites: seq<CipherSuite>, methods: seq<CompressionMethod>, extensions: seq<Extension>)
    requires ParseSessionId(b + (c + (d + e))) == Ok((id, |b|))
    requires ParseCipherSuites(c + (d + e)) == Ok((suites, |c|))
    requires ParseCompressionMethods(d + e) == Ok((methods, |d|))
    requires ListOf(ExtensionList, ExtensionOf, e) == Ok(extensions)
    ensures ParseHelloTail(b + (c + (d + e))) == Ok(HelloTail(id, suites, methods, extensions))
  {
    assert (b + (c + (d + e)))[|b|..] == c + (d + e);
    assert (c + (d + e))[|c|..] == d + e;
    assert (d + e)[|d|..] == e;
  }

  lemma HelloFromParts(
    s: seq<byte>, fixed: seq<byte>, b: seq<byte>, c: seq<byte>, d: seq<byte>, e: seq<byte>,
    id: seq<byte>, suites: seq<CipherSuite>, methods: seq<CompressionMethod>, extensions: seq<Extension>)
    requires |fixed| == 34 && s == fixed + (b + (c + (d + e)))
    requires ParseSessionId(b + (c + (d + e))) == Ok((id, |b|))
    requires ParseCipherSuites(c + (d + e)) == Ok((suites, |c|))
    requires ParseCompressionMethods(d + e) == Ok((methods, |d|))
    requires ListOf(ExtensionList, ExtensionOf, e) == Ok(extensions)
    ensures ParseClientHello(s)
         == Ok(ClientHello(ProtocolVersion(fixed[0], fixed[1]), ParseRandom(fixed[2..]), id, suites, methods,
                           extensions))
  {
    assert s[34..] == b + (c + (d + e));
    assert s[2..34] == fixed[2..];
    TailFromParts(b, c, d, e, id, suites, methods, extensions);
  }

  lemma HelloRoundTrip(h: ClientHello)
    requires WellFormed(h)
    ensures ParseClientHello(HelloBody(h)) == Ok(h)
  {
    var b, c := SessionBytes(h.sessionId), CipherBytes(h.cipherSuites);
    var d, e := MethodBytes(|h.compressionMethods|), ExtensionBytes(h.extensions);
    var random := PutU32(h.random.gmtUnixTime) + h.random.randomBytes;
    var fixed := [h.clientVersion.major, h.clientVersion.minor] + random;
    assert fixed[2..] == random;
    RandomRoundTrip(h.random);
    SessionRoundTrip(h.sessionId, c + (d + e));
    SuitesRoundTrip(h.cipherSuites, d + e);
    CompressionRoundTrip(h.compressionMethods, e);
    ExtensionsRoundTrip(h.extensions);
    HelloFromParts(HelloBody(h), fixed, b, c, d, e,
                   h.sessionId, h.cipherSuites, h.compressionMethods, h.extensions);
  }

  lemma MessageLayout(msgType: byte, body: seq<byte>, s: seq<byte>)
    requires |body| < 0x100_0000 && Message(msgType, body) <= s
    ensures 4 + |body| <= |s| && s[0] == msgType
    ensures U24(s[1], s[2], s[3]) == |body| && s[4..4 + |body|] == body
  {
    var m := Message(msgType, body);
    assert forall i :: 0 <= i < |m| ==> s[i] == m[i];
    assert s[4..4 + |body|] == m[4..] == body;
  }

  lemma ParseHelloMessage(s: seq<byte>, body: seq<byte>, h: ClientHello)
    requires |body| < 0x100_0000 && Message(HANDSHAKE_CLIENT_HELLO, body) <= s
    requires ParseClientHello(body) == Ok(h)
    ensures ParseHandshake(s) == Ok(HelloMessage(h))
  {
    MessageLayout(HANDSHAKE_CLIENT_HELLO, body, s);
  }

  lemma HandshakeRoundTrip(h: ClientHello, s: seq<byte>)
    requires WellFormed(h)
    requires HandshakeBytes(h) <= s
    ensures ParseHandshake(s) == Ok(HelloMessage(h))
  {
    HelloRoundTrip(h);
    ParseHelloMessage(s, HelloBody(h), h);
  }

  // ---- Records

  function RecordBytes(r: Record): (s: seq<byte>)
    requires |r.data| < 0x1_0000
    ensures RecordFits(s) && RecordLen(s) == |s| && FirstRecord(s) == r
  {
    var length := PutU16(|r.data|);
    var header := [r.contentType, r.version.major, r.version.minor, length[0], length[1]];
    var s := header + r.data;
    assert s[3] == length[0] && s[4] == length[1] && s[5..] == r.data;
    s
  }

  function StreamBytes(rs: seq<Record>): seq<byte>
    requires forall i :: 0 <= i < |rs| ==> |rs[i].data| < 0x1_0000
  {
    if rs == [] then [] else RecordBytes(rs[0]) + StreamBytes(rs[1..])
  }

  /** What the records carry as handshake data, whatever else is interleaved. */
  function HandshakeData(rs: seq<Record>): seq<byte>
  {
    if rs == [] then [] else HandshakePart(rs[0]) + HandshakeData(rs[1..])
  }

  lemma {:induction false} UnframeStream(rs: seq<Record>)
    requires forall i :: 0 <= i < |rs| ==> |rs[i].data| < 0x1_0000
    ensures Unframe(StreamBytes(rs)) == Ok(HandshakeData(rs))
    decreases |rs|
  {
    if rs != [] {
      var s := StreamBytes(rs);
      assert s[RecordLen(s)..] == StreamBytes(rs[1..]);
      assert FirstRecord(s) == rs[0];
      UnframeStream(rs[1..]);
    }
  }

  /**
   * However the handshake bytes are cut into records, and whatever other records stand between them,
   * the decoder returns the ClientHello that was sent.
   */
  lemma FragmentationIndependence(h: ClientHello, rs: seq<Record>)
    requires WellFormed(h)
    requires forall i :: 0 <= i < |rs| ==> |rs[i].data| < 0x1_0000
    requires HandshakeBytes(h) <= HandshakeData(rs)
    ensures Decode(StreamBytes(rs)) == Ok(h)
  {
    UnframeStream(rs);
    HandshakeRoundTrip(h, HandshakeData(rs));
  }

  // ---- Growing buffers

  /** Once the framing of a stream is complete, more bytes only add handshake data. */
  lemma {:induction false} UnframeGrows(s: seq<byte>, t: seq<byte>)
    requires s <= t && Unframe(s).Ok? && Unframe(t).Ok?
    ensures Unframe(s).value <= Unframe(t).value
    decreases |s|
  {
    if s != [] {
      assert FirstRecord(t) == FirstRecord(s);
      UnframeGrows(s[RecordLen(s)..], t[RecordLen(s)..]);
    }
  }

  lemma MessageIsStable(s: seq<byte>, t: seq<byte>)
    requires s <= t && ParseMessage(s).Ok?
    ensures ParseMessage(t) == ParseMessage(s)
  {
    assert t[0] == s[0] && t[1] == s[1] && t[2] == s[2] && t[3] == s[3];
    var n := U24(s[1], s[2], s[3]);
    assert t[4..4 + n] == s[4..4 + n];
  }

  lemma HandshakeIsStable(s: seq<byte>, t: seq<byte>)
    requires s <= t && ParseHandshake(s) != Err(Truncated)
    ensures ParseHandshake(t) == ParseHandshake(s)
  {
    MessageIsStable(s, t);
  }

  lemma {:induction false} UnframeErrors(s: seq<byte>)
    ensures Unframe(s).Err? ==> Unframe(s) == Err(Truncated)
    decreases |s|
  {
    if s != [] && RecordFits(s) {
      UnframeErrors(s[RecordLen(s)..]);
    }
  }

  lemma DecodeIsStable(s: seq<byte>, t: seq<byte>)
    requires s <= t && Decode(s) != Err(Truncated) && Decode(t) != Err(Truncated)
    ensures Decode(t) == Decode(s)
  {
    UnframeErrors(s);
    UnframeErrors(t);
    UnframeGrows(s, t);
    HandshakeIsStable(Unframe(s).value, Unframe(t).value);
  }

  /** Two prefixes of one stream never get different answers: an answer, once given, is final. */
  lemma PrefixStability(stream: seq<byte>, i: nat, j: nat)
    requires i <= |stream| && j <= |stream|
    requires Decode(stream[..i]) != Err(Truncated) && Decode(stream[..j]) != Err(Truncated)
    ensures Decode(stream[..i]) == Decode(stream[..j])
  {
    if i <= j {
      DecodeIsStable(stream[..i], stream[..j]);
    } else {
      DecodeIsStable(stream[..j], stream[..i]);
    }
  }
}
