/**
 * The ClientHello data model and what its decoder computes, as functions of the input bytes
 * (parsing/tls/src/lib.rs). The readers that advance an iterator are in TlsReader.
 */
module TlsModel {
  import opened Bytes
  import opened Words
  import opened Utf8

  datatype ErrorKind = Truncated | ProtocolViolation | Other

  datatype Result<+T> = Ok(value: T) | Err(error: ErrorKind) {
    predicate IsFailure() { Err? }
    function PropagateFailure<U>(): Result<U>
      requires Err?
    {
      Err(error)
    }
    function Extract(): T
      requires Ok?
    {
      value
    }
  }

  datatype ProtocolVersion = ProtocolVersion(major: byte, minor: byte)

  datatype Random = Random(gmtUnixTime: nat, randomBytes: seq<byte>)

  datatype CipherSuite =
    | EcdheEcdsaAes128GcmSha256
    | EcdheRsaAes128GcmSha256
    | EcdheEcdsaChacha20Poly1305Sha256
    | EcdheRsaChacha20Poly1305Sha256
    | EcdheEcdsaAes256GcmSha384
    | EcdheRsaAes256GcmSha384
    | EcdheEcdsaAes256CbcSha
    | EcdheEcdsaAes128CbcSha
    | EcdheRsaAes128CbcSha
    | EcdheRsaAes256CbcSha
    | DheRsaAes128CbcSha
    | DheRsaAes256CbcSha
    | RsaAes128CbcSha
    | RsaAes256CbcSha
    | Rsa3desEdeCbcSha
    | UnknownSuite(code: nat)

  datatype CompressionMethod = NullCompression

  /** Names are kept as the bytes of their UTF-8 form. */
  datatype Extension =
    | ServerName(names: seq<seq<byte>>)
    | Alpn(protocols: seq<seq<byte>>)
    | UnknownExtension(id: nat, data: seq<byte>)

  datatype ClientHello = ClientHello(
    clientVersion: ProtocolVersion,
    random: Random,
    sessionId: seq<byte>,
    cipherSuites: seq<CipherSuite>,
    compressionMethods: seq<CompressionMethod>,
    extensions: seq<Extension>)

  datatype Handshake = HelloMessage(hello: ClientHello) | UnknownMessage(msgType: byte, data: seq<byte>)

  datatype Record = Record(contentType: byte, version: ProtocolVersion, data: seq<byte>)

  const HANDSHAKE_CLIENT_HELLO: byte := 1
  const RECORD_CONTENT_TYPE_HANDSHAKE: byte := 22
  const SERVER_NAME_ID: nat := 0x0000
  const ALPN_ID: nat := 0x0010

  function SuiteOf(code: nat): CipherSuite
  {
    match code
    case 0xc02b => EcdheEcdsaAes128GcmSha256
    case 0xc02f => EcdheRsaAes128GcmSha256
    case 0xcca9 => EcdheEcdsaChacha20Poly1305Sha256
    case 0xcca8 => EcdheRsaChacha20Poly1305Sha256
    case 0xc02c => EcdheEcdsaAes256GcmSha384
    case 0xc030 => EcdheRsaAes256GcmSha384
    case 0xc00a => EcdheEcdsaAes256CbcSha
    case 0xc009 => EcdheEcdsaAes128CbcSha
    case 0xc013 => EcdheRsaAes128CbcSha
    case 0xc014 => EcdheRsaAes256CbcSha
    case 0x0033 => DheRsaAes128CbcSha
    case 0x0039 => DheRsaAes256CbcSha
    case 0x002f => RsaAes128CbcSha
    case 0x0035 => RsaAes256CbcSha
    case 0x000a => Rsa3desEdeCbcSha
    case _ => UnknownSuite(code)
  }

  // ---- Lists of length-prefixed entries

  /** The three nested lists: their entries differ only in the shape of the header. */
  datatype ListKind = ExtensionList | ServerNameList | AlpnList

  datatype Frame = Frame(header: seq<byte>, body: seq<byte>)

  function HeaderLen(kind: ListKind): nat
  {
    match kind
    case ExtensionList => 4
    case ServerNameList => 3
    case AlpnList => 1
  }

  function BodyLen(kind: ListKind, header: seq<byte>): nat
    requires |header| == HeaderLen(kind)
  {
    match kind
    case ExtensionList => U16(header[2], header[3])
    case ServerNameList => U16(header[1], header[2])
    case AlpnList => header[0]
  }

  predicate FrameFits(kind: ListKind, s: seq<byte>)
  {
    HeaderLen(kind) <= |s| && HeaderLen(kind) + BodyLen(kind, s[..HeaderLen(kind)]) <= |s|
  }

  function FirstFrame(kind: ListKind, s: seq<byte>): (f: Frame)
    requires FrameFits(kind, s)
    ensures |f.header| == HeaderLen(kind)
    ensures |f.header| + |f.body| <= |s| && s == f.header + f.body + s[|f.header| + |f.body|..]
  {
    var h := HeaderLen(kind);
    Frame(s[..h], s[h..h + BodyLen(kind, s[..h])])
  }

  function AfterFirst(kind: ListKind, s: seq<byte>): (rest: seq<byte>)
    requires FrameFits(kind, s)
    ensures |rest| < |s|
  {
    s[HeaderLen(kind) + BodyLen(kind, s[..HeaderLen(kind)])..]
  }

  /** `s` is a run of whole entries. */
  predicate Framed(kind: ListKind, s: seq<byte>)
    decreases |s|
  {
    s == [] || (FrameFits(kind, s) && Framed(kind, AfterFirst(kind, s)))
  }

  function Frames(kind: ListKind, s: seq<byte>): (fs: seq<Frame>)
    requires Framed(kind, s)
    ensures forall i :: 0 <= i < |fs| ==> |fs[i].header| == HeaderLen(kind)
    decreases |s|
  {
    if s == [] then [] else [FirstFrame(kind, s)] + Frames(kind, AfterFirst(kind, s))
  }

  /** The values of all entries, or the first error. */
  function Collect<T>(f: Frame --> Result<T>, fs: seq<Frame>): Result<seq<T>>
    requires forall i :: 0 <= i < |fs| ==> f.requires(fs[i])
  {
    if fs == [] then Ok([])
    else
      var init :- Collect(f, fs[..|fs| - 1]);
      var last :- f(fs[|fs| - 1]);
      Ok(init + [last])
  }

  /** A u16 length, then that many bytes of entries; later bytes are ignored. */
  function ListOf<T>(kind: ListKind, f: Frame --> Result<T>, s: seq<byte>): Result<seq<T>>
    requires forall fr: Frame :: |fr.header| == HeaderLen(kind) ==> f.requires(fr)
  {
    if |s| < 2 || |s| < 2 + U16(s[0], s[1]) then Err(Truncated)
    else
      var entries := s[2..2 + U16(s[0], s[1])];
      if !Framed(kind, entries) then Err(Truncated) else Collect(f, Frames(kind, entries))
  }

  function ServerNameOf(f: Frame): Result<seq<byte>>
    requires |f.header| == 3
  {
    if f.header[0] != 0 || !IsUtf8(f.body) then Err(ProtocolViolation) else Ok(f.body)
  }

  function AlpnOf(f: Frame): Result<seq<byte>>
  {
    if !IsUtf8(f.body) then Err(ProtocolViolation) else Ok(f.body)
  }

  function ExtensionOf(f: Frame): Result<Extension>
    requires |f.header| == 4
  {
    var id := U16(f.header[0], f.header[1]);
    if id == SERVER_NAME_ID then
      var names :- ListOf(ServerNameList, ServerNameOf, f.body);
      Ok(ServerName(names))
    else if id == ALPN_ID then
      var protocols :- ListOf(AlpnList, AlpnOf, f.body);
      Ok(Alpn(protocols))
    else Ok(UnknownExtension(id, f.body))
  }

  // ---- The parts of a ClientHello: each parser also tells how many bytes it used

  function ParseSessionId(s: seq<byte>): Result<(seq<byte>, nat)>
  {
    if s == [] then Err(Truncated)
    else if 32 < s[0] then Err(ProtocolViolation)
    else if |s| < 1 + s[0] then Err(Truncated)
    else Ok((s[1..1 + s[0]], 1 + s[0]))
  }

  function Suites(s: seq<byte>, n: nat): (suites: seq<CipherSuite>)
    requires 2 * n <= |s|
    ensures |suites| == n
  {
    seq(n, i requires 0 <= i < n => SuiteOf(U16(s[2 * i], s[2 * i + 1])))
  }

  function ParseCipherSuites(s: seq<byte>): Result<(seq<CipherSuite>, nat)>
  {
    if |s| < 2 then Err(Truncated)
    else
      var length := U16(s[0], s[1]);
      if length % 2 != 0 then Err(ProtocolViolation)
      else if |s| < 2 + length then Err(Truncated)
      else Ok((Suites(s[2..], length / 2), 2 + length))
  }

  /** Reads `n` methods; a byte other than 0 is reported even when later bytes are missing. */
  function ParseMethods(s: seq<byte>, n: nat): Result<seq<CompressionMethod>>
  {
    if n == 0 then Ok([])
    else if s == [] then Err(Truncated)
    else if s[0] != 0 then Err(ProtocolViolation)
    else
      var rest :- ParseMethods(s[1..], n - 1);
      Ok([NullCompression] + rest)
  }

  function ParseCompressionMethods(s: seq<byte>): (r: Result<(seq<CompressionMethod>, nat)>)
  {
    if s == [] then Err(Truncated)
    else
      var methods :- ParseMethods(s[1..], s[0]);
      var n: nat := s[0];
      Ok((methods, 1 + n))
  }

  function ParseRandom(s: seq<byte>): Random
    requires |s| == 32
  {
    Random(U32(s[..4]), s[4..])
  }

  /** What follows the version and the random. */
  datatype HelloTail = HelloTail(
    sessionId: seq<byte>,
    cipherSuites: seq<CipherSuite>,
    compressionMethods: seq<CompressionMethod>,
    extensions: seq<Extension>)

  lemma {:induction false} MethodsPresent(s: seq<byte>, n: nat)
    requires ParseMethods(s, n).Ok?
    ensures n <= |s|
  {
    if n > 0 {
      MethodsPresent(s[1..], n - 1);
    }
  }

  lemma MethodsLength(s: seq<byte>)
    requires ParseCompressionMethods(s).Ok?
    ensures ParseCompressionMethods(s).value.1 <= |s|
  {
    MethodsPresent(s[1..], s[0]);
  }

  function ParseHelloTail(s: seq<byte>): Result<HelloTail>
  {
    var session :- ParseSessionId(s);
    var s1 := s[session.1..];
    var suites :- ParseCipherSuites(s1);
    var s2 := s1[suites.1..];
    var methods :- ParseCompressionMethods(s2);
    MethodsLength(s2);
    var extensions :- ListOf(ExtensionList, ExtensionOf, s2[methods.1..]);
    Ok(HelloTail(session.0, suites.0, methods.0, extensions))
  }

  function ParseClientHello(s: seq<byte>): Result<ClientHello>
  {
    if |s| < 34 then Err(Truncated)
    else
      var tail :- ParseHelloTail(s[34..]);
      Ok(ClientHello(ProtocolVersion(s[0], s[1]), ParseRandom(s[2..34]), tail.sessionId, tail.cipherSuites,
                     tail.compressionMethods, tail.extensions))
  }

  function U24(a: byte, b: byte, c: byte): (n: nat)
    ensures n < 0x100_0000
  {
    U16(a, b) * 256 + c
  }

  datatype RawMessage = RawMessage(msgType: byte, body: seq<byte>)

  /** A handshake message: its type, and the body that three length bytes announce. */
  function ParseMessage(s: seq<byte>): Result<RawMessage>
  {
    if |s| < 4 then Err(Truncated)
    else
      var length := U24(s[1], s[2], s[3]);
      if |s| < 4 + length then Err(Truncated) else Ok(RawMessage(s[0], s[4..4 + length]))
  }

  function ParseHandshake(s: seq<byte>): Result<Handshake>
  {
    var message :- ParseMessage(s);
    if message.msgType == HANDSHAKE_CLIENT_HELLO then
      var hello :- ParseClientHello(message.body);
      Ok(HelloMessage(hello))
    else Ok(UnknownMessage(message.msgType, message.body))
  }

  // ---- Records

  predicate RecordFits(s: seq<byte>)
  {
    5 <= |s| && 5 + U16(s[3], s[4]) <= |s|
  }

  function RecordLen(s: seq<byte>): (n: nat)
    requires RecordFits(s)
    ensures 5 <= n <= |s|
  {
    5 + U16(s[3], s[4])
  }

  function FirstRecord(s: seq<byte>): Record
    requires RecordFits(s)
  {
    Record(s[0], ProtocolVersion(s[1], s[2]), s[5..RecordLen(s)])
  }

  function HandshakePart(r: Record): seq<byte>
  {
    if r.contentType == RECORD_CONTENT_TYPE_HANDSHAKE then r.data else []
  }

  /** The handshake bytes of a stream of whole records. */
  function Unframe(s: seq<byte>): Result<seq<byte>>
    decreases |s|
  {
    if s == [] then Ok([])
    else if !RecordFits(s) then Err(Truncated)
    else
      var rest :- Unframe(s[RecordLen(s)..]);
      Ok(HandshakePart(FirstRecord(s)) + rest)
  }

  function Interpret(message: Handshake): Result<ClientHello>
  {
    match message
    case HelloMessage(hello) => Ok(hello)
    case UnknownMessage(_, _) => Err(Other)
  }

  function Decode(s: seq<byte>): Result<ClientHello>
  {
    var handshakeBytes :- Unframe(s);
    var message :- ParseHandshake(handshakeBytes);
    Interpret(message)
  }
}
