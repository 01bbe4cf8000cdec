/**
 * The wire format of a ClientHello spelled out in numbers: big-endian lengths, the content types and
 * identifiers of section 6.2.1 and 7.4.1.2 of RFC 5246, section 3 of RFC 6066 and section 3.1 of RFC
 * 7301, and what the decoder says of a ClientHello that breaks the format.
 */
module TlsLayout {
  import opened Bytes
  import opened Positional
  import opened Words
  import opened Utf8
  import opened TlsModel
  import opened TlsWire

  // ---- Integers

  lemma U24IsBigEndian(a: byte, b: byte, c: byte)
    ensures U24(a, b, c) == Value([a, b, c], 256)
  {
    ValueOfTwo(a, b);
    U16IsBigEndian(a, b);
    ValueOfThree(a, b, c);
  }

  lemma PutU24IsBigEndian(n: nat)
    requires n < 0x100_0000
    ensures PutU24(n) == Three(n)
  {
    var s, t := PutU24(n), Three(n);
    assert t == [t[0], t[1], t[2]] && s == [s[0], s[1], s[2]];
    U24IsBigEndian(s[0], s[1], s[2]);
    SameBytes(s, t);
  }

  // ---- Records and messages

  /** A record: content type, version, two length bytes, data. */
  lemma RecordLayout(r: Record)
    requires |r.data| < 0x1_0000
    ensures RecordBytes(r) == [r.contentType, r.version.major, r.version.minor] + Two(|r.data|) + r.data
  {
    PutU16IsBigEndian(|r.data|);
  }

  /** The ClientHello message: type 1, three length bytes, body. */
  lemma HandshakeLayout(h: ClientHello)
    requires WellFormed(h)
    ensures HandshakeBytes(h) == [1] + Three(|HelloBody(h)|) + HelloBody(h)
  {
    PutU24IsBigEndian(|HelloBody(h)|);
  }

  function InParts(
    version: ProtocolVersion, random: Random, session: seq<byte>, suites: seq<byte>, methods: seq<byte>,
    extensions: seq<byte>): seq<byte>
    requires random.gmtUnixTime < 0x1_0000_0000
  {
    [version.major, version.minor] + (PutU32(random.gmtUnixTime) + random.randomBytes)
    + (session + (suites + (methods + extensions)))
  }

  /**
   * The body: version, time and random, then the session id, the cipher suites, the compression methods
   * and the extensions, each behind its length.
   */
  lemma HelloLayout(h: ClientHello, session: seq<byte>, suites: seq<byte>, methods: seq<byte>, extensions: seq<byte>)
    requires WellFormed(h)
    requires session == [|h.sessionId|] + h.sessionId
    requires suites == Two(2 * |h.cipherSuites|) + SuiteBytes(h.cipherSuites)
    requires methods == [|h.compressionMethods|] + seq(|h.compressionMethods|, _ => 0)
    requires extensions == Two(|Flatten(ExtensionFrames(h.extensions))|) + Flatten(ExtensionFrames(h.extensions))
    ensures HelloBody(h) == InParts(h.clientVersion, h.random, session, suites, methods, extensions)
  {
    PutU16IsBigEndian(2 * |h.cipherSuites|);
    PutU16IsBigEndian(|Flatten(ExtensionFrames(h.extensions))|);
  }

  lemma SingleRecord(r: Record, rs: seq<Record>)
    requires |r.data| < 0x1_0000 && rs == [r]
    ensures StreamBytes(rs) == RecordBytes(r) && HandshakeData(rs) == HandshakePart(r)
  {
    assert rs[1..] == [];
    assert RecordBytes(r) + [] == RecordBytes(r) && HandshakePart(r) + [] == HandshakePart(r);
  }

  lemma RecordIsRead(h: ClientHello, r: Record)
    requires WellFormed(h) && r.contentType == 22 && |r.data| < 0x1_0000 && r.data == HandshakeBytes(h)
    ensures Decode(RecordBytes(r)) == Ok(h)
  {
    SingleRecord(r, [r]);
    FragmentationIndependence(h, [r]);
  }

  /** Every ClientHello that fits one record is read from its bytes in that record. */
  lemma OneRecord(h: ClientHello, record: ProtocolVersion, body: seq<byte>)
    requires WellFormed(h) && body == HelloBody(h) && |body| < 0xfffc
    ensures Decode([22, record.major, record.minor] + Two(4 + |body|) + ([1] + Three(|body|) + body)) == Ok(h)
  {
    var data := [1] + Three(|body|) + body;
    HandshakeLayout(h);
    assert |data| == 4 + |body|;
    RecordLayout(Record(22, record, data));
    RecordIsRead(h, Record(22, record, data));
  }

  lemma SmallTwo(n: nat)
    requires n < 256
    ensures Two(n) == [0, n]
  {
    var s := Two(n);
    assert s == [s[0], s[1]];
    ValueOfTwo(s[0], s[1]);
  }

  /** Server names are extension 0, each name a host_name of type 0 with a two-byte length. */
  lemma ServerNameLayout(names: seq<seq<byte>>)
    requires ValidExtension(ServerName(names))
    ensures var list, f := Flatten(NameFrames(names)), ExtensionFrame(ServerName(names));
            f.header == [0, 0] + Two(2 + |list|) && f.body == Two(|list|) + list
    ensures forall i :: 0 <= i < |names| ==>
              NameFrames(names)[i].header == [0] + Two(|names[i]|) && NameFrames(names)[i].body == names[i]
  {
    var list := Flatten(NameFrames(names));
    PutU16IsBigEndian(2 + |list|);
    PutU16IsBigEndian(|list|);
    PutU16IsBigEndian(0);
    ValueOfTwo(0, 0);
    SmallTwo(0);
    forall i | 0 <= i < |names|
      ensures NameFrames(names)[i].header == [0] + Two(|names[i]|)
    {
      PutU16IsBigEndian(|names[i]|);
    }
  }

  /** ALPN is extension 16, each protocol with a one-byte length. */
  lemma AlpnLayout(protocols: seq<seq<byte>>)
    requires ValidExtension(Alpn(protocols))
    ensures var list, f := Flatten(AlpnFrames(protocols)), ExtensionFrame(Alpn(protocols));
            f.header == [0, 16] + Two(2 + |list|) && f.body == Two(|list|) + list
    ensures forall i :: 0 <= i < |protocols| ==>
              AlpnFrames(protocols)[i].header == [|protocols[i]|] && AlpnFrames(protocols)[i].body == protocols[i]
  {
    var list := Flatten(AlpnFrames(protocols));
    PutU16IsBigEndian(2 + |list|);
    PutU16IsBigEndian(|list|);
    PutU16IsBigEndian(16);
    SmallTwo(16);
  }

  /** Any other extension: identifier, length, data. */
  lemma ExtensionLayout(id: nat, data: seq<byte>)
    requires ValidExtension(UnknownExtension(id, data))
    ensures var f := ExtensionFrame(UnknownExtension(id, data));
            f.header == Two(id) + Two(|data|) && f.body == data
  {
    PutU16IsBigEndian(id);
    PutU16IsBigEndian(|data|);
  }

  /** The named cipher suites, by their two bytes on the wire. */
  lemma SuiteTable()
    ensures Suites([0xc0, 0x2b, 0xc0, 0x2f, 0xcc, 0xa9, 0xcc, 0xa8, 0xc0, 0x2c, 0xc0, 0x30, 0xc0, 0x0a, 0xc0, 0x09], 8)
         == [EcdheEcdsaAes128GcmSha256, EcdheRsaAes128GcmSha256, EcdheEcdsaChacha20Poly1305Sha256,
             EcdheRsaChacha20Poly1305Sha256, EcdheEcdsaAes256GcmSha384, EcdheRsaAes256GcmSha384,
             EcdheEcdsaAes256CbcSha, EcdheEcdsaAes128CbcSha]
    ensures Suites([0xc0, 0x13, 0xc0, 0x14, 0x00, 0x33, 0x00, 0x39, 0x00, 0x2f, 0x00, 0x35, 0x00, 0x0a], 7)
         == [EcdheRsaAes128CbcSha, EcdheRsaAes256CbcSha, DheRsaAes128CbcSha, DheRsaAes256CbcSha,
             RsaAes128CbcSha, RsaAes256CbcSha, Rsa3desEdeCbcSha]
  {
  }

  // ---- A whole ClientHello in numbers

  function NameEntry(name: seq<byte>): seq<byte>
    requires |name| < 0xf000
  {
    [0] + Two(|name|) + name
  }

  function NameExtension(name: seq<byte>): seq<byte>
    requires |name| < 0xf000
  {
    [0, 0] + Two(5 + |name|) + (Two(3 + |name|) + NameEntry(name))
  }

  /** Two cipher suites, the null compression method and one server name. */
  function HelloInNumbers(version: ProtocolVersion, random: Random, name: seq<byte>): seq<byte>
    requires |name| < 0xf000 && random.gmtUnixTime < 0x1_0000_0000
  {
    InParts(version, random, [0], [0, 4, 0xc0, 0x2b, 0xc0, 0x2f], [1, 0], Two(9 + |name|) + NameExtension(name))
  }

  function HelloSent(version: ProtocolVersion, random: Random, name: seq<byte>): ClientHello
  {
    ClientHello(version, random, [], [EcdheEcdsaAes128GcmSha256, EcdheRsaAes128GcmSha256], [NullCompression],
                [ServerName([name])])
  }

  lemma OneFrame(f: Frame)
    ensures Flatten([f]) == f.header + f.body
  {
    assert [f][1..] == [];
    assert Flatten([f]) == f.header + f.body + [];
  }

  lemma OneNameBytes(name: seq<byte>, names: seq<seq<byte>>)
    requires |name| < 0xf000 && names == [name]
    ensures Flatten(NameFrames(names)) == NameEntry(name)
  {
    var f := NameFrame(name);
    assert NameFrames(names) == [f];
    PutU16IsBigEndian(|name|);
    OneFrame(f);
  }

  lemma OneNameList(name: seq<byte>, names: seq<seq<byte>>)
    requires |name| < 0xf000 && IsUtf8(name) && names == [name]
    ensures Flatten(NameFrames(names)) == NameEntry(name) && ValidExtension(ServerName(names))
  {
    OneNameBytes(name, names);
  }

  lemma OneExtension(e: Extension, es: seq<Extension>)
    requires ValidExtension(e) && es == [e]
    ensures forall i :: 0 <= i < |es| ==> ValidExtension(es[i])
    ensures Flatten(ExtensionFrames(es)) == ExtensionFrame(e).header + ExtensionFrame(e).body
  {
    assert ExtensionFrames(es) == [ExtensionFrame(e)];
    OneFrame(ExtensionFrame(e));
  }

  lemma NameExtensionFrame(name: seq<byte>, names: seq<seq<byte>>)
    requires |name| < 0xf000 && IsUtf8(name) && names == [name]
    ensures ValidExtension(ServerName(names))
    ensures ExtensionFrame(ServerName(names)).header + ExtensionFrame(ServerName(names)).body == NameExtension(name)
  {
    OneNameList(name, names);
    ServerNameLayout(names);
    assert |NameEntry(name)| == 3 + |name|;
  }

  lemma TwoSuites(suites: seq<CipherSuite>)
    requires suites == [EcdheEcdsaAes128GcmSha256, EcdheRsaAes128GcmSha256]
    ensures SuiteBytes(suites) == [0xc0, 0x2b, 0xc0, 0x2f]
  {
    PutU16IsBigEndian(0xc02b);
    PutU16IsBigEndian(0xc02f);
    var a, b := Two(0xc02b), Two(0xc02f);
    assert a == [a[0], a[1]] && b == [b[0], b[1]];
    ValueOfTwo(a[0], a[1]);
    ValueOfTwo(b[0], b[1]);
    assert a == [0xc0, 0x2b] && b == [0xc0, 0x2f];
    assert suites[1..] == [EcdheRsaAes128GcmSha256] && suites[1..][1..] == [];
    assert SuiteBytes(suites[1..]) == b + [];
  }

  lemma SentExtensions(name: seq<byte>, es: seq<Extension>)
    requires |name| < 0xf000 && IsUtf8(name) && es == [ServerName([name])]
    ensures forall i :: 0 <= i < |es| ==> ValidExtension(es[i])
    ensures Flatten(ExtensionFrames(es)) == NameExtension(name) && |NameExtension(name)| == 9 + |name|
  {
    NameExtensionFrame(name, [name]);
    OneExtension(ServerName([name]), es);
  }

  lemma SentIsWellFormed(version: ProtocolVersion, random: Random, name: seq<byte>, h: ClientHello)
    requires |random.randomBytes| == 28 && random.gmtUnixTime < 0x1_0000_0000 && |name| < 0xf000 && IsUtf8(name)
    requires h == HelloSent(version, random, name)
    ensures WellFormed(h)
  {
    SentExtensions(name, h.extensions);
  }

  lemma SentSuites(suites: seq<CipherSuite>)
    requires suites == [EcdheEcdsaAes128GcmSha256, EcdheRsaAes128GcmSha256]
    ensures Two(2 * |suites|) + SuiteBytes(suites) == [0, 4, 0xc0, 0x2b, 0xc0, 0x2f]
  {
    TwoSuites(suites);
    SmallTwo(4);
  }

  lemma SentMethods(ms: seq<CompressionMethod>)
    requires ms == [NullCompression]
    ensures [|ms|] + seq(|ms|, _ => 0) == [1, 0]
  {
  }

  lemma EmptySession(id: seq<byte>)
    requires id == []
    ensures [|id|] + id == [0]
  {
  }

  lemma BodyInNumbers(version: ProtocolVersion, random: Random, name: seq<byte>, h: ClientHello)
    requires |random.randomBytes| == 28 && random.gmtUnixTime < 0x1_0000_0000 && |name| < 0xf000 && IsUtf8(name)
    requires h == HelloSent(version, random, name) && WellFormed(h)
    ensures HelloBody(h) == HelloInNumbers(version, random, name)
  {
    var extensions := Two(9 + |name|) + NameExtension(name);
    SentExtensions(name, h.extensions);
    SentSuites(h.cipherSuites);
    SentMethods(h.compressionMethods);
    EmptySession(h.sessionId);
    HelloLayout(h, [0], [0, 4, 0xc0, 0x2b, 0xc0, 0x2f], [1, 0], extensions);
  }

  lemma HelloSize(version: ProtocolVersion, random: Random, name: seq<byte>)
    requires |random.randomBytes| == 28 && random.gmtUnixTime < 0x1_0000_0000 && |name| < 0xf000
    ensures |HelloInNumbers(version, random, name)| == 54 + |name|
  {
  }

  /**
   * The bytes a client sends to ask for `name`, number by number, decode to the ClientHello that asks for
   * it: one record of type 22, a message of type 1, lengths with the high byte first.
   */
  lemma HelloIsRead(record: ProtocolVersion, version: ProtocolVersion, random: Random, name: seq<byte>)
    requires |random.randomBytes| == 28 && random.gmtUnixTime < 0x1_0000_0000 && |name| < 0xf000 && IsUtf8(name)
    ensures var body := HelloInNumbers(version, random, name);
            && |body| < 0xfffc
            && Decode([22, record.major, record.minor] + Two(4 + |body|) + ([1] + Three(|body|) + body))
               == Ok(HelloSent(version, random, name))
  {
    var h := HelloSent(version, random, name);
    SentIsWellFormed(version, random, name, h);
    BodyInNumbers(version, random, name, h);
    HelloSize(version, random, name);
    OneRecord(h, record, HelloInNumbers(version, random, name));
  }

  // ---- ClientHellos that break the format

  /** A message is cut short: whatever it is, more bytes are asked for. */
  lemma CutMessage(msgType: byte, body: seq<byte>, k: nat)
    requires |body| < 0x100_0000 && k < |Message(msgType, body)|
    ensures ParseHandshake(Message(msgType, body)[..k]) == Err(Truncated)
  {
    var m := Message(msgType, body);
    MessageLayout(msgType, body, m);
  }

  lemma CutAlone(r: Record, k: nat)
    requires |r.data| < 0x1_0000 && 0 < k < |RecordBytes(r)|
    ensures Unframe(RecordBytes(r)[..k]) == Err(Truncated)
  {
    var s, cut := RecordBytes(r), RecordBytes(r)[..k];
    assert k >= 5 ==> cut[3] == s[3] && cut[4] == s[4];
  }

  lemma CutAfter(r: Record, t: seq<byte>)
    requires |r.data| < 0x1_0000 && Unframe(t) == Err(Truncated)
    ensures Unframe(RecordBytes(r) + t) == Err(Truncated)
  {
    var first := RecordBytes(r);
    var s := first + t;
    assert s[3] == first[3] && s[4] == first[4];
    assert RecordLen(s) == |first| && s[|first|..] == t;
  }

  /** A stream that ends inside a record asks for more, whatever came before. */
  lemma {:induction false} CutRecord(rs: seq<Record>, r: Record, k: nat)
    requires (forall i :: 0 <= i < |rs| ==> |rs[i].data| < 0x1_0000) && |r.data| < 0x1_0000
    requires 0 < k < |RecordBytes(r)|
    ensures Unframe(StreamBytes(rs) + RecordBytes(r)[..k]) == Err(Truncated)
    ensures Decode(StreamBytes(rs) + RecordBytes(r)[..k]) == Err(Truncated)
    decreases |rs|
  {
    var cut := RecordBytes(r)[..k];
    CutAlone(r, k);
    if rs == [] {
      assert StreamBytes(rs) + cut == cut;
    } else {
      CutRecord(rs[1..], r, k);
      CutAfter(rs[0], StreamBytes(rs[1..]) + cut);
      ConcatAssoc(RecordBytes(rs[0]), StreamBytes(rs[1..]), cut);
    }
  }

  /** A handshake message of another type is no ClientHello. */
  lemma OtherMessage(msgType: byte, body: seq<byte>, tail: seq<byte>)
    requires msgType != 1 && |body| < 0x100_0000
    ensures ParseHandshake([msgType] + Three(|body|) + body + tail) == Ok(UnknownMessage(msgType, body))
    ensures Interpret(UnknownMessage(msgType, body)) == Err(Other)
  {
    PutU24IsBigEndian(|body|);
    var s := [msgType] + Three(|body|) + body + tail;
    assert Message(msgType, body) <= s;
    MessageLayout(msgType, body, s);
  }

  lemma ShortBody(s: seq<byte>)
    requires |s| <= 34
    ensures ParseClientHello(s) == Err(Truncated)
  {
  }

  /** A session id of more than 32 bytes. */
  lemma LongSession(s: seq<byte>)
    requires |s| > 34 && s[34] > 32
    ensures ParseClientHello(s) == Err(ProtocolViolation)
  {
    assert s[34..][0] == s[34];
  }

  /** An odd number of cipher suite bytes. */
  lemma OddSuites(fixed: seq<byte>, id: seq<byte>, hi: byte, lo: byte, rest: seq<byte>)
    requires |fixed| == 34 && |id| <= 32 && lo % 2 == 1
    ensures ParseClientHello(fixed + ([|id|] + id + ([hi, lo] + rest))) == Err(ProtocolViolation)
  {
    var tail := [hi, lo] + rest;
    var s := fixed + ([|id|] + id + tail);
    assert s[34..] == SessionBytes(id) + tail;
    SessionRoundTrip(id, tail);
    assert (SessionBytes(id) + tail)[|SessionBytes(id)|..] == tail;
    assert U16(hi, lo) % 2 == 1 by { U16IsBigEndian(hi, lo); ValueOfTwo(hi, lo); }
  }

  /** A compression method other than null, even if bytes after it are missing. */
  lemma {:induction false} OtherMethod(n: nat, i: nat, s: seq<byte>)
    requires i < n && i < |s| && s[i] != 0 && forall j :: 0 <= j < i ==> s[j] == 0
    ensures ParseMethods(s, n) == Err(ProtocolViolation)
    decreases i
  {
    if i > 0 {
      OtherMethod(n - 1, i - 1, s[1..]);
    }
  }

  /** A server name of another type, or one that is not UTF-8. */
  lemma BadName(nameType: byte, name: seq<byte>)
    requires |name| < 0xf000 && (nameType != 0 || !IsUtf8(name))
    ensures var list := [nameType] + Two(|name|) + name;
            ExtensionOf(Frame([0, 0] + Two(2 + |list|), Two(|list|) + list)) == Err(ProtocolViolation)
  {
    var f := Frame([nameType] + Two(|name|), name);
    var list := f.header + f.body;
    PutU16IsBigEndian(|name|);
    PutU16IsBigEndian(|list|);
    OneFrame(f);
    assert f.header[1] == PutU16(|name|)[0] && f.header[2] == PutU16(|name|)[1];
    FramesOfFlatten(ServerNameList, [f]);
    var e := Frame([0, 0] + Two(2 + |list|), Two(|list|) + list);
    PrefixedBytes(list, e.body);
    ListFrom(ServerNameList, ServerNameOf, list, e.body);
    assert [f][..0] == [] && Collect(ServerNameOf, []) == Ok([]);
    assert Collect(ServerNameOf, [f]) == Err(ProtocolViolation);
    U16IsBigEndian(0, 0);
    ValueOfTwo(0, 0);
  }

  /** A protocol that is not UTF-8. */
  lemma BadProtocol(protocol: seq<byte>)
    requires |protocol| < 256 && !IsUtf8(protocol)
    ensures AlpnOf(AlpnFrame(protocol)) == Err(ProtocolViolation)
  {
  }

  /** A list that announces more bytes than it has looks cut short. */
  lemma ListPastEnd<T>(kind: ListKind, f: Frame --> Result<T>, n: nat, s: seq<byte>)
    requires forall fr: Frame :: |fr.header| == HeaderLen(kind) ==> f.requires(fr)
    requires |s| < n < 0x1_0000
    ensures ListOf(kind, f, Two(n) + s) == Err(Truncated)
  {
    PutU16IsBigEndian(n);
    var t := PutU16(n) + s;
    assert t[0] == PutU16(n)[0] && t[1] == PutU16(n)[1];
  }
}
