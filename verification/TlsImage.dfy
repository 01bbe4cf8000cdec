/**
 * Which ClientHellos the decoder can produce: the well-formed ones, each from some byte stream, and
 * no others (parsing/tls/src/lib.rs).
 */
module TlsImage {
  import opened Bytes
  import opened Utf8
  import opened TlsModel
  import opened TlsWire

  // ---- Lists

  lemma FirstFrameSize(kind: ListKind, s: seq<byte>)
    requires FrameFits(kind, s)
    ensures var f := FirstFrame(kind, s);
            FrameOk(kind, f) && |f.header| + |f.body| + |AfterFirst(kind, s)| == |s|
  {
  }

  lemma {:induction false} FramesCover(kind: ListKind, s: seq<byte>)
    requires Framed(kind, s)
    ensures |Flatten(Frames(kind, s))| == |s|
    decreases |s|
  {
    if s != [] {
      FirstFrameSize(kind, s);
      FramesCover(kind, AfterFirst(kind, s));
      assert Frames(kind, s)[1..] == Frames(kind, AfterFirst(kind, s));
    }
  }

  lemma {:induction false} FramesAreOk(kind: ListKind, s: seq<byte>)
    requires Framed(kind, s)
    ensures forall i :: 0 <= i < |Frames(kind, s)| ==> FrameOk(kind, Frames(kind, s)[i])
    decreases |s|
  {
    if s != [] {
      FirstFrameSize(kind, s);
      FramesAreOk(kind, AfterFirst(kind, s));
    }
  }

  lemma {:induction false} CollectEach<T>(f: Frame --> Result<T>, fs: seq<Frame>, vs: seq<T>)
    requires forall i :: 0 <= i < |fs| ==> f.requires(fs[i])
    requires Collect(f, fs) == Ok(vs)
    ensures |vs| == |fs|
    ensures forall i :: 0 <= i < |fs| ==> f(fs[i]) == Ok(vs[i])
    decreases |fs|
  {
    if fs != [] {
      var n := |fs| - 1;
      CollectEach(f, fs[..n], Collect(f, fs[..n]).value);
    }
  }

  lemma {:induction false} ShorterEntries(fs: seq<Frame>, gs: seq<Frame>)
    requires |fs| == |gs|
    requires forall i :: 0 <= i < |fs| ==> |fs[i].header| == |gs[i].header| && |fs[i].body| <= |gs[i].body|
    ensures |Flatten(fs)| <= |Flatten(gs)|
    decreases |fs|
  {
    if fs != [] {
      ShorterEntries(fs[1..], gs[1..]);
    }
  }

  /** The entries behind an accepted list: one frame for each value, all of them inside the list's bytes. */
  lemma ListEntries<T>(kind: ListKind, f: Frame --> Result<T>, s: seq<byte>, vs: seq<T>) returns (fs: seq<Frame>)
    requires forall fr: Frame :: |fr.header| == HeaderLen(kind) ==> f.requires(fr)
    requires ListOf(kind, f, s) == Ok(vs)
    ensures |fs| == |vs| && |Flatten(fs)| < 0x1_0000 && 2 + |Flatten(fs)| <= |s|
    ensures forall i :: 0 <= i < |fs| ==> FrameOk(kind, fs[i]) && f(fs[i]) == Ok(vs[i])
  {
    var entries := s[2..2 + U16(s[0], s[1])];
    fs := Frames(kind, entries);
    FramesCover(kind, entries);
    FramesAreOk(kind, entries);
    CollectEach(f, fs, vs);
  }

  lemma NamesAccepted(s: seq<byte>, names: seq<seq<byte>>)
    requires |s| < 0x1_0000 && ListOf(ServerNameList, ServerNameOf, s) == Ok(names)
    ensures ValidExtension(ServerName(names)) && 2 + |Flatten(NameFrames(names))| <= |s|
  {
    var fs := ListEntries(ServerNameList, ServerNameOf, s, names);
    assert forall i :: 0 <= i < |fs| ==> fs[i].body == names[i] && |names[i]| < 0x1_0000 && IsUtf8(names[i]);
    ShorterEntries(NameFrames(names), fs);
  }

  lemma ProtocolsAccepted(s: seq<byte>, protocols: seq<seq<byte>>)
    requires |s| < 0x1_0000 && ListOf(AlpnList, AlpnOf, s) == Ok(protocols)
    ensures ValidExtension(Alpn(protocols)) && 2 + |Flatten(AlpnFrames(protocols))| <= |s|
  {
    var fs := ListEntries(AlpnList, AlpnOf, s, protocols);
    assert forall i :: 0 <= i < |fs| ==> fs[i].body == protocols[i] && |protocols[i]| < 256 && IsUtf8(protocols[i]);
    ShorterEntries(AlpnFrames(protocols), fs);
  }

  lemma ExtensionAccepted(f: Frame, e: Extension)
    requires FrameOk(ExtensionList, f) && ExtensionOf(f) == Ok(e)
    ensures ValidExtension(e) && |ExtensionFrame(e).body| <= |f.body|
  {
    match e {
      case ServerName(names) => NamesAccepted(f.body, names);
      case Alpn(protocols) => ProtocolsAccepted(f.body, protocols);
      case UnknownExtension(id, data) =>
    }
  }

  lemma ExtensionsAccepted(s: seq<byte>, es: seq<Extension>)
    requires ListOf(ExtensionList, ExtensionOf, s) == Ok(es)
    ensures forall i :: 0 <= i < |es| ==> ValidExtension(es[i])
    ensures |Flatten(ExtensionFrames(es))| < 0x1_0000
  {
    var fs := ListEntries(ExtensionList, ExtensionOf, s, es);
    forall i | 0 <= i < |es|
      ensures ValidExtension(es[i]) && |ExtensionFrame(es[i]).body| <= |fs[i].body|
    {
      ExtensionAccepted(fs[i], es[i]);
    }
    ShorterEntries(ExtensionFrames(es), fs);
  }

  // ---- Messages

  lemma SuiteCode(code: nat)
    ensures CodeOf(SuiteOf(code)) == code
  {
  }

  lemma SuitesAccepted(s: seq<byte>, n: nat)
    requires 2 * n <= |s|
    ensures forall i :: 0 <= i < n ==>
              CodeOf(Suites(s, n)[i]) < 0x1_0000 && SuiteOf(CodeOf(Suites(s, n)[i])) == Suites(s, n)[i]
  {
    forall i | 0 <= i < n
      ensures CodeOf(Suites(s, n)[i]) < 0x1_0000 && SuiteOf(CodeOf(Suites(s, n)[i])) == Suites(s, n)[i]
    {
      SuiteCode(U16(s[2 * i], s[2 * i + 1]));
    }
  }

  lemma {:induction false} MethodCount(s: seq<byte>, n: nat)
    requires ParseMethods(s, n).Ok?
    ensures |ParseMethods(s, n).value| == n
  {
    if n > 0 {
      MethodCount(s[1..], n - 1);
    }
  }

  predicate WellFormedTail(t: HelloTail)
  {
    && |t.sessionId| <= 32
    && 2 * |t.cipherSuites| < 0x1_0000
    && (forall i :: 0 <= i < |t.cipherSuites| ==>
          CodeOf(t.cipherSuites[i]) < 0x1_0000 && SuiteOf(CodeOf(t.cipherSuites[i])) == t.cipherSuites[i])
    && |t.compressionMethods| < 256
    && (forall i :: 0 <= i < |t.extensions| ==> ValidExtension(t.extensions[i]))
    && |Flatten(ExtensionFrames(t.extensions))| < 0x1_0000
  }

  lemma TailAccepted(s: seq<byte>, t: HelloTail)
    requires ParseHelloTail(s) == Ok(t)
    ensures WellFormedTail(t)
  {
    var s1 := s[ParseSessionId(s).value.1..];
    var s2 := s1[ParseCipherSuites(s1).value.1..];
    SuitesAccepted(s1[2..], U16(s1[0], s1[1]) / 2);
    MethodsLength(s2);
    MethodCount(s2[1..], s2[0]);
    ExtensionsAccepted(s2[ParseCompressionMethods(s2).value.1..], t.extensions);
  }

  lemma HelloAccepted(s: seq<byte>, h: ClientHello)
    requires ParseClientHello(s) == Ok(h)
    ensures WellFormed(h)
  {
    TailAccepted(s[34..], ParseHelloTail(s[34..]).value);
  }

  // ---- Streams

  /** Some way of cutting handshake bytes into records. */
  function Cut(bytes: seq<byte>): (rs: seq<Record>)
    ensures forall i :: 0 <= i < |rs| ==> |rs[i].data| < 0x1_0000
    decreases |bytes|
  {
    if bytes == [] then []
    else
      var n := if |bytes| < 0x1_0000 then |bytes| else 0xffff;
      [Record(RECORD_CONTENT_TYPE_HANDSHAKE, ProtocolVersion(3, 3), bytes[..n])] + Cut(bytes[n..])
  }

  lemma {:induction false} CutKeepsBytes(bytes: seq<byte>)
    ensures HandshakeData(Cut(bytes)) == bytes
    decreases |bytes|
  {
    if bytes != [] {
      var n := if |bytes| < 0x1_0000 then |bytes| else 0xffff;
      CutKeepsBytes(bytes[n..]);
      assert Cut(bytes)[1..] == Cut(bytes[n..]);
      assert bytes[..n] + bytes[n..] == bytes;
    }
  }

  lemma WellFormedIsDecoded(h: ClientHello) returns (data: seq<byte>)
    requires WellFormed(h)
    ensures Decode(data) == Ok(h)
  {
    var bytes := HandshakeBytes(h);
    CutKeepsBytes(bytes);
    data := StreamBytes(Cut(bytes));
    FragmentationIndependence(h, Cut(bytes));
  }

  lemma DecodedIsWellFormed(data: seq<byte>, h: ClientHello)
    requires Decode(data) == Ok(h)
    ensures WellFormed(h)
  {
    HelloAccepted(ParseMessage(Unframe(data).value).value.body, h);
  }

  /** The decoder returns the well-formed ClientHellos, all of them and nothing else. */
  lemma DecoderImage(h: ClientHello)
    ensures WellFormed(h) <==> exists data :: Decode(data) == Ok(h)
  {
    if WellFormed(h) {
      var data := WellFormedIsDecoded(h);
    } else {
      forall data
        ensures Decode(data) != Ok(h)
      {
        if Decode(data) == Ok(h) {
          DecodedIsWellFormed(data, h);
        }
      }
    }
  }
}
