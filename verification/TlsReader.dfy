/**
 * The ClientHello readers as they run: each advances a mutable byte iterator, the list readers
 * count their entries in a first pass and fill a buffer in a second, and the record decoder sizes
 * the handshake before it copies it. Every reader is proved against TlsModel.
 */
module TlsReader {
  import opened Bytes
  import opened Words
  import opened Utf8
  import opened TlsModel

  class ByteIter {
    var rest: seq<byte>

    constructor (s: seq<byte>)
      ensures rest == s
    {
      rest := s;
    }

    /** `next().ok_or_else(truncated)` */
    method Next() returns (r: Result<byte>)
      modifies this
      ensures if old(rest) == [] then r == Err(Truncated) && rest == []
              else r == Ok(old(rest)[0]) && rest == old(rest)[1..]
    {
      if rest == [] {
        return Err(Truncated);
      }
      r := Ok(rest[0]);
      rest := rest[1..];
    }

    /** `iter_skip`: takes whole slices or nothing. */
    method Skip(length: nat) returns (r: Result<seq<byte>>)
      modifies this
      ensures if |old(rest)| < length then r == Err(Truncated) && rest == old(rest)
              else r == Ok(old(rest)[..length]) && rest == old(rest)[length..]
    {
      if |rest| < length {
        return Err(Truncated);
      }
      r := Ok(rest[..length]);
      rest := rest[length..];
    }

    /** Two bytes by shift and add. */
    method NextU16() returns (r: Result<nat>)
      modifies this
      ensures if |old(rest)| < 2 then r == Err(Truncated)
              else r == Ok(U16(old(rest)[0], old(rest)[1])) && rest == old(rest)[2..]
    {
      var length: nat := 0;
      var hi :- Next();
      length := (length + hi) * 256;
      var lo :- Next();
      return Ok(length + lo);
    }

    method NextU24() returns (r: Result<nat>)
      modifies this
      ensures if |old(rest)| < 3 then r == Err(Truncated)
              else r == Ok(U24(old(rest)[0], old(rest)[1], old(rest)[2])) && rest == old(rest)[3..]
    {
      ghost var s := rest;
      var length: nat :- NextU16();
      assert rest == s[2..];
      var lo :- Next();
      return Ok(length * 256 + lo);
    }
  }

  /** `r` and the advanced iterator are what parser result `p` says about `before`. */
  ghost predicate Reads<T>(p: Result<(T, nat)>, r: Result<T>, before: seq<byte>, after: seq<byte>)
  {
    match p
    case Ok((value, n)) => r == Ok(value) && n <= |before| && after == before[n..]
    case Err(e) => r == Err(e)
  }

  method StoreAt<T>(entries: array<T>, i: nat, entry: T)
    requires i < entries.Length
    modifies entries
    ensures entries[..i + 1] == old(entries[..i]) + [entry]
  {
    entries[i] := entry;
  }

  // ---- Fixed parts

  method ReadRandom(iter: ByteIter) returns (r: Result<Random>)
    modifies iter
    ensures if |old(iter.rest)| < 32 then r == Err(Truncated)
            else r == Ok(ParseRandom(old(iter.rest)[..32])) && iter.rest == old(iter.rest)[32..]
  {
    ghost var s := iter.rest;
    var time :- iter.Skip(4);
    var randomBytes := new byte[28](_ => 0);
    var copied := 0;
    while copied < 28 && iter.rest != []
      invariant copied <= 28 && copied + |iter.rest| + 4 == |s| && iter.rest == s[4 + copied..]
      invariant randomBytes[..copied] == s[4..4 + copied]
    {
      var b := iter.Next();
      StoreAt(randomBytes, copied, b.value);
      copied := copied + 1;
      assert s[4..4 + copied] == s[4..3 + copied] + [b.value];
    }
    if copied != 28 {
      return Err(Truncated);
    }
    assert randomBytes[..] == randomBytes[..28] == s[..32][4..];
    assert time == s[..32][..4];
    return Ok(Random(U32(time), randomBytes[..]));
  }

  method ReadSessionId(iter: ByteIter) returns (r: Result<seq<byte>>)
    modifies iter
    ensures Reads(ParseSessionId(old(iter.rest)), r, old(iter.rest), iter.rest)
  {
    ghost var s := iter.rest;
    var length :- iter.Next();
    assert length == s[0] && iter.rest == s[1..];
    if 32 < length {
      return Err(ProtocolViolation);
    }
    var id :- iter.Skip(length);
    assert id == s[1..1 + length] && iter.rest == s[1 + length..];
    return Ok(id);
  }

  lemma SuitesSnoc(codes: seq<byte>, i: nat)
    requires 2 * i <= |codes|
    ensures |codes| >= 2 * i + 2 ==>
              && codes[2 * i..][0] == codes[2 * i] && codes[2 * i..][1] == codes[2 * i + 1]
              && codes[2 * i..][2..] == codes[2 * (i + 1)..]
              && Suites(codes, i + 1) == Suites(codes, i) + [SuiteOf(U16(codes[2 * i], codes[2 * i + 1]))]
  {
  }

  method ReadSuites(iter: ByteIter, n: nat) returns (r: Result<seq<CipherSuite>>)
    modifies iter
    ensures if |old(iter.rest)| < 2 * n then r == Err(Truncated)
            else r == Ok(Suites(old(iter.rest), n)) && iter.rest == old(iter.rest)[2 * n..]
  {
    var suites := new CipherSuite[n](_ => UnknownSuite(0));
    ghost var codes := iter.rest;
    ghost var got: seq<CipherSuite> := [];
    for i := 0 to n
      invariant 2 * i <= |codes| && iter.rest == codes[2 * i..]
      invariant suites[..i] == got && got == Suites(codes, i)
    {
      SuitesSnoc(codes, i);
      var code :- iter.NextU16();
      StoreAt(suites, i, SuiteOf(code));
      got := got + [SuiteOf(code)];
    }
    assert suites[..] == got;
    return Ok(suites[..]);
  }

  method ReadCipherSuites(iter: ByteIter) returns (r: Result<seq<CipherSuite>>)
    modifies iter
    ensures Reads(ParseCipherSuites(old(iter.rest)), r, old(iter.rest), iter.rest)
  {
    var length :- iter.NextU16();
    if length % 2 != 0 {
      return Err(ProtocolViolation);
    }
    if 65534 < length {
      return Err(ProtocolViolation);
    }
    r := ReadSuites(iter, length / 2);
  }

  lemma {:induction false} MethodsFail(s: seq<byte>, n: nat, i: nat)
    requires i <= |s| && i < n
    requires forall j :: 0 <= j < i ==> s[j] == 0
    requires i == |s| || s[i] != 0
    ensures ParseMethods(s, n) == Err(if i == |s| then Truncated else ProtocolViolation)
  {
    if i > 0 {
      MethodsFail(s[1..], n - 1, i - 1);
    }
  }

  lemma {:induction false} MethodsSucceed(s: seq<byte>, n: nat, methods: seq<CompressionMethod>)
    requires n <= |s| && |methods| == n && forall j :: 0 <= j < n ==> s[j] == 0
    ensures ParseMethods(s, n) == Ok(methods)
  {
    if n > 0 {
      MethodsSucceed(s[1..], n - 1, methods[1..]);
      assert methods[0].NullCompression?;
      assert methods == [NullCompression] + methods[1..];
    }
  }

  method ReadCompressionMethods(iter: ByteIter) returns (r: Result<seq<CompressionMethod>>)
    modifies iter
    ensures Reads(ParseCompressionMethods(old(iter.rest)), r, old(iter.rest), iter.rest)
  {
    var n: nat :- iter.Next();
    var methods := new CompressionMethod[n](_ => NullCompression);
    ghost var s := iter.rest;
    for i := 0 to n
      invariant i <= |s| && iter.rest == s[i..]
      invariant forall j :: 0 <= j < i ==> s[j] == 0 && methods[j] == NullCompression
    {
      if iter.rest == [] || iter.rest[0] != 0 {
        MethodsFail(s, n, i);
      }
      var val :- iter.Next();
      if val != 0 {
        return Err(ProtocolViolation);
      }
      methods[i] := NullCompression;
    }
    MethodsSucceed(s, n, methods[..]);
    return Ok(methods[..]);
  }

  // ---- Lists: the counting pass

  method ReadFrameHeader(kind: ListKind, iter: ByteIter) returns (r: Result<nat>)
    modifies iter
    ensures if |old(iter.rest)| < HeaderLen(kind) then r == Err(Truncated)
            else r == Ok(BodyLen(kind, old(iter.rest)[..HeaderLen(kind)]))
                 && iter.rest == old(iter.rest)[HeaderLen(kind)..]
  {
    ghost var s := iter.rest;
    match kind {
      case ExtensionList =>
        var _ :- iter.Next();
        var _ :- iter.Next();
        assert iter.rest == s[2..];
        var length :- iter.NextU16();
        return Ok(length);
      case ServerNameList =>
        var _ :- iter.Next();
        var length :- iter.NextU16();
        return Ok(length);
      case AlpnList =>
        var length: nat :- iter.Next();
        return Ok(length);
    }
  }

  /** `size_extensions`, `size_server_name` and `size_alpn`. */
  method CountEntries(kind: ListKind, iter: ByteIter) returns (r: Result<nat>)
    modifies iter
    ensures r == if Framed(kind, old(iter.rest)) then Ok(|Frames(kind, old(iter.rest))|) else Err(Truncated)
  {
    ghost var s := iter.rest;
    var counter := 0;
    while iter.rest != []
      invariant Framed(kind, s) <==> Framed(kind, iter.rest)
      invariant Framed(kind, s) ==> |Frames(kind, s)| == counter + |Frames(kind, iter.rest)|
      decreases |iter.rest|
    {
      ghost var t := iter.rest;
      counter := counter + 1;
      var length :- ReadFrameHeader(kind, iter);
      var _ :- iter.Skip(length);
      assert iter.rest == AfterFirst(kind, t);
    }
    return Ok(counter);
  }

  // ---- Lists: the reading pass

  lemma CollectSnoc<T>(f: Frame --> Result<T>, fs: seq<Frame>, i: nat)
    requires i < |fs| && forall j :: 0 <= j < |fs| ==> f.requires(fs[j])
    ensures Collect(f, fs[..i]).Ok? && f(fs[i]).Ok? ==>
              Collect(f, fs[..i + 1]) == Ok(Collect(f, fs[..i]).value + [f(fs[i]).value])
    ensures Collect(f, fs[..i]).Ok? && f(fs[i]).Err? ==> Collect(f, fs[..i + 1]) == Err(f(fs[i]).error)
    ensures Collect(f, fs[..i]).Err? ==> Collect(f, fs[..i + 1]) == Err(Collect(f, fs[..i]).error)
  {
    assert fs[..i + 1][..i] == fs[..i];
  }

  lemma {:induction false} ErrorSticks<T>(f: Frame --> Result<T>, fs: seq<Frame>, i: nat)
    requires i <= |fs| && forall j :: 0 <= j < |fs| ==> f.requires(fs[j])
    requires Collect(f, fs[..i]).Err?
    ensures Collect(f, fs) == Err(Collect(f, fs[..i]).error)
    decreases |fs| - i
  {
    if i == |fs| {
      assert fs[..i] == fs;
    } else {
      CollectSnoc(f, fs, i);
      ErrorSticks(f, fs, i + 1);
    }
  }

  lemma NextFrame(kind: ListKind, s: seq<byte>, i: nat, rest: seq<byte>)
    requires Framed(kind, s) && i < |Frames(kind, s)|
    requires Framed(kind, rest) && Frames(kind, rest) == Frames(kind, s)[i..]
    ensures FrameFits(kind, rest) && FirstFrame(kind, rest) == Frames(kind, s)[i]
    ensures Framed(kind, AfterFirst(kind, rest))
    ensures Frames(kind, AfterFirst(kind, rest)) == Frames(kind, s)[i + 1..]
  {
    var fs := Frames(kind, s);
    assert fs[i..][0] == fs[i] && fs[i..][1..] == fs[i + 1..];
    assert rest != [];
    assert Frames(kind, rest)[1..] == Frames(kind, AfterFirst(kind, rest));
  }

  /** After `i` entries of `list`, `got` are their values and `rest` the bytes of the others. */
  ghost predicate ReadSoFar<T>(
    kind: ListKind, f: Frame --> Result<T>, list: seq<byte>, i: nat, rest: seq<byte>, got: seq<T>)
    requires Framed(kind, list) && forall fr: Frame :: |fr.header| == HeaderLen(kind) ==> f.requires(fr)
  {
    && i <= |Frames(kind, list)|
    && Framed(kind, rest) && Frames(kind, rest) == Frames(kind, list)[i..]
    && Collect(f, Frames(kind, list)[..i]) == Ok(got)
  }

  /** Reading one more entry either extends the values or is the answer for the whole list. */
  lemma ReadOneMore<T>(
    kind: ListKind, f: Frame --> Result<T>, list: seq<byte>, i: nat, rest: seq<byte>, got: seq<T>)
    requires Framed(kind, list) && forall fr: Frame :: |fr.header| == HeaderLen(kind) ==> f.requires(fr)
    requires i < |Frames(kind, list)| && ReadSoFar(kind, f, list, i, rest, got)
    ensures FrameFits(kind, rest)
    ensures match f(FirstFrame(kind, rest))
            case Ok(v) => ReadSoFar(kind, f, list, i + 1, AfterFirst(kind, rest), got + [v])
            case Err(e) => Collect(f, Frames(kind, list)) == Err(e)
  {
    NextFrame(kind, list, i, rest);
    CollectSnoc(f, Frames(kind, list), i);
    if f(FirstFrame(kind, rest)).Err? {
      ErrorSticks(f, Frames(kind, list), i + 1);
    }
  }

  lemma ReadAllDone<T>(kind: ListKind, f: Frame --> Result<T>, list: seq<byte>, rest: seq<byte>, got: seq<T>)
    requires Framed(kind, list) && forall fr: Frame :: |fr.header| == HeaderLen(kind) ==> f.requires(fr)
    requires ReadSoFar(kind, f, list, |Frames(kind, list)|, rest, got)
    ensures Collect(f, Frames(kind, list)) == Ok(got)
  {
    assert Frames(kind, list)[..|Frames(kind, list)|] == Frames(kind, list);
  }

  /** The list's bytes after its u16 length, as a fresh iterator over that slice. */
  method ReadListBytes(iter: ByteIter) returns (r: Result<seq<byte>>)
    modifies iter
    ensures var s := old(iter.rest);
            if |s| < 2 || |s| < 2 + U16(s[0], s[1]) then r == Err(Truncated)
            else r == Ok(s[2..2 + U16(s[0], s[1])])
  {
    ghost var s := iter.rest;
    var length :- iter.NextU16();
    r := iter.Skip(length);
    assert r.Ok? ==> r.value == s[2..2 + length];
  }

  method ReadServerNameEntry(iter: ByteIter) returns (r: Result<seq<byte>>)
    modifies iter
    ensures var s := old(iter.rest);
            FrameFits(ServerNameList, s) ==>
              r == ServerNameOf(FirstFrame(ServerNameList, s))
              && (r.Ok? ==> iter.rest == AfterFirst(ServerNameList, s))
    ensures !FrameFits(ServerNameList, old(iter.rest)) ==> r.Err?
  {
    ghost var s := iter.rest;
    var nameType :- iter.Next();
    if nameType != 0 {
      return Err(ProtocolViolation);
    }
    var length :- iter.NextU16();
    var name :- iter.Skip(length);
    assert name == s[3..3 + length] && iter.rest == s[3 + length..];
    return if IsUtf8(name) then Ok(name) else Err(ProtocolViolation);
  }

  /** Second pass: as many entries as were counted. */
  method FillServerNameList(list: seq<byte>, n: nat) returns (r: Result<seq<seq<byte>>>)
    requires Framed(ServerNameList, list) && n == |Frames(ServerNameList, list)|
    ensures r == Collect(ServerNameOf, Frames(ServerNameList, list))
  {
    var reading := new ByteIter(list);
    var entries := new seq<byte>[n](_ => []);
    ghost var got: seq<seq<byte>> := [];
    for i := 0 to n
      invariant got == entries[..i]
      invariant ReadSoFar(ServerNameList, ServerNameOf, list, i, reading.rest, got)
    {
      ReadOneMore(ServerNameList, ServerNameOf, list, i, reading.rest, got);
      var entry :- ReadServerNameEntry(reading);
      StoreAt(entries, i, entry);
      got := got + [entry];
    }
    ReadAllDone(ServerNameList, ServerNameOf, list, reading.rest, got);
    assert entries[..] == got;
    return Ok(entries[..]);
  }

  method ReadServerName(iter: ByteIter) returns (r: Result<seq<seq<byte>>>)
    modifies iter
    ensures r == ListOf(ServerNameList, ServerNameOf, old(iter.rest))
  {
    var list :- ReadListBytes(iter);
    var counting := new ByteIter(list);
    var n :- CountEntries(ServerNameList, counting);
    r := FillServerNameList(list, n);
  }

  method ReadAlpnEntry(iter: ByteIter) returns (r: Result<seq<byte>>)
    modifies iter
    ensures var s := old(iter.rest);
            FrameFits(AlpnList, s) ==>
              r == AlpnOf(FirstFrame(AlpnList, s)) && (r.Ok? ==> iter.rest == AfterFirst(AlpnList, s))
    ensures !FrameFits(AlpnList, old(iter.rest)) ==> r.Err?
  {
    ghost var s := iter.rest;
    var length: nat :- iter.Next();
    var name :- iter.Skip(length);
    assert name == s[1..1 + length] && iter.rest == s[1 + length..];
    return if IsUtf8(name) then Ok(name) else Err(ProtocolViolation);
  }

  /** Second pass: as many entries as were counted. */
  method FillAlpnList(list: seq<byte>, n: nat) returns (r: Result<seq<seq<byte>>>)
    requires Framed(AlpnList, list) && n == |Frames(AlpnList, list)|
    ensures r == Collect(AlpnOf, Frames(AlpnList, list))
  {
    var reading := new ByteIter(list);
    var entries := new seq<byte>[n](_ => []);
    ghost var got: seq<seq<byte>> := [];
    for i := 0 to n
      invariant got == entries[..i]
      invariant ReadSoFar(AlpnList, AlpnOf, list, i, reading.rest, got)
    {
      ReadOneMore(AlpnList, AlpnOf, list, i, reading.rest, got);
      var entry :- ReadAlpnEntry(reading);
      StoreAt(entries, i, entry);
      got := got + [entry];
    }
    ReadAllDone(AlpnList, AlpnOf, list, reading.rest, got);
    assert entries[..] == got;
    return Ok(entries[..]);
  }

  method ReadAlpn(iter: ByteIter) returns (r: Result<seq<seq<byte>>>)
    modifies iter
    ensures r == ListOf(AlpnList, AlpnOf, old(iter.rest))
  {
    var list :- ReadListBytes(iter);
    var counting := new ByteIter(list);
    var n :- CountEntries(AlpnList, counting);
    r := FillAlpnList(list, n);
  }

  method ReadExtension(iter: ByteIter) returns (r: Result<Extension>)
    modifies iter
    ensures var s := old(iter.rest);
            FrameFits(ExtensionList, s) ==>
              r == ExtensionOf(FirstFrame(ExtensionList, s))
              && (r.Ok? ==> iter.rest == AfterFirst(ExtensionList, s))
    ensures !FrameFits(ExtensionList, old(iter.rest)) ==> r.Err?
  {
    ghost var s := iter.rest;
    var exType :- iter.NextU16();
    var length :- iter.NextU16();
    var exData :- iter.Skip(length);
    assert exData == FirstFrame(ExtensionList, s).body;
    var exIter := new ByteIter(exData);
    if exType == SERVER_NAME_ID {
      var names :- ReadServerName(exIter);
      return Ok(ServerName(names));
    } else if exType == ALPN_ID {
      var protocols :- ReadAlpn(exIter);
      return Ok(Alpn(protocols));
    }
    return Ok(UnknownExtension(exType, exData));
  }

  method ReadNextExtension(reading: ByteIter, ghost list: seq<byte>, ghost i: nat, ghost got: seq<Extension>)
    returns (r: Result<Extension>)
    requires Framed(ExtensionList, list) && i < |Frames(ExtensionList, list)|
    requires ReadSoFar(ExtensionList, ExtensionOf, list, i, reading.rest, got)
    modifies reading
    ensures match r
            case Ok(v) => ReadSoFar(ExtensionList, ExtensionOf, list, i + 1, reading.rest, got + [v])
            case Err(e) => Collect(ExtensionOf, Frames(ExtensionList, list)) == Err(e)
  {
    ReadOneMore(ExtensionList, ExtensionOf, list, i, reading.rest, got);
    r := ReadExtension(reading);
  }

  /** Second pass: as many entries as were counted. */
  method FillExtensionList(list: seq<byte>, n: nat) returns (r: Result<seq<Extension>>)
    requires Framed(ExtensionList, list) && n == |Frames(ExtensionList, list)|
    ensures r == Collect(ExtensionOf, Frames(ExtensionList, list))
  {
    var reading := new ByteIter(list);
    var entries := new Extension[n](_ => UnknownExtension(0, []));
    ghost var got: seq<Extension> := [];
    for i := 0 to n
      invariant got == entries[..i]
      invariant ReadSoFar(ExtensionList, ExtensionOf, list, i, reading.rest, got)
    {
      var entry :- ReadNextExtension(reading, list, i, got);
      StoreAt(entries, i, entry);
      got := got + [entry];
    }
    ReadAllDone(ExtensionList, ExtensionOf, list, reading.rest, got);
    assert entries[..] == got;
    return Ok(entries[..]);
  }

  method ReadExtensions(iter: ByteIter) returns (r: Result<seq<Extension>>)
    modifies iter
    ensures r == ListOf(ExtensionList, ExtensionOf, old(iter.rest))
  {
    var list :- ReadListBytes(iter);
    var counting := new ByteIter(list);
    var n :- CountEntries(ExtensionList, counting);
    r := FillExtensionList(list, n);
  }

  // ---- Messages

  method ReadHelloTail(iter: ByteIter) returns (r: Result<HelloTail>)
    modifies iter
    ensures r == ParseHelloTail(old(iter.rest))
  {
    ghost var s := iter.rest;
    var sessionId :- ReadSessionId(iter);
    ghost var s1 := s[ParseSessionId(s).value.1..];
    assert iter.rest == s1;
    var cipherSuites :- ReadCipherSuites(iter);
    ghost var s2 := s1[ParseCipherSuites(s1).value.1..];
    assert iter.rest == s2;
    var compressionMethods :- ReadCompressionMethods(iter);
    assert iter.rest == s2[ParseCompressionMethods(s2).value.1..];
    var extensions :- ReadExtensions(iter);
    return Ok(HelloTail(sessionId, cipherSuites, compressionMethods, extensions));
  }

  method ReadClientHello(iter: ByteIter) returns (r: Result<ClientHello>)
    modifies iter
    ensures r == ParseClientHello(old(iter.rest))
  {
    ghost var s := iter.rest;
    var major :- iter.Next();
    var minor :- iter.Next();
    assert iter.rest == s[2..];
    var random :- ReadRandom(iter);
    assert s[2..][..32] == s[2..34] && iter.rest == s[34..];
    var tail :- ReadHelloTail(iter);
    return Ok(ClientHello(ProtocolVersion(major, minor), random, tail.sessionId, tail.cipherSuites,
                          tail.compressionMethods, tail.extensions));
  }

  /** The type byte and the body that the three length bytes announce. */
  method ReadMessage(iter: ByteIter) returns (r: Result<RawMessage>)
    modifies iter
    ensures r == ParseMessage(old(iter.rest))
  {
    ghost var s := iter.rest;
    var msgType :- iter.Next();
    assert iter.rest == s[1..];
    var length :- iter.NextU24();
    assert length == U24(s[1], s[2], s[3]) && iter.rest == s[4..];
    var data :- iter.Skip(length);
    assert data == s[4..4 + length];
    return Ok(RawMessage(msgType, data));
  }

  method ReadHandshake(iter: ByteIter) returns (r: Result<Handshake>)
    modifies iter
    ensures r == ParseHandshake(old(iter.rest))
  {
    var message :- ReadMessage(iter);
    if message.msgType == HANDSHAKE_CLIENT_HELLO {
      var body := new ByteIter(message.body);
      var hello :- ReadClientHello(body);
      return Ok(HelloMessage(hello));
    }
    return Ok(UnknownMessage(message.msgType, message.body));
  }

  // ---- Records

  datatype RecordPrefix = RecordPrefix(contentType: byte, version: ProtocolVersion, length: nat)

  /** `extract_record_prefix`: None at the end of the data. */
  method ExtractRecordPrefix(iter: ByteIter) returns (r: Result<Option<RecordPrefix>>)
    modifies iter
    ensures var s := old(iter.rest);
            if s == [] then r == Ok(None) && iter.rest == []
            else if |s| < 5 then r == Err(Truncated)
            else r == Ok(Some(RecordPrefix(s[0], ProtocolVersion(s[1], s[2]), U16(s[3], s[4]))))
                 && iter.rest == s[5..]
  {
    if iter.rest == [] {
      return Ok(None);
    }
    ghost var s := iter.rest;
    var contentType := iter.rest[0];
    iter.rest := iter.rest[1..];
    var major :- iter.Next();
    var minor :- iter.Next();
    assert iter.rest == s[3..];
    var length :- iter.NextU16();
    return Ok(Some(RecordPrefix(contentType, ProtocolVersion(major, minor), length)));
  }

  /** `extract_record`: None at the end of the data, Err inside a record. */
  method ExtractRecord(iter: ByteIter) returns (r: Result<Option<Record>>)
    modifies iter
    ensures var s := old(iter.rest);
            if s == [] then r == Ok(None) && iter.rest == []
            else if !RecordFits(s) then r == Err(Truncated)
            else r == Ok(Some(FirstRecord(s))) && iter.rest == s[RecordLen(s)..]
  {
    ghost var s := iter.rest;
    var prefix :- ExtractRecordPrefix(iter);
    if prefix.None? {
      return Ok(None);
    }
    var data :- iter.Skip(prefix.value.length);
    assert data == s[5..RecordLen(s)] && iter.rest == s[RecordLen(s)..];
    return Ok(Some(Record(prefix.value.contentType, prefix.value.version, data)));
  }

  /** First pass: how many handshake bytes the records carry. */
  method HandshakeSize(data: seq<byte>) returns (r: Result<nat>)
    ensures r == if Unframe(data).Ok? then Ok(|Unframe(data).value|) else Err(Unframe(data).error)
  {
    var dataSize := 0;
    var iter := new ByteIter(data);
    while iter.rest != []
      invariant Unframe(iter.rest).Ok? <==> Unframe(data).Ok?
      invariant Unframe(data).Ok? ==> |Unframe(data).value| == dataSize + |Unframe(iter.rest).value|
      invariant Unframe(data).Err? ==> Unframe(iter.rest).error == Unframe(data).error
      decreases |iter.rest|
    {
      var record :- ExtractRecord(iter);
      if record.value.contentType == RECORD_CONTENT_TYPE_HANDSHAKE {
        dataSize := dataSize + |record.value.data|;
      }
    }
    return Ok(dataSize);
  }

  /** `copied` is what the records before `rest` carry, so that `rest` supplies the remainder of `all`. */
  ghost predicate Copying(all: seq<byte>, copied: seq<byte>, rest: seq<byte>)
  {
    Unframe(rest).Ok? && copied + Unframe(rest).value == all
  }

  lemma CopyingStep(all: seq<byte>, copied: seq<byte>, rest: seq<byte>)
    requires Copying(all, copied, rest) && rest != []
    ensures RecordFits(rest)
    ensures var part := HandshakePart(FirstRecord(rest));
            |copied| + |part| <= |all| && Copying(all, copied + part, rest[RecordLen(rest)..])
  {
    var part, more := HandshakePart(FirstRecord(rest)), Unframe(rest[RecordLen(rest)..]).value;
    assert copied + (part + more) == (copied + part) + more;
  }

  method CopyInto(buffer: array<byte>, at: nat, chunk: seq<byte>)
    requires at + |chunk| <= buffer.Length
    modifies buffer
    ensures buffer[..at + |chunk|] == old(buffer[..at]) + chunk
  {
    forall i | 0 <= i < |chunk| {
      buffer[at + i] := chunk[i];
    }
  }

  /** The next record's handshake bytes, copied behind those already there; extracting it cannot fail (`unwrap`). */
  method CopyRecord(iter: ByteIter, unframed: array<byte>, at: nat, ghost all: seq<byte>) returns (written: nat)
    requires iter.rest != [] && at <= unframed.Length == |all| && Copying(all, unframed[..at], iter.rest)
    modifies iter, unframed
    ensures written <= unframed.Length && Copying(all, unframed[..written], iter.rest)
    ensures |iter.rest| < |old(iter.rest)|
  {
    CopyingStep(all, unframed[..at], iter.rest);
    ghost var first := FirstRecord(iter.rest);
    var record := ExtractRecord(iter);
    assert record == Ok(Some(first));
    written := at;
    if record.value.value.contentType == RECORD_CONTENT_TYPE_HANDSHAKE {
      CopyInto(unframed, at, record.value.value.data);
      written := at + |record.value.value.data|;
    } else {
      assert unframed[..at] + [] == unframed[..at];
    }
  }

  /**
   * Second pass: every copy fits (`split_at_mut`), and the buffer ends exactly full (the length
   * assertion).
   */
  method CopyHandshake(data: seq<byte>, unframed: array<byte>)
    requires Unframe(data).Ok? && unframed.Length == |Unframe(data).value|
    modifies unframed
    ensures unframed[..] == Unframe(data).value
  {
    ghost var all := Unframe(data).value;
    var written: nat := 0;
    var iter := new ByteIter(data);
    assert unframed[..0] + all == all;
    while iter.rest != []
      invariant written <= unframed.Length && Copying(all, unframed[..written], iter.rest)
      decreases |iter.rest|
    {
      written := CopyRecord(iter, unframed, written, all);
    }
    assert written == unframed.Length;
  }

  /** Sizes the handshake bytes over all records, copies them, and reads one handshake message. */
  method DecodeClientHello(data: seq<byte>) returns (r: Result<ClientHello>)
    ensures r == Decode(data)
  {
    var dataSize :- HandshakeSize(data);
    var unframed := new byte[dataSize](_ => 0);
    CopyHandshake(data, unframed);
    var message := new ByteIter(unframed[..]);
    var handshake :- ReadHandshake(message);
    return Interpret(handshake);
  }
}
