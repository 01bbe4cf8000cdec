/**
 * Reading a ClientHello from a socket in chunks of any size and finding the server name in it
 * (experiments/sni-multiplexor/src/sni2.rs, sni_base.rs).
 */
module SniDetect {
  import opened Bytes
  import opened TlsModel
  import opened Utf8
  import TlsImage
  import TlsReader
  import TlsWire

  datatype Alert = InternalError | UnrecognizedName

  datatype Detection = NeedMore | Found(name: seq<byte>) | Refused(alert: Alert)

  datatype ReadEvent = Chunk(bytes: seq<byte>) | ReadError

  datatype Outcome = Got(name: seq<byte>) | Rejected(alert: Alert) | IoFailed | StillPending

  predicate FirstServerName(es: seq<Extension>, i: int)
  {
    0 <= i < |es| && es[i].ServerName? && forall j :: 0 <= j < i ==> !es[j].ServerName?
  }

  /** `get_server_names`: the first server_name extension. */
  function ServerNames(es: seq<Extension>): (r: Option<seq<seq<byte>>>)
    ensures r.None? <==> forall i :: 0 <= i < |es| ==> !es[i].ServerName?
  {
    if es == [] then None
    else match es[0]
      case ServerName(names) => Some(names)
      case _ => ServerNames(es[1..])
  }

  /** The names are those of the first server_name extension. */
  lemma {:induction false} ServerNamesAreFirst(es: seq<Extension>) returns (i: nat)
    requires ServerNames(es).Some?
    ensures FirstServerName(es, i) && es[i] == ServerName(ServerNames(es).value)
    decreases |es|
  {
    if es[0].ServerName? {
      i := 0;
    } else {
      var k := ServerNamesAreFirst(es[1..]);
      i := k + 1;
      assert forall j :: 0 < j < i ==> es[j] == es[1..][j - 1];
    }
  }

  /** The answer that belongs to a decoder result that is not Truncated. */
  function Answer(r: Result<ClientHello>): Detection
  {
    match r
    case Err(_) => Refused(InternalError)
    case Ok(hello) =>
      match ServerNames(hello.extensions)
      case None => Refused(UnrecognizedName)
      case Some(names) => if |names| != 1 then Refused(InternalError) else Found(names[0])
  }

  /** What detection yields for a buffer, before and after the end of the stream. */
  function Detected(data: seq<byte>, eof: bool): Detection
  {
    if Decode(data) == Err(Truncated) && !eof then NeedMore else Answer(Decode(data))
  }

  method DetectSniName(data: seq<byte>, eof: bool) returns (d: Detection)
    ensures d == Detected(data, eof)
  {
    var decoded := TlsReader.DecodeClientHello(data);
    if decoded.Err? {
      if decoded.error == Truncated && !eof {
        return NeedMore;
      }
      return Refused(InternalError);
    }
    var serverNames := ServerNames(decoded.value.extensions);
    if serverNames.None? {
      return Refused(UnrecognizedName);
    }
    if |serverNames.value| != 1 {
      return Refused(InternalError);
    }
    return Found(serverNames.value[0]);
  }

  function Received(arrivals: seq<ReadEvent>): seq<byte>
  {
    if arrivals == [] then []
    else (if arrivals[0].Chunk? then arrivals[0].bytes else []) + Received(arrivals[1..])
  }

  /** The outcome of the read loop for any detection function. */
  function ReadLoop(
    detect: (seq<byte>, bool) -> Detection, into: seq<byte>, eof: bool, arrivals: seq<ReadEvent>): Outcome
    decreases |arrivals|
  {
    match detect(into, eof)
    case Found(name) => Got(name)
    case Refused(alert) => Rejected(alert)
    case NeedMore =>
      if arrivals == [] then StillPending
      else match arrivals[0]
        case ReadError => IoFailed
        case Chunk(c) => ReadLoop(detect, into + c, eof || c == [], arrivals[1..])
  }

  /** How many reads the loop takes before it has its outcome. */
  function Reads(
    detect: (seq<byte>, bool) -> Detection, into: seq<byte>, eof: bool, arrivals: seq<ReadEvent>): (k: nat)
    ensures k <= |arrivals|
    decreases |arrivals|
  {
    if !detect(into, eof).NeedMore? || arrivals == [] || arrivals[0].ReadError? then 0
    else 1 + Reads(detect, into + arrivals[0].bytes, eof || arrivals[0].bytes == [], arrivals[1..])
  }

  /** Whether one of the first `k` reads found the end of the stream. */
  predicate Ended(arrivals: seq<ReadEvent>, k: int)
  {
    exists i :: 0 <= i < k <= |arrivals| && arrivals[i] == Chunk([])
  }

  /** What detection says after `k` reads. */
  function DetectedAfter(
    detect: (seq<byte>, bool) -> Detection, into: seq<byte>, eof: bool, arrivals: seq<ReadEvent>, k: nat): Detection
    requires k <= |arrivals|
  {
    detect(into + Received(arrivals[..k]), eof || Ended(arrivals, k))
  }

  /** `r` is the outcome of reading until the first answer, which comes after `k` reads. */
  ghost predicate StopsAt(
    detect: (seq<byte>, bool) -> Detection, into: seq<byte>, eof: bool, arrivals: seq<ReadEvent>, k: nat, r: Outcome)
  {
    && k <= |arrivals|
    && (forall i | 0 <= i < k :: arrivals[i].Chunk? && DetectedAfter(detect, into, eof, arrivals, i).NeedMore?)
    && match DetectedAfter(detect, into, eof, arrivals, k)
       case Found(name) => r == Got(name)
       case Refused(alert) => r == Rejected(alert)
       case NeedMore =>
         if k == |arrivals| then r == StillPending else arrivals[k].ReadError? && r == IoFailed
  }

  lemma AfterNext(
    detect: (seq<byte>, bool) -> Detection, into: seq<byte>, eof: bool, arrivals: seq<ReadEvent>, k: nat)
    requires k < |arrivals| && arrivals[0].Chunk?
    ensures var c := arrivals[0].bytes;
            DetectedAfter(detect, into, eof, arrivals, k + 1)
            == DetectedAfter(detect, into + c, eof || c == [], arrivals[1..], k)
  {
    var c := arrivals[0].bytes;
    assert arrivals[..k + 1][1..] == arrivals[1..][..k];
    assert into + Received(arrivals[..k + 1]) == (into + c) + Received(arrivals[1..][..k]);
    assert forall i :: 0 <= i < k ==> arrivals[1..][i] == arrivals[i + 1];
    if Ended(arrivals, k + 1) {
      var i :| 0 <= i < k + 1 && arrivals[i] == Chunk([]);
      assert i > 0 ==> arrivals[1..][i - 1] == Chunk([]);
    }
  }

  lemma StopsLater(
    detect: (seq<byte>, bool) -> Detection, into: seq<byte>, eof: bool, arrivals: seq<ReadEvent>, k: nat, r: Outcome)
    requires arrivals != [] && arrivals[0].Chunk? && DetectedAfter(detect, into, eof, arrivals, 0).NeedMore?
    requires var c := arrivals[0].bytes; StopsAt(detect, into + c, eof || c == [], arrivals[1..], k, r)
    ensures StopsAt(detect, into, eof, arrivals, k + 1, r)
  {
    var c := arrivals[0].bytes;
    AfterNext(detect, into, eof, arrivals, k);
    forall i | 0 <= i < k + 1
      ensures arrivals[i].Chunk? && DetectedAfter(detect, into, eof, arrivals, i).NeedMore?
    {
      if i > 0 {
        AfterNext(detect, into, eof, arrivals, i - 1);
        assert arrivals[1..][i - 1] == arrivals[i];
        assert DetectedAfter(detect, into + c, eof || c == [], arrivals[1..], i - 1).NeedMore?;
      }
    }
  }

  /** The loop reads until detection has an answer for what it has, and no further. */
  lemma {:induction false} StopsAtFirstAnswer(
    detect: (seq<byte>, bool) -> Detection, into: seq<byte>, eof: bool, arrivals: seq<ReadEvent>)
    ensures var k, r := Reads(detect, into, eof, arrivals), ReadLoop(detect, into, eof, arrivals);
            StopsAt(detect, into, eof, arrivals, k, r)
    decreases |arrivals|
  {
    assert into + Received(arrivals[..0]) == into;
    assert DetectedAfter(detect, into, eof, arrivals, 0) == detect(into, eof);
    if detect(into, eof).NeedMore? && arrivals != [] && arrivals[0].Chunk? {
      var c, k := arrivals[0].bytes, Reads(detect, into, eof, arrivals);
      StopsAtFirstAnswer(detect, into + c, eof || c == [], arrivals[1..]);
      StopsLater(detect, into, eof, arrivals, k - 1, ReadLoop(detect, into, eof, arrivals));
    }
  }

  function SniLoop(into: seq<byte>, arrivals: seq<ReadEvent>): Outcome
  {
    ReadLoop(Detected, into, false, arrivals)
  }

  lemma {:induction false} ReceivedSnoc(arrivals: seq<ReadEvent>, i: nat)
    requires i < |arrivals| && arrivals[i].Chunk?
    ensures Received(arrivals[..i + 1]) == Received(arrivals[..i]) + arrivals[i].bytes
    decreases i
  {
    if i == 0 {
      assert arrivals[..1] == [arrivals[0]] && Received([arrivals[0]][1..]) == [];
    } else {
      ReceivedSnoc(arrivals[1..], i - 1);
      assert arrivals[..i + 1][1..] == arrivals[1..][..i] && arrivals[..i][1..] == arrivals[1..][..i - 1];
    }
  }

  lemma BufferGrows(into: seq<byte>, arrivals: seq<ReadEvent>, i: nat)
    requires i < |arrivals| && arrivals[i].Chunk?
    ensures into + Received(arrivals[..i]) + arrivals[i].bytes == into + Received(arrivals[..i + 1])
  {
    ReceivedSnoc(arrivals, i);
  }

  /** What the loop does from read `i` on is what it does after that read. */
  lemma KeepsReading(
    detect: (seq<byte>, bool) -> Detection, buffer: seq<byte>, eof: bool, arrivals: seq<ReadEvent>, i: nat)
    requires i < |arrivals| && arrivals[i].Chunk? && detect(buffer, eof).NeedMore?
    ensures var c := arrivals[i].bytes;
            && ReadLoop(detect, buffer, eof, arrivals[i..])
               == ReadLoop(detect, buffer + c, eof || c == [], arrivals[i + 1..])
            && Reads(detect, buffer, eof, arrivals[i..])
               == 1 + Reads(detect, buffer + c, eof || c == [], arrivals[i + 1..])
  {
    assert arrivals[i..][1..] == arrivals[i + 1..];
  }

  /** `AsyncReadClientHello::poll`, called again whenever a read is ready. */
  method PollReads(into: seq<byte>, arrivals: seq<ReadEvent>) returns (r: Outcome, buffer: seq<byte>, taken: nat)
    ensures r == SniLoop(into, arrivals) && taken == Reads(Detected, into, false, arrivals)
    ensures buffer == into + Received(arrivals[..taken])
  {
    buffer, taken := into, 0;
    var eof := false;
    assert arrivals[0..] == arrivals && into + Received(arrivals[..0]) == into;
    while true
      invariant taken <= |arrivals| && buffer == into + Received(arrivals[..taken])
      invariant ReadLoop(Detected, buffer, eof, arrivals[taken..]) == SniLoop(into, arrivals)
      invariant taken + Reads(Detected, buffer, eof, arrivals[taken..]) == Reads(Detected, into, false, arrivals)
      decreases |arrivals| - taken
    {
      var d := DetectSniName(buffer, eof);
      match d {
        case Found(name) => return Got(name), buffer, taken;
        case Refused(alert) => return Rejected(alert), buffer, taken;
        case NeedMore =>
      }
      if taken == |arrivals| {
        return StillPending, buffer, taken;
      }
      match arrivals[taken] {
        case ReadError => return IoFailed, buffer, taken;
        case Chunk(c) =>
          BufferGrows(into, arrivals, taken);
          KeepsReading(Detected, buffer, eof, arrivals, taken);
          eof := eof || c == [];
          buffer := buffer + c;
          taken := taken + 1;
      }
    }
  }

  /**
   * `read_client_hello_sni`: the outcome is what detection says of the buffer at the first read that
   * gives it an answer, and the buffer holds every byte read up to there.
   */
  method ReadClientHelloSni(into: seq<byte>, arrivals: seq<ReadEvent>)
    returns (r: Outcome, buffer: seq<byte>, taken: nat)
    ensures r == SniLoop(into, arrivals) && taken == Reads(Detected, into, false, arrivals)
    ensures buffer == into + Received(arrivals[..taken])
    ensures StopsAt(Detected, into, false, arrivals, taken, r)
  {
    r, buffer, taken := PollReads(into, arrivals);
    StopsAtFirstAnswer(Detected, into, false, arrivals);
  }

  /** Reads `k` non-empty chunks, none of which ends the stream. */
  predicate DataFor(arrivals: seq<ReadEvent>, k: nat)
  {
    k <= |arrivals| && forall i :: 0 <= i < k ==> arrivals[i].Chunk? && arrivals[i].bytes != []
  }

  /** An answer is final: it holds for every longer buffer that has one, and end of stream refuses or repeats it. */
  ghost predicate Stable(detect: (seq<byte>, bool) -> Detection)
  {
    && (forall p, q | p <= q && !detect(p, false).NeedMore? && !detect(q, false).NeedMore? ::
          detect(p, false) == detect(q, false))
    && (forall p :: detect(p, true) == detect(p, false) || (detect(p, false).NeedMore? && detect(p, true).Refused?))
  }

  lemma DetectionIsStable()
    ensures Stable(Detected)
  {
    forall p, q | p <= q && !Detected(p, false).NeedMore? && !Detected(q, false).NeedMore?
      ensures Detected(p, false) == Detected(q, false)
    {
      TlsWire.DecodeIsStable(p, q);
    }
  }

  lemma {:induction false} LoopFollowsAnyCut(
    detect: (seq<byte>, bool) -> Detection, into: seq<byte>, arrivals: seq<ReadEvent>, k: nat)
    requires Stable(detect) && DataFor(arrivals, k)
    requires !detect(into + Received(arrivals[..k]), false).NeedMore?
    ensures var d := detect(into + Received(arrivals[..k]), false);
            ReadLoop(detect, into, false, arrivals) == if d.Found? then Got(d.name) else Rejected(d.alert)
    decreases k
  {
    var whole := into + Received(arrivals[..k]);
    if detect(into, false).NeedMore? {
      assert k == 0 ==> whole == into;
      var c := arrivals[0].bytes;
      assert arrivals[..k][1..] == arrivals[1..][..k - 1];
      assert whole == (into + c) + Received(arrivals[1..][..k - 1]);
      LoopFollowsAnyCut(detect, into + c, arrivals[1..], k - 1);
    } else {
      assert into <= whole;
    }
  }

  /** A name is only ever taken from a prefix of what was received. */
  lemma {:induction false} GotFromPrefix(
    detect: (seq<byte>, bool) -> Detection, into: seq<byte>, eof: bool, arrivals: seq<ReadEvent>) returns (k: nat)
    requires Stable(detect) && ReadLoop(detect, into, eof, arrivals).Got?
    ensures k <= |arrivals|
    ensures detect(into + Received(arrivals[..k]), false) == Found(ReadLoop(detect, into, eof, arrivals).name)
    decreases |arrivals|
  {
    if detect(into, eof).Found? {
      k := 0;
      assert into + Received(arrivals[..0]) == into;
      assert detect(into, true) == detect(into, false);
    } else {
      var c := arrivals[0].bytes;
      var j := GotFromPrefix(detect, into + c, eof || c == [], arrivals[1..]);
      k := j + 1;
      assert arrivals[..k][1..] == arrivals[1..][..j];
      assert into + Received(arrivals[..k]) == (into + c) + Received(arrivals[1..][..j]);
    }
  }

  lemma {:induction false} ReceivedMono(arrivals: seq<ReadEvent>, k: nat)
    requires k <= |arrivals|
    ensures Received(arrivals[..k]) <= Received(arrivals)
    decreases |arrivals|
  {
    if k > 0 {
      assert arrivals[..k][1..] == arrivals[1..][..k - 1];
      ReceivedMono(arrivals[1..], k - 1);
    }
  }

  lemma PrefixesAgree(
    detect: (seq<byte>, bool) -> Detection, stream: seq<byte>, p: seq<byte>, q: seq<byte>)
    requires Stable(detect) && p <= stream && q <= stream
    requires !detect(p, false).NeedMore? && !detect(q, false).NeedMore?
    ensures detect(p, false) == detect(q, false)
  {
    assert p <= q || q <= p;
  }

  /**
   * If some cut of the stream is decodable, the loop's outcome is the answer for that cut: it does
   * not depend on where the earlier reads happened to end.
   */
  lemma ChunkingDoesNotMatter(into: seq<byte>, arrivals: seq<ReadEvent>, k: nat)
    requires DataFor(arrivals, k)
    requires !Detected(into + Received(arrivals[..k]), false).NeedMore?
    ensures var d := Detected(into + Received(arrivals[..k]), false);
            SniLoop(into, arrivals) == if d.Found? then Got(d.name) else Rejected(d.alert)
  {
    DetectionIsStable();
    LoopFollowsAnyCut(Detected, into, arrivals, k);
  }

  /** Two ways of reading one stream that both find a name find the same name. */
  lemma SameNameForAnyChunking(stream: seq<byte>, into: seq<byte>, arrivals: seq<ReadEvent>, arrivals': seq<ReadEvent>)
    requires into + Received(arrivals) <= stream && into + Received(arrivals') <= stream
    requires SniLoop(into, arrivals).Got? && SniLoop(into, arrivals').Got?
    ensures SniLoop(into, arrivals) == SniLoop(into, arrivals')
  {
    DetectionIsStable();
    var k := GotFromPrefix(Detected, into, false, arrivals);
    var k' := GotFromPrefix(Detected, into, false, arrivals');
    ReceivedMono(arrivals, k);
    ReceivedMono(arrivals', k');
    PrefixesAgree(Detected, stream, into + Received(arrivals[..k]), into + Received(arrivals'[..k']));
  }

  lemma HelloIsDetected(data: seq<byte>, h: ClientHello, name: seq<byte>)
    requires Decode(data) == Ok(h) && ServerNames(h.extensions) == Some([name])
    ensures Detected(data, false) == Found(name)
  {
  }

  lemma StreamIsDetected(h: ClientHello, rs: seq<Record>, name: seq<byte>)
    requires TlsWire.WellFormed(h)
    requires ServerNames(h.extensions) == Some([name])
    requires forall i :: 0 <= i < |rs| ==> |rs[i].data| < 0x1_0000
    requires TlsWire.HandshakeBytes(h) <= TlsWire.HandshakeData(rs)
    ensures Detected(TlsWire.StreamBytes(rs), false) == Found(name)
  {
    TlsWire.FragmentationIndependence(h, rs);
    HelloIsDetected(TlsWire.StreamBytes(rs), h, name);
  }

  lemma WholeStreamIsRead(arrivals: seq<ReadEvent>, name: seq<byte>)
    requires DataFor(arrivals, |arrivals|) && Detected(Received(arrivals), false) == Found(name)
    ensures SniLoop([], arrivals) == Got(name)
  {
    assert arrivals[..|arrivals|] == arrivals && [] + Received(arrivals) == Received(arrivals);
    ChunkingDoesNotMatter([], arrivals, |arrivals|);
  }

  /**
   * End to end: a client that offers one name is routed by that name, however its handshake is cut
   * into records and the records into reads.
   */
  lemma OfferedNameIsFound(h: ClientHello, rs: seq<Record>, arrivals: seq<ReadEvent>, name: seq<byte>)
    requires TlsWire.WellFormed(h)
    requires ServerNames(h.extensions) == Some([name])
    requires forall i :: 0 <= i < |rs| ==> |rs[i].data| < 0x1_0000
    requires TlsWire.HandshakeBytes(h) <= TlsWire.HandshakeData(rs)
    requires DataFor(arrivals, |arrivals|) && Received(arrivals) == TlsWire.StreamBytes(rs)
    ensures SniLoop([], arrivals) == Got(name)
  {
    StreamIsDetected(h, rs, name);
    WholeStreamIsRead(arrivals, name);
  }

  // ---- What becomes of every client

  lemma {:induction false} FirstNamesAre(es: seq<Extension>, i: nat, names: seq<seq<byte>>)
    requires FirstServerName(es, i) && es[i] == ServerName(names)
    ensures ServerNames(es) == Some(names)
    decreases i
  {
    if i > 0 {
      assert forall j :: 0 <= j < i ==> es[1..][j] == es[j + 1];
      FirstNamesAre(es[1..], i - 1, names);
    }
  }

  /** What the client gets for an answer. */
  function Delivered(d: Detection): Outcome
    requires !d.NeedMore?
  {
    if d.Found? then Got(d.name) else Rejected(d.alert)
  }

  lemma AnswerIsDetected(data: seq<byte>, answer: Result<ClientHello>)
    requires Decode(data) == answer && answer != Err(Truncated)
    ensures !Answer(answer).NeedMore? && Detected(data, false) == Answer(answer)
  {
  }

  lemma AnswerIsRead(arrivals: seq<ReadEvent>, k: nat, stream: seq<byte>, answer: Result<ClientHello>)
    requires DataFor(arrivals, k) && stream == [] + Received(arrivals[..k])
    requires Decode(stream) == answer && answer != Err(Truncated)
    ensures SniLoop([], arrivals) == Delivered(Answer(answer))
  {
    AnswerIsDetected(stream, answer);
    ChunkingDoesNotMatter([], arrivals, k);
  }

  /** The records `rs` carry the ClientHello `h`, and `arrivals` brings them in reads of any size. */
  predicate Sends(h: ClientHello, rs: seq<Record>, arrivals: seq<ReadEvent>)
  {
    && TlsWire.WellFormed(h)
    && (forall i :: 0 <= i < |rs| ==> |rs[i].data| < 0x1_0000)
    && TlsWire.HandshakeBytes(h) <= TlsWire.HandshakeData(rs)
    && DataFor(arrivals, |arrivals|) && Received(arrivals) == TlsWire.StreamBytes(rs)
  }

  lemma SentIsAnswered(h: ClientHello, rs: seq<Record>, arrivals: seq<ReadEvent>)
    requires Sends(h, rs, arrivals)
    ensures SniLoop([], arrivals) == Delivered(Answer(Ok(h)))
  {
    assert arrivals[..|arrivals|] == arrivals;
    TlsWire.FragmentationIndependence(h, rs);
    AnswerIsRead(arrivals, |arrivals|, TlsWire.StreamBytes(rs), Ok(h));
  }

  /** A client without a server_name extension gets the alert unrecognized_name. */
  lemma NamelessIsUnrecognized(h: ClientHello, rs: seq<Record>, arrivals: seq<ReadEvent>)
    requires Sends(h, rs, arrivals) && forall i :: 0 <= i < |h.extensions| ==> !h.extensions[i].ServerName?
    ensures SniLoop([], arrivals) == Rejected(UnrecognizedName)
  {
    SentIsAnswered(h, rs, arrivals);
  }

  /** Only the first server_name extension counts: its one name is found, none or several are an internal error. */
  lemma FirstExtensionDecides(
    h: ClientHello, rs: seq<Record>, arrivals: seq<ReadEvent>, i: nat, names: seq<seq<byte>>)
    requires Sends(h, rs, arrivals) && FirstServerName(h.extensions, i) && h.extensions[i] == ServerName(names)
    ensures SniLoop([], arrivals) == if |names| == 1 then Got(names[0]) else Rejected(InternalError)
  {
    FirstNamesAre(h.extensions, i, names);
    SentIsAnswered(h, rs, arrivals);
  }

  /** A stream that breaks the format is an internal error as soon as that shows. */
  lemma BrokenIsInternalError(arrivals: seq<ReadEvent>, k: nat)
    requires DataFor(arrivals, k) && Decode([] + Received(arrivals[..k])) != Err(Truncated)
    requires Decode([] + Received(arrivals[..k])).Err?
    ensures SniLoop([], arrivals) == Rejected(InternalError)
  {
    AnswerIsRead(arrivals, k, [] + Received(arrivals[..k]), Decode([] + Received(arrivals[..k])));
  }

  /** While there is no answer the loop just reads on. */
  lemma {:induction false} ReadsOn(
    detect: (seq<byte>, bool) -> Detection, into: seq<byte>, arrivals: seq<ReadEvent>, k: nat)
    requires DataFor(arrivals, k)
    requires forall i :: 0 <= i < k ==> detect(into + Received(arrivals[..i]), false).NeedMore?
    ensures ReadLoop(detect, into, false, arrivals)
            == ReadLoop(detect, into + Received(arrivals[..k]), false, arrivals[k..])
    decreases k
  {
    if k == 0 {
      assert into + Received(arrivals[..0]) == into && arrivals[0..] == arrivals;
    } else {
      assert detect(into + Received(arrivals[..k - 1]), false).NeedMore?;
      ReadsOn(detect, into, arrivals, k - 1);
      BufferGrows(into, arrivals, k - 1);
      KeepsReading(detect, into + Received(arrivals[..k - 1]), false, arrivals, k - 1);
    }
  }

  /**
   * A stream without an answer up to read `k`: the loop waits if nothing more comes, and otherwise
   * fails with the read, or with an internal error at the end of the stream.
   */
  lemma UnfinishedWaits(arrivals: seq<ReadEvent>, k: nat)
    requires DataFor(arrivals, k)
    requires forall i :: 0 <= i <= k ==> Decode([] + Received(arrivals[..i])) == Err(Truncated)
    ensures k == |arrivals| ==> SniLoop([], arrivals) == StillPending
    ensures k < |arrivals| && arrivals[k].ReadError? ==> SniLoop([], arrivals) == IoFailed
    ensures k < |arrivals| && arrivals[k] == Chunk([]) ==> SniLoop([], arrivals) == Rejected(InternalError)
  {
    ReadsOn(Detected, [], arrivals, k);
    var buffer := [] + Received(arrivals[..k]);
    assert buffer + [] == buffer;
    assert Detected(buffer, false).NeedMore? && Detected(buffer, true) == Refused(InternalError);
  }

  /** A ClientHello that offers `name` and nothing else. */
  function Offering(version: ProtocolVersion, random: Random, name: seq<byte>): ClientHello
  {
    ClientHello(version, random, [], [], [], [ServerName([name])])
  }

  lemma OneEntry(f: Frame)
    ensures |TlsWire.Flatten([f])| == |f.header| + |f.body|
  {
    assert [f][1..] == [];
  }

  lemma BodySize(names: seq<seq<byte>>)
    requires TlsWire.ValidExtension(ServerName(names))
    ensures |TlsWire.ExtensionFrame(ServerName(names)).body| == 2 + |TlsWire.Flatten(TlsWire.NameFrames(names))|
  {
  }

  lemma OneName(name: seq<byte>, names: seq<seq<byte>>)
    requires IsUtf8(name) && |name| < 65527 && names == [name]
    ensures TlsWire.ValidExtension(ServerName(names))
    ensures |TlsWire.ExtensionFrame(ServerName(names)).body| < 65532
  {
    var f := TlsWire.NameFrame(name);
    assert TlsWire.NameFrames(names) == [f];
    OneEntry(f);
    BodySize(names);
  }

  lemma OneExtension(e: Extension, es: seq<Extension>)
    requires TlsWire.ValidExtension(e) && |TlsWire.ExtensionFrame(e).body| < 65532 && es == [e]
    ensures forall i :: 0 <= i < |es| ==> TlsWire.ValidExtension(es[i])
    ensures |TlsWire.Flatten(TlsWire.ExtensionFrames(es))| < 0x1_0000
  {
    var f := TlsWire.ExtensionFrame(e);
    assert TlsWire.ExtensionFrames(es) == [f];
    OneEntry(f);
  }

  /** `h` carries nothing but its extensions. */
  lemma OnlyExtensions(h: ClientHello)
    requires |h.random.randomBytes| == 28 && h.random.gmtUnixTime < 0x1_0000_0000
    requires h.sessionId == [] && h.cipherSuites == [] && h.compressionMethods == []
    requires forall i :: 0 <= i < |h.extensions| ==> TlsWire.ValidExtension(h.extensions[i])
    requires |TlsWire.Flatten(TlsWire.ExtensionFrames(h.extensions))| < 0x1_0000
    ensures TlsWire.WellFormed(h)
  {
  }

  lemma FirstNames(es: seq<Extension>, names: seq<seq<byte>>)
    requires es != [] && es[0] == ServerName(names)
    ensures ServerNames(es) == Some(names)
  {
  }

  lemma OfferingIsWellFormed(version: ProtocolVersion, random: Random, name: seq<byte>)
    requires |random.randomBytes| == 28 && random.gmtUnixTime < 0x1_0000_0000
    requires IsUtf8(name) && |name| < 65527
    ensures TlsWire.WellFormed(Offering(version, random, name))
    ensures ServerNames(Offering(version, random, name).extensions) == Some([name])
  {
    var h := Offering(version, random, name);
    OneName(name, [name]);
    OneExtension(ServerName([name]), h.extensions);
    OnlyExtensions(h);
    FirstNames(h.extensions, [name]);
  }

  lemma CutStreamIsFound(h: ClientHello, arrivals: seq<ReadEvent>, name: seq<byte>)
    requires TlsWire.WellFormed(h) && ServerNames(h.extensions) == Some([name])
    requires DataFor(arrivals, |arrivals|)
    requires Received(arrivals) == TlsWire.StreamBytes(TlsImage.Cut(TlsWire.HandshakeBytes(h)))
    ensures SniLoop([], arrivals) == Got(name)
  {
    TlsImage.CutKeepsBytes(TlsWire.HandshakeBytes(h));
    OfferedNameIsFound(h, TlsImage.Cut(TlsWire.HandshakeBytes(h)), arrivals, name);
  }

  lemma FoundHoweverRead(h: ClientHello, name: seq<byte>, stream: seq<byte>)
    requires TlsWire.WellFormed(h) && ServerNames(h.extensions) == Some([name])
    requires stream == TlsWire.StreamBytes(TlsImage.Cut(TlsWire.HandshakeBytes(h)))
    ensures forall arrivals :: DataFor(arrivals, |arrivals|) && Received(arrivals) == stream ==>
              SniLoop([], arrivals) == Got(name)
  {
    forall arrivals | DataFor(arrivals, |arrivals|) && Received(arrivals) == stream
      ensures SniLoop([], arrivals) == Got(name)
    {
      CutStreamIsFound(h, arrivals, name);
    }
  }

  /** Every name that an extension can carry can be offered, and is found however the stream is then read. */
  lemma EveryNameCanBeOffered(version: ProtocolVersion, random: Random, name: seq<byte>) returns (stream: seq<byte>)
    requires |random.randomBytes| == 28 && random.gmtUnixTime < 0x1_0000_0000
    requires IsUtf8(name) && |name| < 65527
    ensures forall arrivals :: DataFor(arrivals, |arrivals|) && Received(arrivals) == stream ==>
              SniLoop([], arrivals) == Got(name)
  {
    OfferingIsWellFormed(version, random, name);
    var h := Offering(version, random, name);
    stream := TlsWire.StreamBytes(TlsImage.Cut(TlsWire.HandshakeBytes(h)));
    FoundHoweverRead(h, name, stream);
  }
}
