/**
 * One connection through the SNI multiplexor: the name is read from the client, a backend is looked
 * up and dialed, and everything read so far goes to it in front of the copy loop
 * (experiments/sni-multiplexor/src/sni2.rs).
 */
module Multiplexor {
  import opened Bytes
  import opened TlsModel
  import Relay
  import SniDetect
  import TlsWire

  /** What the lookup of a name gives: the PROXY header wanted, if any, and whether the dialer gets through. */
  datatype Backend = Backend(header: Option<seq<byte>>, answers: bool)

  datatype Served =
    | NotRouted(outcome: SniDetect.Outcome)
    | NoBackend(name: seq<byte>)
    | NotDialed(name: seq<byte>)
    | Copied(name: seq<byte>, state: Relay.State, exit: Relay.Exit)

  function HeaderOf(b: Backend): seq<byte>
  {
    if b.header.Some? then b.header.value else []
  }

  /** Everything read from the client before the copy loop starts. */
  function ReadBefore(into: seq<byte>, arrivals: seq<SniDetect.ReadEvent>): seq<byte>
  {
    into + SniDetect.Received(arrivals[..SniDetect.Reads(SniDetect.Detected, into, false, arrivals)])
  }

  /** Where a connection gets to: the client is routed by the name it offers, and by nothing else. */
  function Routed(
    into: seq<byte>, arrivals: seq<SniDetect.ReadEvent>, lookup: seq<byte> -> Option<Backend>,
    env: seq<Relay.Event>): Served
  {
    match SniDetect.SniLoop(into, arrivals)
    case Got(name) =>
      (match lookup(name)
       case None => NoBackend(name)
       case Some(b) =>
         if !b.answers then NotDialed(name)
         else
           var (s, exit) := Relay.Play(Relay.Start(HeaderOf(b) + ReadBefore(into, arrivals)), env);
           Copied(name, s, exit))
    case outcome => NotRouted(outcome)
  }

  /** `sni_connect_and_copy_helper`. */
  method Serve(
    into: seq<byte>, arrivals: seq<SniDetect.ReadEvent>, lookup: seq<byte> -> Option<Backend>,
    env: seq<Relay.Event>) returns (r: Served)
    ensures r == Routed(into, arrivals, lookup, env)
  {
    var outcome, backendWriteBuf, _ := SniDetect.ReadClientHelloSni(into, arrivals);
    match outcome {
      case Got(name) =>
        var found := lookup(name);
        if found.None? {
          return NoBackend(name);
        }
        backendWriteBuf := Relay.PrependHeader(backendWriteBuf, found.value.header);
        if !found.value.answers {
          return NotDialed(name);
        }
        var s, exit := Relay.CopyLoop(backendWriteBuf, env);
        return Copied(name, s, exit);
      case _ =>
        return NotRouted(outcome);
    }
  }

  /**
   * In every run: the backend that the client's name stands for has got, or is about to get, its header
   * and then everything read from the client, before and in the copy loop, in order; when its side is
   * shut it has got all of it. The client gets what the backend sent.
   */
  lemma BackendGetsEverything(
    into: seq<byte>, arrivals: seq<SniDetect.ReadEvent>, lookup: seq<byte> -> Option<Backend>,
    env: seq<Relay.Event>)
    requires Routed(into, arrivals, lookup, env).Copied?
    ensures var r := Routed(into, arrivals, lookup, env);
            var s := r.state;
            && SniDetect.SniLoop(into, arrivals) == SniDetect.Got(r.name) && lookup(r.name).Some?
            && var sent := HeaderOf(lookup(r.name).value) + ReadBefore(into, arrivals) + Relay.ClientBytes(s.log);
               && s.toBackend + s.backendToWrite == sent
               && (s.backendShut ==> s.toBackend == sent)
               && s.toClient + s.clientToWrite == Relay.BackendBytes(s.log)
               && (s.clientShut ==> s.toClient == Relay.BackendBytes(s.log))
               && (r.exit.Finished? ==> s.backendShut && s.clientShut)
  {
    var b := lookup(Routed(into, arrivals, lookup, env).name).value;
    Relay.EveryRun(HeaderOf(b) + ReadBefore(into, arrivals), env);
  }

  lemma {:induction false} ReceivedSplit(arrivals: seq<SniDetect.ReadEvent>, k: nat)
    requires k <= |arrivals|
    ensures SniDetect.Received(arrivals) == SniDetect.Received(arrivals[..k]) + SniDetect.Received(arrivals[k..])
    decreases k
  {
    if k > 0 {
      ReceivedSplit(arrivals[1..], k - 1);
      assert arrivals[..k][1..] == arrivals[1..][..k - 1] && arrivals[k..] == arrivals[1..][k - 1..];
    } else {
      assert arrivals[0..] == arrivals && arrivals[..0] == [];
    }
  }

  /** The client's reads that detection did not take are the first ones of the copy loop. */
  ghost predicate GoesOn(arrivals: seq<SniDetect.ReadEvent>, log: seq<Relay.Event>, later: seq<byte>)
  {
    var k := SniDetect.Reads(SniDetect.Detected, [], false, arrivals);
    Relay.ClientBytes(log) == SniDetect.Received(arrivals[k..]) + later
  }

  lemma Joined(a: seq<byte>, b: seq<byte>, c: seq<byte>, d: seq<byte>)
    ensures a + b + (c + d) == a + (b + c) + d
  {
    ConcatAssoc(a + b, c, d);
    ConcatAssoc(a, b, c);
  }

  lemma WholeStream(arrivals: seq<SniDetect.ReadEvent>, log: seq<Relay.Event>, later: seq<byte>, header: seq<byte>)
    requires GoesOn(arrivals, log, later)
    ensures header + ReadBefore([], arrivals) + Relay.ClientBytes(log)
         == header + SniDetect.Received(arrivals) + later
  {
    var k := SniDetect.Reads(SniDetect.Detected, [], false, arrivals);
    ReceivedSplit(arrivals, k);
    var a, b := SniDetect.Received(arrivals[..k]), SniDetect.Received(arrivals[k..]);
    assert ReadBefore([], arrivals) == a;
    Joined(header, a, b, later);
  }

  /**
   * End to end: a client that offers one name reaches the backend of that name, and that backend gets
   * its header, the records that carried the handshake byte for byte, and what the client sent
   * after them, however the handshake was cut into records and the bytes into reads.
   */
  lemma HandshakeReachesBackend(
    h: ClientHello, rs: seq<Record>, name: seq<byte>, arrivals: seq<SniDetect.ReadEvent>,
    lookup: seq<byte> -> Option<Backend>, env: seq<Relay.Event>, later: seq<byte>)
    requires TlsWire.WellFormed(h) && SniDetect.ServerNames(h.extensions) == Some([name])
    requires forall i :: 0 <= i < |rs| ==> |rs[i].data| < 0x1_0000
    requires TlsWire.HandshakeBytes(h) <= TlsWire.HandshakeData(rs)
    requires SniDetect.DataFor(arrivals, |arrivals|) && SniDetect.Received(arrivals) == TlsWire.StreamBytes(rs)
    requires lookup(name).Some? && lookup(name).value.answers
    ensures var r := Routed([], arrivals, lookup, env);
            && r.Copied? && r.name == name
            && (GoesOn(arrivals, r.state.log, later) && r.exit.Finished? ==>
                  r.state.toBackend == HeaderOf(lookup(name).value) + TlsWire.StreamBytes(rs) + later)
  {
    SniDetect.OfferedNameIsFound(h, rs, arrivals, name);
    var r := Routed([], arrivals, lookup, env);
    BackendGetsEverything([], arrivals, lookup, env);
    if GoesOn(arrivals, r.state.log, later) {
      WholeStream(arrivals, r.state.log, later, HeaderOf(lookup(name).value));
    }
  }

  /**
   * What becomes of every client that sends a ClientHello, however it is cut: the first server_name
   * extension decides, then whether its name has a backend, then whether that answers.
   */
  lemma EveryClientIsRouted(
    h: ClientHello, rs: seq<Record>, arrivals: seq<SniDetect.ReadEvent>, i: nat, names: seq<seq<byte>>,
    lookup: seq<byte> -> Option<Backend>, env: seq<Relay.Event>)
    requires SniDetect.Sends(h, rs, arrivals)
    requires SniDetect.FirstServerName(h.extensions, i) && h.extensions[i] == ServerName(names)
    ensures var r := Routed([], arrivals, lookup, env);
            if |names| != 1 then r == NotRouted(SniDetect.Rejected(SniDetect.InternalError))
            else if lookup(names[0]).None? then r == NoBackend(names[0])
            else if !lookup(names[0]).value.answers then r == NotDialed(names[0])
            else r.Copied? && r.name == names[0]
  {
    SniDetect.FirstExtensionDecides(h, rs, arrivals, i, names);
  }

  lemma NamelessIsNotRouted(
    h: ClientHello, rs: seq<Record>, arrivals: seq<SniDetect.ReadEvent>, lookup: seq<byte> -> Option<Backend>,
    env: seq<Relay.Event>)
    requires SniDetect.Sends(h, rs, arrivals)
    requires forall i :: 0 <= i < |h.extensions| ==> !h.extensions[i].ServerName?
    ensures Routed([], arrivals, lookup, env) == NotRouted(SniDetect.Rejected(SniDetect.UnrecognizedName))
  {
    SniDetect.NamelessIsUnrecognized(h, rs, arrivals);
  }

  /**
   * A whole exchange: the backend gets its header, what detection read and the rest of the request, and
   * the client gets the whole answer, also when it has closed its own side before the answer comes.
   */
  lemma RequestIsAnswered(
    arrivals: seq<SniDetect.ReadEvent>, name: seq<byte>, lookup: seq<byte> -> Option<Backend>,
    requests: seq<seq<byte>>, responses: seq<seq<byte>>)
    requires SniDetect.SniLoop([], arrivals) == SniDetect.Got(name)
    requires lookup(name).Some? && lookup(name).value.answers
    requires Relay.AllData(requests) && Relay.AllData(responses)
    ensures var first := HeaderOf(lookup(name).value) + ReadBefore([], arrivals);
            var env := Relay.Flush(Relay.Start(first))
                       + ((Relay.Upload(requests) + [Relay.FromClient([])])
                          + (Relay.Download(responses) + [Relay.FromBackend([])]));
            var r := Routed([], arrivals, lookup, env);
            && r.Copied? && r.name == name && r.exit.Finished?
            && r.state.toBackend == first + Relay.Concat(requests)
            && r.state.toClient == Relay.Concat(responses)
  {
    Relay.HalfClosedRequest(HeaderOf(lookup(name).value) + ReadBefore([], arrivals), requests, responses);
  }
}
