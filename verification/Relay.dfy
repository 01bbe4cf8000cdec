/**
 * The copy loop between a client and its backend, with half-close, and the PROXY header that may go
 * in front of the buffered handshake (experiments/sni-multiplexor/src/sni2.rs).
 */
module Relay {
  import opened Bytes

  /** What the environment does at one `select!`. */
  datatype Event =
    | WriteBackend(accepted: nat)
    | WriteClient(accepted: nat)
    | FromBackend(chunk: seq<byte>)
    | FromClient(chunk: seq<byte>)
    | ShutdownFails
    | IoError
    | Timeout

  datatype Exit = Finished | Failed | StillRunning

  datatype State = State(
    clientReadOpen: bool,
    backendReadOpen: bool,
    backendToWrite: seq<byte>,
    clientToWrite: seq<byte>,
    toBackend: seq<byte>,
    toClient: seq<byte>,
    backendShut: bool,
    clientShut: bool,
    bytesClientToBackend: nat,
    bytesBackendToClient: nat,
    log: seq<Event>)

  /** `backend_write_buf` before the loop: the bytes read so far, behind a PROXY header if one is wanted. */
  method PrependHeader(buffered: seq<byte>, header: Option<seq<byte>>) returns (backendWriteBuf: seq<byte>)
    ensures backendWriteBuf == (if header.Some? then header.value else []) + buffered
  {
    backendWriteBuf := buffered;
    if header.Some? {
      var tlsHandshake := backendWriteBuf;
      backendWriteBuf := [];
      backendWriteBuf := backendWriteBuf + header.value;
      backendWriteBuf := backendWriteBuf + tlsHandshake;
    }
  }

  function ClientBytes(log: seq<Event>): seq<byte>
  {
    if log == [] then []
    else ClientBytes(log[..|log| - 1]) + (if log[|log| - 1].FromClient? then log[|log| - 1].chunk else [])
  }

  function BackendBytes(log: seq<Event>): seq<byte>
  {
    if log == [] then []
    else BackendBytes(log[..|log| - 1]) + (if log[|log| - 1].FromBackend? then log[|log| - 1].chunk else [])
  }

  /** Whether a `select!` can take `e` now: reads are only polled once both write buffers are empty. */
  predicate Enabled(s: State, e: Event)
  {
    var writing := s.backendToWrite != [] || s.clientToWrite != [];
    match e
    case WriteBackend(n) => s.backendToWrite != [] && n <= |s.backendToWrite|
    case WriteClient(n) => s.clientToWrite != [] && n <= |s.clientToWrite|
    case FromBackend(_) => !writing && s.backendReadOpen
    case FromClient(_) => !writing && s.clientReadOpen
    case ShutdownFails => !writing && s.clientReadOpen
    case IoError => true
    case Timeout => true
  }

  /** The bytes are where they should be, in order, at every point of a run. */
  ghost predicate Conserved(first: seq<byte>, s: State)
  {
    && s.toBackend + s.backendToWrite == first + ClientBytes(s.log)
    && s.toClient + s.clientToWrite == BackendBytes(s.log)
  }

  /** A side is shut only after the other's reads ended, with nothing left to write to it. */
  ghost predicate CleanHalfClose(s: State)
  {
    && (s.backendShut <==> !s.clientReadOpen)
    && (s.clientShut <==> !s.backendReadOpen)
    && (s.backendShut ==> s.backendToWrite == [])
    && (s.clientShut ==> s.clientToWrite == [])
  }

  /** The session counters, as the code feeds them: each name counts the opposite direction. */
  ghost predicate Counted(s: State)
  {
    && s.bytesClientToBackend == |BackendBytes(s.log)|
    && s.bytesBackendToClient == |ClientBytes(s.log)|
  }

  lemma LogSnoc(log: seq<Event>, e: Event)
    ensures ClientBytes(log + [e]) == if e.FromClient? then ClientBytes(log) + e.chunk else ClientBytes(log)
    ensures BackendBytes(log + [e]) == if e.FromBackend? then BackendBytes(log) + e.chunk else BackendBytes(log)
  {
    assert (log + [e])[..|log|] == log;
  }

  predicate EndsLoop(e: Event)
  {
    e.ShutdownFails? || e.IoError? || e.Timeout?
  }

  /** One turn of the loop for an event that does not end it. */
  function Step(s: State, e: Event): State
    requires Enabled(s, e) && !EndsLoop(e)
  {
    var t := s.(log := s.log + [e]);
    match e
    case WriteBackend(n) =>
      t.(toBackend := s.toBackend + s.backendToWrite[..n], backendToWrite := s.backendToWrite[n..])
    case WriteClient(n) => t.(toClient := s.toClient + s.clientToWrite[..n], clientToWrite := s.clientToWrite[n..])
    case FromBackend(chunk) =>
      var u := t.(clientToWrite := chunk);
      if chunk == [] then u.(backendReadOpen := false, clientShut := true)
      else u.(bytesClientToBackend := s.bytesClientToBackend + |chunk|)
    case FromClient(chunk) =>
      var u := t.(backendToWrite := chunk);
      if chunk == [] then u.(clientReadOpen := false, backendShut := true)
      else u.(bytesBackendToClient := s.bytesBackendToClient + |chunk|)
  }

  lemma Moved(done: seq<byte>, pending: seq<byte>, n: nat)
    requires n <= |pending|
    ensures (done + pending[..n]) + pending[n..] == done + pending
  {
  }

  lemma NothingPending(done: seq<byte>, total: seq<byte>)
    requires done + [] == total
    ensures done == total
  {
    assert done + [] == done;
  }

  /** How one side changes: a write moves bytes, a read that finds nothing pending brings some, the rest is still. */
  ghost predicate SideStep(
    done: seq<byte>, pending: seq<byte>, total: seq<byte>, done': seq<byte>, pending': seq<byte>, total': seq<byte>)
  {
    || (done' + pending' == done + pending && total' == total)
    || (pending == [] && done' == done && total' == total + pending')
  }

  lemma SideConserved(
    done: seq<byte>, pending: seq<byte>, total: seq<byte>, done': seq<byte>, pending': seq<byte>, total': seq<byte>)
    requires SideStep(done, pending, total, done', pending', total') && done + pending == total
    ensures done' + pending' == total'
  {
    if pending == [] {
      NothingPending(done, total);
    }
  }

  lemma BackendSideStep(s: State, e: Event, total: seq<byte>, total': seq<byte>)
    requires Enabled(s, e) && !EndsLoop(e) && s.toBackend + s.backendToWrite == total
    requires total' == if e.FromClient? then total + e.chunk else total
    ensures Step(s, e).toBackend + Step(s, e).backendToWrite == total'
  {
    var t := Step(s, e);
    if e.WriteBackend? {
      Moved(s.toBackend, s.backendToWrite, e.accepted);
    }
    SideConserved(s.toBackend, s.backendToWrite, total, t.toBackend, t.backendToWrite, total');
  }

  lemma ClientSideStep(s: State, e: Event, total: seq<byte>, total': seq<byte>)
    requires Enabled(s, e) && !EndsLoop(e) && s.toClient + s.clientToWrite == total
    requires total' == if e.FromBackend? then total + e.chunk else total
    ensures Step(s, e).toClient + Step(s, e).clientToWrite == total'
  {
    var t := Step(s, e);
    if e.WriteClient? {
      Moved(s.toClient, s.clientToWrite, e.accepted);
    }
    SideConserved(s.toClient, s.clientToWrite, total, t.toClient, t.clientToWrite, total');
  }

  ghost predicate Good(first: seq<byte>, s: State)
  {
    Conserved(first, s) && CleanHalfClose(s) && Counted(s)
  }

  lemma StepStaysClean(s: State, e: Event)
    requires Enabled(s, e) && !EndsLoop(e) && CleanHalfClose(s)
    ensures CleanHalfClose(Step(s, e))
  {
  }

  lemma CountersStep(s: State, e: Event)
    requires Enabled(s, e) && !EndsLoop(e)
    ensures var t := Step(s, e);
            && t.bytesClientToBackend == s.bytesClientToBackend + (if e.FromBackend? then |e.chunk| else 0)
            && t.bytesBackendToClient == s.bytesBackendToClient + (if e.FromClient? then |e.chunk| else 0)
            && t.log == s.log + [e]
  {
  }

  lemma StepCounts(s: State, e: Event)
    requires Enabled(s, e) && !EndsLoop(e) && Counted(s)
    ensures Counted(Step(s, e))
  {
    CountersStep(s, e);
    LogSnoc(s.log, e);
  }

  lemma StepConserves(first: seq<byte>, s: State, e: Event)
    requires Enabled(s, e) && !EndsLoop(e) && Good(first, s)
    ensures Good(first, Step(s, e))
  {
    LogSnoc(s.log, e);
    if e.FromClient? {
      ConcatAssoc(first, ClientBytes(s.log), e.chunk);
    }
    BackendSideStep(s, e, first + ClientBytes(s.log), first + ClientBytes(s.log + [e]));
    ClientSideStep(s, e, BackendBytes(s.log), BackendBytes(s.log + [e]));
    StepStaysClean(s, e);
    StepCounts(s, e);
  }

  // ---- Whole runs

  function Start(first: seq<byte>): State
  {
    State(true, true, first, [], [], [], false, false, 0, 0, [])
  }

  /** What the loop does with a sequence of events: the ones it cannot select are passed over. */
  function Play(s: State, env: seq<Event>): (State, Exit)
    decreases |env|
  {
    if !s.backendReadOpen && !s.clientReadOpen then (s, Finished)
    else if env == [] then (s, StillRunning)
    else if !Enabled(s, env[0]) then Play(s, env[1..])
    else if EndsLoop(env[0]) then (s, Failed)
    else Play(Step(s, env[0]), env[1..])
  }

  /** The events taken, in the order they came. */
  function Selected(s: State, env: seq<Event>): seq<Event>
    decreases |env|
  {
    if (!s.backendReadOpen && !s.clientReadOpen) || env == [] then []
    else if !Enabled(s, env[0]) then Selected(s, env[1..])
    else if EndsLoop(env[0]) then []
    else [env[0]] + Selected(Step(s, env[0]), env[1..])
  }

  lemma {:induction false} LogIsSelected(s: State, env: seq<Event>)
    ensures Play(s, env).0.log == s.log + Selected(s, env)
    decreases |env|
  {
    if env != [] && (s.backendReadOpen || s.clientReadOpen) {
      if !Enabled(s, env[0]) {
        LogIsSelected(s, env[1..]);
      } else if !EndsLoop(env[0]) {
        LogIsSelected(Step(s, env[0]), env[1..]);
        CountersStep(s, env[0]);
        assert (s.log + [env[0]]) + Selected(Step(s, env[0]), env[1..])
            == s.log + ([env[0]] + Selected(Step(s, env[0]), env[1..]));
      }
    }
  }

  lemma {:induction false} PlayIsGood(first: seq<byte>, s: State, env: seq<Event>)
    requires Good(first, s)
    ensures Good(first, Play(s, env).0)
    ensures Play(s, env).1.Finished? ==> Play(s, env).0.backendShut && Play(s, env).0.clientShut
    decreases |env|
  {
    if env != [] && (s.backendReadOpen || s.clientReadOpen) {
      if !Enabled(s, env[0]) {
        PlayIsGood(first, s, env[1..]);
      } else if !EndsLoop(env[0]) {
        StepConserves(first, s, env[0]);
        PlayIsGood(first, Step(s, env[0]), env[1..]);
      }
    }
  }

  /** In every run: what each side got, and what it still has to get, is what the other side sent. */
  lemma EveryRun(first: seq<byte>, env: seq<Event>)
    ensures var (s, exit) := Play(Start(first), env);
            && Good(first, s)
            && s.log == Selected(Start(first), env)
            && (s.backendShut ==> s.toBackend == first + ClientBytes(s.log))
            && (s.clientShut ==> s.toClient == BackendBytes(s.log))
            && (exit.Finished? ==> s.backendShut && s.clientShut)
  {
    var (s, exit) := Play(Start(first), env);
    assert first + ClientBytes([]) == first;
    PlayIsGood(first, Start(first), env);
    LogIsSelected(Start(first), env);
    assert s.toBackend + [] == s.toBackend && s.toClient + [] == s.toClient;
  }

  /** One write phase: `write_from` one of the non-empty buffers, then back to the top of the loop. */
  method WritePhase(s: State, e: Event) returns (t: State, failed: bool)
    requires (s.backendToWrite != [] || s.clientToWrite != [])
    ensures failed <==> Enabled(s, e) && EndsLoop(e)
    ensures t == if Enabled(s, e) && !EndsLoop(e) then Step(s, e) else s
  {
    t, failed := s, false;
    match e {
      case WriteBackend(n) =>
        if s.backendToWrite != [] && n <= |s.backendToWrite| {
          t := t.(toBackend := t.toBackend + t.backendToWrite[..n]);
          t := t.(backendToWrite := t.backendToWrite[n..], log := t.log + [e]);
        }
      case WriteClient(n) =>
        if s.clientToWrite != [] && n <= |s.clientToWrite| {
          t := t.(toClient := t.toClient + t.clientToWrite[..n]);
          t := t.(clientToWrite := t.clientToWrite[n..], log := t.log + [e]);
        }
      case IoError => failed := true;
      case Timeout => failed := true;
      case _ =>
    }
  }

  /**
   * One read phase: `read_into` the side that is open into the other side's write buffer, shut down
   * on end of stream, count, and hand the buffer over. Both assertions of the source are here.
   */
  method ReadPhase(s: State, e: Event) returns (t: State, failed: bool)
    requires s.backendToWrite == [] && s.clientToWrite == []
    ensures failed <==> Enabled(s, e) && EndsLoop(e)
    ensures t == if Enabled(s, e) && !EndsLoop(e) then Step(s, e) else s
  {
    t, failed := s, false;
    var clientWriteBuf, backendWriteBuf := [], [];
    match e {
      case FromBackend(chunk) =>
        if s.backendReadOpen {
          clientWriteBuf := clientWriteBuf + chunk;
          if |chunk| == 0 {
            t := t.(backendReadOpen := false, clientShut := true);
          } else {
            t := t.(bytesClientToBackend := t.bytesClientToBackend + |chunk|);
          }
          assert t.clientToWrite == [];
          t := t.(clientToWrite := clientWriteBuf, log := t.log + [e]);
          clientWriteBuf := [];
        }
      case FromClient(chunk) =>
        if s.clientReadOpen {
          backendWriteBuf := backendWriteBuf + chunk;
          if |chunk| == 0 {
            t := t.(clientReadOpen := false, backendShut := true);
          } else {
            t := t.(bytesBackendToClient := t.bytesBackendToClient + |chunk|);
          }
          assert t.backendToWrite == [];
          t := t.(backendToWrite := backendWriteBuf, log := t.log + [e]);
          backendWriteBuf := [];
        }
      case ShutdownFails => failed := s.clientReadOpen;
      case IoError => failed := true;
      case Timeout => failed := true;
      case _ =>
    }
  }

  /** Each counter holds what its name says. */
  ghost predicate CountersRight(s: State)
  {
    s.bytesClientToBackend == |ClientBytes(s.log)| && s.bytesBackendToClient == |BackendBytes(s.log)|
  }

  /** The loop, for every behaviour of the environment. */
  method CopyLoop(first: seq<byte>, env: seq<Event>) returns (s: State, exit: Exit)
    ensures (s, exit) == Play(Start(first), env)
    ensures Good(first, s) && s.log == Selected(Start(first), env)
    ensures s.backendShut ==> s.toBackend == first + ClientBytes(s.log)
    ensures s.clientShut ==> s.toClient == BackendBytes(s.log)
    ensures exit.Finished? ==> s.backendShut && s.clientShut
    ensures CountersRight(s) <==> |ClientBytes(s.log)| == |BackendBytes(s.log)|
  {
    EveryRun(first, env);
    s := Start(first);
    var next := 0;
    assert env[0..] == env;
    while s.backendReadOpen || s.clientReadOpen
      invariant 0 <= next <= |env|
      invariant Play(s, env[next..]) == Play(Start(first), env)
      decreases |env| - next
    {
      if next == |env| {
        return s, StillRunning;
      }
      assert env[next..][1..] == env[next + 1..];
      var e := env[next];
      next := next + 1;
      var failed;
      if s.backendToWrite != [] || s.clientToWrite != [] {
        s, failed := WritePhase(s, e);
        if failed {
          return s, Failed;
        }
        continue;
      }
      s, failed := ReadPhase(s, e);
      if failed {
        return s, Failed;
      }
    }
    return s, Finished;
  }

  // ---- Progress: a side that is open is read, the other side's end notwithstanding

  function Concat(chunks: seq<seq<byte>>): seq<byte>
  {
    if chunks == [] then [] else chunks[0] + Concat(chunks[1..])
  }

  predicate AllData(chunks: seq<seq<byte>>)
  {
    forall i :: 0 <= i < |chunks| ==> chunks[i] != []
  }

  /** The client sends `chunks`, each of which the backend then takes. */
  function Upload(chunks: seq<seq<byte>>): seq<Event>
  {
    if chunks == [] then [] else [FromClient(chunks[0]), WriteBackend(|chunks[0]|)] + Upload(chunks[1..])
  }

  function Download(chunks: seq<seq<byte>>): seq<Event>
  {
    if chunks == [] then [] else [FromBackend(chunks[0]), WriteClient(|chunks[0]|)] + Download(chunks[1..])
  }

  predicate Idle(s: State)
  {
    s.backendToWrite == [] && s.clientToWrite == []
  }

  lemma TakesOne(s: State, e: Event, env: seq<Event>)
    requires (s.backendReadOpen || s.clientReadOpen) && Enabled(s, e) && !EndsLoop(e)
    ensures Play(s, [e] + env) == Play(Step(s, e), env)
  {
    assert ([e] + env)[1..] == env;
  }

  /** `t` differs from `s` in what went out, if at all. */
  predicate SameSides(s: State, t: State)
  {
    && t.clientReadOpen == s.clientReadOpen && t.backendReadOpen == s.backendReadOpen
    && t.backendShut == s.backendShut && t.clientShut == s.clientShut
  }

  /** A chunk read from the client goes out to the backend, and nothing else changes. */
  lemma OneUpload(s: State, c: seq<byte>, env: seq<Event>) returns (t: State)
    requires Idle(s) && s.clientReadOpen && c != []
    ensures Play(s, [FromClient(c), WriteBackend(|c|)] + env) == Play(t, env) && Idle(t) && SameSides(s, t)
    ensures t.toBackend == s.toBackend + c && t.toClient == s.toClient
  {
    var read := Step(s, FromClient(c));
    t := Step(read, WriteBackend(|c|));
    assert [FromClient(c), WriteBackend(|c|)] + env == [FromClient(c)] + ([WriteBackend(|c|)] + env);
    TakesOne(s, FromClient(c), [WriteBackend(|c|)] + env);
    TakesOne(read, WriteBackend(|c|), env);
  }

  lemma OneDownload(s: State, c: seq<byte>, env: seq<Event>) returns (t: State)
    requires Idle(s) && s.backendReadOpen && c != []
    ensures Play(s, [FromBackend(c), WriteClient(|c|)] + env) == Play(t, env) && Idle(t) && SameSides(s, t)
    ensures t.toClient == s.toClient + c && t.toBackend == s.toBackend
  {
    var read := Step(s, FromBackend(c));
    t := Step(read, WriteClient(|c|));
    assert [FromBackend(c), WriteClient(|c|)] + env == [FromBackend(c)] + ([WriteClient(|c|)] + env);
    TakesOne(s, FromBackend(c), [WriteClient(|c|)] + env);
    TakesOne(read, WriteClient(|c|), env);
  }

  lemma {:induction false} Uploads(s: State, chunks: seq<seq<byte>>, env: seq<Event>) returns (t: State)
    requires Idle(s) && s.clientReadOpen && AllData(chunks)
    ensures Play(s, Upload(chunks) + env) == Play(t, env) && Idle(t) && SameSides(s, t)
    ensures t.toBackend == s.toBackend + Concat(chunks) && t.toClient == s.toClient
    decreases |chunks|
  {
    if chunks == [] {
      t := s;
      assert Upload(chunks) + env == env && s.toBackend + [] == s.toBackend;
    } else {
      var c, rest := chunks[0], Upload(chunks[1..]) + env;
      var written := OneUpload(s, c, rest);
      ConcatAssoc([FromClient(c), WriteBackend(|c|)], Upload(chunks[1..]), env);
      t := Uploads(written, chunks[1..], env);
      ConcatAssoc(s.toBackend, c, Concat(chunks[1..]));
    }
  }

  lemma {:induction false} Downloads(s: State, chunks: seq<seq<byte>>, env: seq<Event>) returns (t: State)
    requires Idle(s) && s.backendReadOpen && AllData(chunks)
    ensures Play(s, Download(chunks) + env) == Play(t, env) && Idle(t) && SameSides(s, t)
    ensures t.toClient == s.toClient + Concat(chunks) && t.toBackend == s.toBackend
    decreases |chunks|
  {
    if chunks == [] {
      t := s;
      assert Download(chunks) + env == env && s.toClient + [] == s.toClient;
    } else {
      var c, rest := chunks[0], Download(chunks[1..]) + env;
      var written := OneDownload(s, c, rest);
      ConcatAssoc([FromBackend(c), WriteClient(|c|)], Download(chunks[1..]), env);
      t := Downloads(written, chunks[1..], env);
      ConcatAssoc(s.toClient, c, Concat(chunks[1..]));
    }
  }

  /** The client's side of a run: its chunks and its end, if it has not ended yet. */
  function ClientPart(open: bool, chunks: seq<seq<byte>>): seq<Event>
  {
    if open then Upload(chunks) + [FromClient([])] else []
  }

  function BackendPart(open: bool, chunks: seq<seq<byte>>): seq<Event>
  {
    if open then Download(chunks) + [FromBackend([])] else []
  }

  function IfOpen(open: bool, chunks: seq<seq<byte>>): seq<byte>
  {
    if open then Concat(chunks) else []
  }

  lemma ClientEnds(s: State, chunks: seq<seq<byte>>, env: seq<Event>) returns (t: State)
    requires Idle(s) && AllData(chunks)
    ensures Play(s, ClientPart(s.clientReadOpen, chunks) + env) == Play(t, env)
    ensures Idle(t) && !t.clientReadOpen && t.backendReadOpen == s.backendReadOpen
    ensures t.toBackend == s.toBackend + IfOpen(s.clientReadOpen, chunks) && t.toClient == s.toClient
  {
    if s.clientReadOpen {
      ConcatAssoc(Upload(chunks), [FromClient([])], env);
      var u := Uploads(s, chunks, [FromClient([])] + env);
      TakesOne(u, FromClient([]), env);
      t := Step(u, FromClient([]));
    } else {
      t := s;
      assert [] + env == env && s.toBackend + [] == s.toBackend;
    }
  }

  lemma BackendEnds(s: State, chunks: seq<seq<byte>>, env: seq<Event>) returns (t: State)
    requires Idle(s) && AllData(chunks)
    ensures Play(s, BackendPart(s.backendReadOpen, chunks) + env) == Play(t, env)
    ensures Idle(t) && !t.backendReadOpen && t.clientReadOpen == s.clientReadOpen
    ensures t.toClient == s.toClient + IfOpen(s.backendReadOpen, chunks) && t.toBackend == s.toBackend
  {
    if s.backendReadOpen {
      ConcatAssoc(Download(chunks), [FromBackend([])], env);
      var u := Downloads(s, chunks, [FromBackend([])] + env);
      TakesOne(u, FromBackend([]), env);
      t := Step(u, FromBackend([]));
    } else {
      t := s;
      assert [] + env == env && s.toClient + [] == s.toClient;
    }
  }

  /** What is pending goes out first. */
  function Flush(s: State): seq<Event>
  {
    (if s.backendToWrite == [] then [] else [WriteBackend(|s.backendToWrite|)])
    + (if s.clientToWrite == [] then [] else [WriteClient(|s.clientToWrite|)])
  }

  lemma Flushes(s: State, env: seq<Event>) returns (t: State)
    requires s.backendReadOpen || s.clientReadOpen
    ensures Play(s, Flush(s) + env) == Play(t, env) && Idle(t) && SameSides(s, t)
    ensures t.toBackend == s.toBackend + s.backendToWrite && t.toClient == s.toClient + s.clientToWrite
  {
    var client: seq<Event> := if s.clientToWrite == [] then [] else [WriteClient(|s.clientToWrite|)];
    t := s;
    if s.backendToWrite != [] {
      var e := WriteBackend(|s.backendToWrite|);
      assert Flush(s) + env == [e] + (client + env);
      TakesOne(s, e, client + env);
      t := Step(s, e);
    } else {
      assert Flush(s) == client && s.toBackend + [] == s.toBackend;
    }
    if s.clientToWrite != [] {
      var e := WriteClient(|s.clientToWrite|);
      TakesOne(t, e, env);
      t := Step(t, e);
    } else {
      assert client + env == env && s.toClient + [] == s.toClient;
    }
  }

  /**
   * From every state of the loop, in either order: whatever the sides that are still open send before
   * they end is delivered behind what was pending, and the loop finishes.
   */
  lemma Completes(s: State, requests: seq<seq<byte>>, responses: seq<seq<byte>>, clientFirst: bool)
    requires (s.backendReadOpen || s.clientReadOpen) && AllData(requests) && AllData(responses)
    ensures var up, down := ClientPart(s.clientReadOpen, requests), BackendPart(s.backendReadOpen, responses);
            var (t, exit) := Play(s, Flush(s) + (if clientFirst then up + down else down + up));
            && exit.Finished?
            && t.toBackend == s.toBackend + s.backendToWrite + IfOpen(s.clientReadOpen, requests)
            && t.toClient == s.toClient + s.clientToWrite + IfOpen(s.backendReadOpen, responses)
  {
    var up, down := ClientPart(s.clientReadOpen, requests), BackendPart(s.backendReadOpen, responses);
    if clientFirst {
      var idle := Flushes(s, up + down);
      var half := ClientEnds(idle, requests, down);
      assert down + [] == down;
      var t := BackendEnds(half, responses, []);
    } else {
      var idle := Flushes(s, down + up);
      var half := BackendEnds(idle, responses, up);
      assert up + [] == up;
      var t := ClientEnds(half, requests, []);
    }
  }

  /** A request whose sender half-closes before the answer comes still gets the whole answer. */
  lemma HalfClosedRequest(first: seq<byte>, requests: seq<seq<byte>>, responses: seq<seq<byte>>)
    requires AllData(requests) && AllData(responses)
    ensures var env := Flush(Start(first))
                       + ((Upload(requests) + [FromClient([])]) + (Download(responses) + [FromBackend([])]));
            var (s, exit) := Play(Start(first), env);
            exit.Finished? && s.toBackend == first + Concat(requests) && s.toClient == Concat(responses)
  {
    Completes(Start(first), requests, responses, true);
    assert [] + first == first && [] + [] + Concat(responses) == Concat(responses);
  }

  /** An error or a timer ends the loop at once, and nothing that comes later is taken. */
  lemma FailureEnds(s: State, e: Event, env: seq<Event>)
    requires s.backendReadOpen || s.clientReadOpen
    requires e == IoError || e == Timeout || (e == ShutdownFails && Idle(s) && s.clientReadOpen)
    ensures Play(s, [e] + env) == (s, Failed)
  {
  }

  /** While something is pending no side is read, and a side that has ended is not read again. */
  lemma ReadsWait(s: State, chunk: seq<byte>, env: seq<Event>)
    requires s.backendReadOpen || s.clientReadOpen
    ensures !Idle(s) || !s.clientReadOpen ==> Play(s, [FromClient(chunk)] + env) == Play(s, env)
    ensures !Idle(s) || !s.backendReadOpen ==> Play(s, [FromBackend(chunk)] + env) == Play(s, env)
  {
    assert ([FromClient(chunk)] + env)[1..] == env && ([FromBackend(chunk)] + env)[1..] == env;
  }

  // ---- The counters

  /** After every run the counters are right exactly when both directions carried equally much. */
  lemma CountersExactly(first: seq<byte>, env: seq<Event>)
    ensures var s := Play(Start(first), env).0;
            CountersRight(s) <==> |ClientBytes(s.log)| == |BackendBytes(s.log)|
  {
    EveryRun(first, env);
  }

  /** One chunk from the client is booked as backend-to-client traffic. */
  lemma WrongDirection(first: seq<byte>, chunk: seq<byte>)
    requires chunk != []
    ensures var env := (if first == [] then [] else [WriteBackend(|first|)]) + [FromClient(chunk)];
            var s := Play(Start(first), env).0;
            && ClientBytes(s.log) == chunk && BackendBytes(s.log) == []
            && s.bytesClientToBackend == 0 && s.bytesBackendToClient == |chunk|
  {
    var writes := if first == [] then [] else [WriteBackend(|first|)];
    var env := writes + [FromClient(chunk)];
    var s0 := Start(first);
    var s1 := if first == [] then s0 else Step(s0, WriteBackend(|first|));
    var s2 := Step(s1, FromClient(chunk));
    if first != [] {
      assert env[1..] == [FromClient(chunk)];
    }
    assert Play(s2, []) == (s2, StillRunning);
    assert Play(s1, [FromClient(chunk)]) == (s2, StillRunning);
    assert Play(s0, env) == (s2, StillRunning);
    LogSnoc(s0.log, WriteBackend(|first|));
    LogSnoc(s1.log, FromClient(chunk));
    assert [] + chunk == chunk;
  }
}
