/** The session table and its timed removal queue (experiments/sni-multiplexor/src/state_track.rs). */
module Sessions {
  import opened Bytes

  type Id = nat
  type Time = nat

  datatype State =
    | Handshaking
    | BackendResolving
    | BackendConnecting
    | Connected
    | ShutdownRead
    | ShutdownWrite
    | Shutdown

  datatype Session = Session(state: State, bytesClientToBackend: nat, bytesBackendToClient: nat)

  datatype Deadline = Deadline(time: Time, tieBreak: nat)

  /** 30 seconds, an instant being a number of nanoseconds. */
  const GRACE: nat := 30_000_000_000
  const TIE_BREAK_LIMIT: nat := 0x8000_0000

  datatype Table = Table(sessions: map<Id, Session>, removalQueue: map<Deadline, Id>, tieBreakCtr: nat)

  // ---- The operations, as functions of the table

  /** Queue entries below (now, 0xFFFF_FFFF): the part that `split_off` leaves behind. */
  predicate Expired(d: Deadline, now: Time)
  {
    d.time < now || (d.time == now && d.tieBreak < 0xFFFF_FFFF)
  }

  function ExpiredIds(t: Table, now: Time): set<Id>
  {
    set d | d in t.removalQueue && Expired(d, now) :: t.removalQueue[d]
  }

  function Cleaned(t: Table, now: Time): Table
  {
    t.(sessions := t.sessions - ExpiredIds(t, now),
       removalQueue := map d | d in t.removalQueue && !Expired(d, now) :: t.removalQueue[d])
  }

  function Enqueued(t: Table, id: Id, now: Time): Table
  {
    t.(removalQueue := t.removalQueue[Deadline(now + GRACE, t.tieBreakCtr) := id],
       tieBreakCtr := (t.tieBreakCtr + 1) % TIE_BREAK_LIMIT)
  }

  datatype Op =
    | Resolving
    | Connecting
    | Connect
    | HalfCloseRead
    | HalfCloseWrite
    | Finish
    | XmitBackendToClient(n: nat)
    | XmitClientToBackend(n: nat)

  function NextState(s: State, op: Op): State
  {
    match op
    case Resolving => BackendResolving
    case Connecting => BackendConnecting
    case Connect => Connected
    case HalfCloseRead => if s == ShutdownWrite then Shutdown else ShutdownRead
    case HalfCloseWrite => if s == ShutdownRead then Shutdown else ShutdownWrite
    case Finish => Shutdown
    case _ => s
  }

  /** Whether `op` puts a session in state `s` into the removal queue. */
  predicate Queues(s: State, op: Op)
  {
    op.Finish? || (op.HalfCloseRead? && s == ShutdownWrite) || (op.HalfCloseWrite? && s == ShutdownRead)
  }

  /** One `mark_…` or `handle_xmit_…` call, before its cleanup. */
  function Marked(t: Table, id: Id, op: Op, now: Time): Table
    requires id in t.sessions
  {
    var s := t.sessions[id];
    var s' := Session(NextState(s.state, op),
                      s.bytesClientToBackend + (if op.XmitClientToBackend? then op.n else 0),
                      s.bytesBackendToClient + (if op.XmitBackendToClient? then op.n else 0));
    var t' := t.(sessions := t.sessions[id := s']);
    if Queues(s.state, op) then Enqueued(t', id, now) else t'
  }

  ghost predicate CounterInRange(t: Table)
  {
    t.tieBreakCtr < TIE_BREAK_LIMIT && forall d :: d in t.removalQueue ==> d.tieBreak < TIE_BREAK_LIMIT
  }

  /** Cleanup at `now` removes exactly the sessions that have a queued deadline at or before `now`. */
  lemma CleanupIsExact(t: Table, now: Time, id: Id)
    requires CounterInRange(t)
    ensures id in Cleaned(t, now).sessions <==>
              id in t.sessions && forall d :: d in t.removalQueue && t.removalQueue[d] == id ==> now < d.time
    ensures id in Cleaned(t, now).sessions ==> Cleaned(t, now).sessions[id] == t.sessions[id]
    ensures forall d :: d in Cleaned(t, now).removalQueue <==> d in t.removalQueue && now < d.time
    ensures CounterInRange(Cleaned(t, now))
  {
    assert forall d :: d in t.removalQueue ==> (Expired(d, now) <==> d.time <= now);
  }

  // ---- The table as it runs

  function Image(queue: map<Deadline, Id>, ds: set<Deadline>): set<Id>
    requires ds <= queue.Keys
  {
    set d | d in ds :: queue[d]
  }

  lemma ImageMinus(queue: map<Deadline, Id>, ds: set<Deadline>, d: Deadline)
    requires ds <= queue.Keys && d in ds
    ensures Image(queue, ds) == {queue[d]} + Image(queue, ds - {d})
  {
    assert ds == {d} + (ds - {d});
  }

  class SessionManager {
    var sessions: map<Id, Session>
    var removalQueue: map<Deadline, Id>
    var tieBreakCtr: nat

    function Now(): Table
      reads this
    {
      Table(sessions, removalQueue, tieBreakCtr)
    }

    constructor ()
      ensures Now() == Table(map[], map[], 0)
    {
      sessions, removalQueue, tieBreakCtr := map[], map[], 0;
    }

    method AddSession(id: Id)
      modifies this
      ensures Now() == old(Now()).(sessions := old(sessions)[id := Session(Handshaking, 0, 0)])
    {
      sessions := sessions[id := Session(Handshaking, 0, 0)];
    }

    /** `sessions.remove` for each of the deadlines' sessions, in any order. */
    method RemoveAll(queue: map<Deadline, Id>, expired: set<Deadline>)
      requires expired <= queue.Keys
      modifies this`sessions
      ensures sessions == old(sessions) - Image(queue, expired)
    {
      var left := expired;
      ghost var removed: set<Id> := {};
      while left != {}
        modifies this`sessions
        invariant left <= expired
        invariant sessions == old(sessions) - removed
        invariant Image(queue, expired) == removed + Image(queue, left)
        decreases left
      {
        var d :| d in left;
        ImageMinus(queue, left, d);
        sessions := sessions - {queue[d]};
        removed := removed + {queue[d]};
        left := left - {d};
      }
    }

    method Cleanup(now: Time)
      modifies this
      ensures Now() == Cleaned(old(Now()), now)
    {
      var queue := removalQueue;
      removalQueue := map d | d in queue && !Expired(d, now) :: queue[d];
      RemoveAll(queue, set d | d in queue && Expired(d, now));
    }

    /** A queue insertion under the next tie-break number. */
    method Enqueue(id: Id, now: Time)
      modifies this
      ensures Now() == Enqueued(old(Now()), id, now)
    {
      removalQueue := removalQueue[Deadline(now + GRACE, tieBreakCtr) := id];
      tieBreakCtr := (tieBreakCtr + 1) % TIE_BREAK_LIMIT;
    }

    /** Every marking method: `ok` is false where the source unwraps a missing session. */
    method Mark(id: Id, op: Op, now: Time) returns (ok: bool)
      modifies this
      ensures ok <==> id in old(sessions)
      ensures ok ==> Now() == Cleaned(Marked(old(Now()), id, op, now), now)
    {
      if id !in sessions {
        return false;
      }
      var s := sessions[id];
      var inst := s.(state := NextState(s.state, op));
      if op.XmitBackendToClient? {
        inst := inst.(bytesBackendToClient := inst.bytesBackendToClient + op.n);
      } else if op.XmitClientToBackend? {
        inst := inst.(bytesClientToBackend := inst.bytesClientToBackend + op.n);
      }
      sessions := sessions[id := inst];
      if Queues(s.state, op) {
        Enqueue(id, now);
      }
      Cleanup(now);
      return true;
    }
  }

  // ---- Many sessions, each driven as `sni_connect_and_copy` drives it

  /** Where one connection's task is in its script. `Closed` remembers when the second half closed. */
  datatype Phase =
    | Opened
    | Resolved
    | Dialing
    | Copying(readShut: bool, writeShut: bool)
    | Closed(at: Time)
    | Ended

  predicate Allowed(p: Phase, op: Op)
  {
    match op
    case Resolving => p.Opened?
    case Connecting => p.Resolved?
    case Connect => p.Dialing?
    case HalfCloseRead => p.Copying? && !p.readShut
    case HalfCloseWrite => p.Copying? && !p.writeShut
    case Finish => !p.Ended?
    case XmitBackendToClient(_) => p.Copying? && !p.writeShut
    case XmitClientToBackend(_) => p.Copying? && !p.readShut
  }

  function NextPhase(p: Phase, op: Op, now: Time): Phase
    requires Allowed(p, op)
  {
    match op
    case Resolving => Resolved
    case Connecting => Dialing
    case Connect => Copying(false, false)
    case HalfCloseRead => if p.writeShut then Closed(now) else Copying(true, false)
    case HalfCloseWrite => if p.readShut then Closed(now) else Copying(false, true)
    case Finish => Ended
    case _ => p
  }

  function StateOf(p: Phase): State
  {
    match p
    case Opened => Handshaking
    case Resolved => BackendResolving
    case Dialing => BackendConnecting
    case Copying(r, w) => if r then ShutdownRead else if w then ShutdownWrite else Connected
    case Closed(_) => Shutdown
    case Ended => Shutdown
  }

  /** The table beside the tasks' scripts. `lastAct` is when the table was last cleaned. */
  datatype World = World(table: Table, phases: map<Id, Phase>, now: Time, lastAct: Option<Time>)

  /** One step of one task, or the arrival of a new one. */
  datatype Step = Arrive(id: Id, at: Time) | Act(id: Id, op: Op, at: Time)

  const INITIAL: World := World(Table(map[], map[], 0), map[], 0, None)

  /** The step is the next one of its task's script, at a time not before the last step. */
  predicate Fits(phases: map<Id, Phase>, now: Time, step: Step)
  {
    match step
    case Arrive(id, at) => now <= at && id !in phases
    case Act(id, op, at) => now <= at && id in phases && Allowed(phases[id], op)
  }

  predicate Enabled(w: World, step: Step)
  {
    Fits(w.phases, w.now, step)
  }

  /** The lookup that `step` starts with finds nothing. */
  predicate Misses(w: World, step: Step)
  {
    Enabled(w, step) && step.Act? && step.id !in w.table.sessions
  }

  /** Both halves closed, and the table was cleaned 30 seconds later or after that. */
  predicate Overdue(w: World, id: Id)
    requires id in w.phases
  {
    w.phases[id].Closed? && w.lastAct.Some? && w.phases[id].at + GRACE <= w.lastAct.value
  }

  ghost predicate PhaseOk(w: World, id: Id)
    requires id in w.phases
  {
    var p := w.phases[id];
    && (p.Copying? ==> !(p.readShut && p.writeShut))
    && (!p.Ended? && !Overdue(w, id) ==> id in w.table.sessions)
    && (id in w.table.sessions ==> w.table.sessions[id].state == StateOf(p))
  }

  ghost predicate QueueOk(w: World, d: Deadline)
    requires d in w.table.removalQueue
  {
    var id := w.table.removalQueue[d];
    id in w.phases && (w.phases[id].Ended? || (w.phases[id].Closed? && w.phases[id].at + GRACE == d.time))
  }

  ghost predicate Inv(w: World)
  {
    && CounterInRange(w.table)
    && w.table.sessions.Keys <= w.phases.Keys
    && (w.lastAct.Some? ==> w.lastAct.value <= w.now)
    && (forall id :: id in w.phases ==> PhaseOk(w, id))
    && (forall d :: d in w.table.removalQueue ==> QueueOk(w, d))
  }

  /** A task's step before the cleanup that follows it. */
  function Acted(w: World, id: Id, op: Op, at: Time): World
    requires Enabled(w, Act(id, op, at)) && id in w.table.sessions
  {
    World(Marked(w.table, id, op, at), w.phases[id := NextPhase(w.phases[id], op, at)], at, w.lastAct)
  }

  function CleanedUp(w: World): World
  {
    w.(table := Cleaned(w.table, w.now), lastAct := Some(w.now))
  }

  /** The world after an enabled step whose lookup does not miss. */
  function Stepped(w: World, step: Step): World
    requires Enabled(w, step) && !Misses(w, step)
  {
    match step
    case Arrive(id, at) =>
      w.(table := w.table.(sessions := w.table.sessions[id := Session(Handshaking, 0, 0)]),
         phases := w.phases[id := Opened], now := at)
    case Act(id, op, at) => CleanedUp(Acted(w, id, op, at))
  }

  function Rank(s: State): nat
  {
    match s
    case Handshaking => 0
    case BackendResolving => 1
    case BackendConnecting => 2
    case Connected => 3
    case ShutdownRead => 4
    case ShutdownWrite => 4
    case Shutdown => 5
  }

  /** A lookup can only miss for a session whose second half closed 30 seconds before an earlier cleanup. */
  lemma MissIsOverdue(w: World, step: Step)
    requires Inv(w) && Misses(w, step)
    ensures Overdue(w, step.id)
  {
    assert PhaseOk(w, step.id);
  }

  lemma MarkKeepsPhase(w: World, id: Id, op: Op, at: Time)
    requires Inv(w) && Enabled(w, Act(id, op, at)) && id in w.table.sessions
    ensures PhaseOk(Acted(w, id, op, at), id)
  {
    assert PhaseOk(w, id);
  }

  lemma MarkKeepsQueue(w: World, id: Id, op: Op, at: Time, d: Deadline)
    requires Inv(w) && Enabled(w, Act(id, op, at)) && id in w.table.sessions
    requires d in Acted(w, id, op, at).table.removalQueue
    ensures QueueOk(Acted(w, id, op, at), d)
  {
    assert PhaseOk(w, id);
    if d in w.table.removalQueue {
      assert QueueOk(w, d);
    }
  }

  lemma MarkKeepsInv(w: World, id: Id, op: Op, at: Time)
    requires Inv(w) && Enabled(w, Act(id, op, at)) && id in w.table.sessions
    ensures Inv(Acted(w, id, op, at))
  {
    var w' := Acted(w, id, op, at);
    MarkKeepsPhase(w, id, op, at);
    forall x | x in w'.phases
      ensures PhaseOk(w', x)
    {
      if x != id {
        assert PhaseOk(w, x);
      }
    }
    forall d | d in w'.table.removalQueue
      ensures QueueOk(w', d)
    {
      MarkKeepsQueue(w, id, op, at, d);
    }
  }

  lemma CleanupKeepsInv(w: World)
    requires Inv(w)
    ensures Inv(CleanedUp(w))
  {
    var w' := CleanedUp(w);
    CleanupIsExact(w.table, w.now, 0);
    forall x | x in w'.phases
      ensures PhaseOk(w', x)
    {
      assert PhaseOk(w, x);
      CleanupIsExact(w.table, w.now, x);
      forall d | d in w.table.removalQueue && w.table.removalQueue[d] == x && !w.phases[x].Ended? && !Overdue(w', x)
        ensures w.now < d.time
      {
        assert QueueOk(w, d);
      }
    }
    forall d | d in w'.table.removalQueue
      ensures QueueOk(w', d)
    {
      assert QueueOk(w, d);
    }
  }

  lemma ArriveKeepsInv(w: World, id: Id, at: Time)
    requires Inv(w) && Enabled(w, Arrive(id, at))
    ensures Inv(Stepped(w, Arrive(id, at)))
  {
    var w' := Stepped(w, Arrive(id, at));
    forall x | x in w'.phases
      ensures PhaseOk(w', x)
    {
      if x != id {
        assert PhaseOk(w, x);
      }
    }
    forall d | d in w'.table.removalQueue
      ensures QueueOk(w', d)
    {
      assert QueueOk(w, d);
    }
  }

  /** The states a task passes through are in order, and no other session is touched. */
  lemma MarkMovesForward(w: World, id: Id, op: Op, at: Time)
    requires Inv(w) && Enabled(w, Act(id, op, at)) && id in w.table.sessions
    ensures forall x :: x in w.table.sessions ==>
              Rank(w.table.sessions[x].state) <= Rank(Marked(w.table, id, op, at).sessions[x].state)
  {
    assert PhaseOk(w, id);
  }

  /** Every step that finds its session keeps the invariant and moves no session backwards. */
  lemma StepKeepsInv(w: World, step: Step)
    requires Inv(w) && Enabled(w, step) && !Misses(w, step)
    ensures Inv(Stepped(w, step))
    ensures forall id :: id in w.table.sessions && id in Stepped(w, step).table.sessions ==>
              Rank(w.table.sessions[id].state) <= Rank(Stepped(w, step).table.sessions[id].state)
  {
    match step {
      case Arrive(id, at) => ArriveKeepsInv(w, id, at);
      case Act(id, op, at) =>
        MarkKeepsInv(w, id, op, at);
        CleanupKeepsInv(Acted(w, id, op, at));
        MarkMovesForward(w, id, op, at);
    }
  }

  /** Everything a cleanup removes is in Shutdown. */
  lemma OnlyShutdownIsRemoved(w: World, id: Id, now: Time)
    requires Inv(w) && id in w.table.sessions && id !in Cleaned(w.table, now).sessions
    ensures w.table.sessions[id].state == Shutdown
  {
    CleanupIsExact(w.table, now, id);
    var d :| d in w.table.removalQueue && w.table.removalQueue[d] == id;
    assert QueueOk(w, d) && PhaseOk(w, id);
  }

  // ---- Whole runs, of any steps; a step that does not fit its task's script is not taken

  /** Where the tasks are in their scripts after `steps`, and the time. */
  function After(steps: seq<Step>): (map<Id, Phase>, Time)
  {
    if steps == [] then (map[], 0)
    else
      var n := |steps| - 1;
      var (phases, now) := After(steps[..n]);
      if !Fits(phases, now, steps[n]) then (phases, now)
      else
        match steps[n]
        case Arrive(id, at) => (phases[id := Opened], at)
        case Act(id, op, at) => (phases[id := NextPhase(phases[id], op, at)], at)
  }

  predicate Taken(steps: seq<Step>, k: nat)
    requires k < |steps|
  {
    Fits(After(steps[..k]).0, After(steps[..k]).1, steps[k])
  }

  /** The world after `steps`, or None once a lookup has missed. */
  function Run(steps: seq<Step>): Option<World>
  {
    if steps == [] then Some(INITIAL)
    else
      var n := |steps| - 1;
      match Run(steps[..n])
      case None => None
      case Some(w) =>
        if Misses(w, steps[n]) then None
        else if Enabled(w, steps[n]) then Some(Stepped(w, steps[n]))
        else Some(w)
  }

  function LastAct(steps: seq<Step>): Option<Time>
  {
    if steps == [] then None
    else
      var n := |steps| - 1;
      if steps[n].Act? && Taken(steps, n) then Some(steps[n].at) else LastAct(steps[..n])
  }

  lemma PrefixOf(steps: seq<Step>, n: nat, k: nat)
    requires k <= n <= |steps|
    ensures steps[..n][..k] == steps[..k]
  {
  }

  lemma {:induction false} LastActIsTaken(steps: seq<Step>) returns (j: nat)
    requires LastAct(steps).Some?
    ensures j < |steps| && steps[j].Act? && Taken(steps, j) && steps[j].at == LastAct(steps).value
    decreases |steps|
  {
    var n := |steps| - 1;
    if steps[n].Act? && Taken(steps, n) {
      j := n;
    } else {
      j := LastActIsTaken(steps[..n]);
      PrefixOf(steps, n, j);
    }
  }

  lemma {:induction false} LastActIsLatest(steps: seq<Step>, j: nat)
    requires j < |steps| && steps[j].Act? && Taken(steps, j)
    ensures LastAct(steps).Some? && steps[j].at <= LastAct(steps).value <= After(steps).1
    decreases |steps|
  {
    var n := |steps| - 1;
    if j < n {
      PrefixOf(steps, n, j);
      LastActIsLatest(steps[..n], j);
    }
  }

  /** Calls are taken in the order of their times. */
  lemma InOrder(steps: seq<Step>, j: nat, k: nat)
    requires j < k < |steps| && steps[j].Act? && Taken(steps, j) && Taken(steps, k)
    ensures steps[j].at <= steps[k].at
  {
    PrefixOf(steps, k, j);
    LastActIsLatest(steps[..k], j);
  }

  // ---- The removal queue after any steps

  /** Step `k` puts its session into the removal queue: it closes the second half, or finishes. */
  predicate Queueing(steps: seq<Step>, k: int)
  {
    && 0 <= k < |steps| && steps[k].Act? && Taken(steps, k)
    && (steps[k].op.Finish?
        || NextPhase(After(steps[..k]).0[steps[k].id], steps[k].op, steps[k].at).Closed?)
  }

  /** How many insertions `steps` make. */
  function Number(steps: seq<Step>): nat
  {
    if steps == [] then 0
    else Number(steps[..|steps| - 1]) + if Queueing(steps, |steps| - 1) then 1 else 0
  }

  /** The tie-break counter after `n` insertions. */
  function Tie(n: nat): (t: nat)
    ensures t < TIE_BREAK_LIMIT
  {
    if n == 0 || Tie(n - 1) + 1 == TIE_BREAK_LIMIT then 0 else Tie(n - 1) + 1
  }

  lemma {:induction false} TieIsRemainder(n: nat)
    ensures Tie(n) == n % TIE_BREAK_LIMIT
  {
    if n > 0 {
      TieIsRemainder(n - 1);
    }
  }

  /** The queue key of the insertion: its deadline, and its number in 31 bits. */
  function Key(steps: seq<Step>, k: nat): Deadline
    requires Queueing(steps, k)
  {
    Deadline(steps[k].at + GRACE, Tie(Number(steps[..k])))
  }

  /** A later insertion, 2^31 or a multiple of it further on and at the same instant, has the same key. */
  predicate Overwritten(steps: seq<Step>, q: nat)
    requires Queueing(steps, q)
  {
    exists r :: q < r < |steps| && Queueing(steps, r) && Key(steps, r) == Key(steps, q)
  }

  predicate Due(last: Option<Time>, d: Deadline)
  {
    last.Some? && d.time <= last.value
  }

  /** Step `q` made the queue entry `d`, and it is still the one for that key. */
  predicate Entered(steps: seq<Step>, q: int, d: Deadline)
  {
    Queueing(steps, q) && Key(steps, q) == d && !Overwritten(steps, q)
  }

  /** A cleanup no later than `last` found the session's entry. */
  ghost predicate Gone(steps: seq<Step>, last: Option<Time>, id: Id)
  {
    exists q :: Queueing(steps, q) && steps[q].id == id && !Overwritten(steps, q) && Due(last, Key(steps, q))
  }

  ghost predicate QueueTracks(steps: seq<Step>, last: Option<Time>, queue: map<Deadline, Id>)
  {
    && (forall q :: Queueing(steps, q) && !Overwritten(steps, q) && !Due(last, Key(steps, q)) ==>
          Key(steps, q) in queue && queue[Key(steps, q)] == steps[q].id)
    && (forall d :: d in queue ==> !Due(last, d) && exists q :: Entered(steps, q, d) && queue[d] == steps[q].id)
  }

  /** The table holds exactly the sessions that are not gone, and the queue exactly the entries still due. */
  ghost predicate Tracks(steps: seq<Step>, last: Option<Time>, w: World)
  {
    && (w.phases, w.now) == After(steps)
    && w.table.tieBreakCtr == Tie(Number(steps))
    && QueueTracks(steps, last, w.table.removalQueue)
    && (forall id :: id in w.phases ==> (id in w.table.sessions <==> !Gone(steps, last, id)))
  }

  lemma QueueingBefore(steps: seq<Step>, n: nat, q: int)
    requires n <= |steps|
    ensures Queueing(steps[..n], q) <==> Queueing(steps, q) && q < n
    ensures Queueing(steps[..n], q) ==> Key(steps[..n], q) == Key(steps, q)
  {
    if 0 <= q < n {
      PrefixOf(steps, n, q);
    }
  }

  lemma {:induction false} QueueingKnown(steps: seq<Step>, q: nat)
    requires Queueing(steps, q)
    ensures steps[q].id in After(steps).0
    decreases |steps|
  {
    var n := |steps| - 1;
    if q < n {
      QueueingBefore(steps, n, q);
      QueueingKnown(steps[..n], q);
    }
  }

  /** One more step that queues nothing overwrites nothing. */
  lemma OverwrittenSame(steps: seq<Step>, q: nat)
    requires steps != [] && !Queueing(steps, |steps| - 1) && Queueing(steps, q)
    ensures Queueing(steps[..|steps| - 1], q)
    ensures Overwritten(steps, q) <==> Overwritten(steps[..|steps| - 1], q)
  {
    var n := |steps| - 1;
    forall r
      ensures Queueing(steps[..n], r) <==> Queueing(steps, r)
      ensures Queueing(steps, r) ==> Key(steps[..n], r) == Key(steps, r)
    {
      QueueingBefore(steps, n, r);
    }
  }

  /** One more insertion overwrites the entries of its own key. */
  lemma OverwrittenNext(steps: seq<Step>, q: nat)
    requires steps != [] && Queueing(steps, |steps| - 1) && Queueing(steps, q) && q < |steps| - 1
    ensures Queueing(steps[..|steps| - 1], q)
    ensures Overwritten(steps, q) <==>
              Overwritten(steps[..|steps| - 1], q) || Key(steps, q) == Key(steps, |steps| - 1)
  {
    var n := |steps| - 1;
    forall r
      ensures Queueing(steps[..n], r) <==> Queueing(steps, r) && r < n
      ensures Queueing(steps[..n], r) ==> Key(steps[..n], r) == Key(steps, r)
    {
      QueueingBefore(steps, n, r);
    }
    if Overwritten(steps, q) && Key(steps, q) != Key(steps, n) {
      var r :| q < r < |steps| && Queueing(steps, r) && Key(steps, r) == Key(steps, q);
      assert Queueing(steps[..n], r);
    }
  }

  lemma QueueSame(steps: seq<Step>, last: Option<Time>, queue: map<Deadline, Id>)
    requires steps != [] && !Queueing(steps, |steps| - 1) && QueueTracks(steps[..|steps| - 1], last, queue)
    ensures QueueTracks(steps, last, queue)
    ensures forall id :: Gone(steps, last, id) <==> Gone(steps[..|steps| - 1], last, id)
  {
    var n := |steps| - 1;
    forall q
      ensures Queueing(steps[..n], q) <==> Queueing(steps, q)
      ensures Queueing(steps, q) ==>
                Key(steps[..n], q) == Key(steps, q) && (Overwritten(steps, q) <==> Overwritten(steps[..n], q))
    {
      QueueingBefore(steps, n, q);
      if Queueing(steps, q) {
        OverwrittenSame(steps, q);
      }
    }
    forall d | d in queue
      ensures exists q :: Entered(steps, q, d) && queue[d] == steps[q].id
    {
      var q :| Entered(steps[..n], q, d) && queue[d] == steps[..n][q].id;
      assert Entered(steps, q, d);
    }
  }

  /** `q` is an earlier insertion that the last one leaves alone. */
  lemma OthersStay(steps: seq<Step>, q: int)
    requires steps != [] && Queueing(steps, |steps| - 1) && q != |steps| - 1
    ensures Queueing(steps[..|steps| - 1], q) <==> Queueing(steps, q)
    ensures Queueing(steps, q) ==>
              && Key(steps[..|steps| - 1], q) == Key(steps, q)
              && (!Overwritten(steps, q) <==>
                    !Overwritten(steps[..|steps| - 1], q) && Key(steps, q) != Key(steps, |steps| - 1))
  {
    QueueingBefore(steps, |steps| - 1, q);
    if Queueing(steps, q) {
      OverwrittenNext(steps, q);
    }
  }

  lemma QueueNext(steps: seq<Step>, last: Option<Time>, queue: map<Deadline, Id>)
    requires steps != [] && Queueing(steps, |steps| - 1) && QueueTracks(steps[..|steps| - 1], last, queue)
    ensures last.None? || last.value <= steps[|steps| - 1].at ==>
              QueueTracks(steps, last, queue[Key(steps, |steps| - 1) := steps[|steps| - 1].id])
  {
    var n := |steps| - 1;
    var key := Key(steps, n);
    var queue' := queue[key := steps[n].id];
    if last.None? || last.value <= steps[n].at {
      forall q | Queueing(steps, q) && !Overwritten(steps, q) && !Due(last, Key(steps, q))
        ensures Key(steps, q) in queue' && queue'[Key(steps, q)] == steps[q].id
      {
        if q != n {
          OthersStay(steps, q);
        }
      }
      forall d | d in queue'
        ensures !Due(last, d) && exists q :: Entered(steps, q, d) && queue'[d] == steps[q].id
      {
        if d == key {
          assert Entered(steps, n, d);
        } else {
          var q :| Entered(steps[..n], q, d) && queue[d] == steps[..n][q].id;
          OthersStay(steps, q);
          assert Entered(steps, q, d);
        }
      }
    }
  }

  lemma GoneNext(steps: seq<Step>, last: Option<Time>, id: Id)
    requires steps != [] && Queueing(steps, |steps| - 1)
    requires last.None? || last.value <= steps[|steps| - 1].at
    ensures Gone(steps, last, id) <==> Gone(steps[..|steps| - 1], last, id)
  {
    var n := |steps| - 1;
    if Gone(steps, last, id) {
      var q :| Queueing(steps, q) && steps[q].id == id && !Overwritten(steps, q) && Due(last, Key(steps, q));
      OthersStay(steps, q);
      assert Queueing(steps[..n], q) && steps[..n][q].id == id;
    }
    if Gone(steps[..n], last, id) {
      var q :| Queueing(steps[..n], q) && steps[..n][q].id == id && !Overwritten(steps[..n], q)
               && Due(last, Key(steps[..n], q));
      OthersStay(steps, q);
      assert Queueing(steps, q);
    }
  }

  /** A cleanup takes exactly the entries that have become due, and their sessions. */
  lemma CleanupTracks(steps: seq<Step>, last: Option<Time>, w: World)
    requires CounterInRange(w.table) && Tracks(steps, last, w) && (last.None? || last.value <= w.now)
    ensures Tracks(steps, Some(w.now), CleanedUp(w))
  {
    var w' := CleanedUp(w);
    CleanupIsExact(w.table, w.now, 0);
    forall x | x in w'.phases
      ensures x in w'.table.sessions <==> !Gone(steps, Some(w.now), x)
    {
      CleanupIsExact(w.table, w.now, x);
      if Gone(steps, Some(w.now), x) && x in w.table.sessions {
        var q :| Queueing(steps, q) && steps[q].id == x && !Overwritten(steps, q) && Due(Some(w.now), Key(steps, q));
        assert Key(steps, q) in w.table.removalQueue;
      }
      if x in w.table.sessions && x !in w'.table.sessions {
        var d :| d in w.table.removalQueue && w.table.removalQueue[d] == x && d.time <= w.now;
        var q :| Entered(steps, q, d) && w.table.removalQueue[d] == steps[q].id;
        assert Queueing(steps, q) && Due(Some(w.now), Key(steps, q));
      }
    }
  }

  /** A script closes its second half exactly when the table says so. */
  lemma QueueingIsQueues(steps: seq<Step>, w: World)
    requires steps != [] && steps[|steps| - 1].Act? && Inv(w) && (w.phases, w.now) == After(steps[..|steps| - 1])
    requires Enabled(w, steps[|steps| - 1]) && steps[|steps| - 1].id in w.table.sessions
    ensures var step := steps[|steps| - 1];
            && (Queueing(steps, |steps| - 1) <==> Queues(w.table.sessions[step.id].state, step.op))
            && (w.phases[step.id := NextPhase(w.phases[step.id], step.op, step.at)], step.at) == After(steps)
  {
    assert PhaseOk(w, steps[|steps| - 1].id);
  }

  lemma NextTie(t: Table, id: Id, now: Time, n: nat)
    requires t.tieBreakCtr == Tie(n)
    ensures Enqueued(t, id, now).tieBreakCtr == Tie(n + 1)
    ensures Enqueued(t, id, now).removalQueue == t.removalQueue[Deadline(now + GRACE, Tie(n)) := id]
  {
  }

  lemma GoneSame(steps: seq<Step>, last: Option<Time>)
    requires steps != [] && Queueing(steps, |steps| - 1)
    requires last.None? || last.value <= steps[|steps| - 1].at
    ensures forall x :: Gone(steps, last, x) <==> Gone(steps[..|steps| - 1], last, x)
  {
    forall x
      ensures Gone(steps, last, x) <==> Gone(steps[..|steps| - 1], last, x)
    {
      GoneNext(steps, last, x);
    }
  }

  /** The insertion, as the table makes it, is the one that the scripts call for. */
  lemma InsertTracks(steps: seq<Step>, last: Option<Time>, queue: map<Deadline, Id>, n: nat)
    requires steps != [] && Queueing(steps, |steps| - 1) && QueueTracks(steps[..|steps| - 1], last, queue)
    requires n == Number(steps[..|steps| - 1]) && (last.None? || last.value <= steps[|steps| - 1].at)
    ensures var step := steps[|steps| - 1];
            QueueTracks(steps, last, queue[Deadline(step.at + GRACE, Tie(n)) := step.id])
    ensures Number(steps) == n + 1
  {
    QueueNext(steps, last, queue);
    assert Key(steps, |steps| - 1) == Deadline(steps[|steps| - 1].at + GRACE, Tie(n));
  }

  /** What a call changes before its cleanup, `n` insertions having been made before. */
  ghost predicate ActChanges(steps: seq<Step>, w: World, w': World, n: nat)
    requires steps != []
  {
    var step := steps[|steps| - 1];
    && (w'.phases, w'.now) == After(steps)
    && w'.table.sessions.Keys == w.table.sessions.Keys && w'.phases.Keys == w.phases.Keys
    && if Queueing(steps, |steps| - 1)
       then w'.table.removalQueue == w.table.removalQueue[Deadline(step.at + GRACE, Tie(n)) := step.id]
            && w'.table.tieBreakCtr == Tie(n + 1)
       else w'.table.removalQueue == w.table.removalQueue && w'.table.tieBreakCtr == w.table.tieBreakCtr
  }

  lemma ActTable(steps: seq<Step>, w: World, n: nat)
    requires steps != [] && steps[|steps| - 1].Act? && Inv(w) && (w.phases, w.now) == After(steps[..|steps| - 1])
    requires Enabled(w, steps[|steps| - 1]) && steps[|steps| - 1].id in w.table.sessions
    requires w.table.tieBreakCtr == Tie(n)
    ensures var step := steps[|steps| - 1]; ActChanges(steps, w, Acted(w, step.id, step.op, step.at), n)
  {
    var step := steps[|steps| - 1];
    QueueingIsQueues(steps, w);
    var w' := Acted(w, step.id, step.op, step.at);
    NextTie(w.table.(sessions := w'.table.sessions), step.id, step.at, n);
  }

  lemma ChangesTrack(steps: seq<Step>, last: Option<Time>, w: World, w': World, n: nat)
    requires steps != [] && Tracks(steps[..|steps| - 1], last, w) && n == Number(steps[..|steps| - 1])
    requires ActChanges(steps, w, w', n) && (last.None? || last.value <= steps[|steps| - 1].at)
    ensures Tracks(steps, last, w')
  {
    if Queueing(steps, |steps| - 1) {
      InsertTracks(steps, last, w.table.removalQueue, n);
      GoneSame(steps, last);
    } else {
      QueueSame(steps, last, w.table.removalQueue);
    }
  }

  lemma ArriveTracks(steps: seq<Step>, last: Option<Time>, w: World)
    requires steps != [] && steps[|steps| - 1].Arrive? && Tracks(steps[..|steps| - 1], last, w)
    requires Enabled(w, steps[|steps| - 1])
    ensures Tracks(steps, last, Stepped(w, steps[|steps| - 1]))
  {
    var n := |steps| - 1;
    QueueSame(steps, last, w.table.removalQueue);
    if Gone(steps[..n], last, steps[n].id) {
      var q :| Queueing(steps[..n], q) && steps[..n][q].id == steps[n].id;
      QueueingKnown(steps[..n], q);
    }
  }

  lemma SkippedTracks(steps: seq<Step>, last: Option<Time>, w: World)
    requires steps != [] && !Taken(steps, |steps| - 1) && Tracks(steps[..|steps| - 1], last, w)
    ensures Tracks(steps, last, w)
  {
    QueueSame(steps, last, w.table.removalQueue);
  }

  /** In every run so far without a miss, the table is what the scripts say. */
  lemma {:induction false} EveryRun(steps: seq<Step>)
    requires Run(steps).Some?
    ensures var w := Run(steps).value; Inv(w) && w.lastAct == LastAct(steps) && Tracks(steps, LastAct(steps), w)
    decreases |steps|
  {
    if steps != [] {
      var n := |steps| - 1;
      EveryRun(steps[..n]);
      var w, last := Run(steps[..n]).value, LastAct(steps[..n]);
      if Enabled(w, steps[n]) {
        StepKeepsInv(w, steps[n]);
        match steps[n] {
          case Arrive(_, _) => ArriveTracks(steps, last, w);
          case Act(id, op, at) =>
            ActTable(steps, w, Number(steps[..n]));
            ChangesTrack(steps, last, w, Acted(w, id, op, at), Number(steps[..n]));
            MarkKeepsInv(w, id, op, at);
            CleanupTracks(steps, last, Acted(w, id, op, at));
        }
      } else {
        SkippedTracks(steps, last, w);
      }
    }
  }

  // ---- Exactly when a lookup misses

  /**
   * Call `q` puts a session into the queue, where its entry is not overwritten; call `j` comes 30
   * seconds later or after that; call `k` then looks the session up.
   */
  predicate Lost(steps: seq<Step>, q: int, j: int, k: int)
  {
    && q < j < k < |steps| && Queueing(steps, q) && !Overwritten(steps, q)
    && steps[j].Act? && Taken(steps, j) && steps[q].at + GRACE <= steps[j].at
    && steps[k].Act? && Taken(steps, k) && steps[k].id == steps[q].id
  }

  lemma {:induction false} MissIsFinal(steps: seq<Step>, k: nat)
    requires k <= |steps| && Run(steps[..k]).None?
    ensures Run(steps).None?
    decreases |steps|
  {
    if k < |steps| {
      PrefixOf(steps, |steps| - 1, k);
      MissIsFinal(steps[..|steps| - 1], k);
    } else {
      assert steps[..k] == steps;
    }
  }

  /** Once a call has come at the deadline, the entry is not overwritten any more. */
  lemma SettledEntry(steps: seq<Step>, k: nat, q: nat, j: nat)
    requires q < j < k <= |steps| && Queueing(steps, q) && steps[j].Act? && Taken(steps, j)
    requires steps[q].at + GRACE <= steps[j].at
    ensures Queueing(steps[..k], q) && Key(steps[..k], q) == Key(steps, q)
    ensures Overwritten(steps[..k], q) <==> Overwritten(steps, q)
  {
    QueueingBefore(steps, k, q);
    if Overwritten(steps, q) {
      var r :| q < r < |steps| && Queueing(steps, r) && Key(steps, r) == Key(steps, q);
      if j < r {
        InOrder(steps, j, r);
      }
      QueueingBefore(steps, k, r);
    }
    if Overwritten(steps[..k], q) {
      var r :| q < r < k && Queueing(steps[..k], r) && Key(steps[..k], r) == Key(steps[..k], q);
      QueueingBefore(steps, k, r);
    }
  }

  lemma LostIsGone(steps: seq<Step>, q: nat, j: nat, k: nat)
    requires Lost(steps, q, j, k)
    ensures Gone(steps[..k], LastAct(steps[..k]), steps[k].id)
  {
    SettledEntry(steps, k, q, j);
    PrefixOf(steps, k, j);
    LastActIsLatest(steps[..k], j);
    assert steps[..k][q].id == steps[k].id;
  }

  lemma MissStops(steps: seq<Step>, k: nat)
    requires k < |steps| && Run(steps[..k]).Some? && Misses(Run(steps[..k]).value, steps[k])
    ensures Run(steps[..k + 1]).None?
  {
    var next := steps[..k + 1];
    assert next[..k] == steps[..k] && next[k] == steps[k] && |next| - 1 == k;
  }

  lemma GoneMisses(steps: seq<Step>, k: nat)
    requires k < |steps| && steps[k].Act? && Taken(steps, k) && Run(steps[..k]).Some?
    requires Gone(steps[..k], LastAct(steps[..k]), steps[k].id)
    ensures Run(steps[..k + 1]).None?
  {
    EveryRun(steps[..k]);
    MissStops(steps, k);
  }

  lemma LostMisses(steps: seq<Step>, q: nat, j: nat, k: nat)
    requires Lost(steps, q, j, k)
    ensures Run(steps).None?
  {
    if Run(steps[..k]).Some? {
      LostIsGone(steps, q, j, k);
      GoneMisses(steps, k);
      MissIsFinal(steps, k + 1);
    } else {
      MissIsFinal(steps, k);
    }
  }

  lemma LostLater(steps: seq<Step>, n: nat, q: nat, j: nat, k: nat)
    requires n <= |steps| && Lost(steps[..n], q, j, k)
    ensures Lost(steps, q, j, k)
  {
    QueueingBefore(steps, n, q);
    PrefixOf(steps, n, j);
    PrefixOf(steps, n, k);
    SettledEntry(steps, n, q, j);
  }

  lemma GoneIsLost(steps: seq<Step>, k: nat) returns (q: nat, j: nat)
    requires k < |steps| && steps[k].Act? && Taken(steps, k)
    requires Gone(steps[..k], LastAct(steps[..k]), steps[k].id)
    ensures Lost(steps, q, j, k)
  {
    q :| Queueing(steps[..k], q) && steps[..k][q].id == steps[k].id && !Overwritten(steps[..k], q)
         && Due(LastAct(steps[..k]), Key(steps[..k], q));
    j := LastActIsTaken(steps[..k]);
    PrefixOf(steps, k, j);
    QueueingBefore(steps, k, q);
    if j < q {
      InOrder(steps, j, q);
    }
    SettledEntry(steps, k, q, j);
  }

  /** Whatever misses was lost. */
  lemma {:induction false} MissIsLost(steps: seq<Step>) returns (q: nat, j: nat, k: nat)
    requires Run(steps).None?
    ensures Lost(steps, q, j, k)
    decreases |steps|
  {
    var n := |steps| - 1;
    if Run(steps[..n]).None? {
      q, j, k := MissIsLost(steps[..n]);
      LostLater(steps, n, q, j, k);
    } else {
      EveryRun(steps[..n]);
      k := n;
      q, j := GoneIsLost(steps, n);
    }
  }

  /**
   * Any interleaving of any number of sessions and calls: a lookup misses if and only if some task
   * acts on a session that was queued at c, after another call 30 seconds or more later, unless an
   * insertion at the same instant has taken over the session's 31-bit queue key.
   */
  lemma MissesExactly(steps: seq<Step>)
    ensures Run(steps).None? <==> exists q, j, k :: Lost(steps, q, j, k)
  {
    if Run(steps).None? {
      var q, j, k := MissIsLost(steps);
    }
    forall q, j, k | Lost(steps, q, j, k)
      ensures Run(steps).None?
    {
      LostMisses(steps, q, j, k);
    }
  }

  lemma {:induction false} NumberGrows(steps: seq<Step>, q: nat, n: nat)
    requires Queueing(steps, q) && q < n <= |steps|
    ensures Number(steps[..q]) < Number(steps[..n])
    decreases n
  {
    PrefixOf(steps, n, n - 1);
    QueueingBefore(steps, n, q);
    if q < n - 1 {
      NumberGrows(steps, q, n - 1);
    }
  }

  lemma SmallNumbers(a: nat, b: nat)
    requires a < b < TIE_BREAK_LIMIT
    ensures Tie(a) != Tie(b)
  {
    TieIsRemainder(a);
    TieIsRemainder(b);
  }

  /** Below 2^31 insertions no key comes twice. */
  lemma FewAreKept(steps: seq<Step>, q: nat)
    requires Queueing(steps, q) && Number(steps) <= TIE_BREAK_LIMIT
    ensures !Overwritten(steps, q)
  {
    forall r | q < r < |steps| && Queueing(steps, r)
      ensures Key(steps, r) != Key(steps, q)
    {
      NumberGrows(steps, q, r);
      NumberGrows(steps, r, |steps|);
      assert steps[..|steps|] == steps;
      SmallNumbers(Number(steps[..q]), Number(steps[..r]));
    }
  }

  // ---- What a session shows, in terms of the calls made for it

  /** The calls taken for a session, in order. */
  function Calls(steps: seq<Step>, id: Id): seq<Op>
  {
    if steps == [] then []
    else
      var n := |steps| - 1;
      Calls(steps[..n], id)
      + if Taken(steps, n) && steps[n].Act? && steps[n].id == id then [steps[n].op] else []
  }

  /** The bytes that `calls` report in each direction. */
  function ToBackend(calls: seq<Op>): nat
  {
    if calls == [] then 0
    else
      var last := calls[|calls| - 1];
      ToBackend(calls[..|calls| - 1]) + if last.XmitClientToBackend? then last.n else 0
  }

  function ToClient(calls: seq<Op>): nat
  {
    if calls == [] then 0
    else
      var last := calls[|calls| - 1];
      ToClient(calls[..|calls| - 1]) + if last.XmitBackendToClient? then last.n else 0
  }

  /** The state a session is in after `calls`. */
  function StateAfter(calls: seq<Op>): State
  {
    if Finish in calls || (HalfCloseRead in calls && HalfCloseWrite in calls) then Shutdown
    else if HalfCloseRead in calls then ShutdownRead
    else if HalfCloseWrite in calls then ShutdownWrite
    else if Connect in calls then Connected
    else if Connecting in calls then BackendConnecting
    else if Resolving in calls then BackendResolving
    else Handshaking
  }

  /** Where a task is, in terms of the calls it has made. */
  predicate PhaseShows(p: Phase, calls: seq<Op>)
  {
    && (Finish in calls <==> p.Ended?)
    && (!p.Ended? ==>
          && (HalfCloseRead in calls <==> p.Closed? || (p.Copying? && p.readShut))
          && (HalfCloseWrite in calls <==> p.Closed? || (p.Copying? && p.writeShut))
          && (Connect in calls <==> p.Copying? || p.Closed?)
          && (Connecting in calls <==> p.Dialing? || p.Copying? || p.Closed?)
          && (Resolving in calls <==> !p.Opened?))
  }

  lemma CallsLast(steps: seq<Step>, id: Id)
    requires steps != []
    ensures var n := |steps| - 1;
            Calls(steps, id)
            == Calls(steps[..n], id)
               + if Taken(steps, n) && steps[n].Act? && steps[n].id == id then [steps[n].op] else []
  {
  }

  lemma PhaseShowsNext(p: Phase, calls: seq<Op>, op: Op, at: Time)
    requires PhaseShows(p, calls) && Allowed(p, op)
    ensures PhaseShows(NextPhase(p, op, at), calls + [op])
  {
  }

  lemma {:induction false} PhaseFollowsCalls(steps: seq<Step>, id: Id)
    ensures var phases, calls := After(steps).0, Calls(steps, id);
            if id in phases then PhaseShows(phases[id], calls) else calls == []
    decreases |steps|
  {
    if steps != [] {
      var n := |steps| - 1;
      PhaseFollowsCalls(steps[..n], id);
      if Taken(steps, n) && steps[n].Act? && steps[n].id == id {
        PhaseShowsNext(After(steps[..n]).0[id], Calls(steps[..n], id), steps[n].op, steps[n].at);
      }
    }
  }

  lemma ShownState(p: Phase, calls: seq<Op>)
    requires PhaseShows(p, calls) && (p.Copying? ==> !(p.readShut && p.writeShut))
    ensures StateOf(p) == StateAfter(calls)
  {
  }

  lemma CountedLast(calls: seq<Op>, op: Op)
    ensures ToBackend(calls + [op]) == ToBackend(calls) + if op.XmitClientToBackend? then op.n else 0
    ensures ToClient(calls + [op]) == ToClient(calls) + if op.XmitBackendToClient? then op.n else 0
  {
    assert (calls + [op])[..|calls|] == calls;
  }

  /** A step leaves every other session's counters alone, and adds its own bytes to its own. */
  lemma StepCounts(w: World, step: Step, id: Id)
    requires Enabled(w, step) && !Misses(w, step) && id in Stepped(w, step).table.sessions
    ensures var s := Stepped(w, step).table.sessions[id];
            if step.Arrive? && step.id == id then s.bytesClientToBackend == s.bytesBackendToClient == 0
            else
              && id in w.table.sessions
              && s.bytesClientToBackend == w.table.sessions[id].bytesClientToBackend
                 + (if step.Act? && step.id == id && step.op.XmitClientToBackend? then step.op.n else 0)
              && s.bytesBackendToClient == w.table.sessions[id].bytesBackendToClient
                 + (if step.Act? && step.id == id && step.op.XmitBackendToClient? then step.op.n else 0)
  {
  }

  predicate Counted(s: Session, calls: seq<Op>)
  {
    s.bytesClientToBackend == ToBackend(calls) && s.bytesBackendToClient == ToClient(calls)
  }

  lemma NextCounts(steps: seq<Step>, w: World, id: Id, before: seq<Op>)
    requires steps != [] && (w.phases, w.now) == After(steps[..|steps| - 1])
    requires before == Calls(steps[..|steps| - 1], id) && (id !in w.phases ==> before == [])
    requires var step := steps[|steps| - 1];
             Enabled(w, step) && !Misses(w, step) && id in Stepped(w, step).table.sessions
    requires id in w.table.sessions ==> Counted(w.table.sessions[id], before)
    ensures Counted(Stepped(w, steps[|steps| - 1]).table.sessions[id], Calls(steps, id))
  {
    var step := steps[|steps| - 1];
    assert Taken(steps, |steps| - 1);
    CallsLast(steps, id);
    StepCounts(w, step, id);
    if step.Act? && step.id == id {
      CountedLast(before, step.op);
    } else {
      assert before + [] == before;
    }
  }

  lemma SkippedCalls(steps: seq<Step>, id: Id)
    requires steps != [] && !Taken(steps, |steps| - 1)
    ensures Calls(steps, id) == Calls(steps[..|steps| - 1], id)
  {
    CallsLast(steps, id);
  }

  lemma {:induction false} CountersAddUp(steps: seq<Step>, id: Id)
    requires Run(steps).Some? && id in Run(steps).value.table.sessions
    ensures Counted(Run(steps).value.table.sessions[id], Calls(steps, id))
    decreases |steps|
  {
    var n := |steps| - 1;
    var w := Run(steps[..n]).value;
    EveryRun(steps[..n]);
    if id in w.table.sessions {
      CountersAddUp(steps[..n], id);
    }
    if Enabled(w, steps[n]) {
      PhaseFollowsCalls(steps[..n], id);
      NextCounts(steps, w, id, Calls(steps[..n], id));
    } else {
      SkippedCalls(steps, id);
    }
  }

  /**
   * Every run: a session in the table is in the state that the calls made for it call for, and its two
   * counters are the sums of the bytes reported in the two directions.
   */
  lemma SessionShowsCalls(steps: seq<Step>, id: Id)
    requires Run(steps).Some? && id in Run(steps).value.table.sessions
    ensures var calls := Calls(steps, id);
            Run(steps).value.table.sessions[id] == Session(StateAfter(calls), ToBackend(calls), ToClient(calls))
  {
    EveryRun(steps);
    CountersAddUp(steps, id);
    PhaseFollowsCalls(steps, id);
    var w := Run(steps).value;
    assert PhaseOk(w, id);
    ShownState(w.phases[id], Calls(steps, id));
  }

  // ---- Runs that show both sides of the condition

  /** A call that fits, after steps that leave `phases`. */
  lemma NextCall(steps: seq<Step>, phases: map<Id, Phase>, now: Time, a: Id, op: Op, c: Time)
    requires After(steps) == (phases, now) && now <= c && a in phases && Allowed(phases[a], op)
    ensures var next := steps + [Act(a, op, c)];
            && next[..|steps|] == steps && Taken(next, |steps|)
            && After(next) == (phases[a := NextPhase(phases[a], op, c)], c)
            && (Queueing(next, |steps|) <==> op.Finish? || NextPhase(phases[a], op, c).Closed?)
            && Number(next) == Number(steps) + if Queueing(next, |steps|) then 1 else 0
  {
    assert (steps + [Act(a, op, c)])[..|steps|] == steps;
  }

  lemma NextArrival(steps: seq<Step>, phases: map<Id, Phase>, now: Time, a: Id, c: Time)
    requires After(steps) == (phases, now) && now <= c && a !in phases
    ensures var next := steps + [Arrive(a, c)];
            After(next) == (phases[a := Opened], c) && Number(next) == Number(steps)
  {
    assert (steps + [Arrive(a, c)])[..|steps|] == steps;
  }

  /** All calls of one session at one instant, up to the close of its second half. */
  function Opening(a: Id, c: Time): seq<Step>
  {
    [Arrive(a, c), Act(a, Resolving, c), Act(a, Connecting, c), Act(a, Connect, c), Act(a, HalfCloseRead, c)]
  }

  lemma Rebound<K, V>(m: map<K, V>, k: K, v: V, v': V)
    ensures m[k := v][k := v'] == m[k := v']
  {
  }

  lemma Opens(steps: seq<Step>, phases: map<Id, Phase>, now: Time, a: Id, c: Time)
    requires After(steps) == (phases, now) && now <= c && a !in phases
    ensures After(steps + Opening(a, c)) == (phases[a := Copying(true, false)], c)
    ensures Number(steps + Opening(a, c)) == Number(steps)
  {
    var s0 := steps + [Arrive(a, c)];
    NextArrival(steps, phases, now, a, c);
    var s1 := s0 + [Act(a, Resolving, c)];
    NextCall(s0, phases[a := Opened], c, a, Resolving, c);
    Rebound(phases, a, Opened, Resolved);
    var s2 := s1 + [Act(a, Connecting, c)];
    NextCall(s1, phases[a := Resolved], c, a, Connecting, c);
    Rebound(phases, a, Resolved, Dialing);
    var s3 := s2 + [Act(a, Connect, c)];
    NextCall(s2, phases[a := Dialing], c, a, Connect, c);
    Rebound(phases, a, Dialing, Copying(false, false));
    var s4 := s3 + [Act(a, HalfCloseRead, c)];
    NextCall(s3, phases[a := Copying(false, false)], c, a, HalfCloseRead, c);
    Rebound(phases, a, Copying(false, false), Copying(true, false));
    assert s4 == steps + Opening(a, c);
  }

  function OneSession(a: Id, c: Time): seq<Step>
  {
    Opening(a, c) + [Act(a, HalfCloseWrite, c)]
  }

  /** A new session that closes both halves: its last call is the next insertion. */
  lemma Closes(
    steps: seq<Step>, phases: map<Id, Phase>, now: Time, a: Id, c: Time, next: seq<Step>)
    requires After(steps) == (phases, now) && now <= c && a !in phases && next == steps + OneSession(a, c)
    ensures After(next) == (phases[a := Closed(c)], c) && Number(next) == Number(steps) + 1
    ensures |next| == |steps| + 6 && Queueing(next, |steps| + 5) && next[|steps| + 5].at == c
    ensures Number(next[..|steps| + 5]) == Number(steps)
  {
    var half := steps + Opening(a, c);
    Opens(steps, phases, now, a, c);
    NextCall(half, phases[a := Copying(true, false)], c, a, HalfCloseWrite, c);
    Rebound(phases, a, Copying(true, false), Closed(c));
    assert next == half + [Act(a, HalfCloseWrite, c)] && next[..|steps| + 5] == half;
  }

  /** What happens after `calls`: session `b` makes a call at `t`, and then session `a` is finished. */
  function SlowFinish(calls: seq<Step>, a: Id, b: Id, t: Time): seq<Step>
  {
    calls + [Arrive(b, t)] + [Act(b, Resolving, t)] + [Act(a, Finish, t)]
  }

  lemma FinishTaken(calls: seq<Step>, phases: map<Id, Phase>, a: Id, b: Id, c: Time, t: Time)
    requires After(calls) == (phases, c) && c <= t && b !in phases && a in phases && phases[a] == Closed(c)
    ensures var s, n := SlowFinish(calls, a, b, t), |calls|;
            && |s| == n + 3 && s[..n] == calls && s[n] == Arrive(b, t) && s[n + 1] == Act(b, Resolving, t)
            && s[n + 2] == Act(a, Finish, t) && Taken(s, n + 1) && Taken(s, n + 2)
            && Number(s) <= Number(calls) + 1
  {
    var s7 := calls + [Arrive(b, t)];
    NextArrival(calls, phases, c, b, t);
    var s8 := s7 + [Act(b, Resolving, t)];
    NextCall(s7, phases[b := Opened], t, b, Resolving, t);
    Rebound(phases, b, Opened, Resolved);
    var s := s8 + [Act(a, Finish, t)];
    NextCall(s8, phases[b := Resolved], t, a, Finish, t);
    assert s[..|s8|] == s8 && s[..|s7|] == s7 == s8[..|s7|];
  }

  /** No call of a slow finish comes before `c`, or after `t`. */
  lemma SlowFinishTimes(a: Id, b: Id, c: Time, t: Time, k: nat)
    requires c <= t && k < |SlowFinish(OneSession(a, c), a, b, t)|
    ensures c <= SlowFinish(OneSession(a, c), a, b, t)[k].at <= t
  {
  }

  /** The limit is real, and it is 30 seconds: from the empty table, exactly the later finishes miss. */
  lemma SlowFinishMisses(a: Id, b: Id, c: Time, t: Time)
    requires a != b && c <= t
    ensures Run(SlowFinish(OneSession(a, c), a, b, t)).None? <==> t - c >= 30_000_000_000
  {
    assert [] + OneSession(a, c) == OneSession(a, c);
    Closes([], map[], 0, a, c, OneSession(a, c));
    var s := SlowFinish(OneSession(a, c), a, b, t);
    FinishTaken(OneSession(a, c), map[a := Closed(c)], a, b, c, t);
    if t - c >= 30_000_000_000 {
      QueueingBefore(s, 6, 5);
      FewAreKept(s, 5);
      assert Lost(s, 5, 7, 8);
      LostMisses(s, 5, 7, 8);
    } else if Run(s).None? {
      var q, j, k := MissIsLost(s);
      SlowFinishTimes(a, b, c, t, q);
      SlowFinishTimes(a, b, c, t, j);
    }
  }

  /** Sessions 0 to n - 1, each opened and closed at the same instant. */
  function Crowd(n: nat, c: Time): seq<Step>
  {
    if n == 0 then [] else Crowd(n - 1, c) + OneSession(n - 1, c)
  }

  lemma {:induction false} CrowdShape(n: nat, c: Time)
    ensures |Crowd(n, c)| == 6 * n
    ensures forall x :: 0 <= x < 6 * n ==> Crowd(n, c)[x].at == c
    ensures forall x :: 6 <= x < 6 * n ==> Crowd(n, c)[x].id != 0
  {
    if n > 0 {
      CrowdShape(n - 1, c);
    }
  }

  function AllClosed(n: nat, c: Time): (phases: map<Id, Phase>)
    ensures forall i: Id :: i in phases <==> i < n
    ensures forall i :: i in phases ==> phases[i] == Closed(c)
  {
    if n == 0 then map[] else AllClosed(n - 1, c)[n - 1 := Closed(c)]
  }

  predicate Inserts(steps: seq<Step>, k: int, number: nat, c: Time)
  {
    Queueing(steps, k) && Number(steps[..k]) == number && steps[k].at == c
  }

  /** The last session of a crowd makes insertion number n - 1. */
  lemma {:induction false} CrowdCloses(n: nat, c: Time, crowd: seq<Step>)
    requires crowd == Crowd(n, c)
    ensures After(crowd) == (AllClosed(n, c), if n == 0 then 0 else c) && Number(crowd) == n
    ensures n > 0 ==> Inserts(crowd, |crowd| - 1, n - 1, c)
  {
    if n > 0 {
      var before := Crowd(n - 1, c);
      CrowdCloses(n - 1, c, before);
      Closes(before, AllClosed(n - 1, c), if n == 1 then 0 else c, n - 1, c, crowd);
      assert Inserts(crowd, |before| + 5, n - 1, c);
    }
  }

  lemma {:induction false} CrowdStarts(n: nat, c: Time)
    requires n > 0
    ensures OneSession(0, c) <= Crowd(n, c)
  {
    if n > 1 {
      CrowdStarts(n - 1, c);
    } else {
      assert [] + OneSession(0, c) == OneSession(0, c);
    }
  }

  lemma SameKey(steps: seq<Step>, q: nat, r: nat, number: nat, c: Time)
    requires Inserts(steps, q, 0, c) && Inserts(steps, r, number, c) && number == TIE_BREAK_LIMIT && q < r
    ensures Overwritten(steps, q)
  {
    TieIsRemainder(number);
    assert Key(steps, r) == Key(steps, q);
  }

  lemma InsertsLater(n: nat, c: Time, steps: seq<Step>, last: int)
    requires n > 0 && Crowd(n, c) <= steps && last == |Crowd(n, c)| - 1
    ensures Inserts(steps, last, n - 1, c)
  {
    var crowd := Crowd(n, c);
    CrowdCloses(n, c, crowd);
    assert steps[..last + 1] == crowd;
    PrefixOf(steps, last + 1, last);
    QueueingBefore(steps, last + 1, last);
  }

  /** In a crowd of 2^31 + 1, the last session takes over the queue key of the first. */
  lemma FirstIsOverwritten(n: nat, c: Time, steps: seq<Step>)
    requires n == TIE_BREAK_LIMIT + 1 && Crowd(n, c) <= steps
    ensures Queueing(steps, 5) && Overwritten(steps, 5) && Number(steps[..5]) == 0
  {
    CrowdStarts(n, c);
    assert [] + OneSession(0, c) == OneSession(0, c) == Crowd(1, c);
    CrowdShape(n, c);
    InsertsLater(1, c, steps, 5);
    InsertsLater(n, c, steps, 6 * n - 1);
    SameKey(steps, 5, 6 * n - 1, n - 1, c);
  }

  lemma NotLost(s: seq<Step>, n: nat, c: Time, q: nat, j: nat, k: nat)
    requires n > 0 && |s| == 6 * n + 3 && (forall x :: 0 <= x < 6 * n ==> s[x].at == c)
    requires (forall x :: 6 <= x < 6 * n ==> s[x].id != 0) && s[6 * n].Arrive? && s[6 * n].at >= c
    requires s[6 * n + 2].id == 0 && s[6 * n].id != 0 && s[6 * n + 1].id != 0
    requires Queueing(s, 5) && Overwritten(s, 5) && Number(s[..5]) == 0
    ensures !Lost(s, q, j, k)
  {
    if Lost(s, q, j, k) {
      assert j >= 6 * n && k == 6 * n + 2 && q < 6;
      if q < 5 {
        NumberGrows(s, q, 5);
      }
      assert false;
    }
  }

  /**
   * The exception is real: after 2^31 + 1 sessions have closed at one instant, the first of them can be
   * finished at any time, though calls have come 30 seconds later.
   */
  lemma CrowdedFinishIsFound(n: nat, c: Time, t: Time)
    requires n == TIE_BREAK_LIMIT + 1 && c + GRACE <= t
    ensures Run(SlowFinish(Crowd(n, c), 0, n, t)).Some?
  {
    var s := SlowFinish(Crowd(n, c), 0, n, t);
    CrowdCloses(n, c, Crowd(n, c));
    CrowdShape(n, c);
    FinishTaken(Crowd(n, c), AllClosed(n, c), 0, n, c, t);
    FirstIsOverwritten(n, c, s);
    forall q: nat, j: nat, k: nat
      ensures !Lost(s, q, j, k)
    {
      NotLost(s, n, c, q, j, k);
    }
    MissesExactly(s);
  }
}
