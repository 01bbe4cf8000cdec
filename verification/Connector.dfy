/**
 * Clones of a connector handing out pre-made connections (tonic/linker-connector/src/lib.rs), as
 * atomic steps of any number of tasks: the counter is loaded without the lock, and between a pop and
 * the store that follows it other tasks may load the old count.
 */
module Connector {
  import opened Bytes

  type Connection = nat
  type CloneId = nat
  type CallId = nat

  /** A call past its counter check: waiting for the lock, or holding it between pop and store. */
  datatype Call = Waiting | Popped(connection: Connection)

  datatype World = World(
    stack: seq<Connection>,
    remaining: nat,
    lockedBy: Option<CallId>,
    finished: map<CloneId, bool>,
    calls: map<CallId, Call>,
    handedOut: seq<Connection>)

  datatype Step =
    | Clone(from: CloneId, to: CloneId)
    | PollReady(clone: CloneId)
    | StartCall(clone: CloneId, call: CallId)
    | LockAndPop(call: CallId)
    | Store(call: CallId)

  function Reverse<T>(s: seq<T>): (r: seq<T>)
    ensures |r| == |s|
  {
    if s == [] then [] else Reverse(s[1..]) + [s[0]]
  }

  /** The connection a lock holder has popped but not yet returned. */
  function InFlight(w: World): seq<Connection>
  {
    if w.lockedBy.Some? && w.lockedBy.value in w.calls && w.calls[w.lockedBy.value].Popped?
    then [w.calls[w.lockedBy.value].connection] else []
  }

  /** What was pushed is what was handed out, then what is in flight, then the stack from its top. */
  ghost predicate Inv(w: World, pushed: seq<Connection>)
  {
    && pushed == w.handedOut + InFlight(w) + Reverse(w.stack)
    && w.remaining == |w.stack| + |InFlight(w)|
    && (forall c :: c in w.calls && w.calls[c].Popped? ==> w.lockedBy == Some(c))
    && (w.lockedBy.Some? ==> w.lockedBy.value in w.calls && w.calls[w.lockedBy.value].Popped?)
    && (forall c :: c in w.finished && w.finished[c] ==> w.remaining == 0)
  }

  lemma {:induction false} ReverseSnoc<T>(s: seq<T>, x: T)
    ensures Reverse(s + [x]) == [x] + Reverse(s)
    decreases |s|
  {
    if s == [] {
      assert s + [x] == [x];
    } else {
      ReverseSnoc(s[1..], x);
      assert (s + [x])[1..] == s[1..] + [x];
    }
  }

  lemma {:induction false} ReverseTwice<T>(s: seq<T>)
    ensures Reverse(Reverse(s)) == s
    decreases |s|
  {
    if s != [] {
      ReverseTwice(s[1..]);
      ReverseSnoc(Reverse(s[1..]), s[0]);
    }
  }

  /** `ConnectorBuilder::build`: the stack is reversed so that popping gives the first pushed. */
  method Build(connecteds: seq<Connection>) returns (w: World)
    ensures w.stack == Reverse(connecteds) && w.remaining == |connecteds|
    ensures Inv(w, connecteds)
  {
    ReverseTwice(connecteds);
    w := World(Reverse(connecteds), |connecteds|, None, map[0 := |connecteds| == 0], map[], []);
  }

  predicate Enabled(w: World, step: Step)
  {
    match step
    case Clone(from, to) => from in w.finished && to !in w.finished
    case PollReady(clone) => clone in w.finished
    case StartCall(clone, call) => clone in w.finished && call !in w.calls
    case LockAndPop(call) => call in w.calls && w.calls[call].Waiting? && w.lockedBy.None?
    case Store(call) => call in w.calls && w.calls[call].Popped? && w.lockedBy == Some(call)
  }

  /** One atomic step. A call that finds the stack empty, or its clone finished, ends refused. */
  function Stepped(w: World, step: Step): World
    requires Enabled(w, step)
  {
    match step
    case Clone(from, to) => w.(finished := w.finished[to := w.finished[from]])
    case PollReady(clone) =>
      if !w.finished[clone] && w.remaining == 0 then w.(finished := w.finished[clone := true]) else w
    case StartCall(clone, call) =>
      if w.finished[clone] then w
      else if w.remaining == 0 then w.(finished := w.finished[clone := true])
      else w.(calls := w.calls[call := Waiting])
    case LockAndPop(call) =>
      if w.stack == [] then w.(calls := w.calls - {call})
      else
        var n := |w.stack| - 1;
        w.(stack := w.stack[..n], lockedBy := Some(call), calls := w.calls[call := Popped(w.stack[n])])
    case Store(call) =>
      w.(remaining := |w.stack|, lockedBy := None, calls := w.calls - {call},
         handedOut := w.handedOut + [w.calls[call].connection])
  }

  lemma PopKeepsInv(w: World, pushed: seq<Connection>, call: CallId)
    requires Inv(w, pushed) && Enabled(w, LockAndPop(call)) && w.stack != []
    ensures Inv(Stepped(w, LockAndPop(call)), pushed)
  {
    var n := |w.stack| - 1;
    var rest, top := w.stack[..n], w.stack[n];
    assert w.stack == rest + [top];
    ReverseSnoc(rest, top);
    assert w.handedOut + [] + ([top] + Reverse(rest)) == w.handedOut + [top] + Reverse(rest);
  }

  /** Every step of every interleaving. */
  lemma StepKeepsInv(w: World, pushed: seq<Connection>, step: Step)
    requires Inv(w, pushed) && Enabled(w, step)
    ensures Inv(Stepped(w, step), pushed)
  {
    match step {
      case LockAndPop(call) =>
        if w.stack != [] {
          PopKeepsInv(w, pushed, call);
        }
      case Store(call) =>
        assert w.handedOut + InFlight(w) + [] == w.handedOut + InFlight(w);
      case _ =>
    }
  }

  predicate Legal(w: World, steps: seq<Step>)
    decreases |steps|
  {
    steps == [] || (Enabled(w, steps[0]) && Legal(Stepped(w, steps[0]), steps[1..]))
  }

  function Played(w: World, steps: seq<Step>): World
    requires Legal(w, steps)
    decreases |steps|
  {
    if steps == [] then w else Played(Stepped(w, steps[0]), steps[1..])
  }

  /**
   * In every run: the connections handed out are a prefix of the ones pushed, so each goes out at
   * most once and in order; the counter is never below the stack; and a finished clone means an
   * empty stack.
   */
  lemma {:induction false} EveryRun(w: World, pushed: seq<Connection>, steps: seq<Step>)
    requires Inv(w, pushed) && Legal(w, steps)
    ensures Inv(Played(w, steps), pushed)
    ensures Played(w, steps).handedOut <= pushed
    ensures |Played(w, steps).stack| <= Played(w, steps).remaining
    ensures forall c :: c in Played(w, steps).finished && Played(w, steps).finished[c] ==> Played(w, steps).stack == []
    decreases |steps|
  {
    if steps != [] {
      StepKeepsInv(w, pushed, steps[0]);
      EveryRun(Stepped(w, steps[0]), pushed, steps[1..]);
    }
  }

  /** Once any clone is finished the stack stays empty and nothing more is handed out. */
  lemma {:induction false} FinishedForever(w: World, pushed: seq<Connection>, c: CloneId, steps: seq<Step>)
    requires Inv(w, pushed) && Legal(w, steps) && c in w.finished && w.finished[c]
    ensures Played(w, steps).stack == [] && Played(w, steps).handedOut == w.handedOut == pushed
    ensures c in Played(w, steps).finished && Played(w, steps).finished[c]
    decreases |steps|
  {
    assert w.handedOut + [] + [] == w.handedOut;
    if steps != [] {
      StepKeepsInv(w, pushed, steps[0]);
      FinishedForever(Stepped(w, steps[0]), pushed, c, steps[1..]);
    }
  }

  // ---- Progress: who gets the lock is served, and everything can be handed out

  lemma PlayedOne(w: World, step: Step)
    requires Enabled(w, step)
    ensures Legal(w, [step]) && Played(w, [step]) == Stepped(w, step)
  {
  }

  lemma {:induction false} PlayedThen(w: World, steps: seq<Step>, more: seq<Step>)
    requires Legal(w, steps) && Legal(Played(w, steps), more)
    ensures Legal(w, steps + more) && Played(w, steps + more) == Played(Played(w, steps), more)
    decreases |steps|
  {
    if steps == [] {
      assert steps + more == more;
    } else {
      PlayedThen(Stepped(w, steps[0]), steps[1..], more);
      assert (steps + more)[1..] == steps[1..] + more;
    }
  }

  /** What is left of `pushed` is in the stack, its first connection on top. */
  lemma TopIsNext(w: World, pushed: seq<Connection>)
    requires Inv(w, pushed) && w.lockedBy.None?
    ensures w.stack == [] <==> w.handedOut == pushed
    ensures w.stack != [] ==> |w.handedOut| < |pushed| && w.stack[|w.stack| - 1] == pushed[|w.handedOut|]
  {
    assert w.handedOut + [] == w.handedOut;
    if w.stack != [] {
      var n := |w.stack| - 1;
      assert w.stack == w.stack[..n] + [w.stack[n]];
      ReverseSnoc(w.stack[..n], w.stack[n]);
    }
  }

  /** While a call holds the lock nobody else is served. */
  lemma {:induction false} LockIsKept(w: World, pushed: seq<Connection>, call: CallId, steps: seq<Step>)
    requires Inv(w, pushed) && Legal(w, steps) && w.lockedBy == Some(call) && Store(call) !in steps
    ensures var v := Played(w, steps);
            && v.lockedBy == Some(call) && call in v.calls && v.calls[call] == w.calls[call]
            && v.handedOut == w.handedOut && v.stack == w.stack
    decreases |steps|
  {
    if steps != [] {
      StepKeepsInv(w, pushed, steps[0]);
      LockIsKept(Stepped(w, steps[0]), pushed, call, steps[1..]);
    }
  }

  lemma LockThen(w: World, pushed: seq<Connection>, call: CallId, steps: seq<Step>)
    requires Inv(w, pushed) && Enabled(w, LockAndPop(call)) && w.handedOut != pushed
    requires Legal(Stepped(w, LockAndPop(call)), steps) && Store(call) !in steps
    ensures var v := Played(Stepped(w, LockAndPop(call)), steps);
            && |w.handedOut| < |pushed| && Inv(v, pushed) && Enabled(v, Store(call))
            && Stepped(v, Store(call)).handedOut == w.handedOut + [pushed[|w.handedOut|]]
  {
    TopIsNext(w, pushed);
    StepKeepsInv(w, pushed, LockAndPop(call));
    LockIsKept(Stepped(w, LockAndPop(call)), pushed, call, steps);
    EveryRun(Stepped(w, LockAndPop(call)), pushed, steps);
  }

  /**
   * A call that gets the lock while connections are left is handed the next one, whatever other tasks
   * do before it is done.
   */
  lemma LockerIsServed(w: World, pushed: seq<Connection>, call: CallId, steps: seq<Step>)
    requires Inv(w, pushed) && Enabled(w, LockAndPop(call)) && w.handedOut != pushed
    requires Legal(Stepped(w, LockAndPop(call)), steps) && Store(call) !in steps
    ensures var run := [LockAndPop(call)] + steps + [Store(call)];
            && |w.handedOut| < |pushed| && Legal(w, run)
            && Played(w, run).handedOut == w.handedOut + [pushed[|w.handedOut|]]
  {
    LockThen(w, pushed, call, steps);
    PlayedOne(w, LockAndPop(call));
    PlayedThen(w, [LockAndPop(call)], steps);
    var v := Played(w, [LockAndPop(call)] + steps);
    PlayedOne(v, Store(call));
    PlayedThen(w, [LockAndPop(call)] + steps, [Store(call)]);
  }

  /** A call that gets the lock when all are handed out is refused, and changes nothing else. */
  lemma TooLateIsRefused(w: World, pushed: seq<Connection>, call: CallId)
    requires Inv(w, pushed) && Enabled(w, LockAndPop(call)) && w.handedOut == pushed
    ensures Stepped(w, LockAndPop(call)) == w.(calls := w.calls - {call})
  {
    TopIsNext(w, pushed);
  }

  /** Whether a clone takes calls: exactly while connections are left, and from then on never again. */
  lemma ReadyWhileLeft(w: World, pushed: seq<Connection>, clone: CloneId, call: CallId)
    requires Inv(w, pushed) && w.lockedBy.None? && clone in w.finished && call !in w.calls
    ensures Stepped(w, PollReady(clone)).finished[clone] <==> w.handedOut == pushed
    ensures Stepped(w, StartCall(clone, call)).finished[clone] <==> w.handedOut == pushed
    ensures call in Stepped(w, StartCall(clone, call)).calls <==> w.handedOut != pushed
  {
    TopIsNext(w, pushed);
  }

  /** Nothing but the call, what it was handed and the counter is different from `w` in `v`. */
  ghost predicate OneServed(w: World, v: World, pushed: seq<Connection>, call: CallId)
  {
    && |w.handedOut| < |pushed| && v.handedOut == w.handedOut + [pushed[|w.handedOut|]]
    && Inv(v, pushed) && v.lockedBy.None? && v.finished == w.finished && v.calls == w.calls - {call}
  }

  lemma PopsAndStores(w: World, pushed: seq<Connection>, call: CallId)
    requires Inv(w, pushed) && Enabled(w, LockAndPop(call)) && w.handedOut != pushed
    ensures var run := [LockAndPop(call), Store(call)];
            Legal(w, run) && OneServed(w, Played(w, run), pushed, call)
  {
    var run, v := [LockAndPop(call), Store(call)], Stepped(w, LockAndPop(call));
    TopIsNext(w, pushed);
    LockThen(w, pushed, call, []);
    PlayedOne(v, Store(call));
    StepKeepsInv(v, pushed, Store(call));
    assert run[1..] == [Store(call)];
  }

  lemma PlayedFirst(w: World, step: Step, more: seq<Step>)
    requires Enabled(w, step) && Legal(Stepped(w, step), more)
    ensures Legal(w, [step] + more) && Played(w, [step] + more) == Played(Stepped(w, step), more)
  {
    assert ([step] + more)[1..] == more;
  }

  lemma CallWaits(w: World, pushed: seq<Connection>, clone: CloneId, call: CallId)
    requires Inv(w, pushed) && w.lockedBy.None? && clone in w.finished && call !in w.calls && w.handedOut != pushed
    ensures var v := w.(calls := w.calls[call := Waiting]);
            Stepped(w, StartCall(clone, call)) == v && Inv(v, pushed) && Enabled(v, LockAndPop(call))
  {
    ReadyWhileLeft(w, pushed, clone, call);
    StepKeepsInv(w, pushed, StartCall(clone, call));
  }

  lemma WaiterIsServed(w: World, v: World, u: World, pushed: seq<Connection>, call: CallId)
    requires v == w.(calls := w.calls[call := Waiting]) && call !in w.calls && OneServed(v, u, pushed, call)
    ensures OneServed(w, u, pushed, call)
  {
    assert v.calls - {call} == w.calls - {call};
  }

  lemma OneCall(w: World, pushed: seq<Connection>, clone: CloneId, call: CallId)
    requires Inv(w, pushed) && w.lockedBy.None? && clone in w.finished && call !in w.calls && w.handedOut != pushed
    ensures var run := [StartCall(clone, call), LockAndPop(call), Store(call)];
            Legal(w, run) && OneServed(w, Played(w, run), pushed, call)
  {
    CallWaits(w, pushed, clone, call);
    var start, run, v := StartCall(clone, call), [LockAndPop(call), Store(call)], w.(calls := w.calls[call := Waiting]);
    PopsAndStores(v, pushed, call);
    WaiterIsServed(w, v, Played(v, run), pushed, call);
    PlayedFirst(w, start, run);
    assert [start] + run == [start, LockAndPop(call), Store(call)];
  }

  /** `n` calls one after the other. */
  function CallsInTurn(clone: CloneId, call: CallId, n: nat): seq<Step>
  {
    if n == 0 then [] else [StartCall(clone, call), LockAndPop(call), Store(call)] + CallsInTurn(clone, call, n - 1)
  }

  /** Calls one after the other hand out what is left, in the order it was pushed. */
  lemma {:induction false} CallsHandOut(w: World, pushed: seq<Connection>, clone: CloneId, call: CallId, n: nat)
    requires Inv(w, pushed) && w.lockedBy.None? && clone in w.finished && call !in w.calls
    requires |w.handedOut| + n <= |pushed|
    ensures var run := CallsInTurn(clone, call, n);
            Legal(w, run) && Played(w, run).handedOut == pushed[..|w.handedOut| + n]
    decreases n
  {
    EveryRun(w, pushed, []);
    if n == 0 {
      assert w.handedOut == pushed[..|w.handedOut|];
    } else {
      OneCall(w, pushed, clone, call);
      var first := [StartCall(clone, call), LockAndPop(call), Store(call)];
      CallsHandOut(Played(w, first), pushed, clone, call, n - 1);
      PlayedThen(w, first, CallsInTurn(clone, call, n - 1));
    }
  }
}
