/**
 * Connecting to a host with several addresses, two families in turn (dialer/src/http.rs, dns.rs;
 * section 4 of RFC 6555).
 */
module HappyEyeballs {
  import opened Bytes

  datatype Addr = V4(id: nat) | V6(id: nat)

  /** What a socket answers when it is polled, and what the fallback timer does. */
  datatype Answer = Connected | NotReady | Refused
  datatype Timer = Fired | Waiting | Failed

  datatype Poll = Ready(addr: Addr) | Pending | Error | Panic

  // ---- Addresses

  function Filter(addrs: seq<Addr>, v6: bool): seq<Addr>
  {
    if addrs == [] then []
    else
      var last := addrs[|addrs| - 1];
      Filter(addrs[..|addrs| - 1], v6) + (if last.V6? == v6 then [last] else [])
  }

  lemma {:induction false} FilterMember(addrs: seq<Addr>, v6: bool, a: Addr)
    ensures a in Filter(addrs, v6) <==> a in addrs && a.V6? == v6
    decreases |addrs|
  {
    if addrs != [] {
      var n := |addrs| - 1;
      FilterMember(addrs[..n], v6, a);
      assert addrs == addrs[..n] + [addrs[n]];
    }
  }

  /** The order of the addresses is kept. */
  lemma {:induction false} FilterAppends(first: seq<Addr>, rest: seq<Addr>, v6: bool)
    ensures Filter(first + rest, v6) == Filter(first, v6) + Filter(rest, v6)
    decreases |rest|
  {
    if rest == [] {
      assert first + rest == first && Filter(first, v6) + [] == Filter(first, v6);
    } else {
      var n := |rest| - 1;
      assert (first + rest)[..|first| + n] == first + rest[..n];
      FilterAppends(first, rest[..n], v6);
    }
  }

  /** `split_by_preference`: the family of the first address is preferred; order is kept within each. */
  method SplitByPreference(addrs: seq<Addr>) returns (preferred: seq<Addr>, fallback: seq<Addr>)
    ensures var v6 := addrs != [] && addrs[0].V6?;
            preferred == Filter(addrs, v6) && fallback == Filter(addrs, !v6)
    ensures addrs != [] ==> preferred != []
    ensures forall a :: a in addrs <==> a in preferred || a in fallback
    ensures |preferred| + |fallback| == |addrs|
  {
    var preferringV6 := addrs != [] && addrs[0].V6?;
    preferred, fallback := [], [];
    for i := 0 to |addrs|
      invariant preferred == Filter(addrs[..i], preferringV6) && fallback == Filter(addrs[..i], !preferringV6)
      invariant |preferred| + |fallback| == i
    {
      assert addrs[..i + 1][..i] == addrs[..i];
      if addrs[i].V6? == preferringV6 {
        preferred := preferred + [addrs[i]];
      } else {
        fallback := fallback + [addrs[i]];
      }
    }
    assert addrs[..|addrs|] == addrs;
    forall a
      ensures (a in preferred <==> a in addrs && a.V6? == preferringV6)
      ensures (a in fallback <==> a in addrs && a.V6? != preferringV6)
    {
      FilterMember(addrs, preferringV6, a);
      FilterMember(addrs, !preferringV6, a);
    }
    if addrs != [] {
      assert addrs[0] in preferred;
    }
  }

  // ---- One family

  /** The addresses still to try and the one being tried; `tried` records every attempt. */
  datatype Remote = Remote(addrs: seq<Addr>, current: Option<Addr>, tried: seq<Addr>)

  /**
   * A family of addresses of which the first `taken` have been attempted, in order and once each.
   * `at` is the one whose socket is being tried.
   */
  datatype Family = Family(all: seq<Addr>, taken: nat, at: Option<nat>)

  /**
   * What one poll of a family meets: the answers of its sockets in the order they are asked, which
   * then stay busy, and the positions of the addresses for which `connect` cannot make a socket.
   */
  datatype Side = Side(answers: seq<Answer>, unmade: set<nat>)

  predicate Ok(f: Family)
  {
    f.taken <= |f.all| && (f.at.Some? ==> f.at.value < f.taken)
  }

  function RemoteOf(f: Family): Remote
    requires Ok(f)
  {
    Remote(f.all[f.taken..], if f.at.None? then None else Some(f.all[f.at.value]), f.all[..f.taken])
  }

  /** How many sockets refuse before one gives another answer, or before the answers end. */
  function Refusals(answers: seq<Answer>): (n: nat)
    ensures n <= |answers| && (n < |answers| ==> !answers[n].Refused?)
    ensures forall i :: 0 <= i < n ==> answers[i].Refused?
  {
    if answers == [] || !answers[0].Refused? then 0 else 1 + Refusals(answers[1..])
  }

  /** How many sockets a poll can get to: the one being tried and the addresses left. */
  function Askable(f: Family): int
  {
    |f.all| - f.taken + if f.at.Some? then 1 else 0
  }

  /** Which address the `k`-th of them belongs to. */
  function Asked(f: Family, k: nat): nat
  {
    if f.at.None? then f.taken + k else if k == 0 then f.at.value else f.taken + k - 1
  }

  /** The first position from `from` on, before `end`, without a socket; `end` if there is none. */
  function Blocked(unmade: set<nat>, from: nat, end: nat): (i: nat)
    requires from <= end
    ensures from <= i <= end && (i < end ==> i in unmade)
    ensures forall j :: from <= j < i ==> j !in unmade
    decreases end - from
  {
    if from == end || from in unmade then from else Blocked(unmade, from + 1, end)
  }

  /** Where the attempts get to if every socket can be made: the first that does not refuse, or the end. */
  function Wanted(f: Family, side: Side): (to: nat)
    requires Ok(f)
    ensures f.taken <= to <= |f.all|
  {
    var n := Refusals(side.answers);
    if n >= Askable(f) then |f.all| else f.taken + n + if f.at.Some? then 0 else 1
  }

  /** A socket on the way there cannot be made. */
  predicate Cut(f: Family, side: Side)
    requires Ok(f)
  {
    Blocked(side.unmade, f.taken, Wanted(f, side)) < Wanted(f, side)
  }

  /**
   * What a poll answers: a panic with nothing to ask, an error when a socket cannot be made or every
   * socket it can get to refuses, otherwise what the first socket says that does not refuse.
   */
  function Answered(f: Family, side: Side): Poll
    requires Ok(f)
  {
    var n := Refusals(side.answers);
    if Askable(f) == 0 then Panic
    else if Cut(f, side) || n >= Askable(f) then Error
    else if n < |side.answers| && side.answers[n].Connected? then Ready(f.all[Asked(f, n)])
    else Pending
  }

  /** Not polled yet, or waiting for the socket of the last address taken. */
  predicate Live(f: Family)
  {
    f.taken <= |f.all| && f.at == if f.taken == 0 then None else Some(f.taken - 1)
  }

  /** The attempts after a poll: up to the address without a socket, or as far as wanted. */
  function Reached(f: Family, side: Side): (g: Family)
    requires Ok(f)
    ensures Ok(g) && g.all == f.all && f.taken <= g.taken
    ensures Answered(f, side).Error? ==> Cut(f, side) || g.taken == |g.all|
    ensures Live(f) && Answered(f, side).Pending? ==> Live(g)
  {
    var to := Wanted(f, side);
    var b := Blocked(side.unmade, f.taken, to);
    if b < to then Family(f.all, b + 1, if b == f.taken then f.at else Some(b - 1))
    else if to == f.taken then f
    else Family(f.all, to, Some(to - 1))
  }

  lemma {:induction false} RefusedThere(answers: seq<Answer>, n: nat)
    requires n < |answers| && forall i :: 0 <= i < n ==> answers[i].Refused?
    ensures answers[n].Refused? ==> n < Refusals(answers)
    ensures !answers[n].Refused? ==> Refusals(answers) == n
    decreases n
  {
    if n > 0 {
      RefusedThere(answers[1..], n - 1);
    }
  }

  lemma AllRefused(answers: seq<Answer>)
    requires forall i :: 0 <= i < |answers| ==> answers[i].Refused?
    ensures Refusals(answers) == |answers|
  {
  }

  function AnswerAt(answers: seq<Answer>, i: nat): Answer
  {
    if i < |answers| then answers[i] else NotReady
  }

  /** A poll of `f` has seen `next` refusals and is now at `g`. */
  ghost predicate Asking(f: Family, g: Family, side: Side, next: nat)
  {
    && Ok(f) && Ok(g) && g.all == f.all && next <= |side.answers|
    && (forall i :: 0 <= i < next ==> side.answers[i].Refused?)
    && (forall j :: f.taken <= j < g.taken ==> j !in side.unmade)
    && ((g == f && next == 0)
        || ((next > 0 || f.at.None?) && g.at == Some(g.taken - 1)
            && g.taken == f.taken + next + if f.at.Some? then 0 else 1))
  }

  /** The next address, whose socket can be made. */
  function Next(g: Family): Family
  {
    Family(g.all, g.taken + 1, Some(g.taken))
  }

  /** The next address, whose socket cannot be made. */
  function Lost(g: Family): Family
  {
    Family(g.all, g.taken + 1, g.at)
  }

  lemma TakeNext(f: Family)
    requires Ok(f) && f.taken < |f.all|
    ensures var r := RemoteOf(f);
            && RemoteOf(Next(f)) == Remote(r.addrs[1..], Some(r.addrs[0]), r.tried + [r.addrs[0]])
            && RemoteOf(Lost(f)) == Remote(r.addrs[1..], r.current, r.tried + [r.addrs[0]])
  {
  }

  /** What the socket being tried says decides the poll, unless it refuses and there is another. */
  lemma Decides(f: Family, g: Family, side: Side, next: nat)
    requires Asking(f, g, side, next) && g.at.Some?
    ensures match AnswerAt(side.answers, next)
            case Connected => Answered(f, side) == Ready(g.all[g.at.value]) && Reached(f, side) == g
            case NotReady => Answered(f, side) == Pending && Reached(f, side) == g
            case Refused =>
              if g.taken == |g.all| then Answered(f, side) == Error && Reached(f, side) == g
              else if g.taken in side.unmade then Answered(f, side) == Error && Reached(f, side) == Lost(g)
              else Asking(f, Next(g), side, next + 1)
  {
    if next < |side.answers| {
      RefusedThere(side.answers, next);
    } else {
      AllRefused(side.answers);
    }
  }

  /** Nothing is being tried yet. */
  lemma Begins(f: Family, side: Side)
    requires Ok(f) && f.at.None?
    ensures if f.taken == |f.all| then Answered(f, side) == Panic && Reached(f, side) == f
            else if f.taken in side.unmade then Answered(f, side) == Error && Reached(f, side) == Lost(f)
            else Asking(f, Next(f), side, 0)
  {
  }

  /** `ConnectingTcpRemote::poll`. */
  method PollRemote(remote: Remote, side: Side, ghost f: Family) returns (r: Remote, p: Poll)
    requires Ok(f) && remote == RemoteOf(f)
    ensures r == RemoteOf(Reached(f, side)) && p == Answered(f, side)
  {
    r := remote;
    var next := 0;
    var err := false;
    ghost var g := f;
    while true
      invariant 0 <= next && err == (next > 0) && Asking(f, g, side, next) && r == RemoteOf(g)
      decreases |r.addrs|
    {
      if r.current.Some? {
        Decides(f, g, side, next);
        match AnswerAt(side.answers, next) {
          case Connected => return r, Ready(r.current.value);
          case NotReady => return r, Pending;
          case Refused =>
            err := true;
            if r.addrs != [] {
              TakeNext(g);
              var made := |r.tried| !in side.unmade;
              r := Remote(r.addrs[1..], if made then Some(r.addrs[0]) else r.current, r.tried + [r.addrs[0]]);
              if !made {
                return r, Error;
              }
              g := Next(g);
              next := next + 1;
              continue;
            }
        }
      } else {
        Begins(g, side);
        if r.addrs != [] {
          TakeNext(g);
          var made := |r.tried| !in side.unmade;
          r := Remote(r.addrs[1..], if made then Some(r.addrs[0]) else r.current, r.tried + [r.addrs[0]]);
          if !made {
            return r, Error;
          }
          g := Next(g);
          continue;
        }
      }
      if !err {
        return r, Panic;
      }
      return r, Error;
    }
  }

  // ---- Both families

  /** One poll of the connection: what each side meets, and the fallback timer. */
  datatype PollEnv = PollEnv(preferred: Side, timer: Timer, fallback: Side)

  datatype Sides = Sides(preferred: Family, fallback: Option<Family>)

  predicate SidesOk(s: Sides)
  {
    Ok(s.preferred) && (s.fallback.Some? ==> Ok(s.fallback.value))
  }

  /** The preferred side is waiting: what the timer and the fallback side then answer. */
  function FallbackPolled(first: Family, f: Family, timer: Timer, side: Side): (r: (Sides, Poll))
    requires Ok(first) && Ok(f)
    ensures SidesOk(r.0)
  {
    match timer
    case Waiting => (Sides(first, Some(f)), Pending)
    case Failed => (Sides(first, None), Pending)
    case Fired =>
      match Answered(f, side)
      case Ready(a) => (Sides(Reached(f, side), None), Ready(a))
      case Pending => (Sides(first, Some(Reached(f, side))), Pending)
      case _ => (Sides(first, None), Pending)
  }

  /** What one poll of both sides answers, and what it leaves. */
  function SidesPolled(s: Sides, env: PollEnv): (r: (Sides, Poll))
    requires SidesOk(s)
    ensures SidesOk(r.0)
  {
    var first, p := Reached(s.preferred, env.preferred), Answered(s.preferred, env.preferred);
    match s.fallback
    case None => (Sides(first, None), p)
    case Some(f) =>
      match p
      case Ready(_) => (Sides(first, None), p)
      case Panic => (Sides(first, None), p)
      case Error => (Sides(Reached(f, env.fallback), None), Answered(f, env.fallback))
      case Pending => FallbackPolled(first, f, env.timer, env.fallback)
  }

  /** Polling until an answer other than Pending, or until the schedule ends. */
  function Driven(s: Sides, schedule: seq<PollEnv>): Poll
    requires SidesOk(s)
    decreases |schedule|
  {
    if schedule == [] then Pending
    else
      var (next, p) := SidesPolled(s, schedule[0]);
      if p.Pending? then Driven(next, schedule[1..]) else p
  }

  ghost predicate Shows(s: Sides, preferred: Remote, fallback: Option<Remote>)
  {
    && SidesOk(s) && preferred == RemoteOf(s.preferred)
    && match s.fallback
       case None => fallback.None?
       case Some(f) => fallback == Some(RemoteOf(f))
  }

  function Untried(addrs: seq<Addr>): Family
  {
    Family(addrs, 0, None)
  }

  /** Both families before the first poll. */
  function Fresh(preferredAddrs: seq<Addr>, fallbackAddrs: seq<Addr>): Sides
  {
    Sides(Untried(preferredAddrs), if fallbackAddrs == [] then None else Some(Untried(fallbackAddrs)))
  }

  class ConnectingTcp {
    var preferred: Remote
    var fallback: Option<Remote>
    // The families behind the two sides.
    ghost var sides: Sides

    ghost predicate Valid()
      reads this
    {
      Shows(sides, preferred, fallback)
    }

    constructor (preferredAddrs: seq<Addr>, fallbackAddrs: seq<Addr>)
      ensures Valid() && sides == Fresh(preferredAddrs, fallbackAddrs)
    {
      preferred := Remote(preferredAddrs, None, []);
      fallback := if fallbackAddrs == [] then None else Some(Remote(fallbackAddrs, None, []));
      sides := Fresh(preferredAddrs, fallbackAddrs);
    }

    /** The preferred side is waiting: see whether the fallback may start. */
    method PollFallback(remote: Remote, timer: Timer, side: Side, ghost f: Family) returns (p: Poll)
      requires Valid() && fallback == Some(remote) && sides.fallback == Some(f)
      modifies this
      ensures Valid() && (sides, p) == FallbackPolled(old(sides).preferred, f, timer, side)
    {
      match timer {
        case Fired =>
          var polled, q := PollRemote(remote, side, f);
          match q {
            case Ready(_) =>
              preferred, fallback, sides := polled, None, Sides(Reached(f, side), None);
              return q;
            case Pending =>
              fallback, sides := Some(polled), sides.(fallback := Some(Reached(f, side)));
            case _ =>
              fallback, sides := None, sides.(fallback := None);
          }
        case Waiting =>
        case Failed =>
          fallback, sides := None, sides.(fallback := None);
      }
      return Pending;
    }

    /** `ConnectingTcp::poll`. */
    method PollOnce(env: PollEnv) returns (p: Poll)
      requires Valid()
      modifies this
      ensures Valid() && (sides, p) == SidesPolled(old(sides), env)
    {
      var taken := fallback;
      ghost var f := sides.fallback;
      preferred, p := PollRemote(preferred, env.preferred, sides.preferred);
      sides := sides.(preferred := Reached(sides.preferred, env.preferred));
      if taken.None? {
        return;
      }
      match p {
        case Pending =>
          p := PollFallback(taken.value, env.timer, env.fallback, f.value);
        case Error =>
          preferred, p := PollRemote(taken.value, env.fallback, f.value);
          fallback, sides := None, Sides(Reached(f.value, env.fallback), None);
        case _ =>
          fallback, sides := None, sides.(fallback := None);
      }
    }
  }

  // ---- Which addresses are attempted when

  /**
   * A connection with its history: how far each family got, whether one was cut short for want of a
   * socket, whether the delay fired or failed, and whether the preferred side has taken over the
   * fallback addresses.
   */
  datatype Conn = Conn(
    sides: Sides, preferred: Family, fallback: Family, preferredCut: bool, fallbackCut: bool,
    delayFired: bool, timerFailed: bool, onFallback: bool)

  predicate PreferredDone(c: Conn)
  {
    c.preferred.taken == |c.preferred.all| || c.preferredCut
  }

  predicate FallbackDone(c: Conn)
  {
    c.fallback.taken == |c.fallback.all| || c.fallbackCut || c.timerFailed
  }

  /** The fallback family waits for the delay, or for the preferred family to be done with. */
  predicate Orderly(c: Conn)
  {
    Ok(c.preferred) && Ok(c.fallback) && (c.fallback.taken > 0 ==> c.delayFired || PreferredDone(c))
  }

  /**
   * Every address was attempted, except that a family is given up when a socket for it cannot be
   * made, and the fallback family also when the timer fails.
   */
  predicate Exhausted(c: Conn)
  {
    PreferredDone(c) && FallbackDone(c)
  }

  ghost predicate Inv(c: Conn)
  {
    && Orderly(c) && SidesOk(c.sides)
    && if c.onFallback
       then c.sides == Sides(c.fallback, None) && PreferredDone(c) && c.fallback.all != [] && Live(c.fallback)
       else
         && c.sides.preferred == c.preferred && Live(c.preferred)
         && match c.sides.fallback
            case None => FallbackDone(c)
            case Some(f) => f == c.fallback && f.all != [] && Live(f)
  }

  function Polled(c: Conn, env: PollEnv): (d: Conn)
    requires SidesOk(c.sides)
    ensures d.sides == SidesPolled(c.sides, env).0
  {
    var d := c.(sides := SidesPolled(c.sides, env).0);
    var first, cut := Reached(c.sides.preferred, env.preferred), Cut(c.sides.preferred, env.preferred);
    if c.onFallback then d.(fallback := first, fallbackCut := c.fallbackCut || cut)
    else
      var e := d.(preferred := first, preferredCut := c.preferredCut || cut);
      match c.sides.fallback
      case None => e
      case Some(f) =>
        var e' := e.(fallback := Reached(f, env.fallback), fallbackCut := c.fallbackCut || Cut(f, env.fallback));
        match Answered(c.sides.preferred, env.preferred)
        case Error => e'.(onFallback := true)
        case Pending =>
          if env.timer.Fired? then e'.(delayFired := true)
          else e.(timerFailed := c.timerFailed || env.timer.Failed?)
        case _ => e
  }

  /** Some socket cannot be made during this poll. */
  predicate Unmade(env: PollEnv)
  {
    env.preferred.unmade != {} || env.fallback.unmade != {}
  }

  /** A family that has an address is never without something to ask while it is live. */
  lemma LiveAnswers(f: Family, side: Side)
    requires Live(f)
    ensures Answered(f, side).Panic? <==> f.all == []
  {
  }

  lemma Decided(c: Conn, env: PollEnv, first: Family)
    requires Inv(c) && c.sides.fallback.Some? && first == Reached(c.preferred, env.preferred)
    requires Answered(c.preferred, env.preferred).Ready? || Answered(c.preferred, env.preferred).Panic?
    ensures Orderly(Polled(c, env)) && SidesPolled(c.sides, env).1 == Answered(c.preferred, env.preferred)
  {
    assert Polled(c, env).preferred == first && Polled(c, env).fallback == c.fallback;
  }

  /** The preferred family is given up: the fallback takes its place. */
  lemma PreferredFails(c: Conn, env: PollEnv, first: Family, second: Family)
    requires Inv(c) && c.sides.fallback.Some? && Answered(c.preferred, env.preferred).Error?
    requires first == Reached(c.preferred, env.preferred) && second == Reached(c.fallback, env.fallback)
    requires !Answered(c.fallback, env.fallback).Panic?
    ensures var p := SidesPolled(c.sides, env).1;
            && Orderly(Polled(c, env)) && p == Answered(c.fallback, env.fallback)
            && (p.Pending? ==> Inv(Polled(c, env)))
            && (p.Error? ==> Exhausted(Polled(c, env)))
  {
    var d := Polled(c, env);
    assert SidesPolled(c.sides, env).0 == Sides(second, None);
    assert d.preferred == first && d.fallback == second && d.onFallback;
    assert PreferredDone(d);
  }

  lemma PolledAlone(c: Conn, env: PollEnv)
    requires Inv(c) && c.sides.fallback.None?
    ensures var p := SidesPolled(c.sides, env).1;
            && Orderly(Polled(c, env))
            && (p.Pending? ==> Inv(Polled(c, env)))
            && (p.Error? ==> Exhausted(Polled(c, env)))
            && (p.Panic? <==> !c.onFallback && c.preferred.all == [])
  {
  }

  lemma DelayFired(c: Conn, env: PollEnv, first: Family, second: Family)
    requires Inv(c) && c.sides.fallback.Some? && Answered(c.sides.preferred, env.preferred).Pending?
    requires first == Reached(c.preferred, env.preferred) && second == Reached(c.fallback, env.fallback)
    requires env.timer.Fired? && !Answered(c.fallback, env.fallback).Panic?
    ensures var p := SidesPolled(c.sides, env).1;
            && Orderly(Polled(c, env)) && !p.Error? && !p.Panic?
            && (p.Pending? ==> Inv(Polled(c, env)))
  {
    assert SidesPolled(c.sides, env) == FallbackPolled(first, c.fallback, Fired, env.fallback);
  }

  lemma PolledWaiting(c: Conn, env: PollEnv)
    requires Inv(c) && c.sides.fallback.Some? && Answered(c.sides.preferred, env.preferred).Pending?
    ensures var p := SidesPolled(c.sides, env).1;
            && Orderly(Polled(c, env)) && !p.Error? && !p.Panic?
            && (p.Pending? ==> Inv(Polled(c, env)))
  {
    if env.timer.Fired? {
      LiveAnswers(c.fallback, env.fallback);
      DelayFired(c, env, Reached(c.preferred, env.preferred), Reached(c.fallback, env.fallback));
    }
  }

  lemma PolledBoth(c: Conn, env: PollEnv)
    requires Inv(c) && c.sides.fallback.Some?
    ensures var p := SidesPolled(c.sides, env).1;
            && Orderly(Polled(c, env))
            && (p.Pending? ==> Inv(Polled(c, env)))
            && (p.Error? ==> Exhausted(Polled(c, env)))
            && (p.Panic? <==> c.preferred.all == [])
  {
    LiveAnswers(c.preferred, env.preferred);
    match Answered(c.preferred, env.preferred) {
      case Pending => PolledWaiting(c, env);
      case Error =>
        LiveAnswers(c.fallback, env.fallback);
        PreferredFails(c, env, Reached(c.preferred, env.preferred), Reached(c.fallback, env.fallback));
      case _ => Decided(c, env, Reached(c.preferred, env.preferred));
    }
  }

  /** Every poll keeps the order of attempts, and errs only when both families are done with. */
  lemma PollKeepsOrder(c: Conn, env: PollEnv)
    requires Inv(c)
    ensures var p := SidesPolled(c.sides, env).1;
            && Polled(c, env).sides == SidesPolled(c.sides, env).0 && Orderly(Polled(c, env))
            && (p.Pending? ==> Inv(Polled(c, env)))
            && (p.Error? ==> Exhausted(Polled(c, env)))
            && (p.Panic? <==> !c.onFallback && c.preferred.all == [])
  {
    if c.sides.fallback.None? {
      PolledAlone(c, env);
    } else {
      PolledBoth(c, env);
    }
  }

  lemma CutIsUnmade(f: Family, side: Side)
    requires Ok(f)
    ensures Cut(f, side) ==> side.unmade != {}
  {
  }

  ghost predicate SameFamilies(c: Conn, d: Conn, env: PollEnv)
  {
    && d.preferred.all == c.preferred.all && d.fallback.all == c.fallback.all
    && (d.delayFired ==> c.delayFired || env.timer.Fired?) && (c.onFallback ==> d.onFallback)
    && (d.timerFailed ==> c.timerFailed || env.timer.Failed?)
    && (d.preferredCut || d.fallbackCut ==> c.preferredCut || c.fallbackCut || Unmade(env))
  }

  lemma BothKept(c: Conn, env: PollEnv, first: Family, second: Family)
    requires Inv(c) && c.sides.fallback.Some?
    requires first == Reached(c.preferred, env.preferred) && second == Reached(c.fallback, env.fallback)
    ensures SameFamilies(c, Polled(c, env), env)
  {
    CutIsUnmade(c.preferred, env.preferred);
    CutIsUnmade(c.fallback, env.fallback);
    var d := Polled(c, env);
    assert d.preferred == first && (d.fallback == second || d.fallback == c.fallback);
  }

  /** The families stay what they are, and only an address without a socket or a failing timer cuts them short. */
  lemma KeepsFamilies(c: Conn, env: PollEnv)
    requires Inv(c)
    ensures SameFamilies(c, Polled(c, env), env)
  {
    if c.sides.fallback.Some? {
      BothKept(c, env, Reached(c.preferred, env.preferred), Reached(c.fallback, env.fallback));
    } else {
      CutIsUnmade(c.sides.preferred, env.preferred);
    }
  }

  /** `ConnectingTcp::new`: without a fallback delay all addresses are one family. */
  method NewConnecting(addrs: seq<Addr>, withFallback: bool)
    returns (c: ConnectingTcp, preferred: seq<Addr>, fallback: seq<Addr>)
    ensures fresh(c) && c.Valid() && c.sides == Fresh(preferred, fallback)
    ensures |preferred| + |fallback| == |addrs| && (preferred == [] <==> addrs == [])
    ensures if withFallback
            then var v6 := addrs != [] && addrs[0].V6?;
                 preferred == Filter(addrs, v6) && fallback == Filter(addrs, !v6)
            else preferred == addrs && fallback == []
  {
    if withFallback {
      preferred, fallback := SplitByPreference(addrs);
    } else {
      preferred, fallback := addrs, [];
    }
    c := new ConnectingTcp(preferred, fallback);
  }

  // ---- Whole runs

  function Begun(preferred: seq<Addr>, fallback: seq<Addr>): Conn
  {
    Conn(Fresh(preferred, fallback), Untried(preferred), Untried(fallback), false, false, false, false, false)
  }

  /** The history of a run: one poll after another, until an answer other than Pending. */
  function History(c: Conn, schedule: seq<PollEnv>): Conn
    requires SidesOk(c.sides)
    decreases |schedule|
  {
    if schedule == [] then c
    else if SidesPolled(c.sides, schedule[0]).1.Pending? then History(Polled(c, schedule[0]), schedule[1..])
    else Polled(c, schedule[0])
  }

  predicate DelayFires(schedule: seq<PollEnv>)
  {
    exists i :: 0 <= i < |schedule| && schedule[i].timer.Fired?
  }

  predicate TimerFails(schedule: seq<PollEnv>)
  {
    exists i :: 0 <= i < |schedule| && schedule[i].timer.Failed?
  }

  predicate SomeUnmade(schedule: seq<PollEnv>)
  {
    exists i :: 0 <= i < |schedule| && Unmade(schedule[i])
  }

  /** What may have happened between `c` and `h` while `schedule` was polled. */
  ghost predicate Explained(c: Conn, h: Conn, schedule: seq<PollEnv>)
  {
    && h.preferred.all == c.preferred.all && h.fallback.all == c.fallback.all
    && (h.delayFired ==> c.delayFired || DelayFires(schedule))
    && (h.timerFailed ==> c.timerFailed || TimerFails(schedule))
    && (h.preferredCut || h.fallbackCut ==> c.preferredCut || c.fallbackCut || SomeUnmade(schedule))
  }

  lemma OnePollExplains(c: Conn, env: PollEnv, rest: seq<PollEnv>)
    requires Inv(c)
    ensures Explained(c, Polled(c, env), [env] + rest)
  {
    KeepsFamilies(c, env);
    assert ([env] + rest)[0] == env;
  }

  lemma ExplainedLater(c: Conn, d: Conn, h: Conn, env: PollEnv, rest: seq<PollEnv>)
    requires Explained(c, d, [env] + rest) && Explained(d, h, rest)
    ensures Explained(c, h, [env] + rest)
  {
    assert forall i :: 0 <= i < |rest| ==> ([env] + rest)[i + 1] == rest[i];
  }

  /** From any point of a run: the polls to come keep the order, and an error leaves nothing to try. */
  lemma {:induction false} RunKeepsOrder(c: Conn, schedule: seq<PollEnv>)
    requires Inv(c)
    ensures var h, p := History(c, schedule), Driven(c.sides, schedule);
            && Orderly(h) && Explained(c, h, schedule)
            && (p.Error? ==> Exhausted(h))
            && (p.Panic? <==> schedule != [] && !c.onFallback && c.preferred.all == [])
    decreases |schedule|
  {
    if schedule != [] {
      var env, rest := schedule[0], schedule[1..];
      assert schedule == [env] + rest;
      PollKeepsOrder(c, env);
      KeepsFamilies(c, env);
      OnePollExplains(c, env, rest);
      if SidesPolled(c.sides, env).1.Pending? {
        var d := Polled(c, env);
        RunKeepsOrder(d, rest);
        ExplainedLater(c, d, History(d, rest), env, rest);
      }
    }
  }

  /**
   * Every run of a new connection, at whatever point it is stopped: a fallback address was tried only
   * if the delay fired or the preferred family is done with; an error comes only when both families
   * are used up, unless a socket could not be made or the timer failed.
   */
  lemma EveryRun(preferred: seq<Addr>, fallback: seq<Addr>, schedule: seq<PollEnv>)
    ensures var h, p := History(Begun(preferred, fallback), schedule), Driven(Fresh(preferred, fallback), schedule);
            && Ok(h.preferred) && Ok(h.fallback) && h.preferred.all == preferred && h.fallback.all == fallback
            && (h.fallback.taken > 0 ==> DelayFires(schedule) || PreferredDone(h))
            && (h.preferredCut || h.fallbackCut ==> SomeUnmade(schedule))
            && (h.timerFailed ==> TimerFails(schedule))
            && (p.Error? ==> PreferredDone(h) && FallbackDone(h))
            && (p.Panic? <==> schedule != [] && preferred == [])
  {
    RunKeepsOrder(Begun(preferred, fallback), schedule);
  }

  /** With sockets to be had and a working timer, an error means that every address was tried. */
  lemma ErrorTriedAll(preferred: seq<Addr>, fallback: seq<Addr>, schedule: seq<PollEnv>)
    requires !SomeUnmade(schedule) && !TimerFails(schedule)
    requires Driven(Fresh(preferred, fallback), schedule).Error?
    ensures var h := History(Begun(preferred, fallback), schedule);
            h.preferred.taken == |preferred| && h.fallback.taken == |fallback|
  {
    EveryRun(preferred, fallback, schedule);
  }

  // ---- What the sockets answered

  /** The socket of the address at a position was asked, and what it answered. */
  datatype Ask = Ask(at: nat, answer: Answer)

  /** From the socket at `at` on: a refusal leads to the next address, if that one's socket can be made. */
  function AsksFrom(n: nat, at: nat, side: Side, next: nat): (asks: seq<Ask>)
    requires at < n
    ensures asks != [] && asks[0].at == at
    decreases n - at
  {
    var ask := Ask(at, AnswerAt(side.answers, next));
    if ask.answer.Refused? && at + 1 < n && at + 1 !in side.unmade
    then [ask] + AsksFrom(n, at + 1, side, next + 1)
    else [ask]
  }

  /** One poll of a family: the socket it waits for, or the first one. */
  function Asks(f: Family, side: Side): seq<Ask>
    requires Live(f)
  {
    if f.taken > 0 then AsksFrom(|f.all|, f.taken - 1, side, 0)
    else if f.all == [] || 0 in side.unmade then []
    else AsksFrom(|f.all|, 0, side, 0)
  }

  /** Each socket once, in order, and the next one only after a refusal. */
  predicate InOrder(asks: seq<Ask>)
  {
    forall i :: 0 <= i < |asks| - 1 ==>
      !asks[i].answer.Connected? && asks[i + 1].at == asks[i].at + if asks[i].answer.Refused? then 1 else 0
  }

  predicate AllRefuse(asks: seq<Ask>)
  {
    forall i :: 0 <= i < |asks| ==> asks[i].answer.Refused?
  }

  /** What the last of `asks` makes of the poll of a family. */
  ghost predicate Settles(asks: seq<Ask>, f: Family, side: Side)
    requires Live(f) && asks != []
  {
    var last := asks[|asks| - 1];
    && InOrder(asks) && AllRefuse(asks[..|asks| - 1]) && last.at < |f.all|
    && match last.answer
       case Connected => Answered(f, side) == Ready(f.all[last.at])
       case NotReady => Answered(f, side) == Pending && Reached(f, side) == Family(f.all, last.at + 1, Some(last.at))
       case Refused => Answered(f, side) == Error && (last.at + 1 < |f.all| ==> last.at + 1 in side.unmade)
  }

  lemma OneMore(ask: Ask, asks: seq<Ask>, f: Family, side: Side)
    requires Live(f) && asks != [] && Settles(asks, f, side)
    requires ask.answer.Refused? && asks[0].at == ask.at + 1
    ensures Settles([ask] + asks, f, side)
  {
    var all := [ask] + asks;
    assert all[|all| - 1] == asks[|asks| - 1] && all[..|all| - 1] == [ask] + asks[..|asks| - 1];
    assert forall i :: 1 <= i < |all| ==> all[i] == asks[i - 1];
  }

  lemma {:induction false} AsksSettle(f: Family, g: Family, side: Side, next: nat)
    requires Live(f) && Asking(f, g, side, next) && g.taken > 0 && g.at == Some(g.taken - 1)
    ensures Settles(AsksFrom(|f.all|, g.taken - 1, side, next), f, side)
    decreases |f.all| - g.taken
  {
    Decides(f, g, side, next);
    var ask := Ask(g.taken - 1, AnswerAt(side.answers, next));
    if ask.answer.Refused? && g.taken < |f.all| && g.taken !in side.unmade {
      AsksSettle(f, Next(g), side, next + 1);
      OneMore(ask, AsksFrom(|f.all|, g.taken, side, next + 1), f, side);
    }
  }

  /**
   * One poll of a family, in terms of its sockets: `Ready` exactly when the last one asked is connected
   * and with its address, `Pending` exactly when it is busy; otherwise all asked refuse.
   */
  lemma FamilyAnswers(f: Family, side: Side)
    requires Live(f) && f.all != []
    ensures var asks := Asks(f, side);
            if asks == [] then f.taken == 0 && 0 in side.unmade && Answered(f, side) == Error
            else Settles(asks, f, side) && asks[0].at == if f.taken == 0 then 0 else f.taken - 1
  {
    if f.taken > 0 {
      AsksSettle(f, f, side, 0);
    } else {
      Begins(f, side);
      if 0 !in side.unmade {
        AsksSettle(f, Next(f), side, 0);
      }
    }
  }

  /** The sockets asked during one poll of the connection. */
  datatype Turn = Turn(preferred: seq<Ask>, fallback: seq<Ask>)

  /** The last socket asked is connected. */
  predicate Connects(asks: seq<Ask>)
  {
    asks != [] && asks[|asks| - 1].answer.Connected?
  }

  /** The last socket asked is busy. */
  predicate IsBusy(asks: seq<Ask>)
  {
    asks != [] && asks[|asks| - 1].answer.NotReady?
  }

  predicate NoneConnected(asks: seq<Ask>)
  {
    forall i :: 0 <= i < |asks| ==> !asks[i].answer.Connected?
  }

  /**
   * The preferred family is asked until it is given up, the fallback family when the preferred one is
   * given up and, while that one is busy, when the delay has fired.
   */
  function Turned(c: Conn, env: PollEnv): Turn
    requires Live(c.sides.preferred) && (c.sides.fallback.Some? ==> Live(c.sides.fallback.value))
  {
    var first := Asks(c.sides.preferred, env.preferred);
    if c.onFallback then Turn([], first)
    else if c.sides.fallback.Some? && c.preferred.all != []
            && (AllRefuse(first) || (IsBusy(first) && env.timer.Fired?))
    then Turn(first, Asks(c.sides.fallback.value, env.fallback))
    else Turn(first, [])
  }

  /** The last socket asked is connected, and `a` is its address. */
  predicate Reaches(asks: seq<Ask>, addrs: seq<Addr>, a: Addr)
  {
    Connects(asks) && asks[|asks| - 1].at < |addrs| && addrs[asks[|asks| - 1].at] == a
  }

  /** The poll goes on: nobody is connected and somebody is busy. */
  predicate Undecided(t: Turn)
  {
    NoneConnected(t.preferred) && NoneConnected(t.fallback) && (IsBusy(t.preferred) || IsBusy(t.fallback))
  }

  /** What the sockets asked in one poll make of it. */
  ghost predicate Explains(t: Turn, preferred: seq<Addr>, fallback: seq<Addr>, p: Poll)
  {
    && (forall a :: p == Ready(a) <==> Reaches(t.preferred, preferred, a) || Reaches(t.fallback, fallback, a))
    && (p.Pending? <==> Undecided(t))
    && (p.Ready? || (NoneConnected(t.preferred) && NoneConnected(t.fallback)))
    && (p.Error? ==> AllRefuse(t.fallback) && (AllRefuse(t.preferred)))
  }

  lemma LastDecides(asks: seq<Ask>, f: Family, side: Side)
    requires Live(f) && asks != [] && Settles(asks, f, side)
    ensures Connects(asks) || NoneConnected(asks)
    ensures AllRefuse(asks) <==> Answered(f, side).Error?
    ensures IsBusy(asks) <==> Answered(f, side).Pending?
    ensures forall a :: Reaches(asks, f.all, a) <==> Answered(f, side) == Ready(a)
  {
    var last := |asks| - 1;
    assert forall i :: 0 <= i < last ==> asks[i] == asks[..last][i];
  }

  /** `p` is what the sockets of one family make of a poll. */
  ghost predicate Matches(asks: seq<Ask>, addrs: seq<Addr>, p: Poll)
  {
    && (Connects(asks) || NoneConnected(asks)) && !p.Panic?
    && (AllRefuse(asks) <==> p.Error?) && (IsBusy(asks) <==> p.Pending?)
    && (forall a :: Reaches(asks, addrs, a) <==> p == Ready(a))
  }

  lemma FamilySettles(f: Family, side: Side)
    requires Live(f)
    ensures if f.all == [] then Asks(f, side) == [] && Answered(f, side).Panic?
            else Matches(Asks(f, side), f.all, Answered(f, side))
  {
    LiveAnswers(f, side);
    if f.all != [] {
      FamilyAnswers(f, side);
      if Asks(f, side) != [] {
        LastDecides(Asks(f, side), f, side);
      }
    }
  }

  lemma BothTurnsExplain(c: Conn, env: PollEnv, p: Poll, q: Poll)
    requires Inv(c) && c.sides.fallback.Some?
    requires p == Answered(c.preferred, env.preferred) && q == Answered(c.fallback, env.fallback)
    requires (p.Panic? <==> c.preferred.all == []) && !q.Panic?
    ensures SidesPolled(c.sides, env).1 == match p
                                           case Error => q
                                           case Pending => if env.timer.Fired? && q.Ready? then q else Pending
                                           case _ => p
    ensures c.preferred.all == [] ==> Turned(c, env) == Turn([], [])
  {
  }

  lemma TogetherExplain(
      first: seq<Ask>, second: seq<Ask>, preferred: seq<Addr>, fallback: seq<Addr>, p: Poll, q: Poll)
    requires Matches(first, preferred, p) && Matches(second, fallback, q)
    ensures Explains(Turn(first, []), preferred, fallback, p)
    ensures Explains(Turn([], second), preferred, fallback, q)
    ensures p.Error? ==> Explains(Turn(first, second), preferred, fallback, q)
    ensures p.Pending? ==> Explains(Turn(first, second), preferred, fallback, if q.Ready? then q else Pending)
  {
  }

  lemma TurnExplains(c: Conn, env: PollEnv)
    requires Inv(c)
    ensures Explains(Turned(c, env), c.preferred.all, c.fallback.all, SidesPolled(c.sides, env).1)
  {
    var first, p := Asks(c.sides.preferred, env.preferred), Answered(c.sides.preferred, env.preferred);
    FamilySettles(c.sides.preferred, env.preferred);
    if c.sides.fallback.Some? {
      var second, q := Asks(c.fallback, env.fallback), Answered(c.fallback, env.fallback);
      FamilySettles(c.fallback, env.fallback);
      BothTurnsExplain(c, env, p, q);
      if c.preferred.all != [] {
        TogetherExplain(first, second, c.preferred.all, c.fallback.all, p, q);
      }
    }
  }

  /** The sockets asked during a run, poll by poll. */
  function Log(c: Conn, schedule: seq<PollEnv>): (log: seq<Turn>)
    requires Inv(c)
    ensures |log| <= |schedule| && (schedule != [] ==> log != [])
    decreases |schedule|
  {
    if schedule == [] then []
    else
      var t := Turned(c, schedule[0]);
      if Undecided(t)
      then
        TurnExplains(c, schedule[0]);
        PollKeepsOrder(c, schedule[0]);
        [t] + Log(Polled(c, schedule[0]), schedule[1..])
      else [t]
  }

  lemma LogGoesOn(c: Conn, schedule: seq<PollEnv>, t: Turn, d: Conn)
    requires Inv(c) && schedule != [] && t == Turned(c, schedule[0]) && d == Polled(c, schedule[0])
    ensures Explains(t, c.preferred.all, c.fallback.all, SidesPolled(c.sides, schedule[0]).1)
    ensures Undecided(t) ==> Inv(d) && Log(c, schedule) == [t] + Log(d, schedule[1..])
    ensures Undecided(t) ==> Driven(c.sides, schedule) == Driven(d.sides, schedule[1..])
    ensures d.preferred.all == c.preferred.all && d.fallback.all == c.fallback.all
    ensures !Undecided(t) ==>
              Log(c, schedule) == [t] && Driven(c.sides, schedule) == SidesPolled(c.sides, schedule[0]).1
  {
    TurnExplains(c, schedule[0]);
    PollKeepsOrder(c, schedule[0]);
    KeepsFamilies(c, schedule[0]);
  }

  lemma {:induction false} RunIsExplained(c: Conn, schedule: seq<PollEnv>)
    requires Inv(c)
    ensures var log, p := Log(c, schedule), Driven(c.sides, schedule);
            && (forall i :: 0 <= i < |log| - 1 ==> Undecided(log[i]))
            && (if log == [] then p.Pending? else Explains(log[|log| - 1], c.preferred.all, c.fallback.all, p))
            && (p.Pending? ==> |log| == |schedule|)
    decreases |schedule|
  {
    if schedule != [] {
      var t, d := Turned(c, schedule[0]), Polled(c, schedule[0]);
      LogGoesOn(c, schedule, t, d);
      if Undecided(t) {
        RunIsExplained(d, schedule[1..]);
        assert Log(c, schedule)[1..] == Log(d, schedule[1..]);
      }
    }
  }

  predicate NobodyConnected(t: Turn)
  {
    NoneConnected(t.preferred) && NoneConnected(t.fallback)
  }

  /** `p` is what the sockets asked poll by poll in `log` call for. */
  ghost predicate CalledFor(log: seq<Turn>, preferred: seq<Addr>, fallback: seq<Addr>, p: Poll)
  {
    && (forall a :: p == Ready(a) <==>
          log != [] && var t := log[|log| - 1];
          Reaches(t.preferred, preferred, a) || Reaches(t.fallback, fallback, a))
    && (forall i :: 0 <= i < |log| && (i < |log| - 1 || !p.Ready?) ==> NobodyConnected(log[i]))
    && (p.Pending? <==> forall i :: 0 <= i < |log| ==> Undecided(log[i]))
  }

  lemma LastCallsFor(log: seq<Turn>, preferred: seq<Addr>, fallback: seq<Addr>, p: Poll)
    requires forall i :: 0 <= i < |log| - 1 ==> Undecided(log[i])
    requires if log == [] then p.Pending? else Explains(log[|log| - 1], preferred, fallback, p)
    ensures CalledFor(log, preferred, fallback, p)
  {
  }

  /**
   * Every schedule: the answer is `Ready(a)` exactly when the last socket a family asked in the last
   * poll is connected and `a` is its address. Before that, and whenever the answer is another, no
   * socket asked in any poll is connected. `Pending` means that every poll left somebody busy.
   */
  lemma EveryAnswer(preferred: seq<Addr>, fallback: seq<Addr>, schedule: seq<PollEnv>)
    ensures var log, p := Log(Begun(preferred, fallback), schedule), Driven(Fresh(preferred, fallback), schedule);
            CalledFor(log, preferred, fallback, p) && (p.Pending? ==> |log| == |schedule|)
  {
    var c := Begun(preferred, fallback);
    RunIsExplained(c, schedule);
    LastCallsFor(Log(c, schedule), preferred, fallback, Driven(c.sides, schedule));
  }

  // ---- In which order the sockets are asked

  function AsksOf(t: Turn, fallback: bool): seq<Ask>
  {
    if fallback then t.fallback else t.preferred
  }

  function FamilyOf(c: Conn, fallback: bool): Family
  {
    if fallback then c.fallback else c.preferred
  }

  /** The family is still asked, or will be. */
  predicate Remains(c: Conn, fallback: bool)
  {
    if fallback then c.onFallback || c.sides.fallback.Some? else !c.onFallback
  }

  function AllAsks(log: seq<Turn>, fallback: bool): seq<Ask>
  {
    if log == [] then [] else AsksOf(log[0], fallback) + AllAsks(log[1..], fallback)
  }

  /** The position a poll of `f` starts at. */
  function Start(f: Family): nat
  {
    if f.taken == 0 then 0 else f.taken - 1
  }

  predicate StartsAt(asks: seq<Ask>, at: nat)
  {
    asks != [] ==> asks[0].at == at
  }

  lemma JoinInOrder(first: seq<Ask>, rest: seq<Ask>)
    requires InOrder(first) && InOrder(rest)
    requires first != [] && rest != [] ==> IsBusy(first) && rest[0].at == first[|first| - 1].at
    ensures InOrder(first + rest)
  {
    var all := first + rest;
    forall i | 0 <= i < |all| - 1
      ensures !all[i].answer.Connected? && all[i + 1].at == all[i].at + if all[i].answer.Refused? then 1 else 0
    {
      if i < |first| {
        assert all[i] == first[i];
      } else {
        assert all[i] == rest[i - |first|] && all[i + 1] == rest[i - |first| + 1];
      }
    }
  }

  /** Where a family stands after a poll in which its sockets were asked `asks`. */
  predicate Carries(f: Family, asks: seq<Ask>, g: Family)
  {
    if asks == [] then g == f else IsBusy(asks) && g.taken == asks[|asks| - 1].at + 1
  }

  lemma AsksCarry(f: Family, side: Side)
    requires Live(f)
    ensures InOrder(Asks(f, side)) && StartsAt(Asks(f, side), Start(f))
    ensures Answered(f, side).Pending? ==> Carries(f, Asks(f, side), Reached(f, side))
  {
    if f.all != [] {
      FamilyAnswers(f, side);
    }
  }

  /** The families after a poll that leaves both sides waiting, or one in the other's place. */
  lemma TurnLeaves(c: Conn, env: PollEnv, first: Family, second: Family)
    requires Inv(c) && !c.onFallback && c.sides.fallback.Some?
    requires first == Reached(c.preferred, env.preferred) && second == Reached(c.fallback, env.fallback)
    ensures var d, p := Polled(c, env), Answered(c.preferred, env.preferred);
            && (Remains(d, false) ==> d.preferred == first && !p.Error?)
            && (p.Pending? && Remains(d, true) ==>
                  if env.timer.Fired? then d.fallback == second && Answered(c.fallback, env.fallback).Pending?
                  else d.fallback == c.fallback)
            && (p.Error? ==> d.fallback == second)
  {
  }

  lemma TurnCarries(c: Conn, env: PollEnv, fallback: bool)
    requires Inv(c) && Remains(c, fallback)
    ensures var asks := AsksOf(Turned(c, env), fallback);
            InOrder(asks) && StartsAt(asks, Start(FamilyOf(c, fallback)))
    ensures var t, d := Turned(c, env), Polled(c, env);
            Undecided(t) && Remains(d, fallback) ==>
              Carries(FamilyOf(c, fallback), AsksOf(t, fallback), FamilyOf(d, fallback))
  {
    AsksCarry(c.sides.preferred, env.preferred);
    FamilySettles(c.sides.preferred, env.preferred);
    if c.sides.fallback.Some? {
      AsksCarry(c.fallback, env.fallback);
      FamilySettles(c.fallback, env.fallback);
      TurnLeaves(c, env, Reached(c.preferred, env.preferred), Reached(c.fallback, env.fallback));
    }
  }

  lemma GoneForGood(c: Conn, env: PollEnv, fallback: bool)
    requires Inv(c) && !Remains(c, fallback)
    ensures AsksOf(Turned(c, env), fallback) == [] && !Remains(Polled(c, env), fallback)
  {
  }

  lemma JoinRuns(f: Family, first: seq<Ask>, g: Family, rest: seq<Ask>)
    requires InOrder(first) && StartsAt(first, Start(f)) && InOrder(rest) && StartsAt(rest, Start(g))
    requires rest != [] ==> Carries(f, first, g)
    ensures InOrder(first + rest) && StartsAt(first + rest, Start(f))
  {
    JoinInOrder(first, rest);
  }

  lemma TurnInOrder(c: Conn, env: PollEnv, fallback: bool, t: Turn, d: Conn)
    requires Inv(c) && t == Turned(c, env) && d == Polled(c, env)
    ensures var asks := AsksOf(t, fallback);
            InOrder(asks) && StartsAt(asks, Start(FamilyOf(c, fallback))) && (!Remains(c, fallback) ==> asks == [])
    ensures Undecided(t) && Remains(d, fallback) ==>
              Remains(c, fallback) && Carries(FamilyOf(c, fallback), AsksOf(t, fallback), FamilyOf(d, fallback))
  {
    if Remains(c, fallback) {
      TurnCarries(c, env, fallback);
    } else {
      GoneForGood(c, env, fallback);
    }
  }

  lemma {:induction false} RunInOrder(c: Conn, schedule: seq<PollEnv>, fallback: bool)
    requires Inv(c)
    ensures var asks := AllAsks(Log(c, schedule), fallback);
            && InOrder(asks) && StartsAt(asks, Start(FamilyOf(c, fallback)))
            && (!Remains(c, fallback) ==> asks == [])
    decreases |schedule|
  {
    if schedule != [] {
      var t, d := Turned(c, schedule[0]), Polled(c, schedule[0]);
      LogGoesOn(c, schedule, t, d);
      TurnInOrder(c, schedule[0], fallback, t, d);
      var rest := if Undecided(t) then Log(d, schedule[1..]) else [];
      assert Log(c, schedule) == [t] + rest && Log(c, schedule)[1..] == rest;
      if Undecided(t) {
        RunInOrder(d, schedule[1..], fallback);
      }
      JoinRuns(FamilyOf(c, fallback), AsksOf(t, fallback), FamilyOf(d, fallback), AllAsks(rest, fallback));
    }
  }

  /**
   * Every schedule, in each family: the first address first, the next one only after a refusal, the
   * same socket again while it is busy, and nothing after a connection.
   */
  lemma AskedInOrder(preferred: seq<Addr>, fallback: seq<Addr>, schedule: seq<PollEnv>, which: bool)
    ensures var asks := AllAsks(Log(Begun(preferred, fallback), schedule), which);
            InOrder(asks) && StartsAt(asks, 0)
  {
    RunInOrder(Begun(preferred, fallback), schedule, which);
  }

  // ---- Who is connected in the end

  /** All sockets can be made; `j` of them refuse and the next one is connected. */
  function ConnectsAfter(j: nat): Side
  {
    Side(seq(j, _ => Refused) + [Connected], {})
  }

  const BUSY := Side([], {})

  /** `n` polls in which nothing happens. */
  function Waits(n: nat): seq<PollEnv>
  {
    seq(n, _ => PollEnv(BUSY, Waiting, BUSY))
  }

  /** A connection before its first poll, or waiting for the first preferred socket. */
  predicate AtStart(s: Sides, preferred: seq<Addr>, fallback: seq<Addr>)
  {
    && preferred != []
    && (s.preferred == Untried(preferred) || s.preferred == Family(preferred, 1, Some(0)))
    && s.fallback == if fallback == [] then None else Some(Untried(fallback))
  }

  lemma {:induction false} Waited(s: Sides, preferred: seq<Addr>, fallback: seq<Addr>, n: nat, env: PollEnv)
    returns (t: Sides)
    requires AtStart(s, preferred, fallback)
    ensures AtStart(t, preferred, fallback)
    ensures Driven(s, Waits(n) + [env]) == if SidesPolled(t, env).1.Pending? then Pending else SidesPolled(t, env).1
    decreases n
  {
    if n == 0 {
      t := s;
      assert Waits(0) + [env] == [env];
    } else {
      var schedule := Waits(n) + [env];
      assert schedule[0] == PollEnv(BUSY, Waiting, BUSY) && schedule[1..] == Waits(n - 1) + [env];
      t := Waited(SidesPolled(s, schedule[0]).0, preferred, fallback, n - 1, env);
    }
  }

  lemma ConnectsThere(f: Family, j: nat)
    requires j < |f.all| && (f == Untried(f.all) || f == Family(f.all, 1, Some(0)))
    ensures Answered(f, ConnectsAfter(j)) == Ready(f.all[j])
  {
    RefusedThere(ConnectsAfter(j).answers, j);
  }

  /** The first preferred socket that is connected wins, whatever the other family does. */
  lemma PreferredConnects(preferred: seq<Addr>, fallback: seq<Addr>, n: nat, j: nat, timer: Timer, other: Side)
    requires j < |preferred|
    ensures Driven(Fresh(preferred, fallback), Waits(n) + [PollEnv(ConnectsAfter(j), timer, other)])
            == Ready(preferred[j])
  {
    var s := Waited(Fresh(preferred, fallback), preferred, fallback, n, PollEnv(ConnectsAfter(j), timer, other));
    ConnectsThere(s.preferred, j);
  }

  /** While the preferred side is busy the other one can win once the delay has fired. */
  lemma FallbackConnects(preferred: seq<Addr>, fallback: seq<Addr>, n: nat, j: nat)
    requires preferred != [] && j < |fallback|
    ensures Driven(Fresh(preferred, fallback), Waits(n) + [PollEnv(BUSY, Fired, ConnectsAfter(j))])
            == Ready(fallback[j])
  {
    var s := Waited(Fresh(preferred, fallback), preferred, fallback, n, PollEnv(BUSY, Fired, ConnectsAfter(j)));
    ConnectsThere(Untried(fallback), j);
  }

  /** When every preferred address refuses the other family is tried at once, whatever the timer does. */
  lemma FallbackReplaces(preferred: seq<Addr>, fallback: seq<Addr>, n: nat, j: nat, timer: Timer)
    requires preferred != [] && j < |fallback|
    ensures var refusing := Side(seq(|preferred|, _ => Refused), {});
            Driven(Fresh(preferred, fallback), Waits(n) + [PollEnv(refusing, timer, ConnectsAfter(j))])
            == Ready(fallback[j])
  {
    var env := PollEnv(Side(seq(|preferred|, _ => Refused), {}), timer, ConnectsAfter(j));
    var s := Waited(Fresh(preferred, fallback), preferred, fallback, n, env);
    AllRefused(env.preferred.answers);
    ConnectsThere(Untried(fallback), j);
  }

  /** The next poll of a run whose rest is `schedule[n..]`. */
  lemma NextPoll(c: Conn, schedule: seq<PollEnv>, n: nat)
    requires n < |schedule| && Inv(c)
    ensures var d, p := Polled(c, schedule[n]), SidesPolled(c.sides, schedule[n]).1;
            && d.sides == SidesPolled(c.sides, schedule[n]).0
            && if p.Pending?
               then Inv(d) && History(c, schedule[n..]) == History(d, schedule[n + 1..])
                    && Driven(c.sides, schedule[n..]) == Driven(d.sides, schedule[n + 1..])
               else History(c, schedule[n..]) == d && Driven(c.sides, schedule[n..]) == p
  {
    PollKeepsOrder(c, schedule[n]);
    assert schedule[n..][1..] == schedule[n + 1..];
  }

  /** Polls until there is an answer. */
  method Drive(c: ConnectingTcp, ghost preferred: seq<Addr>, ghost fallback: seq<Addr>, schedule: seq<PollEnv>)
    returns (p: Poll, ghost conn: Conn)
    requires c.Valid() && c.sides == Fresh(preferred, fallback)
    modifies c
    ensures p == Driven(Fresh(preferred, fallback), schedule)
    ensures conn == History(Begun(preferred, fallback), schedule) && c.Valid() && c.sides == conn.sides
  {
    conn := Begun(preferred, fallback);
    p := Pending;
    assert schedule[0..] == schedule;
    ghost var answer, history := Driven(conn.sides, schedule), History(conn, schedule);
    for i := 0 to |schedule|
      invariant c.Valid() && c.sides == conn.sides && p.Pending? && Inv(conn)
      invariant History(conn, schedule[i..]) == history && Driven(conn.sides, schedule[i..]) == answer
    {
      NextPoll(conn, schedule, i);
      p := c.PollOnce(schedule[i]);
      conn := Polled(conn, schedule[i]);
      if !p.Pending? {
        return;
      }
    }
  }

  /**
   * Every poll schedule: the answer is the one the sockets asked call for, and the history is that of
   * the polls made; attempts stay in order, once each and within the fallback rule; an error
   * is the answer only when no address is left, unless a socket could not be made or the timer
   * failed; it panics exactly without addresses.
   */
  method Connect(addrs: seq<Addr>, withFallback: bool, schedule: seq<PollEnv>)
    returns (p: Poll, ghost conn: Conn)
    ensures var preferred, fallback := conn.preferred.all, conn.fallback.all;
            && p == Driven(Fresh(preferred, fallback), schedule)
            && conn == History(Begun(preferred, fallback), schedule)
            && |preferred| + |fallback| == |addrs|
            && if withFallback
               then var v6 := addrs != [] && addrs[0].V6?;
                    preferred == Filter(addrs, v6) && fallback == Filter(addrs, !v6)
               else preferred == addrs && fallback == []
    ensures var preferred, fallback := conn.preferred.all, conn.fallback.all;
            CalledFor(Log(Begun(preferred, fallback), schedule), preferred, fallback, p)
    ensures conn.fallback.taken > 0 ==> DelayFires(schedule) || PreferredDone(conn)
    ensures p.Error? ==> PreferredDone(conn) && FallbackDone(conn)
    ensures conn.timerFailed ==> TimerFails(schedule)
    ensures conn.preferredCut || conn.fallbackCut ==> SomeUnmade(schedule)
    ensures p.Panic? <==> addrs == [] && schedule != []
  {
    var c, preferred, fallback := NewConnecting(addrs, withFallback);
    p, conn := Drive(c, preferred, fallback, schedule);
    EveryRun(preferred, fallback, schedule);
    EveryAnswer(preferred, fallback, schedule);
  }
}
