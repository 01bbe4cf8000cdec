/** The adaptive replacement cache (boss/webserver/src/arc.rs). */
module ArcCache {
  import opened Bytes

  // ---- Linked hash maps: insertion order, oldest first

  predicate NoDup<K(==)>(s: seq<K>)
  {
    forall i, j :: 0 <= i < j < |s| ==> s[i] != s[j]
  }

  function Without<K(==)>(s: seq<K>, k: K): (r: seq<K>)
    ensures forall x | x in r :: x in s && x != k
    ensures forall x | x in s && x != k :: x in r
    ensures k !in s ==> r == s
  {
    if s == [] then []
    else if s[0] == k then Without(s[1..], k)
    else [s[0]] + Without(s[1..], k)
  }

  lemma {:induction false} WithoutNoDup<K>(s: seq<K>, k: K)
    requires NoDup(s)
    ensures NoDup(Without(s, k)) && |Without(s, k)| == |s| - (if k in s then 1 else 0)
    decreases |s|
  {
    if s != [] {
      var t := s[1..];
      assert s == [s[0]] + t && s[0] !in t;
      WithoutNoDup(t, k);
      assert s[0] !in Without(t, k);
    }
  }

  datatype LinkedMap<K(==), V> = LinkedMap(order: seq<K>, vals: map<K, V>) {
    predicate Valid()
    {
      NoDup(order) && vals.Keys == set k | k in order
    }

    function Put(k: K, v: V): LinkedMap<K, V>
    {
      LinkedMap(Without(order, k) + [k], vals[k := v])
    }

    function Remove(k: K): LinkedMap<K, V>
    {
      LinkedMap(Without(order, k), vals - {k})
    }

    lemma PutValid(k: K, v: V)
      requires Valid()
      ensures Put(k, v).Valid() && |Put(k, v).order| == |order| + (if k in order then 0 else 1)
      ensures forall x :: x in Put(k, v).order <==> x == k || x in order
    {
      WithoutNoDup(order, k);
    }

    lemma RemoveValid(k: K)
      requires Valid()
      ensures Remove(k).Valid() && |Remove(k).order| == |order| - (if k in order then 1 else 0)
      ensures forall x :: x in Remove(k).order <==> x != k && x in order
    {
      WithoutNoDup(order, k);
    }
  }

  // ---- The cache as a value

  /** T1, B1, T2 and B2 of the ARC paper, and the target size of T1. */
  datatype State<K(==), V> = State(
    capacity: nat,
    pValue: nat,
    recentTop: LinkedMap<K, V>,
    recentBottom: seq<K>,
    frequentTop: LinkedMap<K, V>,
    frequentBottom: seq<K>)

  /** Disjoint lists without repeats, within bounds but for `slack` entries too many in T1 and T2. */
  ghost predicate Bounded<K, V>(s: State<K, V>, slack: nat)
  {
    && s.recentTop.Valid() && s.frequentTop.Valid() && NoDup(s.recentBottom) && NoDup(s.frequentBottom)
    && (forall k :: k in s.recentTop.order ==>
          k !in s.frequentTop.order && k !in s.recentBottom && k !in s.frequentBottom)
    && (forall k :: k in s.frequentTop.order ==> k !in s.recentBottom && k !in s.frequentBottom)
    && (forall k :: k in s.recentBottom ==> k !in s.frequentBottom)
    && |s.recentTop.order| + |s.frequentTop.order| <= s.capacity + slack
    && |s.recentBottom| <= s.capacity
    && s.pValue <= s.capacity
  }

  ghost predicate Valid<K, V>(s: State<K, V>)
  {
    Bounded(s, 0)
  }

  function Empty<K, V>(capacity: nat): State<K, V>
  {
    State(capacity, 0, LinkedMap([], map[]), [], LinkedMap([], map[]), [])
  }

  /** How a call ends: `Panics` for division by zero or an empty pop, `Hangs` for a loop that never ends. */
  datatype Outcome<K(==), V> =
    | Done(state: State<K, V>, previous: Option<V>, evicted: seq<(K, V)>)
    | Panics
    | Hangs

  /** The newest `n` elements. */
  function Newest<K>(s: seq<K>, n: nat): seq<K>
  {
    if |s| <= n then s else s[|s| - n..]
  }

  predicate EvictsRecent<K, V>(s: State<K, V>, wasInBottom: bool)
  {
    var n := |s.recentTop.order|;
    n > s.pValue || (n == s.pValue && n > 0 && wasInBottom)
  }

  /**
   * `replace_helper`. Both loops remove ghosts until their guard fails: the first guard counts the
   * list it shrinks, the second counts T2 and so never changes.
   */
  function Replace<K, V>(s: State<K, V>, wasInBottom: bool): Outcome<K, V>
  {
    if EvictsRecent(s, wasInBottom) then
      if s.capacity == 0 then Hangs
      else
        var k := s.recentTop.order[0];
        Done(s.(recentTop := s.recentTop.Remove(k),
                recentBottom := Newest(s.recentBottom, s.capacity - 1) + [k]), None, [])
    else if s.frequentTop.order == [] || s.frequentTop.order[0] !in s.frequentTop.vals then Panics
    else
      var k := s.frequentTop.order[0];
      var top := s.frequentTop.Remove(k);
      if s.capacity <= |top.order| then Hangs
      else Done(s.(frequentTop := top, frequentBottom := Without(s.frequentBottom, k) + [k]), None,
                [(k, s.frequentTop.vals[k])])
  }

  /** The step by which a ghost hit moves the target: None where the code divides by zero. */
  function Delta(own: nat, other: nat): Option<nat>
  {
    if other <= own then Some(1) else if own == 0 then None else Some(other / own)
  }

  datatype Hit = NoHit | FrequentGhost | RecentGhost | ZeroDivision

  /** Which ghost list `key` is in; a hit leaves the list and moves the target. */
  function Adapt<K, V>(s: State<K, V>, key: K): (Hit, State<K, V>)
  {
    if key in s.frequentBottom then
      var b2 := Without(s.frequentBottom, key);
      match Delta(|b2|, |s.recentBottom|)
      case None => (ZeroDivision, s)
      case Some(d) =>
        (FrequentGhost, s.(frequentBottom := b2, pValue := if d <= s.pValue then s.pValue - d else 0))
    else if key in s.recentBottom then
      var b1 := Without(s.recentBottom, key);
      match Delta(|b1|, |s.frequentBottom|)
      case None => (ZeroDivision, s)
      case Some(d) =>
        (RecentGhost,
         s.(recentBottom := b1, pValue := if s.capacity < s.pValue + d then s.capacity else s.pValue + d))
    else (NoHit, s)
  }

  /** Insertion of a key that is in neither T1 nor T2. */
  function InsertNew<K, V>(s: State<K, V>, key: K, value: V): Outcome<K, V>
  {
    var (hit, t) := Adapt(s, key);
    match hit
    case ZeroDivision => Panics
    case NoHit =>
      var u := t.(recentTop := t.recentTop.Put(key, value));
      if |u.recentTop.order| + |u.frequentTop.order| > u.capacity then Replace(u, false) else Done(u, None, [])
    case _ => Replace(t.(frequentTop := t.frequentTop.Put(key, value)), hit.FrequentGhost?)
  }

  function InsertStep<K, V>(s: State<K, V>, key: K, value: V): Outcome<K, V>
  {
    if key in s.recentTop.vals then
      Done(s.(recentTop := s.recentTop.Put(key, value)), Some(s.recentTop.vals[key]), [])
    else if key in s.frequentTop.vals then
      Done(s.(frequentTop := s.frequentTop.Put(key, value)), Some(s.frequentTop.vals[key]), [])
    else InsertNew(s, key, value)
  }

  function Lookup<K, V>(s: State<K, V>, key: K): Option<V>
  {
    if key in s.frequentTop.vals then Some(s.frequentTop.vals[key])
    else if key in s.recentTop.vals then Some(s.recentTop.vals[key])
    else None
  }

  /** `get_refresh`: a second use moves a key from T1 to T2. */
  function RefreshStep<K, V>(s: State<K, V>, key: K): Outcome<K, V>
  {
    if key in s.recentTop.vals then
      if key in s.frequentTop.vals then Panics
      else
        var v := s.recentTop.vals[key];
        Done(s.(recentTop := s.recentTop.Remove(key), frequentTop := s.frequentTop.Put(key, v)), Some(v), [])
    else if key in s.frequentTop.vals then
      var v := s.frequentTop.vals[key];
      Done(s.(frequentTop := s.frequentTop.Put(key, v)), Some(v), [])
    else Done(s, None, [])
  }

  // ---- When an insertion does not come back

  predicate GhostHit<K, V>(s: State<K, V>, key: K)
  {
    key !in s.recentTop.vals && key !in s.frequentTop.vals && (key in s.frequentBottom || key in s.recentBottom)
  }

  /** The key is the only ghost of its list while the other ghost list is not empty. */
  predicate DividesByZero<K, V>(s: State<K, V>, key: K)
  {
    GhostHit(s, key)
    && if key in s.frequentBottom then |s.frequentBottom| == 1 && s.recentBottom != []
       else |s.recentBottom| == 1 && s.frequentBottom != []
  }

  /** A ghost hit while T2 alone fills the cache, or any new key when nothing fits. */
  predicate LoopsForever<K, V>(s: State<K, V>, key: K)
  {
    key !in s.recentTop.vals && key !in s.frequentTop.vals && !DividesByZero(s, key)
    && if GhostHit(s, key) then |s.frequentTop.order| == s.capacity else s.capacity == 0
  }

  // ---- Invariants

  lemma ReplaceRecent<K, V>(s: State<K, V>, wasInBottom: bool)
    requires Bounded(s, 1) && EvictsRecent(s, wasInBottom)
    ensures Replace(s, wasInBottom).Hangs? <==> s.capacity == 0
    ensures Replace(s, wasInBottom).Done? ==> Valid(Replace(s, wasInBottom).state)
  {
    if s.capacity > 0 {
      var k := s.recentTop.order[0];
      s.recentTop.RemoveValid(k);
      var b1 := Newest(s.recentBottom, s.capacity - 1);
      assert forall x :: x in b1 ==> x in s.recentBottom;
      assert NoDup(b1 + [k]);
    }
  }

  lemma ReplaceFrequent<K, V>(s: State<K, V>, wasInBottom: bool)
    requires Bounded(s, 1) && !EvictsRecent(s, wasInBottom) && s.frequentTop.order != []
    ensures Replace(s, wasInBottom).Hangs? <==> s.capacity <= |s.frequentTop.order| - 1
    ensures !Replace(s, wasInBottom).Panics?
    ensures Replace(s, wasInBottom).Done? ==> Valid(Replace(s, wasInBottom).state)
  {
    var k := s.frequentTop.order[0];
    s.frequentTop.RemoveValid(k);
    WithoutNoDup(s.frequentBottom, k);
  }

  /** Replacement after a ghost hit, when T2 already holds the new key. */
  lemma ReplaceAfterHit<K, V>(t: State<K, V>, wasInBottom: bool)
    requires Bounded(t, 1) && t.frequentTop.order != []
    ensures !Replace(t, wasInBottom).Panics?
    ensures Replace(t, wasInBottom).Hangs? <==> |t.frequentTop.order| == t.capacity + 1
    ensures Replace(t, wasInBottom).Done? ==> Valid(Replace(t, wasInBottom).state)
  {
    if EvictsRecent(t, wasInBottom) {
      ReplaceRecent(t, wasInBottom);
    } else {
      ReplaceFrequent(t, wasInBottom);
    }
  }

  lemma AdaptOutcome<K, V>(s: State<K, V>, key: K)
    requires Valid(s) && GhostHit(s, key)
    ensures Adapt(s, key).0.ZeroDivision? <==> DividesByZero(s, key)
    ensures !Adapt(s, key).0.NoHit?
    ensures var t := Adapt(s, key).1;
            !DividesByZero(s, key) ==>
              && Valid(t) && key !in t.recentBottom && key !in t.frequentBottom
              && t.recentTop == s.recentTop && t.frequentTop == s.frequentTop && t.capacity == s.capacity
  {
    WithoutNoDup(s.frequentBottom, key);
    WithoutNoDup(s.recentBottom, key);
  }

  lemma InsertGhost<K, V>(s: State<K, V>, key: K, value: V)
    requires Valid(s) && GhostHit(s, key)
    ensures InsertNew(s, key, value).Panics? <==> DividesByZero(s, key)
    ensures InsertNew(s, key, value).Hangs? <==> LoopsForever(s, key)
    ensures InsertNew(s, key, value).Done? ==> Valid(InsertNew(s, key, value).state)
  {
    AdaptOutcome(s, key);
    if !DividesByZero(s, key) {
      var (hit, t) := Adapt(s, key);
      t.frequentTop.PutValid(key, value);
      ReplaceAfterHit(t.(frequentTop := t.frequentTop.Put(key, value)), hit.FrequentGhost?);
    }
  }

  /** Replacement after a new key has gone to T1 and made the cache one too large. */
  lemma ReplaceAfterFresh<K, V>(t: State<K, V>)
    requires Bounded(t, 1) && t.recentTop.order != [] && |t.recentTop.order| + |t.frequentTop.order| > t.capacity
    ensures !Replace(t, false).Panics?
    ensures Replace(t, false).Hangs? <==> t.capacity == 0
    ensures Replace(t, false).Done? ==> Valid(Replace(t, false).state)
  {
    if EvictsRecent(t, false) {
      ReplaceRecent(t, false);
    } else {
      ReplaceFrequent(t, false);
    }
  }

  lemma InsertFresh<K, V>(s: State<K, V>, key: K, value: V)
    requires Valid(s) && !GhostHit(s, key) && key !in s.recentTop.vals && key !in s.frequentTop.vals
    ensures !InsertNew(s, key, value).Panics?
    ensures InsertNew(s, key, value).Hangs? <==> s.capacity == 0
    ensures InsertNew(s, key, value).Done? ==> Valid(InsertNew(s, key, value).state)
  {
    s.recentTop.PutValid(key, value);
    var t := s.(recentTop := s.recentTop.Put(key, value));
    if |t.recentTop.order| + |t.frequentTop.order| > t.capacity {
      ReplaceAfterFresh(t);
    }
  }

  /** One insertion: it panics or hangs exactly in the two named cases, and otherwise keeps the invariant. */
  lemma InsertOutcome<K, V>(s: State<K, V>, key: K, value: V)
    requires Valid(s)
    ensures InsertStep(s, key, value).Panics? <==> DividesByZero(s, key)
    ensures InsertStep(s, key, value).Hangs? <==> LoopsForever(s, key)
    ensures InsertStep(s, key, value).Done? ==> Valid(InsertStep(s, key, value).state)
  {
    if key in s.recentTop.vals {
      s.recentTop.PutValid(key, value);
    } else if key in s.frequentTop.vals {
      s.frequentTop.PutValid(key, value);
    } else if GhostHit(s, key) {
      InsertGhost(s, key, value);
    } else {
      InsertFresh(s, key, value);
    }
  }

  lemma RefreshKeepsValid<K, V>(s: State<K, V>, key: K)
    requires Valid(s)
    ensures RefreshStep(s, key).Done? && Valid(RefreshStep(s, key).state)
  {
    if key in s.recentTop.vals {
      s.recentTop.RemoveValid(key);
      s.frequentTop.PutValid(key, s.recentTop.vals[key]);
    } else if key in s.frequentTop.vals {
      s.frequentTop.PutValid(key, s.frequentTop.vals[key]);
    }
  }

  /** Refreshing never fails, changes no binding and returns the current one. */
  lemma RefreshOutcome<K, V>(s: State<K, V>, key: K)
    requires Valid(s)
    ensures RefreshStep(s, key).Done? && Valid(RefreshStep(s, key).state)
    ensures RefreshStep(s, key).previous == Lookup(s, key)
    ensures forall k :: Lookup(RefreshStep(s, key).state, k) == Lookup(s, k)
  {
    RefreshKeepsValid(s, key);
  }

  lemma ReplaceValues<K, V>(s: State<K, V>, wasInBottom: bool)
    requires Replace(s, wasInBottom).Done?
    ensures var t := Replace(s, wasInBottom).state;
            && t.capacity == s.capacity
            && (forall k :: k in t.recentTop.vals ==>
                  k in s.recentTop.vals && t.recentTop.vals[k] == s.recentTop.vals[k])
            && (forall k :: k in t.frequentTop.vals ==>
                  k in s.frequentTop.vals && t.frequentTop.vals[k] == s.frequentTop.vals[k])
  {
  }

  lemma InsertNewValues<K, V>(s: State<K, V>, key: K, value: V, k: K)
    requires Valid(s) && key !in s.recentTop.vals && key !in s.frequentTop.vals
    requires InsertNew(s, key, value).Done?
    ensures var t := InsertNew(s, key, value).state;
            && t.capacity == s.capacity
            && (Lookup(t, k).Some? ==> Lookup(t, k) == if k == key then Some(value) else Lookup(s, k))
  {
    var (hit, t) := Adapt(s, key);
    if hit.NoHit? {
      var u := t.(recentTop := t.recentTop.Put(key, value));
      if |u.recentTop.order| + |u.frequentTop.order| > u.capacity {
        ReplaceValues(u, false);
      }
    } else {
      ReplaceValues(t.(frequentTop := t.frequentTop.Put(key, value)), hit.FrequentGhost?);
    }
  }

  /** An insertion can drop bindings, the new one included, but never leaves a stale one. */
  lemma InsertValues<K, V>(s: State<K, V>, key: K, value: V, k: K)
    requires Valid(s) && InsertStep(s, key, value).Done?
    ensures var t := InsertStep(s, key, value).state;
            && t.capacity == s.capacity
            && (Lookup(t, k).Some? ==> Lookup(t, k) == if k == key then Some(value) else Lookup(s, k))
  {
    if key !in s.recentTop.vals && key !in s.frequentTop.vals {
      InsertNewValues(s, key, value, k);
    }
  }

  // ---- Which way the target moves, and which keys move where

  function Max(a: int, b: int): int
  {
    if a < b then b else a
  }

  function Min(a: int, b: int): int
  {
    if a < b then a else b
  }

  /** How far a hit in a ghost list of `own` keys moves the target: the ratio without the key, at least 1. */
  function Ratio(own: nat, other: nat): int
    requires own > 0
  {
    if own == 1 then 1 else Max(1, other / (own - 1))
  }

  lemma WithoutFirst<K>(s: seq<K>)
    requires s != [] && NoDup(s)
    ensures Without(s, s[0]) == s[1..]
  {
    assert s[0] !in s[1..];
  }

  lemma ReplaceKeepsTarget<K, V>(s: State<K, V>, wasInBottom: bool)
    requires Replace(s, wasInBottom).Done?
    ensures Replace(s, wasInBottom).state.pValue == s.pValue
  {
  }

  /** The target for T1 once `key` has been inserted. */
  function TargetAfter<K, V>(s: State<K, V>, key: K): int
  {
    if key in s.frequentBottom then Max(0, s.pValue - Ratio(|s.frequentBottom|, |s.recentBottom|))
    else if key in s.recentBottom then Min(s.capacity, s.pValue + Ratio(|s.recentBottom|, |s.frequentBottom|))
    else s.pValue
  }

  lemma RatioIsDelta(own: nat, other: nat)
    requires own > 0 && Delta(own - 1, other).Some?
    ensures Delta(own - 1, other).value == Ratio(own, other)
  {
    if own > 1 && other <= own - 1 {
      assert other / (own - 1) <= 1;
    }
  }

  lemma AdaptMovesTarget<K, V>(s: State<K, V>, key: K)
    requires Valid(s) && !Adapt(s, key).0.ZeroDivision?
    ensures Adapt(s, key).1.pValue == TargetAfter(s, key)
  {
    if key in s.frequentBottom {
      WithoutNoDup(s.frequentBottom, key);
      RatioIsDelta(|s.frequentBottom|, |s.recentBottom|);
    } else if key in s.recentBottom {
      WithoutNoDup(s.recentBottom, key);
      RatioIsDelta(|s.recentBottom|, |s.frequentBottom|);
    }
  }

  /** A ghost of T2 lowers the target for T1, a ghost of T1 raises it, and nothing else moves it. */
  lemma TargetMoves<K, V>(s: State<K, V>, key: K, value: V)
    requires Valid(s) && InsertStep(s, key, value).Done?
    ensures InsertStep(s, key, value).state.pValue == TargetAfter(s, key)
    ensures RefreshStep(s, key).Done? ==> RefreshStep(s, key).state.pValue == s.pValue
  {
    if key !in s.recentTop.vals && key !in s.frequentTop.vals {
      AdaptMovesTarget(s, key);
      var (hit, t) := Adapt(s, key);
      if hit.NoHit? {
        var u := t.(recentTop := t.recentTop.Put(key, value));
        if |u.recentTop.order| + |u.frequentTop.order| > u.capacity {
          ReplaceKeepsTarget(u, false);
        }
      } else {
        ReplaceKeepsTarget(t.(frequentTop := t.frequentTop.Put(key, value)), hit.FrequentGhost?);
      }
    }
  }

  /** An entry goes from the front of T1 to the back of B1, whose oldest keys make room, or from T2 to B2. */
  lemma ReplaceMoves<K, V>(s: State<K, V>, wasInBottom: bool)
    requires Bounded(s, 1) && Replace(s, wasInBottom).Done?
    ensures var n, t := |s.recentTop.order|, Replace(s, wasInBottom).state;
            if n > s.pValue || (n == s.pValue && n > 0 && wasInBottom)
            then
              && t.recentTop.order == s.recentTop.order[1..] && t.frequentTop == s.frequentTop
              && t.recentBottom == Newest(s.recentBottom, s.capacity - 1) + [s.recentTop.order[0]]
              && t.frequentBottom == s.frequentBottom && Replace(s, wasInBottom).evicted == []
            else
              && s.frequentTop.order != [] && s.frequentTop.order[0] in s.frequentTop.vals
              && t.frequentTop.order == s.frequentTop.order[1..] && t.recentTop == s.recentTop
              && t.frequentBottom == s.frequentBottom + [s.frequentTop.order[0]]
              && t.recentBottom == s.recentBottom
              && Replace(s, wasInBottom).evicted
                 == [(s.frequentTop.order[0], s.frequentTop.vals[s.frequentTop.order[0]])]
  {
    if EvictsRecent(s, wasInBottom) {
      WithoutFirst(s.recentTop.order);
    } else {
      WithoutFirst(s.frequentTop.order);
    }
  }

  /** A key that is cached stays in its list, as its newest entry. */
  lemma HitMoves<K, V>(s: State<K, V>, key: K, value: V)
    requires Valid(s) && (key in s.recentTop.order || key in s.frequentTop.order)
    ensures var r := InsertStep(s, key, value);
            && r.Done? && r.evicted == [] && r.previous == Lookup(s, key)
            && r.state.recentBottom == s.recentBottom && r.state.frequentBottom == s.frequentBottom
            && if key in s.recentTop.order
               then r.state.recentTop.order == Without(s.recentTop.order, key) + [key]
                    && r.state.frequentTop == s.frequentTop
               else r.state.frequentTop.order == Without(s.frequentTop.order, key) + [key]
                    && r.state.recentTop == s.recentTop
  {
    assert key in s.recentTop.order ==> key !in s.frequentTop.order;
  }

  /** A second use makes a key the newest of T2, wherever it was. */
  lemma RefreshMoves<K, V>(s: State<K, V>, key: K)
    requires Valid(s)
    ensures var r := RefreshStep(s, key);
            && r.Done? && r.state.recentBottom == s.recentBottom && r.state.frequentBottom == s.frequentBottom
            && r.state.recentTop.order == Without(s.recentTop.order, key)
            && r.state.frequentTop.order
               == if key in s.recentTop.order || key in s.frequentTop.order
                  then Without(s.frequentTop.order, key) + [key] else s.frequentTop.order
  {
    RefreshKeepsValid(s, key);
  }

  lemma AdaptLists<K, V>(s: State<K, V>, key: K)
    requires Valid(s) && GhostHit(s, key) && !Adapt(s, key).0.ZeroDivision?
    ensures var (hit, t) := Adapt(s, key);
            && (hit.FrequentGhost? <==> key in s.frequentBottom)
            && t.recentBottom == Without(s.recentBottom, key) && t.frequentBottom == Without(s.frequentBottom, key)
            && t.recentTop == s.recentTop && t.frequentTop == s.frequentTop && t.capacity == s.capacity
  {
    assert key in s.frequentBottom ==> key !in s.recentBottom;
  }

  lemma PlacedGhost<K, V>(s: State<K, V>, key: K, value: V) returns (u: State<K, V>)
    requires Valid(s) && GhostHit(s, key) && InsertStep(s, key, value).Done?
    ensures Bounded(u, 1) && InsertStep(s, key, value) == Replace(u, key in s.frequentBottom)
    ensures u.frequentTop.order == s.frequentTop.order + [key] && u.frequentTop.vals == s.frequentTop.vals[key := value]
    ensures u.recentTop == s.recentTop && u.capacity == s.capacity
    ensures u.recentBottom == Without(s.recentBottom, key) && u.frequentBottom == Without(s.frequentBottom, key)
  {
    AdaptOutcome(s, key);
    AdaptLists(s, key);
    var (hit, t) := Adapt(s, key);
    t.frequentTop.PutValid(key, value);
    u := t.(frequentTop := t.frequentTop.Put(key, value));
  }

  /** A ghost comes back as the newest of T2, and one entry makes room for it: T1's oldest or T2's. */
  lemma GhostMoves<K, V>(s: State<K, V>, key: K, value: V)
    requires Valid(s) && GhostHit(s, key) && InsertStep(s, key, value).Done?
    ensures var r, t2, n := InsertStep(s, key, value), s.frequentTop.order + [key], |s.recentTop.order|;
            var t := r.state;
            if n > t.pValue || (n == t.pValue && n > 0 && key in s.frequentBottom)
            then
              && t.recentTop.order == s.recentTop.order[1..] && t.frequentTop.order == t2 && r.evicted == []
              && t.recentBottom == Newest(Without(s.recentBottom, key), s.capacity - 1) + [s.recentTop.order[0]]
              && t.frequentBottom == Without(s.frequentBottom, key)
            else
              && t.recentTop.order == s.recentTop.order && t.frequentTop.order == t2[1..]
              && t.recentBottom == Without(s.recentBottom, key)
              && t.frequentBottom == Without(s.frequentBottom, key) + [t2[0]]
              && |r.evicted| == 1 && r.evicted[0].0 == t2[0]
              && (if t2[0] == key then r.evicted[0].1 == value else Lookup(s, t2[0]) == Some(r.evicted[0].1))
  {
    var u := PlacedGhost(s, key, value);
    ReplaceMoves(u, key in s.frequentBottom);
    ReplaceKeepsTarget(u, key in s.frequentBottom);
  }

  /** A key never seen becomes the newest of T1; only a full cache gives up an entry for it. */
  lemma FreshMoves<K, V>(s: State<K, V>, key: K, value: V)
    requires Valid(s) && InsertStep(s, key, value).Done?
    requires key !in s.recentTop.order && key !in s.frequentTop.order
    requires key !in s.recentBottom && key !in s.frequentBottom
    ensures var r, t1, n := InsertStep(s, key, value), s.recentTop.order + [key], |s.recentTop.order| + 1;
            var t := r.state;
            if n + |s.frequentTop.order| <= s.capacity
            then
              && t.recentTop.order == t1 && t.frequentTop == s.frequentTop && r.evicted == []
              && t.recentBottom == s.recentBottom && t.frequentBottom == s.frequentBottom
            else if n > s.pValue
            then
              && t.recentTop.order == t1[1..] && t.frequentTop == s.frequentTop && r.evicted == []
              && t.recentBottom == Newest(s.recentBottom, s.capacity - 1) + [t1[0]]
              && t.frequentBottom == s.frequentBottom
            else
              && t.recentTop.order == t1 && s.frequentTop.order != []
              && t.frequentTop.order == s.frequentTop.order[1..]
              && t.recentBottom == s.recentBottom
              && t.frequentBottom == s.frequentBottom + [s.frequentTop.order[0]]
              && |r.evicted| == 1 && r.evicted[0].0 == s.frequentTop.order[0]
              && Lookup(s, s.frequentTop.order[0]) == Some(r.evicted[0].1)
  {
    s.recentTop.PutValid(key, value);
    var u := s.(recentTop := s.recentTop.Put(key, value));
    assert u.recentTop.order == s.recentTop.order + [key];
    if |u.recentTop.order| + |u.frequentTop.order| > u.capacity {
      ReplaceMoves(u, false);
    }
  }

  // ---- Runs

  datatype Op<K(==), V> = Insert(key: K, value: V) | Refresh(key: K)

  function Apply<K, V>(s: State<K, V>, op: Op<K, V>): Outcome<K, V>
  {
    match op
    case Insert(key, value) => InsertStep(s, key, value)
    case Refresh(key) => RefreshStep(s, key)
  }

  /** The state after `ops`, if every one of them came back. */
  function Run<K, V>(capacity: nat, ops: seq<Op<K, V>>): Option<State<K, V>>
  {
    if ops == [] then Some(Empty(capacity))
    else
      match Run(capacity, ops[..|ops| - 1])
      case None => None
      case Some(s) =>
        match Apply(s, ops[|ops| - 1])
        case Done(t, _, _) => Some(t)
        case _ => None
  }

  function LastInserted<K(==), V>(ops: seq<Op<K, V>>, key: K): Option<V>
  {
    if ops == [] then None
    else if ops[|ops| - 1].Insert? && ops[|ops| - 1].key == key then Some(ops[|ops| - 1].value)
    else LastInserted(ops[..|ops| - 1], key)
  }

  /** In every run the invariant holds, and every value found is the one inserted last for its key. */
  lemma {:induction false} EveryRun<K, V>(capacity: nat, ops: seq<Op<K, V>>)
    requires Run(capacity, ops).Some?
    ensures Valid(Run(capacity, ops).value) && Run(capacity, ops).value.capacity == capacity
    ensures forall k :: Lookup(Run(capacity, ops).value, k).Some? ==>
                          Lookup(Run(capacity, ops).value, k) == LastInserted(ops, k)
    decreases |ops|
  {
    if ops != [] {
      var n := |ops| - 1;
      EveryRun(capacity, ops[..n]);
      var s := Run(capacity, ops[..n]).value;
      match ops[n] {
        case Insert(key, value) =>
          InsertOutcome(s, key, value);
          forall k
            ensures Lookup(Run(capacity, ops).value, k).Some? ==>
                      Lookup(Run(capacity, ops).value, k) == LastInserted(ops, k)
          {
            InsertValues(s, key, value, k);
          }
          InsertValues(s, key, value, key);
        case Refresh(key) => RefreshOutcome(s, key);
      }
    }
  }

  /** A run stops only at an insertion into one of the two guarded states. */
  lemma RunStopsOnlyAtGuards<K, V>(capacity: nat, ops: seq<Op<K, V>>, op: Op<K, V>)
    requires Run(capacity, ops).Some?
    ensures var s := Run(capacity, ops).value;
            Run(capacity, ops + [op]).None?
            <==> op.Insert? && (DividesByZero(s, op.key) || LoopsForever(s, op.key))
  {
    EveryRun(capacity, ops);
    var s := Run(capacity, ops).value;
    assert (ops + [op])[..|ops|] == ops;
    match op {
      case Insert(key, value) => InsertOutcome(s, key, value);
      case Refresh(key) => RefreshOutcome(s, key);
    }
  }

  lemma RunSnoc<K, V>(capacity: nat, ops: seq<Op<K, V>>, op: Op<K, V>, s: State<K, V>)
    requires Run(capacity, ops) == Some(s) && Apply(s, op).Done?
    ensures Run(capacity, ops + [op]) == Some(Apply(s, op).state)
  {
    assert (ops + [op])[..|ops|] == ops;
  }

  /** The endless loop is reachable: with room for one entry, insert the same new key twice. */
  lemma HangIsReachable<V>(v: V)
    ensures var ops := [] + [Insert(0, v)] + [Refresh(0)] + [Insert(1, v)];
            Run(1, ops).Some? && LoopsForever(Run(1, ops).value, 1)
  {
    var t0 := LinkedMap([0], map[0 := v]);
    var s0: State<int, V> := Empty(1);
    var s1 := State(1, 0, t0, [], LinkedMap([], map[]), []);
    assert Run(1, []) == Some(s0);
    assert Apply(s0, Insert(0, v)) == Done(s1, None, []);
    RunSnoc(1, [], Insert(0, v), s0);
    var s2 := State(1, 0, LinkedMap([], map[]), [], t0, []);
    assert Apply(s1, Refresh(0)) == Done(s2, Some(v), []);
    RunSnoc(1, [] + [Insert(0, v)], Refresh(0), s1);
    var s3 := State(1, 0, LinkedMap([], map[]), [1], t0, []);
    assert Apply(s2, Insert(1, v)) == Done(s3, None, []);
    RunSnoc(1, [] + [Insert(0, v)] + [Refresh(0)], Insert(1, v), s2);
  }

  lemma FourthInsert<V>(v: V, none: LinkedMap<int, V>)
    requires none == LinkedMap([], map[])
    ensures Apply(State(1, 1, LinkedMap([1], map[1 := v]), [], none, [0]), Insert(2, v))
         == Done(State(1, 1, LinkedMap([2], map[2 := v]), [1], none, [0]), None, [])
  {
  }

  /** So is the division by zero, with three keys. */
  lemma ZeroDivisionIsReachable<V>(v: V)
    ensures var ops := [] + [Insert(0, v)] + [Insert(1, v)] + [Insert(0, v)] + [Insert(2, v)];
            Run(1, ops).Some? && DividesByZero(Run(1, ops).value, 0)
  {
    var none: LinkedMap<int, V> := LinkedMap([], map[]);
    var s0 := State(1, 0, none, [], none, []);
    var s1 := State(1, 0, LinkedMap([0], map[0 := v]), [], none, []);
    var s2 := State(1, 0, LinkedMap([1], map[1 := v]), [0], none, []);
    var s3 := State(1, 1, LinkedMap([1], map[1 := v]), [], none, [0]);
    var s4 := State(1, 1, LinkedMap([2], map[2 := v]), [1], none, [0]);
    var ops1 := [] + [Insert(0, v)];
    var ops2 := ops1 + [Insert(1, v)];
    var ops3 := ops2 + [Insert(0, v)];
    assert Apply(s0, Insert(0, v)) == Done(s1, None, []);
    RunSnoc(1, [], Insert(0, v), s0);
    assert Apply(s1, Insert(1, v)) == Done(s2, None, []);
    RunSnoc(1, ops1, Insert(1, v), s1);
    assert Apply(s2, Insert(0, v)) == Done(s3, None, [(0, v)]);
    RunSnoc(1, ops2, Insert(0, v), s2);
    FourthInsert(v, none);
    RunSnoc(1, ops3, Insert(2, v), s3);
  }

  // ---- The ghost list B2 has no bound

  function One<V>(k: int, v: V): LinkedMap<int, V>
  {
    LinkedMap([k], map[k := v])
  }

  function Two<V>(k: int, l: int, v: V): LinkedMap<int, V>
  {
    LinkedMap([k, l], map[k := v, l := v])
  }

  /** Room for two, the target at two, one entry in each of T1 and T2, and `ghosts` in B2. */
  function Full<V>(x: int, y: int, ghosts: seq<int>, v: V): State<int, V>
  {
    State(2, 2, One(x, v), [], One(y, v), ghosts)
  }

  lemma WarmUpThird<V>(a: int, b: int, c: int, v: V, none: LinkedMap<int, V>)
    requires a != b && b != c && a != c && none == LinkedMap([], map[])
    ensures Apply(State(2, 0, Two(a, b, v), [], none, []), Insert(c, v))
         == Done(State(2, 0, Two(b, c, v), [a], none, []), None, [])
  {
    var t := Two(a, b, v).Put(c, v);
    assert t == LinkedMap([a, b, c], map[a := v, b := v, c := v]);
    assert t.Remove(a) == Two(b, c, v);
  }

  lemma WarmUpEvicts<V>(a: int, b: int, c: int, v: V, none: LinkedMap<int, V>)
    requires a != b && b != c && a != c && none == LinkedMap([], map[])
    ensures none.Put(a, v) == One(a, v)
    ensures Replace(State(2, 1, Two(b, c, v), [], One(a, v), []), false)
         == Done(State(2, 1, One(c, v), [b], One(a, v), []), None, [])
  {
    assert Two(b, c, v).Remove(b) == One(c, v);
  }

  lemma WarmUpFourth<V>(a: int, b: int, c: int, v: V, none: LinkedMap<int, V>)
    requires a != b && b != c && a != c && none == LinkedMap([], map[])
    ensures Apply(State(2, 0, Two(b, c, v), [a], none, []), Insert(a, v))
         == Done(State(2, 1, One(c, v), [b], One(a, v), []), None, [])
  {
    assert Adapt(State(2, 0, Two(b, c, v), [a], none, []), a) == (RecentGhost, State(2, 1, Two(b, c, v), [], none, []));
    WarmUpEvicts(a, b, c, v, none);
  }

  lemma WarmUpFifth<V>(a: int, b: int, c: int, v: V)
    requires a != b && b != c && a != c
    ensures Apply(State(2, 1, One(c, v), [b], One(a, v), []), Insert(b, v)) == Done(Full(c, b, [a], v), None, [(a, v)])
  {
    assert One(a, v).Put(b, v) == Two(a, b, v);
    assert Two(a, b, v).Remove(a) == One(b, v);
  }

  /** A refresh and a fresh insertion push one more key into B2. */
  lemma OneMoreGhost<V>(x: int, y: int, z: int, ghosts: seq<int>, v: V, none: LinkedMap<int, V>)
    requires x != y && y != z && x != z && x !in ghosts && y !in ghosts && z !in ghosts && none == LinkedMap([], map[])
    ensures Apply(Full(x, y, ghosts, v), Refresh(x)) == Done(State(2, 2, none, [], Two(y, x, v), ghosts), Some(v), [])
    ensures Apply(State(2, 2, none, [], Two(y, x, v), ghosts), Insert(z, v))
         == Done(Full(z, x, ghosts + [y], v), None, [(y, v)])
  {
    assert One(x, v).Remove(x) == none && One(y, v).Put(x, v) == Two(y, x, v);
    assert none.Put(z, v) == One(z, v);
    assert Two(y, x, v).Remove(y) == One(x, v);
  }

  function UpTo(n: nat): (s: seq<int>)
    ensures |s| == n && forall k :: k in s <==> 0 <= k < n
  {
    if n == 0 then [] else UpTo(n - 1) + [n - 1]
  }

  lemma WarmUp<V>(v: V) returns (ops: seq<Op<int, V>>)
    ensures Run(2, ops) == Some(Full(2, 1, UpTo(1), v))
  {
    var none: LinkedMap<int, V> := LinkedMap([], map[]);
    assert none.Put(0, v) == One(0, v) && One(0, v).Put(1, v) == Two(0, 1, v);
    ops := [] + [Insert(0, v)];
    RunSnoc(2, [], Insert(0, v), Empty(2));
    RunSnoc(2, ops, Insert(1, v), State(2, 0, One(0, v), [], none, []));
    ops := ops + [Insert(1, v)];
    WarmUpThird(0, 1, 2, v, none);
    RunSnoc(2, ops, Insert(2, v), State(2, 0, Two(0, 1, v), [], none, []));
    ops := ops + [Insert(2, v)];
    WarmUpFourth(0, 1, 2, v, none);
    RunSnoc(2, ops, Insert(0, v), State(2, 0, Two(1, 2, v), [0], none, []));
    ops := ops + [Insert(0, v)];
    WarmUpFifth(0, 1, 2, v);
    RunSnoc(2, ops, Insert(1, v), State(2, 1, One(2, v), [1], One(0, v), []));
    ops := ops + [Insert(1, v)];
    assert UpTo(1) == [0];
  }

  /** For every `n` some run with room for two entries fills B2 with more than `n` keys. */
  lemma {:induction false} GhostsAreUnbounded<V>(n: nat, v: V) returns (ops: seq<Op<int, V>>)
    ensures Run(2, ops) == Some(Full(n + 2, n + 1, UpTo(n + 1), v))
    ensures |Run(2, ops).value.frequentBottom| == n + 1
  {
    if n == 0 {
      ops := WarmUp(v);
    } else {
      ops := GhostsAreUnbounded(n - 1, v);
      var none: LinkedMap<int, V> := LinkedMap([], map[]);
      OneMoreGhost(n + 1, n, n + 2, UpTo(n), v, none);
      RunSnoc(2, ops, Refresh(n + 1), Full(n + 1, n, UpTo(n), v));
      ops := ops + [Refresh(n + 1)];
      RunSnoc(2, ops, Insert(n + 2, v), State(2, 2, none, [], Two(n, n + 1, v), UpTo(n)));
      ops := ops + [Insert(n + 2, v)];
    }
  }

  // ---- The cache as it runs

  class Cache<K(==), V> {
    const capacity: nat
    var pValue: nat
    var recentTop: LinkedMap<K, V>
    var recentBottom: seq<K>
    var frequentTop: LinkedMap<K, V>
    var frequentBottom: seq<K>

    function Now(): State<K, V>
      reads this
    {
      State(capacity, pValue, recentTop, recentBottom, frequentTop, frequentBottom)
    }

    constructor (capacity: nat)
      ensures Now() == Empty(capacity)
    {
      this.capacity, pValue := capacity, 0;
      recentTop, recentBottom := LinkedMap([], map[]), [];
      frequentTop, frequentBottom := LinkedMap([], map[]), [];
    }

    /** The oldest key of T1 goes to B1, which first drops its oldest keys to make room. */
    method EvictRecent()
      requires capacity > 0 && recentTop.order != []
      modifies this`recentTop, this`recentBottom
      ensures var k := old(recentTop).order[0];
              && recentTop == old(recentTop).Remove(k)
              && recentBottom == Newest(old(recentBottom), capacity - 1) + [k]
    {
      var k := recentTop.order[0];
      recentTop := recentTop.Remove(k);
      while capacity <= |recentBottom|
        modifies this`recentBottom
        invariant Newest(recentBottom, capacity - 1) == old(Newest(recentBottom, capacity - 1))
      {
        recentBottom := recentBottom[1..];
      }
      recentBottom := recentBottom + [k];
    }

    /**
     * The oldest entry of T2 goes to B2. The loop that should make room there shortens B2 but tests
     * the length of T2: false means that it would never end.
     */
    method EvictFrequent() returns (ends: bool, k: K, v: V)
      requires frequentTop.order != [] && frequentTop.order[0] in frequentTop.vals
      modifies this`frequentTop, this`frequentBottom
      ensures k == old(frequentTop).order[0] && v == old(frequentTop).vals[k]
      ensures frequentTop == old(frequentTop).Remove(k) && (ends <==> |frequentTop.order| < capacity)
      ensures ends ==> frequentBottom == Without(old(frequentBottom), k) + [k]
    {
      k := frequentTop.order[0];
      v := frequentTop.vals[k];
      frequentTop := frequentTop.Remove(k);
      if capacity <= |frequentTop.order| {
        return false, k, v;
      }
      frequentBottom := Without(frequentBottom, k) + [k];
      return true, k, v;
    }

    /** `evicted` collects what falls out of T2; what falls out of T1 is not reported. */
    method ReplaceHelper(wasInBottom: bool, evicted: seq<(K, V)>) returns (r: Outcome<K, V>)
      requires recentTop.Valid() && frequentTop.Valid()
      requires forall k :: k in recentTop.order ==> k !in recentBottom
      modifies this
      ensures var o := old(Replace(Now(), wasInBottom));
              && (o.Done? <==> r.Done?) && (o.Hangs? <==> r.Hangs?)
              && (o.Done? ==> Now() == o.state && r == Done(Now(), None, evicted + o.evicted))
    {
      var operateOnRecent := false;
      if |recentTop.order| > pValue {
        operateOnRecent := true;
      } else if |recentTop.order| == pValue && recentTop.order != [] {
        operateOnRecent := wasInBottom;
      }
      if operateOnRecent {
        if capacity == 0 {
          return Hangs;
        }
        EvictRecent();
        return Done(Now(), None, evicted + []);
      }
      if frequentTop.order == [] {
        return Panics;
      }
      assert frequentTop.order[0] in frequentTop.vals;
      var ends, k, v := EvictFrequent();
      if !ends {
        return Hangs;
      }
      return Done(Now(), None, evicted + [(k, v)]);
    }

    method GetNoRefresh(key: K) returns (r: Option<V>)
      ensures r == Lookup(Now(), key)
    {
      if key in frequentTop.vals {
        return Some(frequentTop.vals[key]);
      }
      return if key in recentTop.vals then Some(recentTop.vals[key]) else None;
    }

    /** The `unreachable!` branch is never taken. */
    method GetRefresh(key: K) returns (r: Option<V>)
      requires Valid(Now())
      modifies this
      ensures Valid(Now()) && Now() == old(RefreshStep(Now(), key)).state
      ensures r == old(Lookup(Now(), key))
    {
      RefreshOutcome(Now(), key);
      if key in recentTop.vals {
        var v := recentTop.vals[key];
        recentTop := recentTop.Remove(key);
        assert key !in frequentTop.vals;
        frequentTop := frequentTop.Put(key, v);
        return Some(v);
      }
      if key in frequentTop.vals {
        var v := frequentTop.vals[key];
        frequentTop := frequentTop.Put(key, v);
        return Some(v);
      }
      return None;
    }

    /** The ghost lists and the target, before the new value is placed. */
    method AdaptTo(key: K) returns (hit: Hit)
      modifies this
      ensures hit == old(Adapt(Now(), key)).0
      ensures !hit.ZeroDivision? ==> Now() == old(Adapt(Now(), key)).1
    {
      if key in frequentBottom {
        frequentBottom := Without(frequentBottom, key);
        if |recentBottom| > |frequentBottom| && |frequentBottom| == 0 {
          return ZeroDivision;
        }
        var d := if |recentBottom| <= |frequentBottom| then 1 else |recentBottom| / |frequentBottom|;
        if d <= pValue {
          pValue := pValue - d;
        } else {
          pValue := 0;
        }
        return FrequentGhost;
      } else if key in recentBottom {
        recentBottom := Without(recentBottom, key);
        if |frequentBottom| > |recentBottom| && |recentBottom| == 0 {
          return ZeroDivision;
        }
        var d := if |frequentBottom| <= |recentBottom| then 1 else |frequentBottom| / |recentBottom|;
        pValue := pValue + d;
        if capacity < pValue {
          pValue := capacity;
        }
        return RecentGhost;
      }
      return NoHit;
    }

    method PlaceNew(key: K, value: V, evicted: seq<(K, V)>) returns (r: Outcome<K, V>)
      requires Valid(Now()) && key !in recentTop.vals && key !in frequentTop.vals
      modifies this
      ensures var o := old(InsertNew(Now(), key, value));
              && (o.Done? <==> r.Done?) && (o.Hangs? <==> r.Hangs?)
              && (o.Done? ==> Now() == o.state && r == Done(Now(), None, evicted + o.evicted))
    {
      if GhostHit(Now(), key) {
        AdaptOutcome(Now(), key);
      }
      var hit := AdaptTo(key);
      if hit.ZeroDivision? {
        return Panics;
      }
      var injectFrequent := !hit.NoHit?;
      if injectFrequent {
        frequentTop.PutValid(key, value);
        frequentTop := frequentTop.Put(key, value);
      } else {
        recentTop.PutValid(key, value);
        recentTop := recentTop.Put(key, value);
      }
      if |recentTop.order| + |frequentTop.order| > capacity || injectFrequent {
        r := ReplaceHelper(hit.FrequentGhost?, evicted);
      } else {
        r := Done(Now(), None, evicted + []);
      }
    }

    method Insert(key: K, value: V, evicted: seq<(K, V)>) returns (r: Outcome<K, V>)
      requires Valid(Now())
      modifies this
      ensures r.Panics? <==> old(DividesByZero(Now(), key))
      ensures r.Hangs? <==> old(LoopsForever(Now(), key))
      ensures var o := old(InsertStep(Now(), key, value));
              r.Done? ==> o.Done? && Now() == o.state && Valid(Now())
                          && r.previous == o.previous && r.evicted == evicted + o.evicted
      ensures r.Done? ==> pValue == old(TargetAfter(Now(), key))
    {
      InsertOutcome(Now(), key, value);
      if InsertStep(Now(), key, value).Done? {
        TargetMoves(Now(), key, value);
      }
      if key in recentTop.vals {
        var was := recentTop.vals[key];
        recentTop := recentTop.Put(key, value);
        return Done(Now(), Some(was), evicted + []);
      }
      if key in frequentTop.vals {
        var was := frequentTop.vals[key];
        frequentTop := frequentTop.Put(key, value);
        return Done(Now(), Some(was), evicted + []);
      }
      r := PlaceNew(key, value, evicted);
    }
  }
}
