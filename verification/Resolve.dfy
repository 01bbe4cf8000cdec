/** Resolving a deployment template into a manifest (linker/src/cmdlet/create_release.rs). */
module Resolve {
  import opened Bytes
  import opened SortedMap
  import R = Registry

  type Name = seq<byte>

  /** A package and the versions of it that are acceptable. */
  datatype Requirement = Requirement(package: Name, versions: R.Version -> bool)

  /** What the registry knows of one version. */
  datatype Found = Found(version: R.Version, requires_: seq<Name>)

  datatype ServiceId = ServiceId(package: Name, service: Name)

  datatype Template = Template(publicServices: seq<Name>, implementations: map<Name, Requirement>)

  datatype Component = Component(package: Name, version: R.Version, requiredServices: seq<ServiceId>)

  datatype Manifest = Manifest(publicServices: seq<ServiceId>, components: seq<Entry<Component>>)

  datatype Result = Ok(manifest: Manifest) | MissingService(name: Name) | NoEntry(package: Name)

  type Lookup = Requirement -> Option<Found>

  // ---- Reachability

  predicate Implemented(t: Template, find: Lookup, s: Name)
  {
    s in t.implementations && find(t.implementations[s]).Some?
  }

  function Requires(t: Template, find: Lookup, s: Name): seq<Name>
  {
    if Implemented(t, find, s) then find(t.implementations[s]).value.requires_ else []
  }

  /** A chain of requirements that starts at a public service. */
  ghost predicate Chain(t: Template, find: Lookup, path: seq<Name>)
  {
    && path != [] && path[0] in t.publicServices
    && forall i :: 0 < i < |path| ==> path[i] in Requires(t, find, path[i - 1])
  }

  ghost predicate Reachable(t: Template, find: Lookup, s: Name)
  {
    exists path :: Chain(t, find, path) && path[|path| - 1] == s
  }

  lemma PublicIsReachable(t: Template, find: Lookup, s: Name)
    requires s in t.publicServices
    ensures Reachable(t, find, s)
  {
    assert Chain(t, find, [s]) && [s][|[s]| - 1] == s;
  }

  lemma RequiredIsReachable(t: Template, find: Lookup, s: Name, r: Name)
    requires Reachable(t, find, s) && r in Requires(t, find, s)
    ensures Reachable(t, find, r)
  {
    var path :| Chain(t, find, path) && path[|path| - 1] == s;
    var longer := path + [r];
    assert Chain(t, find, longer) && longer[|longer| - 1] == r;
  }

  /** A set that holds the public services and all that its members require holds everything reachable. */
  lemma {:induction false} ClosedHoldsChain(t: Template, find: Lookup, done: set<Name>, path: seq<Name>)
    requires Chain(t, find, path)
    requires forall s :: s in t.publicServices ==> s in done
    requires forall s, r :: s in done && r in Requires(t, find, s) ==> r in done
    ensures path[|path| - 1] in done
    decreases |path|
  {
    var n := |path| - 1;
    if n > 0 {
      ClosedHoldsChain(t, find, done, path[..n]);
    }
  }

  // ---- Components

  function KeySet<V>(es: seq<Entry<V>>): set<Name>
  {
    set i | 0 <= i < |es| :: es[i].key
  }

  lemma KeySetMember<V>(es: seq<Entry<V>>, k: Name)
    ensures k in KeySet(es) <==> exists e :: e in es && e.key == k
  {
    if k in KeySet(es) {
      var i :| 0 <= i < |es| && es[i].key == k;
      assert es[i] in es;
    }
    if exists e :: e in es && e.key == k {
      var e :| e in es && e.key == k;
      var i :| 0 <= i < |es| && es[i] == e;
    }
  }

  lemma KeySetInsert<V>(es: seq<Entry<V>>, k: Name, v: V)
    requires Increasing(es) && k !in KeySet(es)
    ensures KeySet(Insert(es, k, v)) == KeySet(es) + {k}
    ensures forall e :: e in Insert(es, k, v) ==> e in es || e == Entry(k, v)
  {
    forall e
      ensures e in Insert(es, k, v) <==> e == Entry(k, v) || (e in es && e.key != k)
    {
      InsertMembers(es, k, v, e);
    }
    forall x
      ensures x in KeySet(Insert(es, k, v)) <==> x in KeySet(es) + {k}
    {
      KeySetMember(Insert(es, k, v), x);
      KeySetMember(es, x);
      assert Entry(k, v) in Insert(es, k, v);
      if x != k && x in KeySet(es) {
        var e :| e in es && e.key == x;
        assert e in Insert(es, k, v);
      }
    }
  }

  /** The component that deploys service `s`. */
  function ComponentOf(t: Template, find: Lookup, s: Name): Component
    requires Implemented(t, find, s)
    requires forall r :: r in Requires(t, find, s) ==> r in t.implementations
  {
    var found := find(t.implementations[s]).value;
    Component(t.implementations[s].package, found.version,
              seq(|found.requires_|, i requires 0 <= i < |found.requires_| =>
                assert found.requires_[i] in Requires(t, find, s);
                ServiceId(t.implementations[found.requires_[i]].package, found.requires_[i])))
  }

  ghost predicate SoundEntry(t: Template, find: Lookup, e: Entry<Component>)
  {
    && Reachable(t, find, e.key) && Implemented(t, find, e.key)
    && (forall r :: r in Requires(t, find, e.key) ==> r in t.implementations)
    && e.value == ComponentOf(t, find, e.key)
  }

  /** What a finished or unfinished resolution may contain. */
  ghost predicate Sound(t: Template, find: Lookup, resolved: seq<Entry<Component>>)
  {
    Increasing(resolved) && forall e :: e in resolved ==> SoundEntry(t, find, e)
  }

  ghost predicate QueueReachable(t: Template, find: Lookup, queue: seq<Name>)
  {
    forall s :: s in queue ==> Reachable(t, find, s)
  }

  /** Everything still owed, given the services done, is in the queue. */
  ghost predicate Covered(t: Template, find: Lookup, done: set<Name>, queue: seq<Name>)
  {
    && (forall s :: s in t.publicServices ==> s in done || s in queue)
    && (forall s, r :: s in done && r in Requires(t, find, s) ==> r in done || r in queue)
  }

  ghost predicate AllImplemented(t: Template, find: Lookup)
  {
    forall s :: Reachable(t, find, s) ==> Implemented(t, find, s)
  }

  /** `m` deploys each reachable service once, as `ComponentOf` says, and nothing else. */
  ghost predicate Deploys(t: Template, find: Lookup, m: Manifest)
  {
    && |m.publicServices| == |t.publicServices|
    && (forall i :: 0 <= i < |t.publicServices| ==>
          t.publicServices[i] in t.implementations
          && m.publicServices[i] == ServiceId(t.implementations[t.publicServices[i]].package, t.publicServices[i]))
    && Sound(t, find, m.components)
    && (forall s :: Reachable(t, find, s) <==> s in KeySet(m.components))
  }

  lemma NotImplemented(t: Template, find: Lookup, s: Name)
    requires Reachable(t, find, s) && !Implemented(t, find, s)
    ensures !AllImplemented(t, find)
  {
  }

  /** The public services, each with the package that implements it. */
  method ResolvePublic(t: Template, ghost find: Lookup) returns (r: Option<seq<ServiceId>>, missing: Name)
    ensures r.None? ==> !AllImplemented(t, find) && missing in t.publicServices && missing !in t.implementations
    ensures r.Some? ==>
              && |r.value| == |t.publicServices|
              && forall i :: 0 <= i < |t.publicServices| ==>
                   t.publicServices[i] in t.implementations
                   && r.value[i] == ServiceId(t.implementations[t.publicServices[i]].package, t.publicServices[i])
  {
    var out := [];
    missing := [];
    for i := 0 to |t.publicServices|
      invariant |out| == i
      invariant forall j :: 0 <= j < i ==>
                  t.publicServices[j] in t.implementations
                  && out[j] == ServiceId(t.implementations[t.publicServices[j]].package, t.publicServices[j])
    {
      var ps := t.publicServices[i];
      if ps !in t.implementations {
        PublicIsReachable(t, find, ps);
        NotImplemented(t, find, ps);
        return None, ps;
      }
      out := out + [ServiceId(t.implementations[ps].package, ps)];
    }
    return Some(out), missing;
  }

  /** The packages of a component's required services; the error names the requiring service. */
  method ResolveRequired(t: Template, ghost find: Lookup, s: Name, requires_: seq<Name>)
    returns (r: Option<seq<ServiceId>>)
    requires Implemented(t, find, s) && Reachable(t, find, s) && requires_ == Requires(t, find, s)
    ensures r.None? ==> !AllImplemented(t, find) && exists q :: q in requires_ && q !in t.implementations
    ensures r.Some? ==>
              && (forall q :: q in requires_ ==> q in t.implementations)
              && r.value == ComponentOf(t, find, s).requiredServices
  {
    var out := [];
    for i := 0 to |requires_|
      invariant |out| == i
      invariant forall j :: 0 <= j < i ==>
                  requires_[j] in t.implementations
                  && out[j] == ServiceId(t.implementations[requires_[j]].package, requires_[j])
    {
      var rls := requires_[i];
      if rls !in t.implementations {
        RequiredIsReachable(t, find, s, rls);
        NotImplemented(t, find, rls);
        return None;
      }
      out := out + [ServiceId(t.implementations[rls].package, rls)];
    }
    return Some(out);
  }

  lemma StepKeepsQueue(t: Template, find: Lookup, queue: seq<Name>)
    requires queue != [] && QueueReachable(t, find, queue)
    ensures QueueReachable(t, find, queue[1..] + Requires(t, find, queue[0]))
  {
    forall r | r in Requires(t, find, queue[0])
      ensures Reachable(t, find, r)
    {
      RequiredIsReachable(t, find, queue[0], r);
    }
  }

  lemma StepKeepsCover(t: Template, find: Lookup, done: set<Name>, queue: seq<Name>, required: seq<Name>)
    requires queue != [] && Covered(t, find, done, queue) && required == Requires(t, find, queue[0])
    ensures Covered(t, find, done + {queue[0]}, queue[1..] + required)
  {
    assert queue == [queue[0]] + queue[1..];
  }

  lemma SkipKeepsCover(t: Template, find: Lookup, done: set<Name>, queue: seq<Name>)
    requires queue != [] && queue[0] in done && Covered(t, find, done, queue) && QueueReachable(t, find, queue)
    ensures Covered(t, find, done, queue[1..]) && QueueReachable(t, find, queue[1..])
  {
    assert queue == [queue[0]] + queue[1..];
  }

  lemma StepKeepsSound(t: Template, find: Lookup, resolved: seq<Entry<Component>>, e: Entry<Component>)
    requires Sound(t, find, resolved) && e.key !in KeySet(resolved) && SoundEntry(t, find, e)
    ensures Sound(t, find, Insert(resolved, e.key, e.value))
    ensures KeySet(Insert(resolved, e.key, e.value)) == KeySet(resolved) + {e.key}
  {
    InsertKeepsOrder(resolved, e.key, e.value);
    KeySetInsert(resolved, e.key, e.value);
  }

  lemma FinishedDeploys(t: Template, find: Lookup, m: Manifest)
    requires Sound(t, find, m.components) && Covered(t, find, KeySet(m.components), [])
    ensures forall s :: Reachable(t, find, s) <==> s in KeySet(m.components)
    ensures AllImplemented(t, find)
  {
    forall s
      ensures Reachable(t, find, s) <==> s in KeySet(m.components)
    {
      if Reachable(t, find, s) {
        var path :| Chain(t, find, path) && path[|path| - 1] == s;
        ClosedHoldsChain(t, find, KeySet(m.components), path);
      }
      KeySetMember(m.components, s);
    }
    forall s | Reachable(t, find, s)
      ensures Implemented(t, find, s)
    {
      KeySetMember(m.components, s);
    }
  }

  /** What an error says: a reachable service without implementation, or requiring one, or without an entry. */
  ghost predicate Explains(t: Template, find: Lookup, r: Result)
    requires !r.Ok?
  {
    match r
    case MissingService(s) =>
      Reachable(t, find, s)
      && (s !in t.implementations || exists q :: q in Requires(t, find, s) && q !in t.implementations)
    case NoEntry(package) =>
      exists s :: Reachable(t, find, s) && s in t.implementations && t.implementations[s].package == package
                  && find(t.implementations[s]).None?
  }

  // ---- The registries

  type Known = seq<R.Stored<seq<Name>>>

  /**
   * Where entries come from: the in-memory map, or a directory that is listed for a package and from
   * which the entry of one version is then loaded. Both of these may fail.
   */
  datatype Registry =
    | Memory(known: Known)
    | Directory(list: Name -> Option<seq<R.Version>>, load: (Name, R.Version) -> Option<seq<Name>>)

  /** The in-memory map is kept in key order. */
  ghost predicate Valid(reg: Registry)
  {
    reg.Memory? ==> R.Ordered(reg.known)
  }

  /** What the registry finds. */
  function FoundIn(reg: Registry): Lookup
  {
    match reg
    case Memory(known) =>
      ((q: Requirement) =>
        match R.LastMatch(known, q.package, q.versions)
        case None => None
        case Some(w) => Some(Found(known[w].version, known[w].entry)))
    case Directory(list, load) =>
      ((q: Requirement) =>
        if list(q.package).None? then None
        else match R.Greatest(list(q.package).value, q.versions)
          case None => None
          case Some(v) => if load(q.package, v).None? then None else Some(Found(v, load(q.package, v).value)))
  }

  /**
   * The registry has an acceptable version of the package: in memory one stored at or above 0.0.0, in a
   * directory any that is listed, if the entry of the greatest of them can be loaded.
   */
  ghost predicate Offers(reg: Registry, q: Requirement)
  {
    match reg
    case Memory(known) =>
      exists j :: 0 <= j < |known| && R.Candidate(known[j], q.package, q.versions)
                  && !R.VersionLess(known[j].version, R.ZERO)
    case Directory(list, load) =>
      && list(q.package).Some?
      && (exists v :: v in list(q.package).value && q.versions(v))
      && forall v :: R.IsGreatest(list(q.package).value, q.versions, v) ==> load(q.package, v).Some?
  }

  /** Service `s` is implemented by a package that the registry offers. */
  ghost predicate Available(t: Template, reg: Registry, s: Name)
  {
    s in t.implementations && Offers(reg, t.implementations[s])
  }

  lemma OffersIsFound(reg: Registry, q: Requirement)
    requires Valid(reg)
    ensures FoundIn(reg)(q).Some? <==> Offers(reg, q)
  {
    match reg {
      case Memory(known) => R.LastMatchIsBest(known, q.package, q.versions);
      case Directory(list, load) =>
        if list(q.package).Some? {
          var versions := list(q.package).value;
          R.GreatestIsGreatest(versions, q.versions);
          var v := R.Greatest(versions, q.versions);
          if v.Some? {
            forall u | R.IsGreatest(versions, q.versions, u)
              ensures u == v.value
            {
              R.GreatestIsUnique(versions, q.versions, u, v.value);
            }
          }
        }
    }
  }

  lemma AllAvailable(t: Template, reg: Registry)
    requires Valid(reg)
    ensures AllImplemented(t, FoundIn(reg))
       <==> forall s :: Reachable(t, FoundIn(reg), s) ==> Available(t, reg, s)
  {
    forall s | s in t.implementations
      ensures Implemented(t, FoundIn(reg), s) <==> Available(t, reg, s)
    {
      OffersIsFound(reg, t.implementations[s]);
    }
  }

  /** `c` requires `services`, each from the package that implements it. */
  predicate RequiresOnly(t: Template, c: Component, services: seq<Name>)
  {
    && |c.requiredServices| == |services|
    && forall i :: 0 <= i < |services| ==>
         services[i] in t.implementations
         && c.requiredServices[i] == ServiceId(t.implementations[services[i]].package, services[i])
  }

  /** `c` is the package of `q` at its greatest acceptable version, with that version's requirements. */
  ghost predicate AtGreatest(t: Template, reg: Registry, q: Requirement, c: Component)
  {
    && c.package == q.package
    && match reg
       case Memory(known) =>
         exists w: nat :: R.Best(known, q.package, q.versions, w) && known[w].version == c.version
                          && RequiresOnly(t, c, known[w].entry)
       case Directory(list, load) =>
         && list(q.package).Some? && R.IsGreatest(list(q.package).value, q.versions, c.version)
         && load(q.package, c.version).Some? && RequiresOnly(t, c, load(q.package, c.version).value)
  }

  /** Every deployed component is at the greatest version that its requirement accepts. */
  lemma DeploysGreatestVersions(t: Template, reg: Registry, m: Manifest, e: Entry<Component>)
    requires Valid(reg) && Deploys(t, FoundIn(reg), m) && e in m.components
    ensures e.key in t.implementations && AtGreatest(t, reg, t.implementations[e.key], e.value)
  {
    assert SoundEntry(t, FoundIn(reg), e);
    var q := t.implementations[e.key];
    match reg {
      case Memory(known) =>
        R.LastMatchIsBest(known, q.package, q.versions);
        var w := R.LastMatch(known, q.package, q.versions).value;
        assert R.Best(known, q.package, q.versions, w) && RequiresOnly(t, e.value, known[w].entry);
      case Directory(list, load) => R.GreatestIsGreatest(list(q.package).value, q.versions);
    }
  }

  /** The directory holds the same entries of a package as the in-memory map. */
  ghost predicate SameEntries(known: Known, reg: Registry, package: Name)
    requires reg.Directory?
  {
    && reg.list(package).Some?
    && (forall v :: v in reg.list(package).value <==>
          exists j :: 0 <= j < |known| && known[j].package == package && known[j].version == v)
    && forall j :: 0 <= j < |known| && known[j].package == package ==>
         reg.load(package, known[j].version) == Some(known[j].entry)
  }

  lemma BestIsGreatest(known: Known, reg: Registry, q: Requirement, w: nat)
    requires reg.Directory? && SameEntries(known, reg, q.package)
    ensures R.Best(known, q.package, q.versions, w) ==>
              R.IsGreatest(reg.list(q.package).value, q.versions, known[w].version)
  {
  }

  /**
   * The two registries find the same entry, unless every acceptable version is below 0.0.0: then the
   * directory finds one and the in-memory map does not.
   */
  lemma RegistriesAgree(known: Known, reg: Registry, q: Requirement)
    requires R.Ordered(known) && reg.Directory? && SameEntries(known, reg, q.package)
    ensures FoundIn(reg)(q).Some? <==> exists j :: 0 <= j < |known| && R.Candidate(known[j], q.package, q.versions)
    ensures FoundIn(Memory(known))(q) == FoundIn(reg)(q) <==>
              ((exists j :: 0 <= j < |known| && R.Candidate(known[j], q.package, q.versions)) ==>
                 exists j :: 0 <= j < |known| && R.Candidate(known[j], q.package, q.versions)
                             && !R.VersionLess(known[j].version, R.ZERO))
  {
    var versions := reg.list(q.package).value;
    R.LastMatchIsBest(known, q.package, q.versions);
    R.GreatestIsGreatest(versions, q.versions);
    var v := R.Greatest(versions, q.versions);
    if v.Some? {
      var j :| 0 <= j < |known| && known[j].package == q.package && known[j].version == v.value;
      assert R.Candidate(known[j], q.package, q.versions);
    } else {
      forall j | 0 <= j < |known| && known[j].package == q.package
        ensures !R.Candidate(known[j], q.package, q.versions)
      {
        assert known[j].version in versions;
      }
    }
    var w := R.LastMatch(known, q.package, q.versions);
    if w.Some? {
      BestIsGreatest(known, reg, q, w.value);
      R.GreatestIsUnique(versions, q.versions, v.value, known[w.value].version);
    }
  }

  /** `find_best_entry_for_version` of either registry. */
  method FindEntry(reg: Registry, q: Requirement) returns (found: Option<Found>)
    requires Valid(reg)
    ensures found == FoundIn(reg)(q)
  {
    match reg {
      case Memory(known) =>
        var winner := R.FindBestInMemory(known, q.package, q.versions);
        if winner.None? {
          return None;
        }
        return Some(Found(known[winner.value].version, known[winner.value].entry));
      case Directory(list, load) =>
        var versions := list(q.package);
        if versions.None? {
          return None;
        }
        var winner := R.FindBestInDirectory(versions.value, q.versions);
        if winner.None? {
          return None;
        }
        var entry := load(q.package, winner.value);
        if entry.None? {
          return None;
        }
        return Some(Found(winner.value, entry.value));
    }
  }

  lemma Shrinks(all: set<Name>, done: set<Name>, s: Name)
    requires s in all && s !in done
    ensures |all - (done + {s})| < |all - done|
  {
    assert all - done == (all - (done + {s})) + {s};
  }

  method RunWorklist(t: Template, reg: Registry, ghost find: Lookup) returns (r: Result)
    requires Valid(reg) && find == FoundIn(reg)
    ensures r.Ok? <==> AllImplemented(t, find)
    ensures r.Ok? ==> Deploys(t, find, r.manifest)
    ensures !r.Ok? ==> Explains(t, find, r)
  {
    var publicServices, missing := ResolvePublic(t, find);
    if publicServices.None? {
      PublicIsReachable(t, find, missing);
      return MissingService(missing);
    }
    var queue := t.publicServices;
    var resolved: seq<Entry<Component>> := [];
    forall s | s in queue
      ensures Reachable(t, find, s)
    {
      PublicIsReachable(t, find, s);
    }
    while queue != []
      invariant Sound(t, find, resolved)
      invariant QueueReachable(t, find, queue) && Covered(t, find, KeySet(resolved), queue)
      decreases |t.implementations.Keys - KeySet(resolved)|, |queue|
    {
      var ps := queue[0];
      if ps in KeySet(resolved) {
        SkipKeepsCover(t, find, KeySet(resolved), queue);
        queue := queue[1..];
        continue;
      }
      if ps !in t.implementations {
        NotImplemented(t, find, ps);
        return MissingService(ps);
      }
      var q := t.implementations[ps];
      var entry := FindEntry(reg, q);
      if entry.None? {
        NotImplemented(t, find, ps);
        return NoEntry(q.package);
      }
      var found := entry.value;
      var required := ResolveRequired(t, find, ps, found.requires_);
      if required.None? {
        return MissingService(ps);
      }
      var c := Component(q.package, found.version, required.value);
      StepKeepsSound(t, find, resolved, Entry(ps, c));
      StepKeepsQueue(t, find, queue);
      StepKeepsCover(t, find, KeySet(resolved), queue, found.requires_);
      Shrinks(t.implementations.Keys, KeySet(resolved), ps);
      queue := queue[1..] + found.requires_;
      resolved := Insert(resolved, ps, c);
    }
    var m := Manifest(publicServices.value, resolved);
    FinishedDeploys(t, find, m);
    return Ok(m);
  }

  /**
   * The worklist, over either registry. Requirements may be cyclic: it ends because each turn resolves
   * another implementation or shortens the queue. It succeeds exactly when everything reachable is
   * implemented and offered, and then every component is at the greatest version.
   */
  method ResolveTemplate(t: Template, reg: Registry) returns (r: Result)
    requires Valid(reg)
    ensures r.Ok? <==> forall s :: Reachable(t, FoundIn(reg), s) ==> Available(t, reg, s)
    ensures r.Ok? ==> Deploys(t, FoundIn(reg), r.manifest)
    ensures r.Ok? ==> forall e :: e in r.manifest.components ==>
                        e.key in t.implementations && AtGreatest(t, reg, t.implementations[e.key], e.value)
    ensures !r.Ok? ==> Explains(t, FoundIn(reg), r)
  {
    AllAvailable(t, reg);
    r := RunWorklist(t, reg, FoundIn(reg));
    if r.Ok? {
      forall e | e in r.manifest.components
        ensures e.key in t.implementations && AtGreatest(t, reg, t.implementations[e.key], e.value)
      {
        DeploysGreatestVersions(t, reg, r.manifest, e);
      }
    }
  }
}
