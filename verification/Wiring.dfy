/** Turning a manifest into running instances with paired descriptors (linker/src/cmdlet/run.rs). */
module Wiring {
  import opened Bytes
  import opened Resolve
  import SortedMap
  import R = Registry

  /** Instance identifiers never repeat, so the i-th one made stands for itself as i. */
  type Uuid = nat

  datatype Direction = ServingListening | ServingConnected | Consuming

  datatype Remote = Socket | SideCar(instance: Uuid, package: Name, version: R.Version)

  datatype Descriptor = Descriptor(direction: Direction, service: Name, remote: Remote)

  /** A component as deployed: what it is, and whether its image is a container. */
  datatype Deployed = Deployed(component: Component, isContainer: bool)

  /** The descriptors of each instance, in the order they were added. */
  type Files = map<Uuid, seq<Descriptor>>

  datatype WireResult = Wired(files: Files) | UnknownPackage(package: Name) | UnknownInstance(instance: Uuid)

  /** One required service of one instance. */
  datatype Edge = Edge(consumer: Uuid, service: ServiceId)

  // ---- What wiring should add

  /** The instance started last for a package serves it. */
  function Provider(cs: seq<Deployed>, package: Name): Option<Uuid>
  {
    if cs == [] then None
    else if cs[|cs| - 1].component.package == package then Some(|cs| - 1)
    else Provider(cs[..|cs| - 1], package)
  }

  lemma {:induction false} ProviderServes(cs: seq<Deployed>, package: Name)
    ensures Provider(cs, package).Some? ==>
              Provider(cs, package).value < |cs| && cs[Provider(cs, package).value].component.package == package
              && forall i :: Provider(cs, package).value < i < |cs| ==> cs[i].component.package != package
    ensures Provider(cs, package).None? <==> forall i :: 0 <= i < |cs| ==> cs[i].component.package != package
    decreases |cs|
  {
    if cs != [] {
      ProviderServes(cs[..|cs| - 1], package);
    }
  }

  function Info(cs: seq<Deployed>, id: Uuid): Remote
    requires id < |cs|
  {
    SideCar(id, cs[id].component.package, cs[id].component.version)
  }

  /** The descriptors that `edge` puts at instance `id`. */
  function EdgeAt(cs: seq<Deployed>, edge: Edge, id: Uuid): multiset<Descriptor>
    requires edge.consumer < |cs|
  {
    match Provider(cs, edge.service.package)
    case None => multiset{}
    case Some(provider) =>
      ProviderServes(cs, edge.service.package);
      if cs[edge.consumer].isContainer then
        if id == provider
        then multiset{Descriptor(ServingListening, edge.service.service, Info(cs, edge.consumer))}
        else multiset{}
      else
        (if id == edge.consumer then multiset{Descriptor(Consuming, edge.service.service, Info(cs, provider))}
         else multiset{})
        + (if id == provider
           then multiset{Descriptor(ServingConnected, edge.service.service, Info(cs, edge.consumer))}
           else multiset{})
  }

  function EdgesAt(cs: seq<Deployed>, edges: seq<Edge>, id: Uuid): multiset<Descriptor>
    requires forall i :: 0 <= i < |edges| ==> edges[i].consumer < |cs|
  {
    if edges == [] then multiset{}
    else EdgesAt(cs, edges[..|edges| - 1], id) + EdgeAt(cs, edges[|edges| - 1], id)
  }

  function PublicAt(cs: seq<Deployed>, ps: seq<ServiceId>, id: Uuid): multiset<Descriptor>
  {
    if ps == [] then multiset{}
    else
      var last := ps[|ps| - 1];
      PublicAt(cs, ps[..|ps| - 1], id)
      + (if Provider(cs, last.package) == Some(id)
         then multiset{Descriptor(ServingListening, last.service, Socket)} else multiset{})
  }

  /** The edges in the order the instances are visited. */
  function EdgesOf(cs: seq<Deployed>, order: seq<Uuid>): (edges: seq<Edge>)
    requires forall i :: 0 <= i < |order| ==> order[i] < |cs|
    ensures forall i :: 0 <= i < |edges| ==> edges[i].consumer < |cs|
  {
    if order == [] then []
    else
      var id := order[|order| - 1];
      EdgesOf(cs, order[..|order| - 1])
      + seq(|cs[id].component.requiredServices|,
            i requires 0 <= i < |cs[id].component.requiredServices| => Edge(id, cs[id].component.requiredServices[i]))
  }

  predicate VisitsAll(cs: seq<Deployed>, order: seq<Uuid>)
  {
    && (forall i :: 0 <= i < |order| ==> order[i] < |cs|)
    && (forall i, j :: 0 <= i < j < |order| ==> order[i] != order[j])
    && (forall id :: 0 <= id < |cs| ==> id in order)
  }

  predicate PackagesKnown(cs: seq<Deployed>, ps: seq<ServiceId>)
  {
    && (forall i :: 0 <= i < |ps| ==> Provider(cs, ps[i].package).Some?)
    && (forall id, i :: 0 <= id < |cs| && 0 <= i < |cs[id].component.requiredServices| ==>
          Provider(cs, cs[id].component.requiredServices[i].package).Some?)
  }

  // ---- Wiring as it runs

  lemma ProviderSnoc(cs: seq<Deployed>, i: nat, package: Name)
    requires i < |cs|
    ensures Provider(cs[..i + 1], package)
         == if cs[i].component.package == package then Some(i) else Provider(cs[..i], package)
  {
    assert cs[..i + 1][..i] == cs[..i];
  }

  ghost predicate Indexed(cs: seq<Deployed>, byPackage: map<Name, Uuid>)
  {
    forall p :: if p in byPackage then Provider(cs, p) == Some(byPackage[p]) else Provider(cs, p).None?
  }

  /** `instance_by_package`: later components overwrite earlier ones of the same package. */
  method IndexPackages(cs: seq<Deployed>) returns (files: Files, byPackage: map<Name, Uuid>)
    ensures Indexed(cs, byPackage)
    ensures forall id :: id in files <==> 0 <= id < |cs|
    ensures forall id :: id in files ==> files[id] == []
  {
    files, byPackage := map[], map[];
    for i := 0 to |cs|
      invariant Indexed(cs[..i], byPackage)
      invariant forall id :: id in files <==> 0 <= id < i
      invariant forall id :: id in files ==> files[id] == []
    {
      forall p
        ensures Provider(cs[..i + 1], p)
             == if cs[i].component.package == p then Some(i) else Provider(cs[..i], p)
      {
        ProviderSnoc(cs, i, p);
      }
      files, byPackage := files[i := []], byPackage[cs[i].component.package := i];
    }
    assert cs[..|cs|] == cs;
  }

  ghost predicate Holds(cs: seq<Deployed>, files: Files, ps: seq<ServiceId>, edges: seq<Edge>)
    requires forall i :: 0 <= i < |edges| ==> edges[i].consumer < |cs|
  {
    && (forall id :: id in files <==> 0 <= id < |cs|)
    && forall id :: id in files ==> multiset(files[id]) == PublicAt(cs, ps, id) + EdgesAt(cs, edges, id)
  }

  /** Pushes a descriptor onto one instance's files. */
  function Push(files: Files, id: Uuid, d: Descriptor): (r: WireResult)
    ensures r.Wired? <==> id in files
    ensures r.Wired? ==> r.files.Keys == files.Keys
    ensures r.Wired? ==> forall x :: x in files ==>
              multiset(r.files[x]) == multiset(files[x]) + (if x == id then multiset{d} else multiset{})
  {
    if id in files then Wired(files[id := files[id] + [d]]) else UnknownInstance(id)
  }

  lemma PublicSnoc(cs: seq<Deployed>, ps: seq<ServiceId>, i: nat, id: Uuid)
    requires i < |ps|
    ensures PublicAt(cs, ps[..i + 1], id)
         == PublicAt(cs, ps[..i], id)
            + (if Provider(cs, ps[i].package) == Some(id)
               then multiset{Descriptor(ServingListening, ps[i].service, Socket)} else multiset{})
  {
    assert ps[..i + 1][..i] == ps[..i];
  }

  /** What a public service adds: one listening descriptor at its instance. */
  ghost predicate Listens(cs: seq<Deployed>, service: ServiceId, before: Files, after: Files)
  {
    && after.Keys == before.Keys
    && forall x :: x in before ==>
         multiset(after[x]) == multiset(before[x])
                               + (if Provider(cs, service.package) == Some(x)
                                  then multiset{Descriptor(ServingListening, service.service, Socket)} else multiset{})
  }

  /** One public service, bound and listening. */
  method WireListener(cs: seq<Deployed>, service: ServiceId, byPackage: map<Name, Uuid>, files: Files)
    returns (r: WireResult)
    requires Indexed(cs, byPackage)
    ensures r.UnknownPackage? <==> Provider(cs, service.package).None?
    ensures r.UnknownInstance? <==>
              Provider(cs, service.package).Some? && Provider(cs, service.package).value !in files
    ensures r.Wired? ==> Listens(cs, service, files, r.files)
  {
    if service.package !in byPackage {
      return UnknownPackage(service.package);
    }
    return Push(files, byPackage[service.package], Descriptor(ServingListening, service.service, Socket));
  }

  lemma HoldsOneListener(cs: seq<Deployed>, before: Files, after: Files, ps: seq<ServiceId>, i: nat)
    requires i < |ps| && Holds(cs, before, ps[..i], []) && Listens(cs, ps[i], before, after)
    ensures Holds(cs, after, ps[..i + 1], [])
  {
    forall id | id in after
      ensures multiset(after[id]) == PublicAt(cs, ps[..i + 1], id) + EdgesAt(cs, [], id)
    {
      PublicSnoc(cs, ps, i, id);
    }
  }

  method WireNextListener(cs: seq<Deployed>, ps: seq<ServiceId>, i: nat, byPackage: map<Name, Uuid>, files: Files)
    returns (r: WireResult)
    requires i < |ps| && Indexed(cs, byPackage) && Holds(cs, files, ps[..i], [])
    ensures r.Wired? <==> Provider(cs, ps[i].package).Some?
    ensures r.Wired? ==> Holds(cs, r.files, ps[..i + 1], [])
    ensures !r.UnknownInstance?
  {
    ProviderServes(cs, ps[i].package);
    r := WireListener(cs, ps[i], byPackage, files);
    if r.Wired? {
      HoldsOneListener(cs, files, r.files, ps, i);
    }
  }

  method WirePublic(cs: seq<Deployed>, ps: seq<ServiceId>, byPackage: map<Name, Uuid>, start: Files)
    returns (r: WireResult)
    requires Indexed(cs, byPackage)
    requires Holds(cs, start, [], [])
    ensures r.Wired? <==> forall i :: 0 <= i < |ps| ==> Provider(cs, ps[i].package).Some?
    ensures r.Wired? ==> Holds(cs, r.files, ps, [])
    ensures !r.UnknownInstance?
  {
    r := Wired(start);
    assert ps[..0] == [];
    for i := 0 to |ps|
      invariant r.Wired? && Holds(cs, r.files, ps[..i], [])
      invariant forall j :: 0 <= j < i ==> Provider(cs, ps[j].package).Some?
    {
      r := WireNextListener(cs, ps, i, byPackage, r.files);
      if !r.Wired? {
        return;
      }
    }
    assert ps[..|ps|] == ps;
  }

  /** What wiring `edge` changes: its descriptors appear, at their instances, and nothing else does. */
  ghost predicate Adds(cs: seq<Deployed>, edge: Edge, before: Files, after: Files)
    requires edge.consumer < |cs|
  {
    && after.Keys == before.Keys
    && forall id :: id in before ==> multiset(after[id]) == multiset(before[id]) + EdgeAt(cs, edge, id)
  }

  /** `setup_named_socket_service_connection`. */
  method WireSocket(cs: seq<Deployed>, edge: Edge, provider: Uuid, files: Files) returns (r: WireResult)
    requires edge.consumer < |cs| && Provider(cs, edge.service.package) == Some(provider)
    requires cs[edge.consumer].isContainer && provider in files
    ensures r.Wired? && Adds(cs, edge, files, r.files)
  {
    r := Push(files, provider, Descriptor(ServingListening, edge.service.service, Info(cs, edge.consumer)));
  }

  /** `setup_preconnected_service_connection`. */
  method WirePair(cs: seq<Deployed>, edge: Edge, provider: Uuid, files: Files) returns (r: WireResult)
    requires edge.consumer < |cs| && provider < |cs| && Provider(cs, edge.service.package) == Some(provider)
    requires !cs[edge.consumer].isContainer && provider in files
    ensures if edge.consumer in files then r.Wired? && Adds(cs, edge, files, r.files) else r.UnknownInstance?
  {
    r := Push(files, edge.consumer, Descriptor(Consuming, edge.service.service, Info(cs, provider)));
    if r.Wired? {
      r := Push(r.files, provider, Descriptor(ServingConnected, edge.service.service, Info(cs, edge.consumer)));
    }
  }

  /** One required service: a connected pair, or a listening socket in front of a container. */
  method WireEdge(cs: seq<Deployed>, edge: Edge, byPackage: map<Name, Uuid>, files: Files) returns (r: WireResult)
    requires edge.consumer < |cs| && Indexed(cs, byPackage)
    ensures r.UnknownPackage? <==> Provider(cs, edge.service.package).None?
    ensures r.UnknownInstance? <==>
              Provider(cs, edge.service.package).Some?
              && (Provider(cs, edge.service.package).value !in files
                  || (!cs[edge.consumer].isContainer && edge.consumer !in files))
    ensures r.Wired? ==> Adds(cs, edge, files, r.files)
  {
    if edge.service.package !in byPackage {
      return UnknownPackage(edge.service.package);
    }
    var provider := byPackage[edge.service.package];
    ProviderServes(cs, edge.service.package);
    if provider !in files {
      return UnknownInstance(provider);
    }
    if cs[edge.consumer].isContainer {
      r := WireSocket(cs, edge, provider, files);
    } else {
      r := WirePair(cs, edge, provider, files);
    }
  }

  lemma EdgesSnoc(cs: seq<Deployed>, edges: seq<Edge>, i: nat, id: Uuid)
    requires i < |edges| && forall j :: 0 <= j < |edges| ==> edges[j].consumer < |cs|
    ensures EdgesAt(cs, edges[..i + 1], id) == EdgesAt(cs, edges[..i], id) + EdgeAt(cs, edges[i], id)
  {
    assert edges[..i + 1][..i] == edges[..i];
  }

  lemma HoldsOneMore(
    cs: seq<Deployed>, before: Files, after: Files, ps: seq<ServiceId>, edges: seq<Edge>, i: nat)
    requires i < |edges| && forall j :: 0 <= j < |edges| ==> edges[j].consumer < |cs|
    requires Holds(cs, before, ps, edges[..i]) && Adds(cs, edges[i], before, after)
    ensures Holds(cs, after, ps, edges[..i + 1])
  {
    forall id | id in after
      ensures multiset(after[id]) == PublicAt(cs, ps, id) + EdgesAt(cs, edges[..i + 1], id)
    {
      EdgesSnoc(cs, edges, i, id);
    }
  }

  method WireNext(
    cs: seq<Deployed>, ghost ps: seq<ServiceId>, edges: seq<Edge>, i: nat, byPackage: map<Name, Uuid>,
    files: Files) returns (r: WireResult)
    requires i < |edges| && forall j :: 0 <= j < |edges| ==> edges[j].consumer < |cs|
    requires Indexed(cs, byPackage) && Holds(cs, files, ps, edges[..i])
    ensures r.Wired? <==> Provider(cs, edges[i].service.package).Some?
    ensures r.Wired? ==> Holds(cs, r.files, ps, edges[..i + 1])
    ensures !r.UnknownInstance?
  {
    ProviderServes(cs, edges[i].service.package);
    r := WireEdge(cs, edges[i], byPackage, files);
    if r.Wired? {
      HoldsOneMore(cs, files, r.files, ps, edges, i);
    }
  }

  method WireEdges(
    cs: seq<Deployed>, ps: seq<ServiceId>, edges: seq<Edge>, byPackage: map<Name, Uuid>,
    start: Files) returns (r: WireResult)
    requires forall i :: 0 <= i < |edges| ==> edges[i].consumer < |cs|
    requires Indexed(cs, byPackage)
    requires Holds(cs, start, ps, [])
    ensures r.Wired? <==> forall i :: 0 <= i < |edges| ==> Provider(cs, edges[i].service.package).Some?
    ensures r.Wired? ==> Holds(cs, r.files, ps, edges)
    ensures !r.UnknownInstance?
  {
    var files := start;
    assert edges[..0] == [];
    for i := 0 to |edges|
      invariant Holds(cs, files, ps, edges[..i])
      invariant forall j :: 0 <= j < i ==> Provider(cs, edges[j].service.package).Some?
    {
      var wired := WireNext(cs, ps, edges, i, byPackage, files);
      if !wired.Wired? {
        return wired;
      }
      files := wired.files;
    }
    assert edges[..|edges|] == edges;
    return Wired(files);
  }

  lemma {:induction false} EdgeFrom(cs: seq<Deployed>, order: seq<Uuid>, i: nat)
    requires forall j :: 0 <= j < |order| ==> order[j] < |cs|
    requires i < |EdgesOf(cs, order)|
    ensures var e := EdgesOf(cs, order)[i]; e.service in cs[e.consumer].component.requiredServices
    decreases |order|
  {
    var n := |order| - 1;
    var before := EdgesOf(cs, order[..n]);
    if i < |before| {
      EdgeFrom(cs, order[..n], i);
    } else {
      var id := order[n];
      assert EdgesOf(cs, order)[i] == Edge(id, cs[id].component.requiredServices[i - |before|]);
    }
  }

  lemma {:induction false} EdgeFor(cs: seq<Deployed>, order: seq<Uuid>, id: Uuid, i: nat)
    requires forall j :: 0 <= j < |order| ==> order[j] < |cs|
    requires id in order && i < |cs[id].component.requiredServices|
    ensures Edge(id, cs[id].component.requiredServices[i]) in EdgesOf(cs, order)
    decreases |order|
  {
    var n := |order| - 1;
    var before := EdgesOf(cs, order[..n]);
    if order[n] == id {
      assert EdgesOf(cs, order)[|before| + i] == Edge(id, cs[id].component.requiredServices[i]);
    } else {
      EdgeFor(cs, order[..n], id, i);
    }
  }

  /**
   * Instances for all components, then listeners, then one pair per required service, the instances
   * being visited in any order. It fails exactly when a package is unknown, never over an instance;
   * otherwise the descriptors at each instance are exactly those its public services and edges call for.
   */
  method Reify(cs: seq<Deployed>, ps: seq<ServiceId>, order: seq<Uuid>) returns (r: WireResult)
    requires VisitsAll(cs, order)
    ensures r.Wired? <==> PackagesKnown(cs, ps)
    ensures r.Wired? ==> Holds(cs, r.files, ps, EdgesOf(cs, order))
    ensures !r.UnknownInstance?
  {
    var files, byPackage := IndexPackages(cs);
    r := WirePublic(cs, ps, byPackage, files);
    if !r.Wired? {
      return;
    }
    var edges := EdgesOf(cs, order);
    forall i | 0 <= i < |edges| && PackagesKnown(cs, ps)
      ensures Provider(cs, edges[i].service.package).Some?
    {
      EdgeFrom(cs, order, i);
    }
    r := WireEdges(cs, ps, edges, byPackage, r.files);
    if r.Wired? {
      forall id, i | 0 <= id < |cs| && 0 <= i < |cs[id].component.requiredServices|
        ensures Provider(cs, cs[id].component.requiredServices[i].package).Some?
      {
        EdgeFor(cs, order, id, i);
      }
    }
  }

  // ---- Descriptors come in pairs

  lemma {:induction false} PublicIsListening(cs: seq<Deployed>, ps: seq<ServiceId>, id: Uuid, d: Descriptor)
    requires d.direction != ServingListening
    ensures PublicAt(cs, ps, id)[d] == 0
    decreases |ps|
  {
    if ps != [] {
      PublicIsListening(cs, ps[..|ps| - 1], id, d);
    }
  }

  lemma EdgePair(cs: seq<Deployed>, edge: Edge, a: Uuid, b: Uuid, service: Name)
    requires edge.consumer < |cs| && a < |cs| && b < |cs|
    ensures EdgeAt(cs, edge, a)[Descriptor(Consuming, service, Info(cs, b))]
         == EdgeAt(cs, edge, b)[Descriptor(ServingConnected, service, Info(cs, a))]
  {
    ProviderServes(cs, edge.service.package);
  }

  lemma {:induction false} EdgePairs(cs: seq<Deployed>, edges: seq<Edge>, a: Uuid, b: Uuid, service: Name)
    requires forall i :: 0 <= i < |edges| ==> edges[i].consumer < |cs|
    requires a < |cs| && b < |cs|
    ensures EdgesAt(cs, edges, a)[Descriptor(Consuming, service, Info(cs, b))]
         == EdgesAt(cs, edges, b)[Descriptor(ServingConnected, service, Info(cs, a))]
    decreases |edges|
  {
    if edges != [] {
      EdgePairs(cs, edges[..|edges| - 1], a, b, service);
      EdgePair(cs, edges[|edges| - 1], a, b, service);
    }
  }

  /**
   * Instance `a` consumes a service of `b` as often as `b` serves it to `a`: no end of a connected
   * pair is lost, duplicated or handed to the wrong instance.
   */
  lemma PairsMatch(
    cs: seq<Deployed>, files: Files, ps: seq<ServiceId>, edges: seq<Edge>, a: Uuid, b: Uuid, service: Name)
    requires forall i :: 0 <= i < |edges| ==> edges[i].consumer < |cs|
    requires Holds(cs, files, ps, edges) && a < |cs| && b < |cs|
    ensures multiset(files[a])[Descriptor(Consuming, service, Info(cs, b))]
         == multiset(files[b])[Descriptor(ServingConnected, service, Info(cs, a))]
  {
    PublicIsListening(cs, ps, a, Descriptor(Consuming, service, Info(cs, b)));
    PublicIsListening(cs, ps, b, Descriptor(ServingConnected, service, Info(cs, a)));
    EdgePairs(cs, edges, a, b, service);
  }

  // ---- How many descriptors of each kind an instance has

  /** Whether `service` is the one of that name at instance `b`. */
  predicate IsServedBy(cs: seq<Deployed>, service: ServiceId, b: Uuid, name: Name)
  {
    service.service == name && Provider(cs, service.package) == Some(b)
  }

  /** How often the services in `ids` are the one of that name at instance `b`. */
  function Uses(cs: seq<Deployed>, ids: seq<ServiceId>, b: Uuid, name: Name): nat
  {
    if ids == [] then 0
    else Uses(cs, ids[..|ids| - 1], b, name) + if IsServedBy(cs, ids[|ids| - 1], b, name) then 1 else 0
  }

  function UsesBy(cs: seq<Deployed>, edges: seq<Edge>, a: Uuid, b: Uuid, name: Name): nat
  {
    if edges == [] then 0
    else
      var last := edges[|edges| - 1];
      UsesBy(cs, edges[..|edges| - 1], a, b, name)
      + if last.consumer == a && IsServedBy(cs, last.service, b, name) then 1 else 0
  }

  lemma {:induction false} UsesTogether(
    cs: seq<Deployed>, first: seq<Edge>, rest: seq<Edge>, a: Uuid, b: Uuid, name: Name)
    ensures UsesBy(cs, first + rest, a, b, name) == UsesBy(cs, first, a, b, name) + UsesBy(cs, rest, a, b, name)
    decreases |rest|
  {
    if rest == [] {
      assert first + rest == first;
    } else {
      var n := |rest| - 1;
      UsesTogether(cs, first, rest[..n], a, b, name);
      assert (first + rest)[..|first| + n] == first + rest[..n];
    }
  }

  lemma {:induction false} UsesOfOne(
    cs: seq<Deployed>, ids: seq<ServiceId>, edges: seq<Edge>, id: Uuid, a: Uuid, b: Uuid, name: Name)
    requires |edges| == |ids| && forall i :: 0 <= i < |ids| ==> edges[i] == Edge(id, ids[i])
    ensures UsesBy(cs, edges, a, b, name) == if id == a then Uses(cs, ids, b, name) else 0
    decreases |ids|
  {
    if ids != [] {
      UsesOfOne(cs, ids[..|ids| - 1], edges[..|ids| - 1], id, a, b, name);
    }
  }

  /** Every instance is visited once. */
  lemma {:induction false} UsesOfAll(cs: seq<Deployed>, order: seq<Uuid>, a: Uuid, b: Uuid, name: Name)
    requires forall i :: 0 <= i < |order| ==> order[i] < |cs|
    requires (forall i, j :: 0 <= i < j < |order| ==> order[i] != order[j]) && a < |cs|
    ensures UsesBy(cs, EdgesOf(cs, order), a, b, name)
            == if a in order then Uses(cs, cs[a].component.requiredServices, b, name) else 0
    decreases |order|
  {
    if order != [] {
      var n := |order| - 1;
      var id, before, all := order[n], EdgesOf(cs, order[..n]), EdgesOf(cs, order);
      UsesOfAll(cs, order[..n], a, b, name);
      assert all == before + all[|before|..] && order == order[..n] + [id];
      UsesTogether(cs, before, all[|before|..], a, b, name);
      UsesOfOne(cs, cs[id].component.requiredServices, all[|before|..], id, a, b, name);
    }
  }

  /** `x` at the consumer `a` and `y` at the provider `b` hold what `uses` of a service call for. */
  ghost predicate CountsAre(
    cs: seq<Deployed>, x: multiset<Descriptor>, y: multiset<Descriptor>, a: Uuid, b: Uuid, name: Name, uses: nat)
    requires a < |cs| && b < |cs|
  {
    var pairs, sockets := if cs[a].isContainer then 0 else uses, if cs[a].isContainer then uses else 0;
    && x[Descriptor(Consuming, name, Info(cs, b))] == pairs
    && y[Descriptor(ServingConnected, name, Info(cs, a))] == pairs
    && y[Descriptor(ServingListening, name, Info(cs, a))] == sockets
    && y[Descriptor(ServingListening, name, Socket)] == 0
  }

  lemma EdgeCount(cs: seq<Deployed>, edge: Edge, id: Uuid, d: Descriptor, provider: Uuid)
    requires edge.consumer < |cs| && provider < |cs| && Provider(cs, edge.service.package) == Some(provider)
    ensures var n := EdgeAt(cs, edge, id)[d];
            if cs[edge.consumer].isContainer
            then n == if id == provider
                         && d == Descriptor(ServingListening, edge.service.service, Info(cs, edge.consumer))
                      then 1 else 0
            else n == (if id == edge.consumer && d == Descriptor(Consuming, edge.service.service, Info(cs, provider))
                       then 1 else 0)
                      + (if id == provider
                            && d == Descriptor(ServingConnected, edge.service.service, Info(cs, edge.consumer))
                         then 1 else 0)
  {
  }

  lemma OneEdgeCounts(cs: seq<Deployed>, edge: Edge, a: Uuid, b: Uuid, name: Name)
    requires edge.consumer < |cs| && a < |cs| && b < |cs|
    ensures CountsAre(
              cs, EdgeAt(cs, edge, a), EdgeAt(cs, edge, b), a, b, name,
              if edge.consumer == a && IsServedBy(cs, edge.service, b, name) then 1 else 0)
  {
    ProviderServes(cs, edge.service.package);
    if Provider(cs, edge.service.package).Some? {
      var provider := Provider(cs, edge.service.package).value;
      EdgeCount(cs, edge, a, Descriptor(Consuming, name, Info(cs, b)), provider);
      EdgeCount(cs, edge, b, Descriptor(ServingConnected, name, Info(cs, a)), provider);
      EdgeCount(cs, edge, b, Descriptor(ServingListening, name, Info(cs, a)), provider);
      EdgeCount(cs, edge, b, Descriptor(ServingListening, name, Socket), provider);
    }
  }

  lemma {:induction false} EdgesCount(cs: seq<Deployed>, edges: seq<Edge>, a: Uuid, b: Uuid, name: Name)
    requires (forall i :: 0 <= i < |edges| ==> edges[i].consumer < |cs|) && a < |cs| && b < |cs|
    ensures CountsAre(
              cs, EdgesAt(cs, edges, a), EdgesAt(cs, edges, b), a, b, name, UsesBy(cs, edges, a, b, name))
    decreases |edges|
  {
    if edges != [] {
      EdgesCount(cs, edges[..|edges| - 1], a, b, name);
      OneEdgeCounts(cs, edges[|edges| - 1], a, b, name);
    }
  }

  lemma {:induction false} PublicCount(cs: seq<Deployed>, ps: seq<ServiceId>, b: Uuid, name: Name)
    ensures PublicAt(cs, ps, b)[Descriptor(ServingListening, name, Socket)] == Uses(cs, ps, b, name)
    ensures forall d: Descriptor :: d.remote.SideCar? ==> PublicAt(cs, ps, b)[d] == 0
    decreases |ps|
  {
    if ps != [] {
      PublicCount(cs, ps[..|ps| - 1], b, name);
    }
  }

  /**
   * Exactly what is wired: an instance that requires a service so many times gets that many connected
   * ends, and its provider the other ends; a container gets none, and its provider as many listening
   * sockets for it; a public service listens once for each time it is published.
   */
  lemma DescriptorsExactly(
    cs: seq<Deployed>, files: Files, ps: seq<ServiceId>, order: seq<Uuid>, a: Uuid, b: Uuid, name: Name)
    requires VisitsAll(cs, order) && Holds(cs, files, ps, EdgesOf(cs, order)) && a < |cs| && b < |cs|
    ensures var uses := Uses(cs, cs[a].component.requiredServices, b, name);
            && multiset(files[a])[Descriptor(Consuming, name, Info(cs, b))] == (if cs[a].isContainer then 0 else uses)
            && multiset(files[b])[Descriptor(ServingConnected, name, Info(cs, a))]
               == (if cs[a].isContainer then 0 else uses)
            && multiset(files[b])[Descriptor(ServingListening, name, Info(cs, a))]
               == (if cs[a].isContainer then uses else 0)
            && multiset(files[b])[Descriptor(ServingListening, name, Socket)] == Uses(cs, ps, b, name)
  {
    UsesOfAll(cs, order, a, b, name);
    EdgesCount(cs, EdgesOf(cs, order), a, b, name);
    PublicCount(cs, ps, a, name);
    PublicCount(cs, ps, b, name);
  }

  /** The only descriptors there are: a public listener, or one whose other side is another instance. */
  predicate Plausible(cs: seq<Deployed>, d: Descriptor)
  {
    match d.remote
    case Socket => d.direction.ServingListening?
    case SideCar(id, _, _) => id < |cs| && d.remote == Info(cs, id)
  }

  lemma EdgePlausible(cs: seq<Deployed>, edge: Edge, id: Uuid, d: Descriptor)
    requires edge.consumer < |cs| && d in EdgeAt(cs, edge, id)
    ensures Plausible(cs, d)
  {
    ProviderServes(cs, edge.service.package);
  }

  lemma {:induction false} EdgesPlausible(cs: seq<Deployed>, edges: seq<Edge>, id: Uuid, d: Descriptor)
    requires (forall i :: 0 <= i < |edges| ==> edges[i].consumer < |cs|) && d in EdgesAt(cs, edges, id)
    ensures Plausible(cs, d)
    decreases |edges|
  {
    if d in EdgeAt(cs, edges[|edges| - 1], id) {
      EdgePlausible(cs, edges[|edges| - 1], id, d);
    } else {
      EdgesPlausible(cs, edges[..|edges| - 1], id, d);
    }
  }

  lemma {:induction false} PublicPlausible(cs: seq<Deployed>, ps: seq<ServiceId>, id: Uuid, d: Descriptor)
    requires d in PublicAt(cs, ps, id)
    ensures Plausible(cs, d)
    decreases |ps|
  {
    if d in PublicAt(cs, ps[..|ps| - 1], id) {
      PublicPlausible(cs, ps[..|ps| - 1], id, d);
    }
  }

  lemma NothingElseIsWired(
    cs: seq<Deployed>, files: Files, ps: seq<ServiceId>, edges: seq<Edge>, id: Uuid, d: Descriptor)
    requires forall i :: 0 <= i < |edges| ==> edges[i].consumer < |cs|
    requires Holds(cs, files, ps, edges) && id < |cs| && d in files[id]
    ensures Plausible(cs, d)
  {
    assert d in multiset(files[id]);
    if d in EdgesAt(cs, edges, id) {
      EdgesPlausible(cs, edges, id, d);
    } else {
      PublicPlausible(cs, ps, id, d);
    }
  }

  // ---- Manifests that come from resolution

  function Deploy(es: seq<SortedMap.Entry<Component>>, isContainer: Component -> bool): (cs: seq<Deployed>)
    ensures |cs| == |es| && forall i :: 0 <= i < |cs| ==> cs[i] == Deployed(es[i].value, isContainer(es[i].value))
  {
    seq(|es|, i requires 0 <= i < |es| => Deployed(es[i].value, isContainer(es[i].value)))
  }

  lemma DeployedPackage(t: Template, find: Lookup, m: Manifest, isContainer: Component -> bool, s: Name)
    requires Deploys(t, find, m) && Reachable(t, find, s)
    ensures s in t.implementations
            && Provider(Deploy(m.components, isContainer), t.implementations[s].package).Some?
  {
    var i :| 0 <= i < |m.components| && m.components[i].key == s;
    assert SoundEntry(t, find, m.components[i]);
    var cs := Deploy(m.components, isContainer);
    ProviderServes(cs, t.implementations[s].package);
    assert cs[i].component.package == t.implementations[s].package;
  }

  /** A resolved manifest names no unknown package, whichever of its images are containers. */
  lemma ResolvedManifestWires(t: Template, find: Lookup, m: Manifest, isContainer: Component -> bool)
    requires Deploys(t, find, m)
    ensures PackagesKnown(Deploy(m.components, isContainer), m.publicServices)
  {
    var cs := Deploy(m.components, isContainer);
    forall i | 0 <= i < |m.publicServices|
      ensures Provider(cs, m.publicServices[i].package).Some?
    {
      PublicIsReachable(t, find, t.publicServices[i]);
      DeployedPackage(t, find, m, isContainer, t.publicServices[i]);
    }
    forall id, i | 0 <= id < |cs| && 0 <= i < |cs[id].component.requiredServices|
      ensures Provider(cs, cs[id].component.requiredServices[i].package).Some?
    {
      var e := m.components[id];
      assert SoundEntry(t, find, e);
      var s := Requires(t, find, e.key)[i];
      RequiredIsReachable(t, find, e.key, s);
      DeployedPackage(t, find, m, isContainer, s);
    }
  }
}
