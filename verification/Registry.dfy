/** Finding the best version of a package (linker/src/registry/mod.rs). */
module Registry {
  import opened Bytes

  /** A semantic version; pre-release identifiers by their rank. */
  datatype Version = Version(major: nat, minor: nat, patch: nat, pre: seq<int>)

  datatype Stored<E> = Stored(package: seq<byte>, version: Version, entry: E)

  const ZERO: Version := Version(0, 0, 0, [])

  /** Precedence: the three numbers first, then a release after its pre-releases. */
  function Rank(v: Version): seq<int>
  {
    [v.major, v.minor, v.patch] + (if v.pre == [] then [1] else [0] + v.pre)
  }

  predicate VersionLess(a: Version, b: Version)
  {
    LexLess(Rank(a), Rank(b))
  }

  predicate KeyLess(p: seq<byte>, a: Version, q: seq<byte>, b: Version)
  {
    LexLess(p, q) || (p == q && VersionLess(a, b))
  }

  /** The iteration order of `BTreeMap<(String, Version), _>`. */
  predicate Ordered<E>(known: seq<Stored<E>>)
  {
    forall i, j :: 0 <= i < j < |known| ==>
      KeyLess(known[i].package, known[i].version, known[j].package, known[j].version)
  }

  predicate Candidate<E>(s: Stored<E>, package: seq<byte>, matches: Version -> bool)
  {
    s.package == package && matches(s.version)
  }

  /** `known[w]` is a candidate and no candidate has a higher version. */
  ghost predicate Best<E>(known: seq<Stored<E>>, package: seq<byte>, matches: Version -> bool, w: nat)
  {
    && w < |known| && Candidate(known[w], package, matches)
    && forall j :: 0 <= j < |known| && Candidate(known[j], package, matches) ==>
         !VersionLess(known[w].version, known[j].version)
  }

  lemma LexNext(x: int, y: int, a: seq<int>, b: seq<int>)
    ensures LexLess([x] + a, [y] + b) <==> x < y || (x == y && LexLess(a, b))
  {
    assert ([x] + a)[1..] == a && ([y] + b)[1..] == b;
  }

  /**
   * Precedence of semantic versions: the first of the three numbers that differs decides; with the
   * same numbers a pre-release comes before the release, and two pre-releases go by their identifiers.
   */
  lemma Precedence(a: Version, b: Version)
    ensures a.major != b.major ==> (VersionLess(a, b) <==> a.major < b.major)
    ensures a.major == b.major && a.minor != b.minor ==> (VersionLess(a, b) <==> a.minor < b.minor)
    ensures a.major == b.major && a.minor == b.minor && a.patch != b.patch ==>
              (VersionLess(a, b) <==> a.patch < b.patch)
    ensures a.major == b.major && a.minor == b.minor && a.patch == b.patch ==>
              (VersionLess(a, b) <==> a.pre != [] && (b.pre == [] || LexLess(a.pre, b.pre)))
  {
    var p: seq<int>, q: seq<int> :=
      if a.pre == [] then [1] else [0] + a.pre, if b.pre == [] then [1] else [0] + b.pre;
    assert Rank(a) == [a.major] + ([a.minor] + ([a.patch] + p));
    assert Rank(b) == [b.major] + ([b.minor] + ([b.patch] + q));
    LexNext(a.major, b.major, [a.minor] + ([a.patch] + p), [b.minor] + ([b.patch] + q));
    LexNext(a.minor, b.minor, [a.patch] + p, [b.patch] + q);
    LexNext(a.patch, b.patch, p, q);
    LexNext(if a.pre == [] then 1 else 0, if b.pre == [] then 1 else 0, a.pre, b.pre);
    assert [1] + [] == [1];
  }

  lemma RanksDecide(a: Version, b: Version)
    requires Rank(a) == Rank(b)
    ensures a == b
  {
    assert Rank(a)[0] == a.major && Rank(a)[1] == a.minor && Rank(a)[2] == a.patch;
    assert Rank(a)[3] == Rank(b)[3];
    if a.pre != [] {
      assert a.pre == Rank(a)[4..] && b.pre == Rank(b)[4..];
    }
  }

  lemma VersionTotal(a: Version, b: Version)
    ensures VersionLess(a, b) || a == b || VersionLess(b, a)
    ensures !(VersionLess(a, b) && VersionLess(b, a)) && !VersionLess(a, a)
  {
    LexTotal(Rank(a), Rank(b));
    if Rank(a) == Rank(b) {
      RanksDecide(a, b);
    }
  }

  predicate KeyBefore<E>(a: Stored<E>, b: Stored<E>)
  {
    KeyLess(a.package, a.version, b.package, b.version)
  }

  /** `add_package`: the entry goes to its place in the order, over an earlier one of the same version. */
  function Add<E>(known: seq<Stored<E>>, s: Stored<E>): (r: seq<Stored<E>>)
    ensures forall x :: x in r ==> x == s || x in known
  {
    if known == [] || KeyBefore(s, known[0]) then [s] + known
    else if KeyBefore(known[0], s) then [known[0]] + Add(known[1..], s)
    else [s] + known[1..]
  }

  lemma KeyTotal<E>(a: Stored<E>, b: Stored<E>)
    ensures KeyBefore(a, b) || KeyBefore(b, a) || (a.package == b.package && a.version == b.version)
  {
    LexTotal(a.package, b.package);
    VersionTotal(a.version, b.version);
  }

  /** What is added is there, and what was there stays unless it had the same package and version. */
  lemma {:induction false} AddMembers<E>(known: seq<Stored<E>>, s: Stored<E>, x: Stored<E>)
    ensures s in Add(known, s)
    ensures x in known && !(x.package == s.package && x.version == s.version) ==> x in Add(known, s)
    decreases |known|
  {
    if known != [] {
      assert known == [known[0]] + known[1..];
      if KeyBefore(known[0], s) {
        AddMembers(known[1..], s, x);
      } else {
        KeyTotal(known[0], s);
      }
    }
  }

  lemma FirstStaysFirst<E>(first: Stored<E>, rest: seq<Stored<E>>)
    requires Ordered(rest) && forall x :: x in rest ==> KeyBefore(first, x)
    ensures Ordered([first] + rest)
  {
    var all := [first] + rest;
    forall i, j | 0 <= i < j < |all|
      ensures KeyLess(all[i].package, all[i].version, all[j].package, all[j].version)
    {
      assert all[j] in rest;
      if i == 0 {
        assert KeyBefore(first, all[j]);
      } else {
        assert all[i] == rest[i - 1] && all[j] == rest[j - 1];
      }
    }
  }

  lemma KeyTransitive<E>(a: Stored<E>, q: seq<byte>, b: Version, r: seq<byte>, c: Version)
    requires KeyLess(a.package, a.version, q, b) && KeyLess(q, b, r, c)
    ensures KeyLess(a.package, a.version, r, c)
  {
    if LexLess(a.package, q) && LexLess(q, r) {
      LexTransitive(a.package, q, r);
    } else if a.package == q && q == r {
      LexTransitive(Rank(a.version), Rank(b), Rank(c));
    }
  }

  lemma {:induction false} AddKeepsOrder<E>(known: seq<Stored<E>>, s: Stored<E>)
    requires Ordered(known)
    ensures Ordered(Add(known, s))
    decreases |known|
  {
    var r := Add(known, s);
    if known == [] {
    } else if KeyBefore(known[0], s) && !KeyBefore(s, known[0]) {
      AddKeepsOrder(known[1..], s);
      FirstStaysFirst(known[0], r[1..]);
    } else {
      var rest := if KeyBefore(s, known[0]) then known else known[1..];
      assert r == [s] + rest;
      forall x | x in rest
        ensures KeyBefore(s, x)
      {
        if KeyBefore(s, known[0]) {
          if x != known[0] {
            KeyTransitive(s, known[0].package, known[0].version, x.package, x.version);
          }
        } else {
          KeyTotal(known[0], s);
        }
      }
      FirstStaysFirst(s, rest);
    }
  }

  /** After `add_package` a package version has the entry added last, and every other keeps its own. */
  lemma AddIsExact<E>(known: seq<Stored<E>>, s: Stored<E>, x: Stored<E>)
    requires Ordered(known)
    ensures Ordered(Add(known, s))
    ensures x in Add(known, s) <==> x == s || (x in known && !(x.package == s.package && x.version == s.version))
  {
    AddMembers(known, s, x);
    AddKeepsOrder(known, s);
    LexTotal(s.package, s.package);
    VersionTotal(s.version, s.version);
    if x in Add(known, s) && x != s {
      assert KeyBefore(x, s) || KeyBefore(s, x);
    }
  }

  /** The last entry in order that matches at or above 0.0.0. */
  function LastMatch<E>(known: seq<Stored<E>>, package: seq<byte>, matches: Version -> bool): (r: Option<nat>)
    ensures r.Some? ==> r.value < |known| && Candidate(known[r.value], package, matches)
    ensures r.Some? ==> !VersionLess(known[r.value].version, ZERO)
  {
    if known == [] then None
    else
      var n := |known| - 1;
      if Candidate(known[n], package, matches) && !VersionLess(known[n].version, ZERO) then Some(n)
      else LastMatch(known[..n], package, matches)
  }

  lemma {:induction false} LastMatchIsLast<E>(
    known: seq<Stored<E>>, package: seq<byte>, matches: Version -> bool, j: nat)
    requires j < |known| && Candidate(known[j], package, matches) && !VersionLess(known[j].version, ZERO)
    ensures LastMatch(known, package, matches).Some? && j <= LastMatch(known, package, matches).value
    decreases |known|
  {
    var n := |known| - 1;
    if !(Candidate(known[n], package, matches) && !VersionLess(known[n].version, ZERO)) {
      LastMatchIsLast(known[..n], package, matches, j);
    }
  }

  lemma NotAbove<E>(known: seq<Stored<E>>, package: seq<byte>, j: nat, w: nat)
    requires Ordered(known) && j <= w < |known| && known[j].package == known[w].package == package
    ensures !VersionLess(known[w].version, known[j].version)
  {
    VersionTotal(known[j].version, known[w].version);
    LexTotal(package, package);
  }

  /** In a registry's order the last match at or above 0.0.0 is the best match. */
  lemma LastMatchIsBest<E>(known: seq<Stored<E>>, package: seq<byte>, matches: Version -> bool)
    requires Ordered(known)
    ensures LastMatch(known, package, matches).Some? ==>
              Best(known, package, matches, LastMatch(known, package, matches).value)
    ensures LastMatch(known, package, matches).None? <==>
              forall j :: 0 <= j < |known| && Candidate(known[j], package, matches) ==>
                VersionLess(known[j].version, ZERO)
  {
    var last := LastMatch(known, package, matches);
    forall j | 0 <= j < |known| && Candidate(known[j], package, matches)
      ensures last.None? ==> VersionLess(known[j].version, ZERO)
      ensures last.Some? ==> !VersionLess(known[last.value].version, known[j].version)
    {
      if !VersionLess(known[j].version, ZERO) {
        LastMatchIsLast(known, package, matches, j);
        NotAbove(known, package, j, last.value);
      } else if last.Some? && VersionLess(known[last.value].version, known[j].version) {
        LexTransitive(Rank(known[last.value].version), Rank(known[j].version), Rank(ZERO));
        assert false;
      }
    }
  }

  /** Only one entry can be the best. */
  lemma BestIsUnique<E>(known: seq<Stored<E>>, package: seq<byte>, matches: Version -> bool, v: nat, w: nat)
    requires Ordered(known) && Best(known, package, matches, v) && Best(known, package, matches, w)
    ensures v == w
  {
    LexTotal(package, package);
  }

  /** Past the first entry at or after (package, 0.0.0), another package ends the block for good. */
  lemma BlockEnds<E>(known: seq<Stored<E>>, package: seq<byte>, i: nat, j: nat)
    requires Ordered(known) && i <= j < |known|
    requires !KeyLess(known[i].package, known[i].version, package, ZERO) && known[i].package != package
    ensures known[j].package != package
  {
    LexTotal(known[i].package, package);
  }

  /** `range(min_key..)`: the first entry at or after (package, 0.0.0). */
  method RangeStart<E>(known: seq<Stored<E>>, package: seq<byte>) returns (start: nat)
    ensures start <= |known|
    ensures forall j :: 0 <= j < start ==> KeyLess(known[j].package, known[j].version, package, ZERO)
    ensures start < |known| ==> !KeyLess(known[start].package, known[start].version, package, ZERO)
  {
    start := 0;
    while start < |known| && KeyLess(known[start].package, known[start].version, package, ZERO)
      invariant start <= |known|
      invariant forall j :: 0 <= j < start ==> KeyLess(known[j].package, known[j].version, package, ZERO)
    {
      start := start + 1;
    }
  }

  lemma BeforeBlock<E>(known: seq<Stored<E>>, package: seq<byte>, start: nat)
    requires start <= |known|
    requires forall j :: 0 <= j < start ==> KeyLess(known[j].package, known[j].version, package, ZERO)
    ensures forall j :: 0 <= j < start && known[j].package == package ==> VersionLess(known[j].version, ZERO)
  {
    LexTotal(package, package);
  }

  lemma AfterStart<E>(known: seq<Stored<E>>, package: seq<byte>, start: nat, i: nat)
    requires Ordered(known) && start <= i < |known|
    requires !KeyLess(known[start].package, known[start].version, package, ZERO)
    ensures !KeyLess(known[i].package, known[i].version, package, ZERO)
  {
    if start < i && KeyLess(known[i].package, known[i].version, package, ZERO) {
      assert KeyLess(known[start].package, known[start].version, known[i].package, known[i].version);
      KeyTransitive(known[start], known[i].package, known[i].version, package, ZERO);
    }
  }

  /** `winner` is the best candidate of `known[start..i]`, and all of those are at or above 0.0.0. */
  ghost predicate ScanState<E>(
    known: seq<Stored<E>>, package: seq<byte>, matches: Version -> bool, start: nat, i: nat, winner: Option<nat>)
    requires start <= i <= |known|
  {
    match winner
    case None => forall j :: start <= j < i ==> !Candidate(known[j], package, matches)
    case Some(w) =>
      && start <= w < i && Candidate(known[w], package, matches)
      && forall j :: start <= j < i && Candidate(known[j], package, matches) ==>
           !VersionLess(known[w].version, known[j].version)
  }

  lemma StepUp<E>(known: seq<Stored<E>>, package: seq<byte>, matches: Version -> bool, start: nat, i: nat, w: nat)
    requires start <= i < |known| && ScanState(known, package, matches, start, i, Some(w))
    requires Candidate(known[i], package, matches) && VersionLess(known[w].version, known[i].version)
    ensures ScanState(known, package, matches, start, i + 1, Some(i))
  {
    forall j | start <= j <= i && Candidate(known[j], package, matches)
      ensures !VersionLess(known[i].version, known[j].version)
    {
      if j == i {
        VersionTotal(known[i].version, known[i].version);
      } else if VersionLess(known[i].version, known[j].version) {
        LexTransitive(Rank(known[w].version), Rank(known[i].version), Rank(known[j].version));
        assert false;
      }
    }
  }

  lemma ScanIsComplete<E>(
    known: seq<Stored<E>>, package: seq<byte>, matches: Version -> bool, start: nat, i: nat, winner: Option<nat>)
    requires Ordered(known) && start <= i <= |known| && ScanState(known, package, matches, start, i, winner)
    requires start < |known| ==> !KeyLess(known[start].package, known[start].version, package, ZERO)
    requires forall j :: 0 <= j < start && known[j].package == package ==> VersionLess(known[j].version, ZERO)
    requires forall j :: i <= j < |known| ==> known[j].package != package
    ensures winner.Some? ==> Best(known, package, matches, winner.value)
    ensures winner.None? <==> forall j :: 0 <= j < |known| && Candidate(known[j], package, matches) ==>
                                VersionLess(known[j].version, ZERO)
  {
    if winner.Some? {
      var w := winner.value;
      AfterStart(known, package, start, w);
      forall j | 0 <= j < |known| && Candidate(known[j], package, matches)
        ensures !VersionLess(known[w].version, known[j].version)
      {
        if j < start && VersionLess(known[w].version, known[j].version) {
          LexTransitive(Rank(known[w].version), Rank(known[j].version), Rank(ZERO));
          assert false;
        }
      }
    }
  }

  method ScanRange<E>(known: seq<Stored<E>>, package: seq<byte>, matches: Version -> bool, start: nat)
    returns (winner: Option<nat>)
    requires Ordered(known) && start <= |known|
    requires forall j :: 0 <= j < start ==> KeyLess(known[j].package, known[j].version, package, ZERO)
    requires start < |known| ==> !KeyLess(known[start].package, known[start].version, package, ZERO)
    ensures winner.Some? ==> Best(known, package, matches, winner.value)
    ensures winner.None? <==> forall j :: 0 <= j < |known| && Candidate(known[j], package, matches) ==>
                                VersionLess(known[j].version, ZERO)
  {
    BeforeBlock(known, package, start);
    var i := start;
    winner := None;
    while i < |known|
      invariant start <= i <= |known|
      invariant ScanState(known, package, matches, start, i, winner)
    {
      AfterStart(known, package, start, i);
      if known[i].package != package {
        forall j | i <= j < |known|
          ensures known[j].package != package
        {
          BlockEnds(known, package, i, j);
        }
        break;
      }
      if matches(known[i].version) {
        if winner.Some? {
          if VersionLess(known[winner.value].version, known[i].version) {
            StepUp(known, package, matches, start, i, winner.value);
            winner := Some(i);
          }
        } else {
          VersionTotal(known[i].version, known[i].version);
          winner := Some(i);
        }
      }
      i := i + 1;
    }
    ScanIsComplete(known, package, matches, start, i, winner);
  }

  /**
   * The in-memory scan: a range from (package, 0.0.0), left at the first other package. Its winner is
   * the best of all stored candidates; it misses exactly the candidates below 0.0.0.
   */
  method FindBestInMemory<E>(known: seq<Stored<E>>, package: seq<byte>, matches: Version -> bool)
    returns (winner: Option<nat>)
    requires Ordered(known)
    ensures winner.Some? ==> Best(known, package, matches, winner.value)
    ensures winner.None? <==> forall j :: 0 <= j < |known| && Candidate(known[j], package, matches) ==>
                                VersionLess(known[j].version, ZERO)
    ensures winner == LastMatch(known, package, matches)
  {
    var start := RangeStart(known, package);
    winner := ScanRange(known, package, matches, start);
    LastMatchIsBest(known, package, matches);
    if winner.Some? {
      BestIsUnique(known, package, matches, winner.value, LastMatch(known, package, matches).value);
    }
  }

  // ---- The directory registry

  /** `v` is one of the listed matches, and none is newer. */
  ghost predicate IsGreatest(versions: seq<Version>, matches: Version -> bool, v: Version)
  {
    v in versions && matches(v) && forall u :: u in versions && matches(u) ==> !VersionLess(v, u)
  }

  lemma GreatestIsUnique(versions: seq<Version>, matches: Version -> bool, v: Version, u: Version)
    requires IsGreatest(versions, matches, v) && IsGreatest(versions, matches, u)
    ensures v == u
  {
    VersionTotal(v, u);
  }

  function Greatest(versions: seq<Version>, matches: Version -> bool): Option<Version>
  {
    if versions == [] then None
    else
      var last := versions[|versions| - 1];
      var before := Greatest(versions[..|versions| - 1], matches);
      if matches(last) && (before.None? || VersionLess(before.value, last)) then Some(last) else before
  }

  /** The winner of the listing is its greatest match, whatever the order; there is none exactly without a match. */
  lemma {:induction false} GreatestIsGreatest(versions: seq<Version>, matches: Version -> bool)
    ensures match Greatest(versions, matches)
            case Some(v) => IsGreatest(versions, matches, v)
            case None => forall v :: v in versions ==> !matches(v)
    decreases |versions|
  {
    if versions != [] {
      var n := |versions| - 1;
      var last, before := versions[n], Greatest(versions[..n], matches);
      GreatestIsGreatest(versions[..n], matches);
      assert versions == versions[..n] + [last];
      VersionTotal(last, last);
      if before.Some? && VersionLess(before.value, last) {
        forall u | u in versions[..n] && matches(u)
          ensures !VersionLess(last, u)
        {
          if VersionLess(last, u) {
            LexTransitive(Rank(before.value), Rank(last), Rank(u));
          }
        }
      }
    }
  }

  /** The directory scan: any order, and no lower limit. */
  method FindBestInDirectory(versions: seq<Version>, matches: Version -> bool) returns (winner: Option<Version>)
    ensures winner.Some? ==> IsGreatest(versions, matches, winner.value)
    ensures winner.None? <==> forall v :: v in versions ==> !matches(v)
    ensures winner == Greatest(versions, matches)
  {
    winner := None;
    for i := 0 to |versions|
      invariant winner == Greatest(versions[..i], matches)
    {
      assert versions[..i + 1][..i] == versions[..i];
      var version := versions[i];
      if matches(version) {
        if winner.Some? {
          if VersionLess(winner.value, version) {
            winner := Some(version);
          }
        } else {
          winner := Some(version);
        }
      }
    }
    assert versions[..|versions|] == versions;
    GreatestIsGreatest(versions, matches);
  }
}
