/** Finding the physical interface behind a routed one: a walk over bonds, bridges and
    lower devices in a graph that may have cycles. */
module Interfaces {
  import opened Common

  /** What /sys/class/net says of one interface. A bridge has ports, in directory order. */
  datatype Node = Node(
    activeSlave: Option<string>, ports: Option<seq<string>>, lower: Option<string>,
    physical: bool, up: bool, speed: nat)

  type Graph = map<string, Node>

  // ---------------------------------------------------------------- the order of candidates

  predicate Before(a: string, b: string)
  {
    b != [] && (a == [] || a[0] < b[0] || (a[0] == b[0] && Before(a[1..], b[1..])))
  }

  lemma {:induction false} BeforeIsTotal(a: string, b: string)
    ensures a != b ==> Before(a, b) || Before(b, a)
    ensures !(Before(a, b) && Before(b, a))
  {
    if a != [] && b != [] {
      BeforeIsTotal(a[1..], b[1..]);
      assert a == [a[0]] + a[1..] && b == [b[0]] + b[1..];
    }
  }

  lemma {:induction false} BeforeIsTransitive(a: string, b: string, c: string)
    requires Before(a, b) && Before(b, c)
    ensures Before(a, c)
  {
    if a != [] && a[0] == b[0] == c[0] {
      BeforeIsTransitive(a[1..], b[1..], c[1..]);
    }
  }

  /** The names agree up to `k`, where `a` ends or has the smaller character. */
  ghost predicate DiffersAt(a: string, b: string, k: nat) {
    k <= |a| && k < |b| && a[..k] == b[..k] && (k == |a| || a[k] < b[k])
  }

  lemma {:induction false} BeforeIsLexicographic(a: string, b: string) returns (k: nat)
    ensures Before(a, b) ==> DiffersAt(a, b, k)
    ensures (exists n: nat :: DiffersAt(a, b, n)) ==> Before(a, b)
  {
    k := 0;
    if a != [] && b != [] && a[0] == b[0] {
      var n := BeforeIsLexicographic(a[1..], b[1..]);
      k := n + 1;
      assert a == [a[0]] + a[1..] && b == [b[0]] + b[1..];
      forall m: nat | DiffersAt(a, b, m) ensures Before(a, b) {
        assert m > 0;
        assert a[..m][1..] == a[1..][..m - 1] && b[..m][1..] == b[1..][..m - 1];
        assert DiffersAt(a[1..], b[1..], m - 1);
      }
    } else {
      forall m: nat | DiffersAt(a, b, m) ensures Before(a, b) {
        FirstAgrees(a, b, m);
      }
    }
  }

  lemma FirstAgrees(a: string, b: string, k: nat)
    requires DiffersAt(a, b, k)
    ensures k > 0 ==> a != [] && b != [] && a[0] == b[0]
  {
    assert k > 0 ==> a[..k][0] == b[..k][0];
  }

  /** The quality of a resolved interface: physical, then link up, then speed. */
  datatype Quality = Quality(physical: bool, up: bool, speed: nat)

  function QualityOf(g: Graph, name: string): Quality {
    if name in g then Quality(g[name].physical, g[name].up, g[name].speed) else Quality(false, false, 0)
  }

  predicate Worse(a: Quality, b: Quality)
  {
    if a.physical != b.physical then b.physical
    else if a.up != b.up then b.up
    else a.speed < b.speed
  }

  /** `b` is preferred to `a`: better, or as good and later by name. */
  predicate Yields(g: Graph, a: string, b: string)
  {
    || Worse(QualityOf(g, a), QualityOf(g, b))
    || (QualityOf(g, a) == QualityOf(g, b) && Before(a, b))
  }

  lemma YieldsIsTotalOrder(g: Graph, a: string, b: string, c: string)
    ensures a != b ==> Yields(g, a, b) || Yields(g, b, a)
    ensures !(Yields(g, a, b) && Yields(g, b, a))
    ensures Yields(g, a, b) && Yields(g, b, c) ==> Yields(g, a, c)
  {
    BeforeIsTotal(a, b);
    if Before(a, b) && Before(b, c) {
      BeforeIsTransitive(a, b, c);
    }
  }

  /** The one candidate that no other is preferred to. */
  ghost predicate IsBest(g: Graph, candidates: seq<string>, best: string)
  {
    best in candidates && forall c :: c in candidates ==> c == best || Yields(g, c, best)
  }

  lemma BestIsUnique(g: Graph, cs: seq<string>, ds: seq<string>, a: string, b: string)
    requires forall x :: x in cs <==> x in ds
    requires IsBest(g, cs, a) && IsBest(g, ds, b)
    ensures a == b
  {
    YieldsIsTotalOrder(g, a, b, a);
  }

  function Best(g: Graph, candidates: seq<string>): (r: Option<string>)
    ensures r.None? <==> candidates == []
    ensures r.Some? ==> IsBest(g, candidates, r.value)
  {
    if candidates == [] then None
    else
      var rest := Best(g, candidates[1..]);
      assert forall c :: c in candidates <==> c == candidates[0] || c in candidates[1..];
      if rest.None? then Some(candidates[0])
      else
        assert forall c :: c in candidates[1..] ==> c == rest.value || Yields(g, c, rest.value);
        YieldsFromRest(g, candidates, rest.value);
        if Yields(g, rest.value, candidates[0]) then Some(candidates[0]) else rest
  }

  lemma YieldsFromRest(g: Graph, candidates: seq<string>, best: string)
    requires candidates != [] && IsBest(g, candidates[1..], best)
    ensures IsBest(g, candidates, if Yields(g, best, candidates[0]) then candidates[0] else best)
  {
    forall c | c in candidates[1..]
      ensures Yields(g, best, candidates[0]) ==> c == candidates[0] || Yields(g, c, candidates[0])
    {
      YieldsIsTotalOrder(g, c, best, candidates[0]);
    }
    YieldsIsTotalOrder(g, candidates[0], best, best);
  }

  // ---------------------------------------------------------------- the walk

  /** The interface found, and everything visited on the way. */
  function Resolve(g: Graph, name: string, visited: set<string>): (r: (Option<string>, set<string>))
    ensures visited <= r.1
    decreases g.Keys - visited, 0
  {
    if name in visited then (None, visited)
    else if name !in g then (None, visited + {name})
    else
      var here := visited + {name};
      Shrinks(g.Keys, visited, here, name);
      var bond := if g[name].activeSlave.Some? then Resolve(g, g[name].activeSlave.value, here) else (None, here);
      Shrinks(g.Keys, visited, bond.1, name);
      if bond.0.Some? then bond
      else if g[name].ports.Some? then (Best(g, Candidates(g, g[name].ports.value, bond.1)), bond.1)
      else
        var lower := if g[name].lower.Some? then Resolve(g, g[name].lower.value, bond.1) else (None, bond.1);
        if lower.0.Some? then lower else (Some(name), lower.1)
  }

  lemma Shrinks(keys: set<string>, before: set<string>, after: set<string>, x: string)
    requires before <= after && x in keys && x !in before && x in after
    ensures keys - after < keys - before
  {
    assert x in keys - before && x !in keys - after;
  }

  /** What the ports resolve to, each from the same visited set. */
  function Candidates(g: Graph, ports: seq<string>, visited: set<string>): seq<string>
    decreases g.Keys - visited, 1 + |ports|
  {
    if ports == [] then []
    else
      var found := Resolve(g, ports[|ports| - 1], visited).0;
      Candidates(g, ports[..|ports| - 1], visited) + if found.Some? then [found.value] else []
  }

  // ---------------------------------------------------------------- the code

  class Visited {
    var names: seq<string>

    ghost function Set(): set<string>
      reads this
    {
      set x | x in names
    }

    constructor (names: seq<string>)
      ensures this.names == names
    {
      this.names := names;
    }
  }

  function Inserted(s: seq<string>, x: string): seq<string>
  {
    if s == [] then [x]
    else if Before(s[|s| - 1], x) || s[|s| - 1] == x then s + [x]
    else Inserted(s[..|s| - 1], x) + [s[|s| - 1]]
  }

  /** Library sort. */
  function Sort(s: seq<string>): seq<string> {
    if s == [] then [] else Inserted(Sort(s[..|s| - 1]), s[|s| - 1])
  }

  ghost predicate Ascending(s: seq<string>) {
    forall i, j :: 0 <= i < j < |s| ==> s[i] == s[j] || Before(s[i], s[j])
  }

  lemma {:induction false} InsertedAscends(s: seq<string>, x: string)
    requires Ascending(s)
    ensures Ascending(Inserted(s, x))
    ensures forall y :: y in Inserted(s, x) <==> y == x || y in s
    decreases |s|
  {
    if s != [] {
      var init, last := s[..|s| - 1], s[|s| - 1];
      BeforeIsTotal(last, x);
      if Before(last, x) || last == x {
        forall i | 0 <= i < |s| ensures s[i] == x || Before(s[i], x) {
          if Before(s[i], last) && Before(last, x) {
            BeforeIsTransitive(s[i], last, x);
          }
        }
      } else {
        InsertedAscends(init, x);
        forall y | y in Inserted(init, x) ensures y == last || Before(y, last) {
          assert y in init ==> y == last || Before(y, last);
        }
        assert forall y :: y in s <==> y in init || y == last;
      }
    }
  }

  lemma {:induction false} SortAscends(s: seq<string>)
    ensures Ascending(Sort(s)) && (forall y :: y in Sort(s) <==> y in s)
    decreases |s|
  {
    if s != [] {
      SortAscends(s[..|s| - 1]);
      InsertedAscends(Sort(s[..|s| - 1]), s[|s| - 1]);
      assert forall y :: y in s <==> y in s[..|s| - 1] || y == s[|s| - 1];
    }
  }

  /** The last of the best, after sorting by name. */
  method PickCandidate(g: Graph, candidates: seq<string>) returns (r: Option<string>)
    ensures r == Best(g, candidates)
  {
    var sorted := Sort(candidates);
    SortAscends(candidates);
    assert candidates == [] || candidates[0] in candidates;
    if sorted == [] {
      return None;
    }
    var best := 0;
    for k := 1 to |sorted|
      invariant best < k
      invariant forall j :: 0 <= j < k ==> sorted[j] == sorted[best] || Yields(g, sorted[j], sorted[best])
    {
      ghost var before := sorted[best];
      if !Worse(QualityOf(g, sorted[k]), QualityOf(g, sorted[best])) {
        assert sorted[k] == before || Yields(g, before, sorted[k]);
        best := k;
        forall j | 0 <= j < k ensures sorted[j] == sorted[best] || Yields(g, sorted[j], sorted[best]) {
          YieldsIsTotalOrder(g, sorted[j], before, sorted[best]);
        }
      }
    }
    r := Some(sorted[best]);
    BestIsUnique(g, sorted, candidates, sorted[best], Best(g, candidates).value);
  }

  method ResolveInterface(g: Graph, name: string, visited: Visited) returns (r: Option<string>)
    modifies visited
    ensures (r, visited.Set()) == Resolve(g, name, old(visited.Set()))
    decreases g.Keys - visited.Set(), 0
  {
    if name in visited.names {
      return None;
    }
    ghost var before := visited.Set();
    visited.names := visited.names + [name];
    assert visited.Set() == before + {name};
    if name !in g {
      return None;
    }
    Shrinks(g.Keys, before, visited.Set(), name);
    if g[name].activeSlave.Some? {
      r := ResolveInterface(g, g[name].activeSlave.value, visited);
      if r.Some? {
        return;
      }
    }
    Shrinks(g.Keys, before, visited.Set(), name);
    if g[name].ports.Some? {
      var candidates := ResolvePorts(g, g[name].ports.value, visited);
      r := PickCandidate(g, candidates);
      return;
    }
    if g[name].lower.Some? {
      r := ResolveInterface(g, g[name].lower.value, visited);
      if r.Some? {
        return;
      }
    }
    return Some(name);
  }

  /** Every port from a copy of the visited list. */
  method ResolvePorts(g: Graph, ports: seq<string>, visited: Visited) returns (candidates: seq<string>)
    ensures candidates == Candidates(g, ports, visited.Set())
    decreases g.Keys - visited.Set(), 1 + |ports|
  {
    candidates := [];
    for k := 0 to |ports|
      invariant candidates == Candidates(g, ports[..k], visited.Set())
    {
      assert ports[..k + 1][..k] == ports[..k];
      var branch := new Visited(visited.names);
      assert branch.Set() == visited.Set();
      var found := ResolveInterface(g, ports[k], branch);
      if found.Some? {
        candidates := candidates + [found.value];
      } else {
        assert candidates + [] == candidates;
      }
    }
    assert ports[..|ports|] == ports;
  }

  // ---------------------------------------------------------------- what is found

  predicate Edge(g: Graph, a: string, b: string)
  {
    && a in g
    && (g[a].activeSlave == Some(b) || g[a].lower == Some(b) || (g[a].ports.Some? && b in g[a].ports.value))
  }

  /** A path of edges from `a` to `b`. */
  ghost predicate Path(g: Graph, a: string, b: string, path: seq<string>)
  {
    && path != [] && path[0] == a && path[|path| - 1] == b
    && forall k :: 0 < k < |path| ==> Edge(g, path[k - 1], path[k])
  }

  lemma {:induction false} CandidateHasPort(g: Graph, ports: seq<string>, visited: set<string>,
                                            found: string) returns (port: string)
    requires found in Candidates(g, ports, visited)
    ensures port in ports && Resolve(g, port, visited).0 == Some(found)
    decreases |ports|
  {
    var init := ports[..|ports| - 1];
    if found in Candidates(g, init, visited) {
      port := CandidateHasPort(g, init, visited, found);
    } else {
      port := ports[|ports| - 1];
    }
  }

  /** Whatever is found exists, is reached over active slaves, bridge ports and lower devices,
      was not visited before, and is not a bridge. */
  lemma {:induction false} FoundIsReachable(g: Graph, name: string, visited: set<string>) returns (path: seq<string>)
    requires Resolve(g, name, visited).0.Some?
    ensures var found := Resolve(g, name, visited).0.value;
      && found in g && found !in visited && g[found].ports.None?
      && Path(g, name, found, path)
    decreases g.Keys - visited
  {
    var here := visited + {name};
    Shrinks(g.Keys, visited, here, name);
    var node := g[name];
    var bond := if node.activeSlave.Some? then Resolve(g, node.activeSlave.value, here) else (None, here);
    Shrinks(g.Keys, visited, bond.1, name);
    if bond.0.Some? {
      var rest := FoundIsReachable(g, node.activeSlave.value, here);
      path := [name] + rest;
    } else if node.ports.Some? {
      var found := Resolve(g, name, visited).0.value;
      var port := CandidateHasPort(g, node.ports.value, bond.1, found);
      var rest := FoundIsReachable(g, port, bond.1);
      path := [name] + rest;
    } else if node.lower.Some? && Resolve(g, node.lower.value, bond.1).0.Some? {
      var rest := FoundIsReachable(g, node.lower.value, bond.1);
      path := [name] + rest;
    } else {
      path := [name];
    }
  }

  // ---------------------------------------------------------------- the order of listing

  /** The same interfaces, with bridge ports listed in another order or repeated. */
  ghost predicate SameButListing(g: Graph, h: Graph)
  {
    && g.Keys == h.Keys
    && forall x :: x in g ==>
         && h[x] == g[x].(ports := h[x].ports)
         && (g[x].ports.Some? <==> h[x].ports.Some?)
         && (g[x].ports.Some? ==> forall p :: p in g[x].ports.value <==> p in h[x].ports.value)
  }

  lemma {:induction false} PortHasCandidate(g: Graph, ports: seq<string>, visited: set<string>, port: string)
    requires port in ports && Resolve(g, port, visited).0.Some?
    ensures Resolve(g, port, visited).0.value in Candidates(g, ports, visited)
    decreases |ports|
  {
    if port != ports[|ports| - 1] {
      PortHasCandidate(g, ports[..|ports| - 1], visited, port);
    }
  }

  /** What trying the active slave leaves: the result, and the visited set for what follows. */
  function Bond(g: Graph, name: string, visited: set<string>): (Option<string>, set<string>)
    requires name in g
  {
    var here := visited + {name};
    if g[name].activeSlave.Some? then Resolve(g, g[name].activeSlave.value, here) else (None, here)
  }

  /** A bridge resolves exactly if some port does, and then to what one of its ports resolves
      to, preferred to what any other port resolves to. */
  lemma BridgeTakesTheBest(g: Graph, name: string, visited: set<string>)
    requires name in g && name !in visited && Bond(g, name, visited).0.None? && g[name].ports.Some?
    ensures var after, found := Bond(g, name, visited).1, Resolve(g, name, visited).0;
      && (found.Some? <==> exists p :: p in g[name].ports.value && Resolve(g, p, after).0.Some?)
      && (found.Some? ==>
            && (exists p :: p in g[name].ports.value && Resolve(g, p, after).0 == found)
            && (forall p :: p in g[name].ports.value && Resolve(g, p, after).0.Some? ==>
                  var other := Resolve(g, p, after).0.value; other == found.value || Yields(g, other, found.value)))
  {
    var after, ports := Bond(g, name, visited).1, g[name].ports.value;
    var candidates, found := Candidates(g, ports, after), Resolve(g, name, visited).0;
    assert found == Best(g, candidates);
    forall p | p in ports && Resolve(g, p, after).0.Some?
      ensures Resolve(g, p, after).0.value in candidates
    {
      PortHasCandidate(g, ports, after, p);
    }
    if found.Some? {
      var port := CandidateHasPort(g, ports, after, found.value);
    }
  }

  /** `b` has a device where `a` has none; or neither differs there and its link is up where the
      other's is not; or neither differs there either and it is faster; or it is as fast and its
      name is the later one. */
  ghost predicate Outdoes(g: Graph, a: string, b: string)
    requires a in g && b in g
  {
    || (!g[a].physical && g[b].physical)
    || (g[a].physical == g[b].physical
        && (|| (!g[a].up && g[b].up)
            || (g[a].up == g[b].up
                && (g[a].speed < g[b].speed
                    || (g[a].speed == g[b].speed && exists k: nat :: DiffersAt(a, b, k))))))
  }

  /** So the port that is taken outdoes all others. */
  lemma BestPortOutdoesOthers(g: Graph, name: string, visited: set<string>, port: string)
    requires name in g && name !in visited && Bond(g, name, visited).0.None? && g[name].ports.Some?
    requires port in g[name].ports.value && Resolve(g, port, Bond(g, name, visited).1).0.Some?
    ensures var found, other := Resolve(g, name, visited).0, Resolve(g, port, Bond(g, name, visited).1).0.value;
      found.Some? && found.value in g && other in g && (other == found.value || Outdoes(g, other, found.value))
  {
    var after := Bond(g, name, visited).1;
    BridgeTakesTheBest(g, name, visited);
    var found, other := Resolve(g, name, visited).0.value, Resolve(g, port, after).0.value;
    var path := FoundIsReachable(g, name, visited);
    var way := FoundIsReachable(g, port, after);
    var k := BeforeIsLexicographic(other, found);
  }

  // ---------------------------------------------------------------- what each kind of interface takes

  /** A bond takes what its active slave resolves to, if that resolves. */
  lemma BondTakesItsSlave(g: Graph, name: string, visited: set<string>, slave: string)
    requires name in g && name !in visited && g[name].activeSlave == Some(slave)
    requires Resolve(g, slave, visited + {name}).0.Some?
    ensures Resolve(g, name, visited).0 == Resolve(g, slave, visited + {name}).0
  {
  }

  /** An interface that is no bridge, and whose active slave does not resolve, takes what its lower
      device resolves to, if that resolves; otherwise it is itself what is found. */
  lemma OthersTakeTheirLower(g: Graph, name: string, visited: set<string>)
    requires name in g && name !in visited && g[name].ports.None? && Bond(g, name, visited).0.None?
    ensures var lower, after, found := g[name].lower, Bond(g, name, visited).1, Resolve(g, name, visited).0;
      && (lower.Some? && Resolve(g, lower.value, after).0.Some? ==> found == Resolve(g, lower.value, after).0)
      && (lower.None? || Resolve(g, lower.value, after).0.None? ==> found == Some(name))
  {
  }

  /** Nothing is found exactly at an interface that does not exist or was visited before, and at a
      bridge of which neither the active slave nor any port resolves. */
  lemma NothingFound(g: Graph, name: string, visited: set<string>)
    ensures Resolve(g, name, visited).0.None?
       <==> || name in visited || name !in g
            || (&& Bond(g, name, visited).0.None? && g[name].ports.Some?
                && forall p :: p in g[name].ports.value ==> Resolve(g, p, Bond(g, name, visited).1).0.None?)
  {
    if name !in visited && name in g && Bond(g, name, visited).0.None? && g[name].ports.Some? {
      BridgeTakesTheBest(g, name, visited);
    }
  }

  lemma SameQuality(g: Graph, h: Graph, cs: seq<string>, best: string)
    requires SameButListing(g, h)
    ensures IsBest(g, cs, best) <==> IsBest(h, cs, best)
  {
    assert forall x :: QualityOf(g, x) == QualityOf(h, x);
  }

  lemma SameCandidates(g: Graph, h: Graph, ps: seq<string>, qs: seq<string>, visited: set<string>)
    requires SameButListing(g, h) && (forall p :: p in ps <==> p in qs)
    requires forall p :: p in ps ==> Resolve(g, p, visited) == Resolve(h, p, visited)
    ensures Best(g, Candidates(g, ps, visited)) == Best(h, Candidates(h, qs, visited))
  {
    var cs, ds := Candidates(g, ps, visited), Candidates(h, qs, visited);
    forall x | x in cs ensures x in ds {
      var port := CandidateHasPort(g, ps, visited, x);
      PortHasCandidate(h, qs, visited, port);
    }
    forall x | x in ds ensures x in cs {
      var port := CandidateHasPort(h, qs, visited, x);
      PortHasCandidate(g, ps, visited, port);
    }
    assert (cs == [] || cs[0] in cs) && (ds == [] || ds[0] in ds);
    if cs != [] {
      SameQuality(g, h, cs, Best(g, cs).value);
      BestIsUnique(h, cs, ds, Best(g, cs).value, Best(h, ds).value);
    }
  }

  /** The order in which bridge ports are listed, anywhere in the graph, does not matter. */
  lemma {:induction false} ListingDoesNotMatter(g: Graph, h: Graph, name: string, visited: set<string>)
    requires SameButListing(g, h)
    ensures Resolve(g, name, visited) == Resolve(h, name, visited)
    decreases g.Keys - visited
  {
    if name !in visited && name in g {
      var here := visited + {name};
      Shrinks(g.Keys, visited, here, name);
      var node := g[name];
      if node.activeSlave.Some? {
        ListingDoesNotMatter(g, h, node.activeSlave.value, here);
      }
      var bond := if node.activeSlave.Some? then Resolve(g, node.activeSlave.value, here) else (None, here);
      Shrinks(g.Keys, visited, bond.1, name);
      if bond.0.None? && node.ports.Some? {
        forall p | p in node.ports.value ensures Resolve(g, p, bond.1) == Resolve(h, p, bond.1) {
          ListingDoesNotMatter(g, h, p, bond.1);
        }
        SameCandidates(g, h, node.ports.value, h[name].ports.value, bond.1);
      } else if bond.0.None? && node.lower.Some? {
        ListingDoesNotMatter(g, h, node.lower.value, bond.1);
      }
    }
  }
}
