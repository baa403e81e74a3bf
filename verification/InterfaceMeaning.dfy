/** What resolving means on a graph without cycles: there the visited list has no influence, and
    the physical interface is told by the graph alone. */
module InterfaceMeaning {
  import opened Common
  import opened Interfaces

  /** Every edge leads downwards. */
  ghost predicate Ranked(g: Graph, rank: map<string, nat>) {
    && g.Keys <= rank.Keys
    && forall a, b :: a in g && b in g && Edge(g, a, b) ==> rank[b] < rank[a]
  }

  /** The interface that this one stands for: what its active slave stands for, if that is
      anything; for a bridge otherwise the best that its ports stand for; and for any other what
      its lower device stands for, or else itself. */
  ghost function Meaning(g: Graph, rank: map<string, nat>, x: string): Option<string>
    requires Ranked(g, rank) && x in g
    decreases rank[x], 0
  {
    var slave := if g[x].activeSlave.Some? then Below(g, rank, x, g[x].activeSlave.value) else None;
    var lower := if g[x].lower.Some? then Below(g, rank, x, g[x].lower.value) else None;
    if slave.Some? then slave
    else if g[x].ports.Some? then Best(g, PortMeanings(g, rank, x, g[x].ports.value))
    else if lower.Some? then lower
    else Some(x)
  }

  /** One step down from `x`; what does not exist stands for nothing. */
  ghost function Below(g: Graph, rank: map<string, nat>, x: string, y: string): Option<string>
    requires Ranked(g, rank) && x in g && Edge(g, x, y)
    decreases rank[x], 0, 0
  {
    if y in g then Meaning(g, rank, y) else None
  }

  ghost function PortMeanings(g: Graph, rank: map<string, nat>, x: string, ports: seq<string>): seq<string>
    requires Ranked(g, rank) && x in g && g[x].ports.Some? && forall p :: p in ports ==> p in g[x].ports.value
    decreases rank[x], 0, |ports|
  {
    if ports == [] then []
    else
      var found := Below(g, rank, x, ports[|ports| - 1]);
      PortMeanings(g, rank, x, ports[..|ports| - 1]) + if found.Some? then [found.value] else []
  }

  /** What was visited before stands for nothing, or lies above. */
  ghost predicate Harmless(g: Graph, rank: map<string, nat>, visited: set<string>, x: string)
    requires Ranked(g, rank)
  {
    forall v :: v in visited && v in g ==> Meaning(g, rank, v).None? || (x in g ==> rank[x] < rank[v])
  }

  /** These visits came to nothing. */
  ghost predicate InVain(g: Graph, rank: map<string, nat>, before: set<string>, after: set<string>)
    requires Ranked(g, rank)
  {
    forall v :: v in after && v !in before && v in g ==> Meaning(g, rank, v).None?
  }

  lemma HarmlessBelow(g: Graph, rank: map<string, nat>, visited: set<string>, after: set<string>, x: string, y: string)
    requires Ranked(g, rank) && x in g && Edge(g, x, y) && Harmless(g, rank, visited, x)
    requires InVain(g, rank, visited + {x}, after)
    ensures Harmless(g, rank, after, y)
  {
    forall v | v in after && v in g
      ensures Meaning(g, rank, v).None? || (y in g ==> rank[y] < rank[v])
    {
      if v in visited + {x} && v != x {
        assert v in visited;
      }
    }
  }

  /** The walk finds what the graph means, whatever it has visited above or in vain; where it finds
      nothing, all it has visited stands for nothing. */
  lemma {:induction false} ResolveFindsMeaning(g: Graph, rank: map<string, nat>, x: string, visited: set<string>)
    requires Ranked(g, rank) && Harmless(g, rank, visited, x)
    ensures Resolve(g, x, visited).0 == if x in g then Meaning(g, rank, x) else None
    ensures Resolve(g, x, visited).0.None? ==> InVain(g, rank, visited, Resolve(g, x, visited).1)
    decreases if x in g then 1 + rank[x] else 0
  {
    if x in g && x !in visited {
      var here := visited + {x};
      if g[x].activeSlave.Some? {
        HarmlessBelow(g, rank, visited, here, x, g[x].activeSlave.value);
        ResolveFindsMeaning(g, rank, g[x].activeSlave.value, here);
      }
      var bond := Bond(g, x, visited);
      if bond.0.None? {
        if g[x].ports.Some? {
          PortsFindMeanings(g, rank, x, visited, bond.1, g[x].ports.value);
        } else if g[x].lower.Some? {
          HarmlessBelow(g, rank, visited, bond.1, x, g[x].lower.value);
          ResolveFindsMeaning(g, rank, g[x].lower.value, bond.1);
        }
      }
    }
  }

  lemma {:induction false} PortsFindMeanings(g: Graph, rank: map<string, nat>, x: string, visited: set<string>,
                                             after: set<string>, ports: seq<string>)
    requires Ranked(g, rank) && x in g && g[x].ports.Some? && forall p :: p in ports ==> p in g[x].ports.value
    requires Harmless(g, rank, visited, x) && InVain(g, rank, visited + {x}, after)
    ensures Candidates(g, ports, after) == PortMeanings(g, rank, x, ports)
    decreases 1 + rank[x], |ports|
  {
    if ports != [] {
      var port := ports[|ports| - 1];
      PortsFindMeanings(g, rank, x, visited, after, ports[..|ports| - 1]);
      HarmlessBelow(g, rank, visited, after, x, port);
      ResolveFindsMeaning(g, rank, port, after);
    }
  }

  /** On a graph without cycles the walk from any interface finds exactly what it stands for. */
  lemma AcyclicWalkIsMeaning(g: Graph, rank: map<string, nat>, x: string)
    requires Ranked(g, rank) && x in g
    ensures Resolve(g, x, {}).0 == Meaning(g, rank, x)
  {
    ResolveFindsMeaning(g, rank, x, {});
  }

  /** Whether anything is below `x` at `y`. */
  ghost predicate LeadsOn(g: Graph, rank: map<string, nat>, y: Option<string>)
    requires Ranked(g, rank)
  {
    y.Some? && y.value in g && Meaning(g, rank, y.value).Some?
  }

  lemma {:induction false} PortMeaningFrom(g: Graph, rank: map<string, nat>, x: string, ports: seq<string>,
                                           found: string)
    returns (port: string)
    requires Ranked(g, rank) && x in g && g[x].ports.Some? && forall p :: p in ports ==> p in g[x].ports.value
    requires found in PortMeanings(g, rank, x, ports)
    ensures port in ports && port in g && Meaning(g, rank, port) == Some(found)
    decreases |ports|
  {
    var init, last := ports[..|ports| - 1], ports[|ports| - 1];
    if found in PortMeanings(g, rank, x, init) {
      port := PortMeaningFrom(g, rank, x, init, found);
    } else {
      port := last;
    }
  }

  /** What is found stands for itself: it is no bridge, and neither its active slave nor its lower
      device leads to anything. */
  lemma {:induction false} MeaningIsAtTheBottom(g: Graph, rank: map<string, nat>, x: string)
    requires Ranked(g, rank) && x in g && Meaning(g, rank, x).Some?
    ensures var found := Meaning(g, rank, x).value;
      && found in g && g[found].ports.None?
      && !LeadsOn(g, rank, g[found].activeSlave) && !LeadsOn(g, rank, g[found].lower)
    decreases rank[x]
  {
    if LeadsOn(g, rank, g[x].activeSlave) {
      assert Edge(g, x, g[x].activeSlave.value);
      MeaningIsAtTheBottom(g, rank, g[x].activeSlave.value);
    } else if g[x].ports.Some? {
      var found := Meaning(g, rank, x).value;
      var port := PortMeaningFrom(g, rank, x, g[x].ports.value, found);
      assert Edge(g, x, port);
      MeaningIsAtTheBottom(g, rank, port);
    } else if LeadsOn(g, rank, g[x].lower) {
      assert Edge(g, x, g[x].lower.value);
      MeaningIsAtTheBottom(g, rank, g[x].lower.value);
    }
  }

  /** Every bridge has a port, or an active slave, that exists. */
  ghost predicate NoEmptyBridge(g: Graph) {
    forall x :: x in g && g[x].ports.Some? ==>
      (g[x].activeSlave.Some? && g[x].activeSlave.value in g) || exists p :: p in g[x].ports.value && p in g
  }

  lemma {:induction false} PortMeansSomething(g: Graph, rank: map<string, nat>, x: string, ports: seq<string>,
                                              port: string)
    requires Ranked(g, rank) && x in g && g[x].ports.Some? && forall p :: p in ports ==> p in g[x].ports.value
    requires port in ports && port in g && Meaning(g, rank, port).Some?
    ensures PortMeanings(g, rank, x, ports) != []
    decreases |ports|
  {
    if port != ports[|ports| - 1] {
      PortMeansSomething(g, rank, x, ports[..|ports| - 1], port);
    }
  }

  lemma {:induction false} EverythingMeansSomething(g: Graph, rank: map<string, nat>, x: string)
    requires Ranked(g, rank) && x in g && NoEmptyBridge(g)
    ensures Meaning(g, rank, x).Some?
    decreases rank[x]
  {
    if g[x].activeSlave.Some? && g[x].activeSlave.value in g {
      assert Edge(g, x, g[x].activeSlave.value);
      EverythingMeansSomething(g, rank, g[x].activeSlave.value);
    } else if g[x].ports.Some? {
      var port :| port in g[x].ports.value && port in g;
      assert Edge(g, x, port);
      EverythingMeansSomething(g, rank, port);
      PortMeansSomething(g, rank, x, g[x].ports.value, port);
    }
  }

  /** Without cycles and empty bridges, what the walk finds is a bottom of the graph: it has neither
      an existing active slave nor an existing lower device, and is no bridge. */
  lemma FoundIsPhysical(g: Graph, rank: map<string, nat>, x: string)
    requires Ranked(g, rank) && x in g && NoEmptyBridge(g)
    ensures Resolve(g, x, {}).0.Some?
    ensures var found := Resolve(g, x, {}).0.value;
      && found in g && g[found].ports.None?
      && (g[found].activeSlave.Some? ==> g[found].activeSlave.value !in g)
      && (g[found].lower.Some? ==> g[found].lower.value !in g)
  {
    AcyclicWalkIsMeaning(g, rank, x);
    EverythingMeansSomething(g, rank, x);
    MeaningIsAtTheBottom(g, rank, x);
    var found := Meaning(g, rank, x).value;
    if g[found].activeSlave.Some? && g[found].activeSlave.value in g {
      EverythingMeansSomething(g, rank, g[found].activeSlave.value);
    }
    if g[found].lower.Some? && g[found].lower.value in g {
      EverythingMeansSomething(g, rank, g[found].lower.value);
    }
  }

  /** With an empty bridge it need not be: a VLAN above one is taken for the physical interface. */
  lemma EmptyBridgeBelow()
    ensures var g: Graph := map["br0.10" := Node(None, None, Some("br0"), false, true, 0),
                                "br0" := Node(None, Some([]), None, false, true, 0)];
      Resolve(g, "br0.10", {}).0 == Some("br0.10") && g["br0.10"].lower == Some("br0") && "br0" in g
  {
    var g: Graph := map["br0.10" := Node(None, None, Some("br0"), false, true, 0),
                        "br0" := Node(None, Some([]), None, false, true, 0)];
    assert Resolve(g, "br0", {"br0.10"}).0 == None;
    assert {} + {"br0.10"} == {"br0.10"};
  }
}
