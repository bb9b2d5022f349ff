/** Day 25 (src/day25.rs): the graph of components and wires, contracted
    phase by phase in the manner of Stoer and Wagner. A node is a
    component (possibly several merged ones), an edge a wire between the
    ids of its two ends; every node lists the ids of the edges at it.
    `get_min_slice` adds the nodes one at a time, each time the one with
    most edges into the nodes added so far, and reports the last two and
    the edges of the last one into the others; `join` merges two nodes;
    `find_triplet` repeats the two until a phase reports exactly three
    edges. */
module Day25Graph {
  import opened RustStd
  import opened Day25Info
  import opened Day25Reach

  /** Each node lists only edges that end at it, and each edge is listed
      by both of its ends. */
  ghost predicate Incident(nodes: map<nat, set<nat>>, edges: map<nat, (nat, nat)>)
  {
    ListsEnds(nodes, edges) && EndsListed(nodes, edges)
  }

  /** Each node lists only edges that end at it. */
  ghost predicate ListsEnds(nodes: map<nat, set<nat>>, edges: map<nat, (nat, nat)>)
  {
    forall n, e :: n in nodes && e in nodes[n] ==> e in edges && (edges[e].0 == n || edges[e].1 == n)
  }

  /** Each edge is listed by both of its ends. */
  ghost predicate EndsListed(nodes: map<nat, set<nat>>, edges: map<nat, (nat, nat)>)
  {
    forall e :: e in edges ==>
      edges[e].0 in nodes && edges[e].1 in nodes && e in nodes[edges[e].0] && e in nodes[edges[e].1]
  }

  /** An end after `u` and `v` have been merged into `n`. */
  function Renamed(x: nat, u: nat, v: nat, n: nat): nat
  {
    if x == u || x == v then n else x
  }

  function RenamedEdge(ends: (nat, nat), u: nat, v: nat, n: nat): (nat, nat)
  {
    (Renamed(ends.0, u, v, n), Renamed(ends.1, u, v, n))
  }

  /** The graph `nodes1`/`edges1` is `nodes0`/`edges0` with `u` and `v`
      merged into the new node `n`: `n` lists the edges at exactly one of
      them, the edges between them are gone, and every end `u` or `v` is
      now `n`. */
  ghost predicate Merged(nodes0: map<nat, set<nat>>, edges0: map<nat, (nat, nat)>, u: nat, v: nat, n: nat,
                         nodes1: map<nat, set<nat>>, edges1: map<nat, (nat, nat)>)
    requires u in nodes0 && v in nodes0
  {
    nodes1.Keys == nodes0.Keys - {u, v} + {n} &&
    nodes1[n] == (nodes0[u] - nodes0[v]) + (nodes0[v] - nodes0[u]) &&
    (forall x :: x in nodes1 && x != n ==> nodes1[x] == nodes0[x]) &&
    edges1.Keys == edges0.Keys - nodes0[u] * nodes0[v] &&
    (forall e :: e in edges1 ==> edges1[e] == RenamedEdge(edges0[e], u, v, n))
  }

  /** After merging, every listed edge still ends at the node listing it. */
  lemma MergedListsEnd(nodes0: map<nat, set<nat>>, edges0: map<nat, (nat, nat)>, u: nat, v: nat, n: nat,
                       nodes1: map<nat, set<nat>>, edges1: map<nat, (nat, nat)>)
    requires Incident(nodes0, edges0) && u in nodes0 && v in nodes0 && u != v && n !in nodes0
    requires Merged(nodes0, edges0, u, v, n, nodes1, edges1)
    ensures ListsEnds(nodes1, edges1)
  {
    forall x, e | x in nodes1 && e in nodes1[x]
      ensures e in edges1 && (edges1[e].0 == x || edges1[e].1 == x)
    {
      if x == n {
        if e in nodes0[u] {
          assert edges0[e].0 == u || edges0[e].1 == u;
        } else {
          assert edges0[e].0 == v || edges0[e].1 == v;
        }
      } else {
        assert e in nodes0[x];
        assert edges0[e].0 == x || edges0[e].1 == x;
      }
    }
  }

  /** An end `a` of edge `e` is, renamed, a node that lists `e`. */
  lemma MergedEnd(nodes0: map<nat, set<nat>>, edges0: map<nat, (nat, nat)>, u: nat, v: nat, n: nat,
                  nodes1: map<nat, set<nat>>, edges1: map<nat, (nat, nat)>, e: nat, a: nat)
    requires u in nodes0 && v in nodes0 && u != v && n !in nodes0
    requires Merged(nodes0, edges0, u, v, n, nodes1, edges1) && e in edges1
    requires a in nodes0 && e in nodes0[a]
    ensures Renamed(a, u, v, n) in nodes1 && e in nodes1[Renamed(a, u, v, n)]
  {
    assert !(e in nodes0[u] && e in nodes0[v]);
    if a == u || a == v {
      assert nodes1[n] == (nodes0[u] - nodes0[v]) + (nodes0[v] - nodes0[u]);
    } else {
      assert a in nodes1 && a != n;
      assert nodes1[a] == nodes0[a];
    }
  }

  lemma MergedEdge(nodes0: map<nat, set<nat>>, edges0: map<nat, (nat, nat)>, u: nat, v: nat, n: nat,
                   nodes1: map<nat, set<nat>>, edges1: map<nat, (nat, nat)>, e: nat)
    requires Incident(nodes0, edges0) && u in nodes0 && v in nodes0 && u != v && n !in nodes0
    requires Merged(nodes0, edges0, u, v, n, nodes1, edges1) && e in edges1
    ensures edges1[e].0 in nodes1 && edges1[e].1 in nodes1 && e in nodes1[edges1[e].0] && e in nodes1[edges1[e].1]
  {
    var a, b := edges0[e].0, edges0[e].1;
    assert e in edges0 && a in nodes0 && b in nodes0 && e in nodes0[a] && e in nodes0[b];
    assert edges1[e] == (Renamed(a, u, v, n), Renamed(b, u, v, n));
    MergedEnd(nodes0, edges0, u, v, n, nodes1, edges1, e, a);
    MergedEnd(nodes0, edges0, u, v, n, nodes1, edges1, e, b);
  }

  /** After merging, every edge is listed by both its ends. */
  lemma MergedEndsList(nodes0: map<nat, set<nat>>, edges0: map<nat, (nat, nat)>, u: nat, v: nat, n: nat,
                       nodes1: map<nat, set<nat>>, edges1: map<nat, (nat, nat)>)
    requires Incident(nodes0, edges0) && u in nodes0 && v in nodes0 && u != v && n !in nodes0
    requires Merged(nodes0, edges0, u, v, n, nodes1, edges1)
    ensures EndsListed(nodes1, edges1)
  {
    forall e | e in edges1
      ensures edges1[e].0 in nodes1 && edges1[e].1 in nodes1 && e in nodes1[edges1[e].0] && e in nodes1[edges1[e].1]
    {
      MergedEdge(nodes0, edges0, u, v, n, nodes1, edges1, e);
    }
  }

  lemma MergedCount(nodes0: map<nat, set<nat>>, u: nat, v: nat, n: nat, nodes1: map<nat, set<nat>>)
    requires u in nodes0 && v in nodes0 && u != v && n !in nodes0
    requires nodes1.Keys == nodes0.Keys - {u, v} + {n}
    ensures |nodes1| == |nodes0| - 1
  {
    assert nodes0.Keys == (nodes0.Keys - {u, v}) + {u, v};
    assert |nodes0.Keys - {u, v}| == |nodes0.Keys| - 2;
    assert |nodes1.Keys| == |nodes0.Keys - {u, v}| + 1;
  }

  /** Merging keeps the lists consistent and leaves one node fewer. */
  lemma MergedIncident(nodes0: map<nat, set<nat>>, edges0: map<nat, (nat, nat)>, u: nat, v: nat, n: nat,
                       nodes1: map<nat, set<nat>>, edges1: map<nat, (nat, nat)>)
    requires Incident(nodes0, edges0) && u in nodes0 && v in nodes0 && u != v && n !in nodes0
    requires Merged(nodes0, edges0, u, v, n, nodes1, edges1)
    ensures Incident(nodes1, edges1)
    ensures |nodes1| == |nodes0| - 1
  {
    MergedCount(nodes0, u, v, n, nodes1);
    MergedListsEnd(nodes0, edges0, u, v, n, nodes1, edges1);
    MergedEndsList(nodes0, edges0, u, v, n, nodes1, edges1);
  }

  /** The node lists `join` builds: `u` and `v` dropped, and `n` holding
      the edges at exactly one of them. */
  function MergeNodes(nodes: map<nat, set<nat>>, u: nat, v: nat, n: nat): map<nat, set<nat>>
    requires u in nodes && v in nodes
  {
    (nodes - {u} - {v})[n := (nodes[u] - nodes[v]) + (nodes[v] - nodes[u])]
  }

  /** The steps of `join`, dropping the shared edges from `edges0` to give
      `edges1` and renaming the ends of those left to give `edges2`,
      merge `u` and `v` into `n`. */
  lemma JoinMerged(nodes0: map<nat, set<nat>>, edges0: map<nat, (nat, nat)>, u: nat, v: nat, n: nat,
                   edges1: map<nat, (nat, nat)>, edges2: map<nat, (nat, nat)>)
    requires Incident(nodes0, edges0) && u in nodes0 && v in nodes0 && u != v && n !in nodes0
    requires edges1.Keys == edges0.Keys - nodes0[u] * nodes0[v]
    requires forall e :: e in edges1 ==> edges1[e] == edges0[e]
    requires edges2.Keys == edges1.Keys
    requires forall e :: e in edges2 ==> edges2[e] == RenamedEdge(edges1[e], u, v, n)
    ensures Merged(nodes0, edges0, u, v, n, MergeNodes(nodes0, u, v, n), edges2)
    ensures Incident(MergeNodes(nodes0, u, v, n), edges2)
    ensures |MergeNodes(nodes0, u, v, n)| == |nodes0| - 1
  {
    var nodes1 := MergeNodes(nodes0, u, v, n);
    assert nodes1.Keys == nodes0.Keys - {u, v} + {n};
    MergedIncident(nodes0, edges0, u, v, n, nodes1, edges2);
  }

  /** `nodes`/`edges` come from `nodes0`/`edges0` by merging nodes: `rep`
      sends each original node to the node it now belongs to, every edge
      left is an original one between the nodes its original ends now
      belong to, and every edge gone lay inside one node. */
  ghost predicate Contracts(nodes0: map<nat, set<nat>>, edges0: map<nat, (nat, nat)>, rep: map<nat, nat>,
                            nodes: map<nat, set<nat>>, edges: map<nat, (nat, nat)>)
  {
    && rep.Keys == nodes0.Keys
    && (forall x :: x in rep ==> rep[x] in nodes)
    && (forall e :: e in edges0 ==> edges0[e].0 in rep && edges0[e].1 in rep)
    && (forall e :: e in edges ==> e in edges0 && edges[e] == (rep[edges0[e].0], rep[edges0[e].1]))
    && (forall e :: e in edges0 && e !in edges ==> rep[edges0[e].0] == rep[edges0[e].1])
  }

  function Identity(nodes: map<nat, set<nat>>): (rep: map<nat, nat>)
    ensures rep.Keys == nodes.Keys && forall x :: x in rep ==> rep[x] == x
  {
    map x | x in nodes :: x
  }

  function RenamedAll(rep: map<nat, nat>, u: nat, v: nat, n: nat): (rep': map<nat, nat>)
    ensures rep'.Keys == rep.Keys && forall x :: x in rep' ==> rep'[x] == Renamed(rep[x], u, v, n)
  {
    map x | x in rep :: Renamed(rep[x], u, v, n)
  }

  /** Nothing merged yet: every node stands for itself. */
  lemma ContractsStart(nodes: map<nat, set<nat>>, edges: map<nat, (nat, nat)>)
    requires Incident(nodes, edges)
    ensures Contracts(nodes, edges, Identity(nodes), nodes, edges)
  {
  }

  /** One more merge keeps the graph a contraction of the original one. */
  lemma ContractsStep(nodes0: map<nat, set<nat>>, edges0: map<nat, (nat, nat)>, rep: map<nat, nat>,
                      nodes: map<nat, set<nat>>, edges: map<nat, (nat, nat)>, u: nat, v: nat, n: nat,
                      nodes1: map<nat, set<nat>>, edges1: map<nat, (nat, nat)>)
    requires Contracts(nodes0, edges0, rep, nodes, edges) && Incident(nodes, edges)
    requires u in nodes && v in nodes && u != v && n !in nodes
    requires Merged(nodes, edges, u, v, n, nodes1, edges1)
    ensures Contracts(nodes0, edges0, RenamedAll(rep, u, v, n), nodes1, edges1)
  {
    var rep' := RenamedAll(rep, u, v, n);
    forall e | e in edges0 && e !in edges1 ensures rep'[edges0[e].0] == rep'[edges0[e].1] {
      if e in edges {
        assert e in nodes[u] * nodes[v];
      }
    }
  }

  /** After the merges, every original edge between the nodes now merged
      into `side` and the others is among the edges `side` has to the
      rest: the edges into `side` are a cut of the original graph. */
  lemma ContractedCut(nodes0: map<nat, set<nat>>, edges0: map<nat, (nat, nat)>, rep: map<nat, nat>,
                      nodes: map<nat, set<nat>>, edges: map<nat, (nat, nat)>, side: nat, e: nat)
    requires Contracts(nodes0, edges0, rep, nodes, edges) && Incident(nodes, edges) && side in nodes
    requires e in edges0 && (rep[edges0[e].0] == side) != (rep[edges0[e].1] == side)
    ensures e in Into(nodes, edges, side, nodes.Keys - {side})
  {
  }

  /** The edges from `side` to the rest of the contracted graph are
      exactly the original edges with one end inside `side`. */
  lemma CutCovers(nodes0: map<nat, set<nat>>, edges0: map<nat, (nat, nat)>, rep: map<nat, nat>,
                  nodes: map<nat, set<nat>>, edges: map<nat, (nat, nat)>, side: nat, cut: set<nat>)
    requires Contracts(nodes0, edges0, rep, nodes, edges) && Incident(nodes, edges) && side in nodes
    requires cut == Into(nodes, edges, side, nodes.Keys - {side})
    ensures cut <= edges0.Keys
    ensures forall e :: e in edges0 && (rep[edges0[e].0] == side) != (rep[edges0[e].1] == side) ==> e in cut
  {
    forall e | e in edges0 && (rep[edges0[e].0] == side) != (rep[edges0[e].1] == side)
      ensures e in cut
    {
      ContractedCut(nodes0, edges0, rep, nodes, edges, side, e);
    }
  }

  /** What the source's `Graph` and `GraphInfo` keep in step: every node
      has a name, the current edges are among the parsed ones, and the
      parsed edges join named ids. */
  ghost predicate Linked(nodes: map<nat, set<nat>>, edges: map<nat, (nat, nat)>, gi: GraphInfo)
    reads gi
  {
    nodes.Keys <= gi.nodeName.Keys && edges.Keys <= gi.edges.Keys &&
    forall e :: e in gi.edges ==> gi.edges[e].0 in gi.nodeName && gi.edges[e].1 in gi.nodeName
  }

  function Members(s: seq<nat>): set<nat>
  {
    set x | x in s
  }

  /** No element twice. */
  ghost predicate Distinct(s: seq<nat>)
  {
    forall k: nat :: Open(k) ==> forall i, j :: 0 <= i < j < |s| ==> s[i] != s[j]
  }

  lemma DistinctOne(x: nat)
    ensures Distinct([x]) && Members([x]) == {x}
  {
  }

  lemma DistinctSnoc(s: seq<nat>, x: nat)
    requires Distinct(s) && x !in Members(s)
    ensures Distinct(s + [x]) && Members(s + [x]) == Members(s) + {x}
  {
    assert Open(0);
    var t := s + [x];
    forall k: nat, i, j | Open(k) && 0 <= i < j < |t|
      ensures t[i] != t[j]
    {
      if j < |s| {
        assert t[i] == s[i] && t[j] == s[j];
      } else {
        assert t[i] in Members(s);
      }
    }
  }

  lemma {:induction false} DistinctCard(s: seq<nat>)
    requires Distinct(s)
    ensures |Members(s)| == |s|
  {
    if |s| > 0 {
      assert Open(0);
      var u := s[..|s| - 1];
      assert s == u + [s[|s| - 1]];
      assert Members(s) == Members(u) + {s[|s| - 1]};
      assert Distinct(u) by {
        forall k: nat, i, j | Open(k) && 0 <= i < j < |u|
          ensures u[i] != u[j]
        {
          assert u[i] == s[i] && u[j] == s[j];
        }
      }
      assert s[|s| - 1] !in Members(u) by {
        forall i | 0 <= i < |u|
          ensures u[i] != s[|s| - 1]
        {
          assert u[i] == s[i];
        }
      }
      DistinctCard(u);
    }
  }

  /** `get_nodes_for_edge`: the names of the parsed ends of edge `e`. */
  function EdgeNames(gi: GraphInfo, e: nat): (string, string)
    reads gi
    requires e in gi.edges && gi.edges[e].0 in gi.nodeName && gi.edges[e].1 in gi.nodeName
  {
    (gi.nodeName[gi.edges[e].0], gi.nodeName[gi.edges[e].1])
  }

  /** The edges at `u` that end in `vis` (`edges_in_visited`). */
  function Into(nodes: map<nat, set<nat>>, edges: map<nat, (nat, nat)>, u: nat, vis: set<nat>): set<nat>
    requires u in nodes
  {
    set e | e in nodes[u] && e in edges && (edges[e].0 in vis || edges[e].1 in vis)
  }

  /** Every node of `order` after the first has most edges into the nodes
      before it among the nodes not yet added. */
  ghost predicate MostAdjacent(nodes: map<nat, set<nat>>, edges: map<nat, (nat, nat)>, order: seq<nat>)
  {
    forall k: nat :: Open(k) ==>
      forall i :: 1 <= i < |order| ==> order[i] in nodes && Greatest(nodes, edges, order[i], Members(order[..i]))
  }

  /** `t` has at least as many edges into `vis` as any node outside it. */
  ghost predicate Greatest(nodes: map<nat, set<nat>>, edges: map<nat, (nat, nat)>, t: nat, vis: set<nat>)
    requires t in nodes
  {
    forall u :: u in nodes && u !in vis ==> |Into(nodes, edges, u, vis)| <= |Into(nodes, edges, t, vis)|
  }

  lemma MostAdjacentStart(nodes: map<nat, set<nat>>, edges: map<nat, (nat, nat)>, start: nat)
    ensures MostAdjacent(nodes, edges, [start])
  {
  }

  lemma MostAdjacentSnoc(nodes: map<nat, set<nat>>, edges: map<nat, (nat, nat)>, order: seq<nat>, t: nat)
    requires MostAdjacent(nodes, edges, order) && t in nodes && Greatest(nodes, edges, t, Members(order))
    ensures MostAdjacent(nodes, edges, order + [t])
  {
    assert Open(0);
    var o := order + [t];
    forall k: nat, i | Open(k) && 1 <= i < |o|
      ensures o[i] in nodes && Greatest(nodes, edges, o[i], Members(o[..i]))
    {
      if i < |order| {
        assert o[..i] == order[..i];
      } else {
        assert o[..i] == order;
      }
    }
  }

  /** The inner loop of `get_min_slice`: among `notVisited`, a node with
      most edges into `visited` (the one found last among equals, in an
      order the model leaves open) and those edges. */
  method MostConnected(nodes: map<nat, set<nat>>, edges: map<nat, (nat, nat)>, notVisited: set<nat>, visited: set<nat>, t0: nat)
    returns (best: set<nat>, t: nat)
    requires notVisited != {} && notVisited <= nodes.Keys
    ensures t in notVisited && best == Into(nodes, edges, t, visited)
    ensures forall u :: u in notVisited ==> |Into(nodes, edges, u, visited)| <= |best|
  {
    best := {};
    t := t0;
    var todo := notVisited;
    while todo != {}
      invariant todo <= notVisited
      invariant todo == notVisited ==> best == {}
      invariant todo != notVisited ==> t in notVisited && best == Into(nodes, edges, t, visited)
      invariant forall u :: u in notVisited - todo ==> |Into(nodes, edges, u, visited)| <= |best|
      decreases |todo|
    {
      var u :| u in todo;
      var inVisited := Into(nodes, edges, u, visited);
      if |inVisited| >= |best| {
        best := inVisited;
        t := u;
      }
      todo := todo - {u};
    }
  }

  /** `names` lists the names of the parsed ends of the edges in `cut`. */
  ghost predicate Named(gi: GraphInfo, cut: seq<nat>, names: seq<(string, string)>)
    reads gi
  {
    |names| == |cut| &&
    forall i :: 0 <= i < |cut| ==>
      cut[i] in gi.edges && gi.edges[cut[i]].0 in gi.nodeName && gi.edges[cut[i]].1 in gi.nodeName &&
      names[i] == EdgeNames(gi, cut[i])
  }

  lemma NamedSnoc(gi: GraphInfo, cut: seq<nat>, names: seq<(string, string)>, e: nat)
    requires Named(gi, cut, names)
    requires e in gi.edges && gi.edges[e].0 in gi.nodeName && gi.edges[e].1 in gi.nodeName
    ensures Named(gi, cut + [e], names + [EdgeNames(gi, e)])
  {
    var c, n := cut + [e], names + [EdgeNames(gi, e)];
    forall i | 0 <= i < |c|
      ensures c[i] in gi.edges && gi.edges[c[i]].0 in gi.nodeName && gi.edges[c[i]].1 in gi.nodeName &&
              n[i] == EdgeNames(gi, c[i])
    {
      if i < |cut| {
        assert c[i] == cut[i] && n[i] == names[i];
      }
    }
  }

  /** One step of `CutNames`: edge `e`, not yet listed, is listed with
      its names. */
  lemma CutStep(gi: GraphInfo, es: set<nat>, todo: set<nat>, cut: seq<nat>, names: seq<(string, string)>, e: nat)
    requires todo <= es && Members(cut) == es - todo && Distinct(cut) && Named(gi, cut, names)
    requires e in todo && e in gi.edges && gi.edges[e].0 in gi.nodeName && gi.edges[e].1 in gi.nodeName
    ensures todo - {e} <= es && Members(cut + [e]) == es - (todo - {e}) && Distinct(cut + [e])
    ensures Named(gi, cut + [e], names + [EdgeNames(gi, e)])
  {
    DistinctSnoc(cut, e);
    NamedSnoc(gi, cut, names, e);
  }

  /** The `map(get_nodes_for_edge).collect()` over a set of edges, in an
      order the model leaves open. */
  method CutNames(gi: GraphInfo, es: set<nat>) returns (names: seq<(string, string)>, ghost cut: seq<nat>)
    requires forall e :: e in es ==> e in gi.edges
    requires forall e :: e in gi.edges ==> gi.edges[e].0 in gi.nodeName && gi.edges[e].1 in gi.nodeName
    ensures Members(cut) == es && Distinct(cut) && |cut| == |es|
    ensures Named(gi, cut, names)
  {
    names := [];
    cut := [];
    assert Distinct(cut) && Members(cut) == {} by {
      assert Open(0);
    }
    var todo := es;
    while todo != {}
      invariant todo <= es && Members(cut) == es - todo && Distinct(cut)
      invariant Named(gi, cut, names)
      decreases |todo|
    {
      var e :| e in todo;
      CutStep(gi, es, todo, cut, names, e);
      names := names + [EdgeNames(gi, e)];
      cut := cut + [e];
      todo := todo - {e};
    }
    DistinctCard(cut);
  }

  /** One step of a phase: `next`, a node not yet added with most edges
      into the added ones, is added; the state facts carry over. */
  lemma PhaseStep(nodes: map<nat, set<nat>>, edges: map<nat, (nat, nat)>, notVisited: set<nat>, visited: set<nat>,
                  order: seq<nat>, t: nat, best: set<nat>, next: nat)
    requires visited == Members(order) && notVisited == nodes.Keys - visited && visited <= nodes.Keys
    requires Distinct(order) && |order| >= 1 && t == order[|order| - 1]
    requires MostAdjacent(nodes, edges, order)
    requires next in notVisited && best == Into(nodes, edges, next, visited)
    requires forall u :: u in notVisited ==> |Into(nodes, edges, u, visited)| <= |best|
    ensures visited + {next} == Members(order + [next]) && notVisited - {next} == nodes.Keys - (visited + {next})
    ensures visited + {next} <= nodes.Keys && next !in visited
    ensures Distinct(order + [next]) && MostAdjacent(nodes, edges, order + [next])
  {
    MostAdjacentSnoc(nodes, edges, order, next);
    DistinctSnoc(order, next);
  }

  /** The end of a phase: once every node has been added, `order` lists
      them all, once each, and `es` is what `t` has into all the others. */
  lemma PhaseEnd(nodes: map<nat, set<nat>>, edges: map<nat, (nat, nat)>, visited: set<nat>, order: seq<nat>, before: seq<nat>,
                 prev: set<nat>, s: nat, t: nat, es: set<nat>)
    requires visited == Members(order) && visited == nodes.Keys && Distinct(order)
    requires order == before + [t] && (|before| >= 1 ==> s == before[|before| - 1])
    requires |order| == 1 ==> s == 0 && es == {}
    requires |order| >= 2 ==> es == Into(nodes, edges, t, prev) && visited == prev + {t} && t !in prev
    ensures |order| == |nodes| && t == order[|order| - 1]
    ensures |order| >= 2 ==> s == order[|order| - 2] && es == Into(nodes, edges, t, nodes.Keys - {t})
  {
    DistinctCard(order);
    if |order| >= 2 {
      assert prev == nodes.Keys - {t};
      assert order[|order| - 2] == before[|before| - 1];
    }
  }

  /** The name pair `pr` leads to an edge: both names are known, both
      ids are nodes, and the two nodes share an edge. */
  ghost predicate Resolves(nameId: map<string, nat>, nodes: map<nat, set<nat>>, pr: (string, string))
  {
    pr.0 in nameId && pr.1 in nameId && nameId[pr.0] in nodes && nameId[pr.1] in nodes &&
    nodes[nameId[pr.0]] * nodes[nameId[pr.1]] != {}
  }

  /** `picked[i]` is an edge shared by the two nodes named by `names[i]`. */
  ghost predicate Picked(nameId: map<string, nat>, nodes: map<nat, set<nat>>, names: seq<(string, string)>, picked: seq<nat>)
  {
    |picked| == |names| &&
    forall i :: 0 <= i < |names| ==>
      Resolves(nameId, nodes, names[i]) && picked[i] in nodes[nameId[names[i].0]] * nodes[nameId[names[i].1]]
  }

  lemma PickedSnoc(nameId: map<string, nat>, nodes: map<nat, set<nat>>, names: seq<(string, string)>, picked: seq<nat>, i: nat, e: nat)
    requires i < |names| && Picked(nameId, nodes, names[..i], picked)
    requires Resolves(nameId, nodes, names[i]) && e in nodes[nameId[names[i].0]] * nodes[nameId[names[i].1]]
    ensures Picked(nameId, nodes, names[..i + 1], picked + [e])
    ensures Members(picked + [e]) == Members(picked) + {e}
  {
    var ns, ps := names[..i + 1], picked + [e];
    forall j | 0 <= j < |ns|
      ensures Resolves(nameId, nodes, ns[j]) && ps[j] in nodes[nameId[ns[j].0]] * nodes[nameId[ns[j].1]]
    {
      if j < i {
        assert ns[j] == names[..i][j] && ps[j] == picked[j];
      }
    }
  }

  /** The first step of `count_comp`: for every pair of names, one edge
      shared by the two nodes they name (which one the model leaves open),
      collected into a set. `None` where the source panics: a name that is
      not known, an id that is no node, or two nodes without a shared
      edge. */
  method PickCut(nameId: map<string, nat>, nodes: map<nat, set<nat>>, names: seq<(string, string)>)
    returns (r: Option<set<nat>>, ghost picked: seq<nat>)
    ensures r.None? <==> exists i :: 0 <= i < |names| && !Resolves(nameId, nodes, names[i])
    ensures r.Some? ==> Picked(nameId, nodes, names, picked) && r.value == Members(picked)
  {
    var es: set<nat> := {};
    picked := [];
    var i := 0;
    while i < |names|
      invariant i <= |names| && Picked(nameId, nodes, names[..i], picked) && es == Members(picked)
    {
      var (s1, s2) := names[i];
      if s1 !in nameId || s2 !in nameId {
        return None, picked;
      }
      var n1, n2 := nameId[s1], nameId[s2];
      if n1 !in nodes || n2 !in nodes || nodes[n1] * nodes[n2] == {} {
        return None, picked;
      }
      var e :| e in nodes[n1] * nodes[n2];
      PickedSnoc(nameId, nodes, names, picked, i, e);
      picked := picked + [e];
      es := es + {e};
      i := i + 1;
    }
    assert names[..i] == names;
    return Some(es), picked;
  }

  /** The search of `count_comp` from `start`, never crossing `cut`: the
      nodes it adds, which are closed under the uncut edges and each
      reached from `start`. `None` where the source panics: a node on the
      stack that is no node of the graph or an edge id that is no edge,
      neither of which happens in a consistent graph. */
  method Reach(nodes: map<nat, set<nat>>, edges: map<nat, (nat, nat)>, cut: set<nat>, start: nat) returns (r: Option<set<nat>>)
    ensures Incident(nodes, edges) && start in nodes ==> r.Some?
    ensures r.Some? ==> start in r.value && r.value <= nodes.Keys && Closed(nodes, edges, cut, r.value)
    ensures r.Some? ==> forall x :: x in r.value ==> Reached(nodes, edges, cut, start, x)
  {
    ghost var valid := Incident(nodes, edges) && start in nodes;
    var cur: set<nat> := {};
    var q := [start];
    ghost var wq: seq<seq<nat>> := [[start]];
    ghost var px: nat := start;
    SearchStart(nodes, edges, cut, start, valid);
    while q != []
      invariant Search(nodes, edges, cut, start, valid, cur, q, wq, px, {})
      invariant cur == {} ==> q == [start]
      invariant cur != {} ==> start in cur
      invariant |cur| <= |nodes|
      decreases |nodes| - |cur|, |q|
    {
      SearchTop(nodes, edges, cut, start, valid, cur, q, wq, px, {});
      var p := q[|q| - 1];
      ghost var pw := wq[|wq| - 1];
      if p in cur {
        SearchPopSeen(nodes, edges, cut, start, valid, cur, q, wq, px);
        q, wq := q[..|q| - 1], wq[..|wq| - 1];
        continue;
      }
      if p !in nodes {
        return None;
      }
      SearchPopNew(nodes, edges, cut, start, valid, cur, q, wq, px);
      q, wq := q[..|q| - 1], wq[..|wq| - 1];
      cur := cur + {p};
      px := p;
      var todo := nodes[p];
      SearchHolds(nodes, edges, cut, start, valid, cur, q, wq, p, todo);
      while todo != {}
        invariant todo <= nodes[p] && start in cur
        invariant Search(nodes, edges, cut, start, valid, cur, q, wq, p, todo)
        decreases |todo|
      {
        var e :| e in todo;
        if e in cut {
          SearchSkip(nodes, edges, cut, start, valid, cur, q, wq, p, todo, e);
        } else {
          if e !in edges {
            return None;
          }
          var (p1, p2) := edges[e];
          SearchEdge(nodes, edges, cut, start, valid, cur, q, wq, p, todo, e, pw);
          if p1 !in cur {
            q, wq := q + [p1], wq + [pw + [p1]];
          }
          if p2 !in cur {
            q, wq := q + [p2], wq + [pw + [p2]];
          }
        }
        todo := todo - {e};
      }
    }
    SearchEnd(nodes, edges, cut, start, valid, cur, px);
    return Some(cur);
  }

  /** Every id named in `before` has the same name in `after`. */
  ghost predicate KeepsNames(before: map<nat, string>, after: map<nat, string>)
  {
    forall x :: x in before ==> x in after && after[x] == before[x]
  }

  lemma KeepsNamesTrans(a: map<nat, string>, b: map<nat, string>, c: map<nat, string>)
    requires KeepsNames(a, b) && KeepsNames(b, c)
    ensures KeepsNames(a, c)
  {
  }

  /** `Graph`: node id to the ids of its edges, and edge id to its ends. */
  class Graph {
    var nodes: map<nat, set<nat>>
    var edges: map<nat, (nat, nat)>

    ghost predicate Valid()
      reads this
    {
      Incident(nodes, edges)
    }

    constructor (nodes0: map<nat, set<nat>>, edges0: map<nat, (nat, nat)>)
      ensures nodes == nodes0 && edges == edges0
    {
      nodes := nodes0;
      edges := edges0;
    }

    /** The `for_each` over the shared edges: each is removed. */
    method RemoveEdges(gone: set<nat>)
      modifies this
      ensures nodes == old(nodes)
      ensures edges.Keys == old(edges).Keys - gone
      ensures forall e :: e in edges ==> edges[e] == old(edges)[e]
    {
      var todo := gone;
      while todo != {}
        invariant edges.Keys == old(edges).Keys - (gone - todo)
        invariant forall e :: e in edges ==> edges[e] == old(edges)[e]
        invariant nodes == old(nodes) && todo <= gone
        decreases |todo|
      {
        var e :| e in todo;
        edges := edges - {e};
        todo := todo - {e};
      }
    }

    /** The `iter_mut` over the edges: every end `u` or `v` becomes `n`. */
    method RenameEnds(u: nat, v: nat, n: nat)
      modifies this
      ensures nodes == old(nodes)
      ensures edges.Keys == old(edges).Keys
      ensures forall e :: e in edges ==> edges[e] == RenamedEdge(old(edges)[e], u, v, n)
    {
      var todo := edges.Keys;
      while todo != {}
        invariant edges.Keys == old(edges).Keys && todo <= edges.Keys && nodes == old(nodes)
        invariant forall e :: e in edges ==>
          edges[e] == if e in todo then old(edges)[e] else RenamedEdge(old(edges)[e], u, v, n)
        decreases |todo|
      {
        var e :| e in todo;
        var (n1, n2) := edges[e];
        if n1 == u || n1 == v {
          n1 := n;
        }
        if n2 == u || n2 == v {
          n2 := n;
        }
        edges := edges[e := (n1, n2)];
        todo := todo - {e};
      }
    }

    /** `join`: merges `u` and `v` into a node with the next id, named
        after both. */
    method Join(gi: GraphInfo, u: nat, v: nat) returns (ghost merged: nat)
      requires Valid() && gi.Valid() && Linked(nodes, edges, gi)
      requires u in nodes && v in nodes && u != v
      modifies this, gi
      ensures merged == old(|gi.nodeName|) && merged !in old(nodes) && merged !in old(gi.nodeName)
      ensures Merged(old(nodes), old(edges), u, v, merged, nodes, edges)
      ensures |nodes| == old(|nodes|) - 1
      ensures Valid() && gi.Valid() && Linked(nodes, edges, gi) && gi.edges == old(gi.edges)
      ensures gi.nodeName == old(gi.nodeName)[merged := old(gi.nodeName[u]) + old(gi.nodeName[v])]
      ensures gi.nameId == old(gi.nameId)[old(gi.nodeName[u]) + old(gi.nodeName[v]) := merged]
      ensures KeepsNames(old(gi.nodeName), gi.nodeName)
    {
      var n := gi.GetNewNodeId(u, v);
      merged := n;
      MergeInto(u, v, n);
    }

    /** The part of `join` on the graph: `u` and `v` removed, their shared
        edges dropped, and node `n` holding the other edges of both. */
    method MergeInto(u: nat, v: nat, n: nat)
      requires Valid() && u in nodes && v in nodes && u != v && n !in nodes
      modifies this
      ensures Merged(old(nodes), old(edges), u, v, n, nodes, edges)
      ensures Valid() && nodes == MergeNodes(old(nodes), u, v, n) && edges.Keys <= old(edges).Keys
      ensures |nodes| == old(|nodes|) - 1
    {
      ghost var nodes0, edges0 := nodes, edges;
      var uEdges := nodes[u];
      nodes := nodes - {u};
      var vEdges := nodes[v];
      nodes := nodes - {v};
      assert uEdges * vEdges == nodes0[u] * nodes0[v];
      RemoveEdges(uEdges * vEdges);
      nodes := nodes[n := (uEdges - vEdges) + (vEdges - uEdges)];
      ghost var edges1 := edges;
      RenameEnds(u, v, n);
      assert nodes == MergeNodes(nodes0, u, v, n);
      JoinMerged(nodes0, edges0, u, v, n, edges1, edges);
    }

    /** `get_min_slice`: one phase. `order` is the order nodes are added
        in; every node is added once, `t` is the last and `s` the one
        before it (0 when there is only one node), and `es` holds the
        edges from `t` to all other nodes. */
    method GetMinSlice() returns (s: nat, t: nat, es: set<nat>, ghost order: seq<nat>)
      requires nodes != map[]
      ensures |order| == |nodes| && Distinct(order) && Members(order) == nodes.Keys
      ensures t == order[|order| - 1]
      ensures |order| == 1 ==> s == 0 && es == {}
      ensures |order| >= 2 ==> s == order[|order| - 2] && es == Into(nodes, edges, t, nodes.Keys - {t})
      ensures MostAdjacent(nodes, edges, order)
    {
      var ns, eds := nodes, edges;
      var notVisited := ns.Keys;
      var start :| start in notVisited;
      notVisited := notVisited - {start};
      var visited := {start};
      s := 0;
      t := start;
      es := {};
      order := [start];
      ghost var prev: set<nat> := {};
      ghost var before: seq<nat> := [];
      DistinctOne(start);
      MostAdjacentStart(ns, eds, start);
      while notVisited != {}
        invariant visited == Members(order) && notVisited == ns.Keys - visited && visited <= ns.Keys
        invariant Distinct(order) && |order| >= 1 && t == order[|order| - 1]
        invariant |order| == 1 ==> s == 0 && es == {}
        invariant order == before + [t] && (|before| >= 1 ==> s == before[|before| - 1])
        invariant |order| >= 2 ==> es == Into(ns, eds, t, prev) && visited == prev + {t} && t !in prev
        invariant MostAdjacent(ns, eds, order)
        decreases |notVisited|
      {
        var best, next := MostConnected(ns, eds, notVisited, visited, t);
        PhaseStep(ns, eds, notVisited, visited, order, t, best, next);
        before := order;
        s := t;
        es := best;
        t := next;
        prev := visited;
        visited := visited + {next};
        notVisited := notVisited - {next};
        order := order + [next];
      }
      PhaseEnd(ns, eds, visited, order, before, prev, s, t, es);
    }

    /** `count_comp`: the number of nodes reached from the first end named
        in `names` without crossing the edges the pairs of names pick out.
        The nodes counted are closed under the uncut edges and each is
        reached by a walk from the start, so they are exactly the nodes
        reached (lemma `ClosedIsComponent`). `None` where the source panics;
        on a consistent graph that is exactly when `names` is empty or a
        pair of names does not lead to an edge. */
    method CountComp(names: seq<(string, string)>, gi: GraphInfo)
      returns (r: Option<nat>, ghost picked: seq<nat>, ghost comp: set<nat>)
      ensures Valid() ==> (r.None? <==> names == [] || exists i :: 0 <= i < |names| && !Resolves(gi.nameId, nodes, names[i]))
      ensures r.Some? ==> names != [] && Picked(gi.nameId, nodes, names, picked)
      ensures r.Some? ==> r.value == |comp| && r.value <= |nodes| && comp <= nodes.Keys
      ensures r.Some? ==> gi.nameId[names[0].0] in comp && Closed(nodes, edges, Members(picked), comp)
      ensures r.Some? ==> forall x :: x in comp ==> Reached(nodes, edges, Members(picked), gi.nameId[names[0].0], x)
    {
      var ns, eds, ids := nodes, edges, gi.nameId;
      var es;
      es, picked := PickCut(ids, ns, names);
      if es.None? || |names| == 0 {
        return None, picked, {};
      }
      var start := ids[names[0].0];
      var found := Reach(ns, eds, es.value, start);
      if found.None? {
        return None, picked, {};
      }
      SubsetCard(found.value, ns.Keys);
      return Some(|found.value|), picked, found.value;
    }

    /** `find_triplet`: phase after phase, merging the last two nodes of
        a phase, until a phase ends on a node with exactly three edges to
        the rest; those edges by the names of their parsed ends. `None`
        where the source reaches `unreachable!()`: one node left. */
    method FindTriplet(gi: GraphInfo) returns (r: Option<seq<(string, string)>>, ghost cut: seq<nat>, ghost side: nat,
                                               ghost rep: map<nat, nat>)
      requires Valid() && gi.Valid() && Linked(nodes, edges, gi)
      modifies this, gi
      ensures Valid() && gi.Valid() && Linked(nodes, edges, gi) && gi.edges == old(gi.edges)
      ensures Contracts(old(nodes), old(edges), rep, nodes, edges) && |nodes| <= old(|nodes|)
      ensures r.Some? ==> Members(cut) <= old(edges).Keys
      ensures r.Some? ==> forall e :: e in old(edges) && (rep[old(edges)[e].0] == side) != (rep[old(edges)[e].1] == side) ==>
        e in Members(cut)
      ensures r.None? ==> |nodes| <= 1
      ensures r.Some? ==> side in nodes && Members(cut) == Into(nodes, edges, side, nodes.Keys - {side})
      ensures r.Some? ==> |cut| == 3 && Distinct(cut) && Named(gi, cut, r.value)
      ensures KeepsNames(old(gi.nodeName), gi.nodeName)
    {
      rep := Identity(nodes);
      ContractsStart(nodes, edges);
      while |nodes| > 1
        invariant Valid() && gi.Valid() && Linked(nodes, edges, gi) && gi.edges == old(gi.edges)
        invariant KeepsNames(old(gi.nodeName), gi.nodeName)
        invariant Contracts(old(nodes), old(edges), rep, nodes, edges) && |nodes| <= old(|nodes|)
        decreases |nodes|
      {
        var u, v, es, order := GetMinSlice();
        if |es| == 3 {
          var names;
          names, cut := CutNames(gi, es);
          CutCovers(old(nodes), old(edges), rep, nodes, edges, v, Members(cut));
          return Some(names), cut, v, rep;
        }
        assert Open(0);
        assert order[|order| - 2] != order[|order| - 1];
        ghost var names0 := gi.nodeName;
        rep := Contract(gi, u, v, old(nodes), old(edges), rep);
        KeepsNamesTrans(old(gi.nodeName), names0, gi.nodeName);
      }
      return None, [], 0, rep;
    }

    /** One merge of `find_triplet`: `join` of the last two nodes of a
        phase, which keeps the graph a contraction of the original. */
    method Contract(gi: GraphInfo, u: nat, v: nat, ghost nodes0: map<nat, set<nat>>, ghost edges0: map<nat, (nat, nat)>,
                    ghost rep: map<nat, nat>) returns (ghost rep': map<nat, nat>)
      requires Valid() && gi.Valid() && Linked(nodes, edges, gi)
      requires u in nodes && v in nodes && u != v && Contracts(nodes0, edges0, rep, nodes, edges)
      modifies this, gi
      ensures Valid() && gi.Valid() && Linked(nodes, edges, gi) && gi.edges == old(gi.edges)
      ensures KeepsNames(old(gi.nodeName), gi.nodeName)
      ensures Contracts(nodes0, edges0, rep', nodes, edges) && |nodes| == old(|nodes|) - 1
    {
      ghost var nodes1, edges1 := nodes, edges;
      ghost var merged := Join(gi, u, v);
      ContractsStep(nodes0, edges0, rep, nodes1, edges1, u, v, merged, nodes, edges);
      rep' := RenamedAll(rep, u, v, merged);
    }
  }
}
