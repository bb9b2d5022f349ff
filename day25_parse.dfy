/** Day 25 (src/day25.rs), `parse_graph`: each line is a component's name,
    a colon and the names of the components it is wired to, separated by
    spaces. Every name gets an id as it is first seen, every wire an edge
    id counted up from 0, and each edge is listed at both of its ends. */
module Day25Parse {
  import opened RustStd
  import opened Day25Info
  import opened Day25Graph

  /** The words of a line: split on single spaces, with trailing colons
      trimmed. */
  function Words(l: string): (r: seq<string>)
    ensures |r| == |Split(l, " ")| && |r| >= 1
    ensures forall i :: 0 <= i < |r| ==> r[i] == TrimEndMatches(Split(l, " ")[i], ':')
  {
    var ps := Split(l, " ");
    seq(|ps|, i requires 0 <= i < |ps| => TrimEndMatches(ps[i], ':'))
  }

  /** The wires a line declares: from its first name to each further one. */
  function LineEdges(w: seq<string>): (r: seq<(string, string)>)
    requires |w| >= 1
    ensures |r| == |w| - 1 && forall i :: 0 <= i < |r| ==> r[i] == (w[0], w[i + 1])
  {
    seq(|w| - 1, i requires 0 <= i < |w| - 1 => (w[0], w[i + 1]))
  }

  /** The wires of all lines, in order: edge id `e` is wire `EdgeList(lines)[e]`. */
  function EdgeList(lines: seq<string>): seq<(string, string)>
  {
    if lines == [] then [] else EdgeList(lines[..|lines| - 1]) + LineEdges(Words(lines[|lines| - 1]))
  }

  function WordSet(ws: seq<string>): set<string>
  {
    set w | w in ws
  }

  /** Every name written in the lines. */
  function Names(lines: seq<string>): set<string>
  {
    if lines == [] then {} else Names(lines[..|lines| - 1]) + WordSet(Words(lines[|lines| - 1]))
  }

  /** Edge ids are exactly `0 .. count - 1`. */
  ghost predicate EdgeIds(edges: map<nat, (nat, nat)>, count: nat)
  {
    forall e: nat :: e in edges <==> e < count
  }

  /** Edge `e` joins ids whose names are the wire `el[e]`. */
  ghost predicate EdgesNamed(nodeName: map<nat, string>, edges: map<nat, (nat, nat)>, el: seq<(string, string)>)
  {
    forall e :: e in edges ==>
      edges[e].0 in nodeName && edges[e].1 in nodeName && e < |el| &&
      (nodeName[edges[e].0], nodeName[edges[e].1]) == el[e]
  }

  /** `nodeName1` keeps every id of `nodeName0` with its name. */
  ghost predicate Extends(nodeName0: map<nat, string>, nodeName1: map<nat, string>)
  {
    forall x :: x in nodeName0 ==> x in nodeName1 && nodeName1[x] == nodeName0[x]
  }

  /** What parsing has built after the wires `el` and the names `names`:
      consistent names, one node per id, each edge at both of its ends,
      edge ids `0 .. |el| - 1`, and edge `e` joining the names `el[e]`. */
  ghost predicate Built(nodeName: map<nat, string>, nameId: map<string, nat>, nodes: map<nat, set<nat>>,
                        edges: map<nat, (nat, nat)>, el: seq<(string, string)>, names: set<string>)
  {
    forall k: nat :: Open(k) ==>
      Consistent(nodeName, nameId) && nodes.Keys == nodeName.Keys && Incident(nodes, edges) &&
      EdgeIds(edges, |el|) && EdgesNamed(nodeName, edges, el) && nameId.Keys == names
  }

  lemma BuiltStart()
    ensures Built(map[], map[], map[], map[], [], {})
  {
  }

  /** The parts of what has been built, for a caller that needs them. */
  lemma BuiltParts(nodeName: map<nat, string>, nameId: map<string, nat>, nodes: map<nat, set<nat>>,
                   edges: map<nat, (nat, nat)>, el: seq<(string, string)>, names: set<string>)
    requires Built(nodeName, nameId, nodes, edges, el, names)
    ensures Consistent(nodeName, nameId) && nodes.Keys == nodeName.Keys && Incident(nodes, edges)
    ensures EdgeIds(edges, |el|) && EdgesNamed(nodeName, edges, el) && nameId.Keys == names
  {
    assert Open(0);
  }

  /** … and the parts make it up. */
  lemma BuiltOf(nodeName: map<nat, string>, nameId: map<string, nat>, nodes: map<nat, set<nat>>,
                edges: map<nat, (nat, nat)>, el: seq<(string, string)>, names: set<string>)
    requires Consistent(nodeName, nameId) && nodes.Keys == nodeName.Keys && Incident(nodes, edges)
    requires EdgeIds(edges, |el|) && EdgesNamed(nodeName, edges, el) && nameId.Keys == names
    ensures Built(nodeName, nameId, nodes, edges, el, names)
  {
  }

  lemma KeysPut<K, A, B>(m1: map<K, A>, m2: map<K, B>, k: K, a: A, b: B)
    requires m1.Keys == m2.Keys
    ensures m1[k := a].Keys == m2[k := b].Keys
  {
  }

  lemma KeysAdd<K, A>(m: map<K, A>, s: set<K>, k: K, a: A)
    requires m.Keys == s
    ensures m[k := a].Keys == s + {k}
  {
  }

  /** A node with no edges yet can be added. */
  lemma IncidentAddNode(nodes: map<nat, set<nat>>, edges: map<nat, (nat, nat)>, id: nat)
    requires Incident(nodes, edges)
    ensures Incident(nodes[id := if id in nodes then nodes[id] else {}], edges)
  {
    var nodes1 := nodes[id := if id in nodes then nodes[id] else {}];
    forall n, e | n in nodes1 && e in nodes1[n]
      ensures e in edges && (edges[e].0 == n || edges[e].1 == n)
    {
      assert n in nodes && e in nodes[n];
    }
  }

  lemma NamedExtends(nodeName0: map<nat, string>, nodeName1: map<nat, string>, edges: map<nat, (nat, nat)>,
                     el: seq<(string, string)>)
    requires EdgesNamed(nodeName0, edges, el) && Extends(nodeName0, nodeName1)
    ensures EdgesNamed(nodeName1, edges, el)
  {
  }

  /** `insert_node(name)` and the node added when its id is new, for a
      name seen before: nothing changes. */
  lemma BuiltInsertKnown(nodeName: map<nat, string>, nameId: map<string, nat>, nodes: map<nat, set<nat>>,
                         edges: map<nat, (nat, nat)>, el: seq<(string, string)>, names: set<string>, name: string)
    requires Built(nodeName, nameId, nodes, edges, el, names) && name in nameId
    ensures nameId[name] in nodes && names + {name} == names
    ensures Built(nodeName, nameId, nodes, edges, el, names + {name})
  {
    assert Open(0);
  }

  /** … and for a new name: the next id, named `name`, with a node of its
      own. */
  lemma BuiltInsertNew(nodeName0: map<nat, string>, nameId0: map<string, nat>, nodes: map<nat, set<nat>>,
                       edges: map<nat, (nat, nat)>, el: seq<(string, string)>, names: set<string>,
                       name: string, id: nat, nodeName1: map<nat, string>, nameId1: map<string, nat>)
    requires Built(nodeName0, nameId0, nodes, edges, el, names) && name !in nameId0
    requires id !in nodeName0 && nodeName1 == nodeName0[id := name] && nameId1 == nameId0[name := id]
    requires Consistent(nodeName1, nameId1)
    ensures id !in nodes && Extends(nodeName0, nodeName1)
    ensures Built(nodeName1, nameId1, nodes[id := {}], edges, el, names + {name})
  {
    BuiltParts(nodeName0, nameId0, nodes, edges, el, names);
    assert id !in nodes;
    IncidentAddNode(nodes, edges, id);
    NamedExtends(nodeName0, nodeName1, edges, el);
    KeysPut(nodes, nodeName0, id, {}, name);
    KeysAdd(nameId0, names, name, id);
    BuiltOf(nodeName1, nameId1, nodes[id := {}], edges, el, names + {name});
  }

  /** Adding edge `e0` from `n` to `ni`, listed at both ends, keeps every
      edge at both of its ends. */
  lemma IncidentAddEdge(nodes: map<nat, set<nat>>, edges: map<nat, (nat, nat)>, e0: nat, n: nat, ni: nat)
    requires Incident(nodes, edges) && e0 !in edges && n in nodes && ni in nodes
    ensures var nodes1 := nodes[n := nodes[n] + {e0}];
            Incident(nodes1[ni := nodes1[ni] + {e0}], edges[e0 := (n, ni)])
  {
    var nodes1 := nodes[n := nodes[n] + {e0}];
    var nodes2 := nodes1[ni := nodes1[ni] + {e0}];
    var edges1 := edges[e0 := (n, ni)];
    forall x, e | x in nodes2 && e in nodes2[x]
      ensures e in edges1 && (edges1[e].0 == x || edges1[e].1 == x)
    {
      if e != e0 {
        assert e in nodes[x];
      }
    }
    forall e | e in edges1
      ensures edges1[e].0 in nodes2 && edges1[e].1 in nodes2 && e in nodes2[edges1[e].0] && e in nodes2[edges1[e].1]
    {
      if e != e0 {
        assert e in nodes[edges[e].0] && e in nodes[edges[e].1];
      }
    }
  }

  lemma NamedAddEdge(nodeName: map<nat, string>, edges: map<nat, (nat, nat)>, el: seq<(string, string)>, n: nat, ni: nat)
    requires EdgesNamed(nodeName, edges, el) && n in nodeName && ni in nodeName
    ensures EdgesNamed(nodeName, edges[|el| := (n, ni)], el + [(nodeName[n], nodeName[ni])])
  {
    var edges1, el1 := edges[|el| := (n, ni)], el + [(nodeName[n], nodeName[ni])];
    forall e | e in edges1
      ensures edges1[e].0 in nodeName && edges1[e].1 in nodeName && e < |el1| &&
              (nodeName[edges1[e].0], nodeName[edges1[e].1]) == el1[e]
    {
      if e != |el| {
        assert el1[e] == el[e];
      }
    }
  }

  /** Edge `|el|` from `n` to `ni`, listed at both ends. */
  lemma BuiltEdge(nodeName: map<nat, string>, nameId: map<string, nat>, nodes: map<nat, set<nat>>,
                  edges: map<nat, (nat, nat)>, el: seq<(string, string)>, names: set<string>, n: nat, ni: nat)
    requires Built(nodeName, nameId, nodes, edges, el, names) && n in nodeName && ni in nodeName
    requires n in nodes && ni in nodes
    ensures var nodes1 := nodes[n := nodes[n] + {|el|}];
            Built(nodeName, nameId, nodes1[ni := nodes1[ni] + {|el|}], edges[|el| := (n, ni)],
                  el + [(nodeName[n], nodeName[ni])], names)
  {
    assert Open(0);
    assert |el| !in edges;
    IncidentAddEdge(nodes, edges, |el|, n, ni);
    NamedAddEdge(nodeName, edges, el, n, ni);
    var nodes1 := nodes[n := nodes[n] + {|el|}];
    assert nodes1[ni := nodes1[ni] + {|el|}].Keys == nodes.Keys;
    assert EdgeIds(edges[|el| := (n, ni)], |el| + 1);
  }

  /** The wires of one more line follow those before it. */
  lemma EdgeListSnoc(lines: seq<string>, k: nat)
    requires k < |lines|
    ensures EdgeList(lines[..k + 1]) == EdgeList(lines[..k]) + LineEdges(Words(lines[k]))
    ensures Names(lines[..k + 1]) == Names(lines[..k]) + WordSet(Words(lines[k]))
  {
    assert lines[..k + 1][..k] == lines[..k];
  }

  /** One wire more of the current line. */
  lemma LineEdgesStep(el0: seq<(string, string)>, names0: set<string>, w: seq<string>, i: nat)
    requires 1 <= i < |w|
    ensures el0 + LineEdges(w[..i]) + [(w[0], w[i])] == el0 + LineEdges(w[..i + 1])
    ensures names0 + WordSet(w[..i]) + {w[i]} == names0 + WordSet(w[..i + 1])
  {
    assert LineEdges(w[..i + 1]) == LineEdges(w[..i]) + [(w[0], w[i])];
    assert w[..i + 1] == w[..i] + [w[i]];
  }

  /** What `insert_node(name)` does to the names, as a relation between
      the names before and after and the id it returns. */
  ghost predicate Inserted(nodeName0: map<nat, string>, nameId0: map<string, nat>, name: string, id: nat,
                           nodeName1: map<nat, string>, nameId1: map<string, nat>)
  {
    Consistent(nodeName1, nameId1) &&
    (name in nameId0 ==> id == nameId0[name] && nodeName1 == nodeName0 && nameId1 == nameId0) &&
    (name !in nameId0 ==> id !in nodeName0 && nodeName1 == nodeName0[id := name] && nameId1 == nameId0[name := id])
  }

  /** A name inserted, and its node added when it is new. */
  lemma BuiltInsert(nodeName0: map<nat, string>, nameId0: map<string, nat>, nodes0: map<nat, set<nat>>,
                    edges: map<nat, (nat, nat)>, el: seq<(string, string)>, names: set<string>,
                    name: string, id: nat, nodeName1: map<nat, string>, nameId1: map<string, nat>, nodes1: map<nat, set<nat>>)
    requires Built(nodeName0, nameId0, nodes0, edges, el, names)
    requires Inserted(nodeName0, nameId0, name, id, nodeName1, nameId1)
    requires nodes1 == if id in nodes0 then nodes0 else nodes0[id := {}]
    ensures Built(nodeName1, nameId1, nodes1, edges, el, names + {name})
    ensures Extends(nodeName0, nodeName1) && id in nodes1 && id in nodeName1 && nodeName1[id] == name
  {
    if name in nameId0 {
      BuiltInsertKnown(nodeName0, nameId0, nodes0, edges, el, names, name);
    } else {
      BuiltInsertNew(nodeName0, nameId0, nodes0, edges, el, names, name, id, nodeName1, nameId1);
    }
  }

  /** A line's first name. */
  lemma LineStart(nodeName0: map<nat, string>, nameId0: map<string, nat>, nodes0: map<nat, set<nat>>,
                  edges: map<nat, (nat, nat)>, el0: seq<(string, string)>, names0: set<string>, parts: seq<string>,
                  n: nat, nodeName1: map<nat, string>, nameId1: map<string, nat>, nodes1: map<nat, set<nat>>)
    requires |parts| >= 1 && Built(nodeName0, nameId0, nodes0, edges, el0, names0)
    requires Inserted(nodeName0, nameId0, parts[0], n, nodeName1, nameId1)
    requires nodes1 == if n in nodes0 then nodes0 else nodes0[n := {}]
    ensures Built(nodeName1, nameId1, nodes1, edges, el0 + LineEdges(parts[..1]), names0 + WordSet(parts[..1]))
    ensures n in nodeName1 && nodeName1[n] == parts[0] && n in nodes1
  {
    BuiltInsert(nodeName0, nameId0, nodes0, edges, el0, names0, parts[0], n, nodeName1, nameId1, nodes1);
    assert parts[..1] == [parts[0]];
    assert el0 + LineEdges(parts[..1]) == el0;
    assert names0 + WordSet(parts[..1]) == names0 + {parts[0]};
  }

  /** Wire `i` of a line: its name inserted, and edge `e` from the line's
      first name to it, listed at both ends. */
  lemma WireStep(nodeName1: map<nat, string>, nameId1: map<string, nat>, nodes0: map<nat, set<nat>>,
                 edges: map<nat, (nat, nat)>, el0: seq<(string, string)>, names0: set<string>, parts: seq<string>,
                 i: nat, n: nat, ni: nat, e: nat, nodeName2: map<nat, string>, nameId2: map<string, nat>,
                 nodes1: map<nat, set<nat>>)
    requires 1 <= i < |parts| && e == |el0| + i - 1
    requires Built(nodeName1, nameId1, nodes0, edges, el0 + LineEdges(parts[..i]), names0 + WordSet(parts[..i]))
    requires n in nodeName1 && nodeName1[n] == parts[0] && n in nodes0
    requires Inserted(nodeName1, nameId1, parts[i], ni, nodeName2, nameId2)
    requires nodes1 == if ni in nodes0 then nodes0 else nodes0[ni := {}]
    ensures n in nodeName2 && nodeName2[n] == parts[0] && n in nodes1 && ni in nodes1
    ensures var nodes2 := nodes1[n := nodes1[n] + {e}];
            Built(nodeName2, nameId2, nodes2[ni := nodes2[ni] + {e}], edges[e := (n, ni)],
                  el0 + LineEdges(parts[..i + 1]), names0 + WordSet(parts[..i + 1]))
  {
    var el := el0 + LineEdges(parts[..i]);
    var names := names0 + WordSet(parts[..i]);
    BuiltInsert(nodeName1, nameId1, nodes0, edges, el, names, parts[i], ni, nodeName2, nameId2, nodes1);
    assert |el| == e;
    BuiltEdge(nodeName2, nameId2, nodes1, edges, el, names + {parts[i]}, n, ni);
    LineEdgesStep(el0, names0, parts, i);
  }

  /** A line's last wire. */
  lemma LineEnd(nodeName: map<nat, string>, nameId: map<string, nat>, nodes: map<nat, set<nat>>,
                edges: map<nat, (nat, nat)>, el0: seq<(string, string)>, names0: set<string>, parts: seq<string>)
    requires |parts| >= 1
    requires Built(nodeName, nameId, nodes, edges, el0 + LineEdges(parts[..|parts|]), names0 + WordSet(parts[..|parts|]))
    ensures Built(nodeName, nameId, nodes, edges, el0 + LineEdges(parts), names0 + WordSet(parts))
    ensures |el0 + LineEdges(parts)| == |el0| + |parts| - 1
  {
    assert parts[..|parts|] == parts;
  }

  /** One pass of the inner loop of `parse_graph`: the `i`-th name of the
      line and, as edge `edgeId`, the wire to it from the line's first
      name `n`. */
  method AddWire(gi: GraphInfo, nodes0: map<nat, set<nat>>, edges0: map<nat, (nat, nat)>, edgeId: nat, n: nat,
                 parts: seq<string>, i: nat, ghost el0: seq<(string, string)>, ghost names0: set<string>)
    returns (nodes: map<nat, set<nat>>, edges: map<nat, (nat, nat)>)
    requires 1 <= i < |parts| && gi.Valid() && edgeId == |el0| + i - 1
    requires Built(gi.nodeName, gi.nameId, nodes0, edges0, el0 + LineEdges(parts[..i]), names0 + WordSet(parts[..i]))
    requires gi.edges == edges0 && n in gi.nodeName && gi.nodeName[n] == parts[0] && n in nodes0
    modifies gi
    ensures gi.Valid() && gi.edges == edges
    ensures Built(gi.nodeName, gi.nameId, nodes, edges, el0 + LineEdges(parts[..i + 1]), names0 + WordSet(parts[..i + 1]))
    ensures n in gi.nodeName && gi.nodeName[n] == parts[0] && n in nodes
  {
    nodes, edges := nodes0, edges0;
    ghost var nodeName1, nameId1 := gi.nodeName, gi.nameId;
    var ni := gi.InsertNode(parts[i]);
    if ni !in nodes {
      nodes := nodes[ni := {}];
    }
    assert Inserted(nodeName1, nameId1, parts[i], ni, gi.nodeName, gi.nameId);
    WireStep(nodeName1, nameId1, nodes0, edges, el0, names0, parts, i, n, ni, edgeId, gi.nodeName, gi.nameId, nodes);
    edges := edges[edgeId := (n, ni)];
    nodes := nodes[n := nodes[n] + {edgeId}];
    nodes := nodes[ni := nodes[ni] + {edgeId}];
    gi.edges := gi.edges[edgeId := (n, ni)];
  }

  /** One line of `parse_graph`: its first name and then, for each further
      name, the name and the wire from the first one, as edge `edgeId0`
      onwards. */
  method ParseLine(gi: GraphInfo, nodes0: map<nat, set<nat>>, edges0: map<nat, (nat, nat)>, edgeId0: nat, parts: seq<string>,
                   ghost el0: seq<(string, string)>, ghost names0: set<string>)
    returns (nodes: map<nat, set<nat>>, edges: map<nat, (nat, nat)>, edgeId: nat)
    requires |parts| >= 1 && gi.Valid() && Built(gi.nodeName, gi.nameId, nodes0, edges0, el0, names0)
    requires gi.edges == edges0 && edgeId0 == |el0|
    modifies gi
    ensures gi.Valid() && Built(gi.nodeName, gi.nameId, nodes, edges, el0 + LineEdges(parts), names0 + WordSet(parts))
    ensures gi.edges == edges && edgeId == |el0 + LineEdges(parts)|
  {
    nodes, edges, edgeId := nodes0, edges0, edgeId0;
    ghost var nodeName0, nameId0 := gi.nodeName, gi.nameId;
    var n := gi.InsertNode(parts[0]);
    if n !in nodes {
      nodes := nodes[n := {}];
    }
    assert Inserted(nodeName0, nameId0, parts[0], n, gi.nodeName, gi.nameId);
    LineStart(nodeName0, nameId0, nodes0, edges, el0, names0, parts, n, gi.nodeName, gi.nameId, nodes);
    var i := 1;
    while i < |parts|
      invariant 1 <= i <= |parts| && gi.Valid() && edgeId == |el0| + i - 1
      invariant Built(gi.nodeName, gi.nameId, nodes, edges, el0 + LineEdges(parts[..i]), names0 + WordSet(parts[..i]))
      invariant gi.edges == edges
      invariant n in gi.nodeName && gi.nodeName[n] == parts[0] && n in nodes
    {
      nodes, edges := AddWire(gi, nodes, edges, edgeId, n, parts, i, el0, names0);
      edgeId := edgeId + 1;
      i := i + 1;
    }
    assert i == |parts|;
    LineEnd(gi.nodeName, gi.nameId, nodes, edges, el0, names0, parts);
  }

  /** `parse_graph`: the graph and its bookkeeping. Edge `e` exists exactly
      for `e < |EdgeList(lines)|` and joins the names of wire `e`; the
      names known are the names written; the graph is consistent. */
  method ParseGraph(lines: seq<string>) returns (g: Graph, gi: GraphInfo)
    ensures fresh(g) && fresh(gi)
    ensures g.Valid() && gi.Valid() && Linked(g.nodes, g.edges, gi)
    ensures g.edges == gi.edges && g.nodes.Keys == gi.nodeName.Keys && gi.nameId.Keys == Names(lines)
    ensures forall e: nat :: e in g.edges <==> e < |EdgeList(lines)|
    ensures forall e :: e in gi.edges ==> EdgeNames(gi, e) == EdgeList(lines)[e]
  {
    gi := new GraphInfo();
    var nodes: map<nat, set<nat>> := map[];
    var edges: map<nat, (nat, nat)> := map[];
    var edgeId: nat := 0;
    BuiltStart();
    var li := 0;
    while li < |lines|
      invariant li <= |lines| && gi.Valid()
      invariant Built(gi.nodeName, gi.nameId, nodes, edges, EdgeList(lines[..li]), Names(lines[..li]))
      invariant gi.edges == edges && edgeId == |EdgeList(lines[..li])|
    {
      EdgeListSnoc(lines, li);
      nodes, edges, edgeId := ParseLine(gi, nodes, edges, edgeId, Words(lines[li]), EdgeList(lines[..li]), Names(lines[..li]));
      li := li + 1;
    }
    assert lines[..li] == lines;
    BuiltParts(gi.nodeName, gi.nameId, nodes, edges, EdgeList(lines), Names(lines));
    g := new Graph(nodes, edges);
  }
}
