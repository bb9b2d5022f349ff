/** Day 25 (src/day25.rs): the bookkeeping beside the graph. Components
    are numbered in the order they are first named; merging two of them
    names the new component by joining the two names and gives it the next
    number. The edges as first read are kept, so that an edge of a
    contracted graph can still be reported by the names of its original
    ends. */
module Day25Info {

  /** Ids are 0, 1, 2, … with no gap, every id's name is known, and every
      known name leads to an id that carries it. */
  ghost predicate Consistent(nodeName: map<nat, string>, nameId: map<string, nat>)
  {
    (forall i: nat :: i in nodeName <==> i < |nodeName|) &&
    (forall i :: i in nodeName ==> nodeName[i] in nameId) &&
    (forall s :: s in nameId ==> nameId[s] in nodeName && nodeName[nameId[s]] == s)
  }

  /** `GraphInfo`: names of ids, ids of names, and the edges as parsed
      (edge id to the ids of its two ends). */
  class GraphInfo {
    var nodeName: map<nat, string>
    var nameId: map<string, nat>
    var edges: map<nat, (nat, nat)>

    ghost predicate Valid()
      reads this
    {
      Consistent(nodeName, nameId)
    }

    constructor ()
      ensures Valid() && nodeName == map[] && nameId == map[] && edges == map[]
    {
      nodeName := map[];
      nameId := map[];
      edges := map[];
    }

    /** `insert_node`: the id `name` already has, or else the next id,
        which from now on names it. Asking again gives the same id. */
    method InsertNode(name: string) returns (id: nat)
      requires Valid()
      modifies this
      ensures Valid() && edges == old(edges)
      ensures name in old(nameId) ==> id == old(nameId[name]) && nodeName == old(nodeName) && nameId == old(nameId)
      ensures name !in old(nameId) ==>
        id == old(|nodeName|) && id !in old(nodeName) &&
        nodeName == old(nodeName)[id := name] && nameId == old(nameId)[name := id]
      ensures id in nodeName && nodeName[id] == name && nameId[name] == id
    {
      id := |nodeName|;
      if name !in nameId {
        nodeName := nodeName[id := name];
        nameId := nameId[name := id];
      } else {
        id := nameId[name];
      }
    }

    /** `get_new_node_id`: the next id, named by the names of `u` and `v`
        one after the other. */
    method GetNewNodeId(u: nat, v: nat) returns (n: nat)
      requires Valid() && u in nodeName && v in nodeName
      modifies this
      ensures Valid() && edges == old(edges)
      ensures n == old(|nodeName|) && n !in old(nodeName)
      ensures nodeName == old(nodeName)[n := old(nodeName[u]) + old(nodeName[v])]
      ensures nameId == old(nameId)[old(nodeName[u]) + old(nodeName[v]) := n]
    {
      var name := nodeName[u] + nodeName[v];
      n := |nodeName|;
      nodeName := nodeName[n := name];
      nameId := nameId[name := n];
    }
  }
}
