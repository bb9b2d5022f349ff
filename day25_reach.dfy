/** Day 25 (src/day25.rs), what `count_comp` computes: the nodes reached
    from one node without using any of the cut edges. A walk moves from a
    node along an edge that node lists, and arrives at either end of it. */
module Day25Reach {
  import opened RustStd

  /** One step of a walk: from `a`, along an edge listed at `a` that is
      not cut, to an end `b` of that edge. */
  ghost predicate Crosses(nodes: map<nat, set<nat>>, edges: map<nat, (nat, nat)>, cut: set<nat>, a: nat, b: nat)
  {
    a in nodes && exists e :: e in nodes[a] && e !in cut && e in edges && (edges[e].0 == b || edges[e].1 == b)
  }

  /** A walk from `start` avoiding the cut edges. */
  ghost predicate Walk(nodes: map<nat, set<nat>>, edges: map<nat, (nat, nat)>, cut: set<nat>, start: nat, w: seq<nat>)
  {
    |w| >= 1 && w[0] == start &&
    forall i :: 0 <= i < |w| - 1 ==> Crosses(nodes, edges, cut, w[i], w[i + 1])
  }

  /** `x` can be reached from `start` without crossing the cut. */
  ghost predicate Reached(nodes: map<nat, set<nat>>, edges: map<nat, (nat, nat)>, cut: set<nat>, start: nat, x: nat)
  {
    exists w :: Walk(nodes, edges, cut, start, w) && w[|w| - 1] == x
  }

  /** No edge that is not cut leads out of `comp`: both ends of every such
      edge at a node of `comp` are in `comp`. */
  ghost predicate Closed(nodes: map<nat, set<nat>>, edges: map<nat, (nat, nat)>, cut: set<nat>, comp: set<nat>)
  {
    forall x, e :: x in comp && x in nodes && e in nodes[x] && e !in cut ==>
      e in edges && edges[e].0 in comp && edges[e].1 in comp
  }

  /** A walk extended by one more step is a walk. */
  lemma WalkSnoc(nodes: map<nat, set<nat>>, edges: map<nat, (nat, nat)>, cut: set<nat>, start: nat, w: seq<nat>, e: nat, b: nat)
    requires Walk(nodes, edges, cut, start, w)
    requires w[|w| - 1] in nodes && e in nodes[w[|w| - 1]] && e !in cut && e in edges
    requires edges[e].0 == b || edges[e].1 == b
    ensures Walk(nodes, edges, cut, start, w + [b]) && (w + [b])[|w|] == b
  {
    var v := w + [b];
    forall i | 0 <= i < |v| - 1
      ensures Crosses(nodes, edges, cut, v[i], v[i + 1])
    {
      if i < |w| - 1 {
        assert v[i] == w[i] && v[i + 1] == w[i + 1];
      } else {
        assert v[i] == w[|w| - 1] && v[i + 1] == b;
      }
    }
  }

  /** A walk from a node of a closed set never leaves it: so a closed set
      holding `start` holds every node reached from `start`. */
  lemma {:induction false} ClosedHoldsWalk(nodes: map<nat, set<nat>>, edges: map<nat, (nat, nat)>, cut: set<nat>,
                                          comp: set<nat>, start: nat, w: seq<nat>)
    requires Closed(nodes, edges, cut, comp) && start in comp && Walk(nodes, edges, cut, start, w)
    ensures forall i :: 0 <= i < |w| ==> w[i] in comp
    decreases |w|
  {
    if |w| > 1 {
      var u := w[..|w| - 1];
      assert Walk(nodes, edges, cut, start, u) by {
        forall i | 0 <= i < |u| - 1
          ensures Crosses(nodes, edges, cut, u[i], u[i + 1])
        {
          assert u[i] == w[i] && u[i + 1] == w[i + 1];
        }
      }
      ClosedHoldsWalk(nodes, edges, cut, comp, start, u);
      var a, b := w[|w| - 2], w[|w| - 1];
      assert a == u[|u| - 1] && a in comp;
      assert Crosses(nodes, edges, cut, a, b);
      var e :| e in nodes[a] && e !in cut && e in edges && (edges[e].0 == b || edges[e].1 == b);
      forall i | 0 <= i < |w|
        ensures w[i] in comp
      {
        if i < |w| - 1 {
          assert w[i] == u[i];
        }
      }
    }
  }

  /** A closed set holding `start` whose every node is reached from
      `start` is exactly the nodes reached from `start`. */
  lemma ClosedIsComponent(nodes: map<nat, set<nat>>, edges: map<nat, (nat, nat)>, cut: set<nat>, comp: set<nat>, start: nat, x: nat)
    requires Closed(nodes, edges, cut, comp) && start in comp
    requires forall y :: y in comp ==> Reached(nodes, edges, cut, start, y)
    ensures x in comp <==> Reached(nodes, edges, cut, start, x)
  {
    if Reached(nodes, edges, cut, start, x) {
      var w :| Walk(nodes, edges, cut, start, w) && w[|w| - 1] == x;
      ClosedHoldsWalk(nodes, edges, cut, comp, start, w);
    }
  }

  /** Every node of `cur` has its uncut edges accounted for: both ends
      are in `cur` or still waiting on the stack `q`; for `p`, the edges
      still in `todo` have not been dealt with yet. */
  ghost predicate Pending(nodes: map<nat, set<nat>>, edges: map<nat, (nat, nat)>, cut: set<nat>,
                          cur: set<nat>, q: seq<nat>, p: nat, todo: set<nat>)
  {
    forall x, e :: x in cur && x in nodes && e in nodes[x] && e !in cut && (x == p ==> e !in todo) ==>
      e in edges && (edges[e].0 in cur || edges[e].0 in q) && (edges[e].1 in cur || edges[e].1 in q)
  }

  /** Popping `p` off the stack and adding it to `cur`: the stack no
      longer holds it, but `cur` does, and all its edges are still to be
      dealt with. */
  lemma PendingPop(nodes: map<nat, set<nat>>, edges: map<nat, (nat, nat)>, cut: set<nat>, cur: set<nat>, q: seq<nat>, x0: nat)
    requires |q| > 0 && Pending(nodes, edges, cut, cur, q, x0, {}) && q[|q| - 1] in nodes
    ensures Pending(nodes, edges, cut, cur + {q[|q| - 1]}, q[..|q| - 1], q[|q| - 1], nodes[q[|q| - 1]])
  {
    var p, q' := q[|q| - 1], q[..|q| - 1];
    forall x, e | x in cur + {p} && x in nodes && e in nodes[x] && e !in cut && (x == p ==> e !in nodes[p])
      ensures e in edges && (edges[e].0 in cur + {p} || edges[e].0 in q') && (edges[e].1 in cur + {p} || edges[e].1 in q')
    {
      assert x in cur;
      assert q == q' + [p];
    }
  }

  /** The same when `p` was already in `cur`. */
  lemma PendingPopSeen(nodes: map<nat, set<nat>>, edges: map<nat, (nat, nat)>, cut: set<nat>, cur: set<nat>, q: seq<nat>, x0: nat)
    requires |q| > 0 && q[|q| - 1] in cur && Pending(nodes, edges, cut, cur, q, x0, {})
    ensures Pending(nodes, edges, cut, cur, q[..|q| - 1], x0, {})
  {
    var p, q' := q[|q| - 1], q[..|q| - 1];
    forall x, e | x in cur && x in nodes && e in nodes[x] && e !in cut
      ensures e in edges && (edges[e].0 in cur || edges[e].0 in q') && (edges[e].1 in cur || edges[e].1 in q')
    {
      assert q == q' + [p];
    }
  }

  /** Pushing onto the stack keeps everything accounted for. */
  lemma PendingPush(nodes: map<nat, set<nat>>, edges: map<nat, (nat, nat)>, cut: set<nat>, cur: set<nat>, q: seq<nat>,
                    p: nat, todo: set<nat>, y: nat)
    requires Pending(nodes, edges, cut, cur, q, p, todo)
    ensures Pending(nodes, edges, cut, cur, q + [y], p, todo)
  {
    forall z | z in q
      ensures z in q + [y]
    {
      var i :| 0 <= i < |q| && q[i] == z;
      assert (q + [y])[i] == z;
    }
  }

  /** Dealing with edge `e` of `p`: when it is cut, or when both its ends
      are now in `cur` or on the stack, it leaves `todo`. */
  lemma PendingDone(nodes: map<nat, set<nat>>, edges: map<nat, (nat, nat)>, cut: set<nat>, cur: set<nat>, q: seq<nat>,
                    p: nat, todo: set<nat>, e: nat)
    requires Pending(nodes, edges, cut, cur, q, p, todo)
    requires e !in cut ==> e in edges && (edges[e].0 in cur || edges[e].0 in q) && (edges[e].1 in cur || edges[e].1 in q)
    ensures Pending(nodes, edges, cut, cur, q, p, todo - {e})
  {
  }

  /** With the stack empty and nothing left to do, `cur` is closed. */
  lemma PendingClosed(nodes: map<nat, set<nat>>, edges: map<nat, (nat, nat)>, cut: set<nat>, cur: set<nat>, p: nat)
    requires Pending(nodes, edges, cut, cur, [], p, {})
    ensures Closed(nodes, edges, cut, cur)
  {
  }

  /** The stack after `count_comp` looks at end `y`: pushed unless it is
      in `cur` already. */
  function PushNew(q: seq<nat>, cur: set<nat>, y: nat): seq<nat>
  {
    if y in cur then q else q + [y]
  }

  /** The walks beside the stack, extended from `pw` the same way. */
  ghost function PushWalk(wq: seq<seq<nat>>, cur: set<nat>, y: nat, pw: seq<nat>): seq<seq<nat>>
  {
    if y in cur then wq else wq + [pw + [y]]
  }

  /** The state of the search in `count_comp`: `cur` holds nodes only, the
      stack `q` holds nodes when the graph is consistent (`valid`), `wq[i]`
      is a walk from `start` to `q[i]`, every node of `cur` is reached,
      and the edges of `cur` are accounted for as `Pending` says. */
  ghost predicate Search(nodes: map<nat, set<nat>>, edges: map<nat, (nat, nat)>, cut: set<nat>, start: nat, valid: bool,
                         cur: set<nat>, q: seq<nat>, wq: seq<seq<nat>>, px: nat, todo: set<nat>)
  {
    forall k: nat :: Open(k) ==>
      cur <= nodes.Keys && (valid ==> forall i :: 0 <= i < |q| ==> q[i] in nodes) &&
      |wq| == |q| && (forall i :: 0 <= i < |q| ==> Walk(nodes, edges, cut, start, wq[i]) && wq[i][|wq[i]| - 1] == q[i]) &&
      (forall x :: x in cur ==> Reached(nodes, edges, cut, start, x)) &&
      Pending(nodes, edges, cut, cur, q, px, todo)
  }

  lemma SearchStart(nodes: map<nat, set<nat>>, edges: map<nat, (nat, nat)>, cut: set<nat>, start: nat, valid: bool)
    requires valid ==> start in nodes
    ensures Search(nodes, edges, cut, start, valid, {}, [start], [[start]], start, {})
  {
  }

  /** The top of the stack: a node when the graph is consistent, reached
      by the walk on top of `wq`. */
  lemma SearchTop(nodes: map<nat, set<nat>>, edges: map<nat, (nat, nat)>, cut: set<nat>, start: nat, valid: bool,
                  cur: set<nat>, q: seq<nat>, wq: seq<seq<nat>>, px: nat, todo: set<nat>)
    requires Search(nodes, edges, cut, start, valid, cur, q, wq, px, todo) && |q| > 0
    ensures valid ==> q[|q| - 1] in nodes
    ensures |wq| == |q| && Walk(nodes, edges, cut, start, wq[|wq| - 1]) && wq[|wq| - 1][|wq[|wq| - 1]| - 1] == q[|q| - 1]
  {
    assert Open(0);
  }

  /** `cur` holds nodes only, so no more of them than the graph has. */
  lemma SearchHolds(nodes: map<nat, set<nat>>, edges: map<nat, (nat, nat)>, cut: set<nat>, start: nat, valid: bool,
                    cur: set<nat>, q: seq<nat>, wq: seq<seq<nat>>, px: nat, todo: set<nat>)
    requires Search(nodes, edges, cut, start, valid, cur, q, wq, px, todo)
    ensures cur <= nodes.Keys && |cur| <= |nodes|
  {
    assert Open(0);
    SubsetCard(cur, nodes.Keys);
  }

  /** Popping a node that is in `cur` already. */
  lemma SearchPopSeen(nodes: map<nat, set<nat>>, edges: map<nat, (nat, nat)>, cut: set<nat>, start: nat, valid: bool,
                      cur: set<nat>, q: seq<nat>, wq: seq<seq<nat>>, px: nat)
    requires Search(nodes, edges, cut, start, valid, cur, q, wq, px, {}) && |q| > 0 && |wq| == |q| && q[|q| - 1] in cur
    ensures Search(nodes, edges, cut, start, valid, cur, q[..|q| - 1], wq[..|wq| - 1], px, {})
  {
    assert Open(0);
    PendingPopSeen(nodes, edges, cut, cur, q, px);
    var q', wq' := q[..|q| - 1], wq[..|wq| - 1];
    assert forall i :: 0 <= i < |q'| ==> q'[i] == q[i] && wq'[i] == wq[i];
  }

  /** Popping a new node `p`: it joins `cur`, with all of its edges still
      to be dealt with. */
  lemma SearchPopNew(nodes: map<nat, set<nat>>, edges: map<nat, (nat, nat)>, cut: set<nat>, start: nat, valid: bool,
                     cur: set<nat>, q: seq<nat>, wq: seq<seq<nat>>, px: nat)
    requires Search(nodes, edges, cut, start, valid, cur, q, wq, px, {}) && |q| > 0 && |wq| == |q|
    requires q[|q| - 1] !in cur && q[|q| - 1] in nodes
    ensures Search(nodes, edges, cut, start, valid, cur + {q[|q| - 1]}, q[..|q| - 1], wq[..|wq| - 1], q[|q| - 1],
                   nodes[q[|q| - 1]])
  {
    assert Open(0);
    PendingPop(nodes, edges, cut, cur, q, px);
    var p, q', wq' := q[|q| - 1], q[..|q| - 1], wq[..|wq| - 1];
    assert forall i :: 0 <= i < |q'| ==> q'[i] == q[i] && wq'[i] == wq[i];
    assert Walk(nodes, edges, cut, start, wq[|wq| - 1]) && wq[|wq| - 1][|wq[|wq| - 1]| - 1] == p;
  }

  /** A cut edge of `p` needs nothing. */
  lemma SearchSkip(nodes: map<nat, set<nat>>, edges: map<nat, (nat, nat)>, cut: set<nat>, start: nat, valid: bool,
                   cur: set<nat>, q: seq<nat>, wq: seq<seq<nat>>, p: nat, todo: set<nat>, e: nat)
    requires Search(nodes, edges, cut, start, valid, cur, q, wq, p, todo) && e in cut
    ensures Search(nodes, edges, cut, start, valid, cur, q, wq, p, todo - {e})
  {
    assert Open(0);
    PendingDone(nodes, edges, cut, cur, q, p, todo, e);
  }

  /** An uncut edge `e` of `p`, reached by walk `pw`: each end not in
      `cur` is pushed, with `pw` extended to it. */
  lemma SearchEdge(nodes: map<nat, set<nat>>, edges: map<nat, (nat, nat)>, cut: set<nat>, start: nat, valid: bool,
                   cur: set<nat>, q: seq<nat>, wq: seq<seq<nat>>, p: nat, todo: set<nat>, e: nat, pw: seq<nat>)
    requires Search(nodes, edges, cut, start, valid, cur, q, wq, p, todo)
    requires p in nodes && e in nodes[p] && e !in cut && e in edges
    requires valid ==> edges[e].0 in nodes && edges[e].1 in nodes
    requires Walk(nodes, edges, cut, start, pw) && pw[|pw| - 1] == p
    ensures Search(nodes, edges, cut, start, valid, cur,
                   PushNew(PushNew(q, cur, edges[e].0), cur, edges[e].1),
                   PushWalk(PushWalk(wq, cur, edges[e].0, pw), cur, edges[e].1, pw), p, todo - {e})
  {
    var p1, p2 := edges[e].0, edges[e].1;
    var q1, wq1 := PushNew(q, cur, p1), PushWalk(wq, cur, p1, pw);
    var q2, wq2 := PushNew(q1, cur, p2), PushWalk(wq1, cur, p2, pw);
    SearchPush(nodes, edges, cut, start, valid, cur, q, wq, p, todo, e, pw, p1);
    SearchPush(nodes, edges, cut, start, valid, cur, q1, wq1, p, todo, e, pw, p2);
    assert p1 in cur || p1 in q2 by {
      if p1 !in cur {
        assert q1[|q|] == p1;
        assert q2[|q|] == p1;
      }
    }
    assert p2 in cur || p2 in q2 by {
      if p2 !in cur {
        assert q2[|q1|] == p2;
      }
    }
    assert Open(0);
    PendingDone(nodes, edges, cut, cur, q2, p, todo, e);
  }

  lemma SearchPush(nodes: map<nat, set<nat>>, edges: map<nat, (nat, nat)>, cut: set<nat>, start: nat, valid: bool,
                   cur: set<nat>, q: seq<nat>, wq: seq<seq<nat>>, p: nat, todo: set<nat>, e: nat, pw: seq<nat>, y: nat)
    requires Search(nodes, edges, cut, start, valid, cur, q, wq, p, todo)
    requires p in nodes && e in nodes[p] && e !in cut && e in edges && (edges[e].0 == y || edges[e].1 == y)
    requires valid ==> y in nodes
    requires Walk(nodes, edges, cut, start, pw) && pw[|pw| - 1] == p
    ensures Search(nodes, edges, cut, start, valid, cur, PushNew(q, cur, y), PushWalk(wq, cur, y, pw), p, todo)
    ensures forall z :: z in q ==> z in PushNew(q, cur, y)
  {
    assert Open(0);
    if y !in cur {
      PendingPush(nodes, edges, cut, cur, q, p, todo, y);
      WalkSnoc(nodes, edges, cut, start, pw, e, y);
      var q', wq' := q + [y], wq + [pw + [y]];
      assert forall i :: 0 <= i < |q| ==> q'[i] == q[i] && wq'[i] == wq[i];
      assert q'[|q|] == y && wq'[|q|] == pw + [y];
    }
  }

  /** When the stack is empty and nothing is left to do, `cur` is closed
      and every node of it reached. */
  lemma SearchEnd(nodes: map<nat, set<nat>>, edges: map<nat, (nat, nat)>, cut: set<nat>, start: nat, valid: bool,
                  cur: set<nat>, px: nat)
    requires Search(nodes, edges, cut, start, valid, cur, [], [], px, {})
    ensures cur <= nodes.Keys && Closed(nodes, edges, cut, cur)
    ensures forall x :: x in cur ==> Reached(nodes, edges, cut, start, x)
  {
    assert Open(0);
    PendingClosed(nodes, edges, cut, cur, px);
  }
}
