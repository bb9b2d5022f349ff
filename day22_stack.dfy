/** Day 22, the whole stack: `prepare`, which drops every brick in order
    of its lowest z and then records what lies above and below each one,
    and the two solvers, `solve1` with `can_be_desintegrated` and `solve2`
    with `count_falls`. The bricks are the `Brick` objects of module
    `Day22`; the settled stack is specified by `Settle`, the drops one at
    a time on values. */
module Day22Stack {
  import opened RustStd
  import opened Day22

  /** A brick the model drops and prepares: its bottom is not at 0
      (`p1.z - 1` in `below_ids`), its top is below `u32::MAX` (`p2.z + 1`
      in `above_ids`), and its top is at most one below its bottom, so
      that `p2.z -= 1` in `drop` cannot underflow. */
  predicate Placeable(b: Shape)
  {
    1 <= b.p1.z <= b.p2.z + 1 && b.p2.z < U32_MAX
  }

  predicate AllPlaceable(shapes: seq<Shape>)
  {
    forall i :: 0 <= i < |shapes| ==> Placeable(shapes[i])
  }

  /** Dropping keeps a brick placeable, keeps its footprint, and moves it
      down, never below 1. */
  lemma DroppedPlaceable(b: Shape, h: map<Pos, nat>)
    requires Placeable(b)
    ensures var d := Dropped(b, h);
      && Placeable(d) && d.p1.z <= b.p1.z && d.p2.z <= b.p2.z
      && d.p1.x == b.p1.x && d.p2.x == b.p2.x && d.p1.y == b.p1.y && d.p2.y == b.p2.y
  {
    RestFalls(b.p1.x, b.p2.x, b.p1.y, b.p2.y, b.p1.z, h);
  }

  // ---------------------------------------------------------------------
  // The order of the drops

  /** The ids of the bricks, which are their line numbers. */
  function Ids(n: nat): (r: seq<nat>)
    ensures |r| == n && forall i :: 0 <= i < n ==> r[i] == i
  {
    seq(n, i => i)
  }

  lemma {:induction false} IdsOnce(n: nat, v: nat)
    ensures multiset(Ids(n))[v] == if v < n then 1 else 0
  {
    if n > 0 {
      assert Ids(n) == Ids(n - 1) + [n - 1];
      IdsOnce(n - 1, v);
    }
  }

  predicate Distinct(s: seq<nat>)
  {
    forall i, j :: 0 <= i < j < |s| ==> s[i] != s[j]
  }

  /** A reordering of the ids holds each id exactly once. */
  lemma PermutationOfIds(order: seq<nat>, n: nat)
    requires multiset(order) == multiset(Ids(n))
    ensures |order| == n && Distinct(order)
    ensures forall i :: 0 <= i < |order| ==> order[i] < n
    ensures forall v :: 0 <= v < n ==> v in order
  {
    assert |order| == |multiset(order)| == |multiset(Ids(n))| == n;
    forall i | 0 <= i < |order| ensures order[i] < n {
      assert order[i] in multiset(order);
      IdsOnce(n, order[i]);
    }
    forall i, j | 0 <= i < j < |order| ensures order[i] != order[j] {
      if order[i] == order[j] {
        var v := order[i];
        assert order == order[..j] + [v] + order[j + 1..];
        assert v in multiset(order[..j]);
        assert multiset(order)[v] >= 2;
        IdsOnce(n, v);
      }
    }
    forall v | 0 <= v < n ensures v in order {
      IdsOnce(n, v);
      assert v in multiset(order);
    }
  }

  /** The lowest z of a brick, the key of the sort. */
  function LowZ(b: Shape): nat
  {
    MinNat(b.p1.z, b.p2.z)
  }

  function ByLowZ(shapes: seq<Shape>): nat -> int
  {
    (i: nat) => if i < |shapes| then LowZ(shapes[i]) else 0
  }

  /** `sorted_ids`: the ids sorted (stably) by the lowest z of their
      bricks. */
  function DropOrder(shapes: seq<Shape>): (r: seq<nat>)
    ensures multiset(r) == multiset(Ids(|shapes|))
    ensures SortedByKey(r, ByLowZ(shapes))
  {
    SortByKey(Ids(|shapes|), ByLowZ(shapes))
  }

  /** The bricks are dropped in ascending order of their lowest z, each
      brick once. */
  lemma DropOrderAscends(shapes: seq<Shape>)
    ensures var r := DropOrder(shapes);
      && |r| == |shapes| && Distinct(r) && (forall i :: 0 <= i < |r| ==> r[i] < |shapes|)
      && forall i, j :: 0 <= i < j < |r| ==> LowZ(shapes[r[i]]) <= LowZ(shapes[r[j]])
  {
    var r := DropOrder(shapes);
    PermutationOfIds(r, |shapes|);
    forall i, j | 0 <= i < j < |r| ensures LowZ(shapes[r[i]]) <= LowZ(shapes[r[j]]) {
      assert ByLowZ(shapes)(r[i]) <= ByLowZ(shapes)(r[j]);
    }
  }

  // ---------------------------------------------------------------------
  // Settling

  predicate InRange(order: seq<nat>, n: nat)
  {
    forall i :: 0 <= i < |order| ==> order[i] < n
  }

  /** One drop: brick `id`, standing as `a`, comes to rest as `b` on the
      map `h`, and `h'` is `h` with the cubes of `b` recorded under `id`. */
  ghost predicate DropStep(a: Shape, b: Shape, h: map<Pos, nat>, h': map<Pos, nat>, id: nat)
  {
    Placeable(a) && b == Dropped(a, h) && h' == Record(h, Cells(b.p1, b.p2), id)
  }

  /** The first k drops of `order`: `hs[t]` is the map before drop t,
      starting empty; brick `order[t]` stood as the input put it and came
      to rest as `cur[order[t]]` on `hs[t]`; bricks not yet dropped stand
      as the input put them. */
  ghost predicate Trace(shapes: seq<Shape>, order: seq<nat>, cur: seq<Shape>, hs: seq<map<Pos, nat>>, k: nat)
  {
    && k <= |order| && InRange(order, |shapes|) && |cur| == |shapes| && |hs| == k + 1 && hs[0] == map[]
    && (forall t :: 0 <= t < k ==> DropStep(shapes[order[t]], cur[order[t]], hs[t], hs[t + 1], order[t]))
    && (forall j :: 0 <= j < |shapes| && j !in order[..k] ==> cur[j] == shapes[j])
  }

  lemma TraceStart(shapes: seq<Shape>, order: seq<nat>)
    requires InRange(order, |shapes|)
    ensures Trace(shapes, order, shapes, [map[]], 0)
  {
  }

  /** Making drop k extends the trace. */
  lemma TraceStep(shapes: seq<Shape>, order: seq<nat>, cur: seq<Shape>, hs: seq<map<Pos, nat>>, k: nat, b: Shape, h': map<Pos, nat>)
    requires Trace(shapes, order, cur, hs, k) && k < |order| && Distinct(order)
    requires DropStep(shapes[order[k]], b, hs[k], h', order[k])
    ensures Trace(shapes, order, cur[order[k] := b], hs + [h'], k + 1)
  {
    var id := order[k];
    var cur', hs' := cur[id := b], hs + [h'];
    assert order[..k + 1] == order[..k] + [id];
    forall t | 0 <= t < k + 1 ensures DropStep(shapes[order[t]], cur'[order[t]], hs'[t], hs'[t + 1], order[t]) {
      if t < k {
        assert order[t] != id;
      }
    }
  }

  /** Before its drop, a brick stands as the input put it. */
  lemma TraceWaiting(shapes: seq<Shape>, order: seq<nat>, cur: seq<Shape>, hs: seq<map<Pos, nat>>, k: nat)
    requires Trace(shapes, order, cur, hs, k) && k < |order| && Distinct(order)
    ensures cur[order[k]] == shapes[order[k]]
  {
  }

  /** A brick lies on the ground or on an occupied cube. */
  ghost predicate Resting(b: Shape, h: map<Pos, nat>)
  {
    b.p1.z == 1 || (b.p1.z >= 1 && Occupied(b.p1.x, b.p2.x, b.p1.y, b.p2.y, b.p1.z - 1, h))
  }

  lemma OccupiedGrows(x1: int, x2: int, y1: int, y2: int, z: nat, h: map<Pos, nat>, h': map<Pos, nat>)
    requires Occupied(x1, x2, y1, y2, z, h) && h.Keys <= h'.Keys
    ensures Occupied(x1, x2, y1, y2, z, h')
  {
    var x: nat, y: nat :| x1 <= x <= x2 && y1 <= y <= y2 && Pos(x, y, z) in h;
    assert Pos(x, y, z) in h';
  }

  /** The map only grows along the trace. */
  lemma {:induction false} TraceGrows(shapes: seq<Shape>, order: seq<nat>, cur: seq<Shape>, hs: seq<map<Pos, nat>>, k: nat, t: nat)
    requires Trace(shapes, order, cur, hs, k) && t <= k
    ensures hs[t].Keys <= hs[k].Keys
    decreases k - t
  {
    if t < k {
      assert DropStep(shapes[order[t]], cur[order[t]], hs[t], hs[t + 1], order[t]);
      TraceGrows(shapes, order, cur, hs, k, t + 1);
    }
  }

  /** A dropped brick rests on the ground or on the map it fell onto. */
  lemma DropRests(a: Shape, b: Shape, h: map<Pos, nat>, h': map<Pos, nat>, id: nat)
    requires DropStep(a, b, h, h', id)
    ensures Resting(b, h)
  {
    RestStops(a.p1.x, a.p2.x, a.p1.y, a.p2.y, a.p1.z, h);
    RestFalls(a.p1.x, a.p2.x, a.p1.y, a.p2.y, a.p1.z, h);
  }

  /** After the first k drops, every brick dropped so far still rests on
      the ground or on a recorded cube. */
  lemma TraceRests(shapes: seq<Shape>, order: seq<nat>, cur: seq<Shape>, hs: seq<map<Pos, nat>>, k: nat, t: nat)
    requires Trace(shapes, order, cur, hs, k) && t < k
    ensures Resting(cur[order[t]], hs[k])
  {
    var b := cur[order[t]];
    DropRests(shapes[order[t]], b, hs[t], hs[t + 1], order[t]);
    TraceGrows(shapes, order, cur, hs, k, t);
    if b.p1.z != 1 {
      OccupiedGrows(b.p1.x, b.p2.x, b.p1.y, b.p2.y, b.p1.z - 1, hs[t], hs[k]);
    }
  }

  /** Every cube in the map belongs to the brick whose id it holds, and
      that brick has been dropped. */
  ghost predicate Owned(s: seq<Shape>, h: map<Pos, nat>, done: seq<nat>)
  {
    forall c :: c in h ==> h[c] in done && h[c] < |s| && c in Cells(s[h[c]].p1, s[h[c]].p2)
  }

  lemma OwnedStep(s: seq<Shape>, h: map<Pos, nat>, done: seq<nat>, id: nat)
    requires Owned(s, h, done) && id < |s|
    ensures Owned(s, Record(h, Cells(s[id].p1, s[id].p2), id), done + [id])
  {
    var h' := Record(h, Cells(s[id].p1, s[id].p2), id);
    forall c | c in h' ensures h'[c] in done + [id] && h'[c] < |s| && c in Cells(s[h'[c]].p1, s[h'[c]].p2) {
      RecordHas(h, Cells(s[id].p1, s[id].p2), id, c);
    }
  }

  lemma {:induction false} TraceOwned(shapes: seq<Shape>, order: seq<nat>, cur: seq<Shape>, hs: seq<map<Pos, nat>>, k: nat, t: nat)
    requires Trace(shapes, order, cur, hs, k) && t <= k
    ensures Owned(cur, hs[t], order[..t])
    decreases t
  {
    if t > 0 {
      TraceOwned(shapes, order, cur, hs, k, t - 1);
      assert DropStep(shapes[order[t - 1]], cur[order[t - 1]], hs[t - 1], hs[t], order[t - 1]);
      OwnedStep(cur, hs[t - 1], order[..t - 1], order[t - 1]);
      assert order[..t] == order[..t - 1] + [order[t - 1]];
    }
  }

  /** A resting brick off the ground has a brick below it. */
  lemma RestingBelow(b: Shape, h: map<Pos, nat>)
    requires Resting(b, h)
    ensures b.p1.z == 1 || Below(b, h) != {}
  {
    if b.p1.z != 1 {
      OccupiedIds(b.p1.x, b.p2.x, b.p1.y, b.p2.y, b.p1.z - 1, h);
    }
  }

  /** What the drops of `prepare` leave: every brick lies on the ground or
      on another brick, recorded below it, and every cube of the map holds
      the id of its own brick. */
  lemma SettledStack(shapes: seq<Shape>, order: seq<nat>, cur: seq<Shape>, hs: seq<map<Pos, nat>>)
    requires Trace(shapes, order, cur, hs, |order|) && multiset(order) == multiset(Ids(|shapes|))
    ensures AllPlaceable(cur) && Owned(cur, hs[|order|], order)
    ensures forall i :: 0 <= i < |shapes| ==> cur[i].p1.z == 1 || Below(cur[i], hs[|order|]) != {}
  {
    var n := |order|;
    PermutationOfIds(order, |shapes|);
    assert order[..n] == order;
    TraceOwned(shapes, order, cur, hs, n, n);
    forall i | 0 <= i < |shapes| ensures Placeable(cur[i]) && (cur[i].p1.z == 1 || Below(cur[i], hs[n]) != {}) {
      assert i in order;
      var t :| 0 <= t < n && order[t] == i;
      assert DropStep(shapes[i], cur[i], hs[t], hs[t + 1], i);
      DroppedPlaceable(shapes[i], hs[t]);
      TraceRests(shapes, order, cur, hs, n, t);
      RestingBelow(cur[i], hs[n]);
    }
  }

  // ---------------------------------------------------------------------
  // `prepare` on the brick objects

  predicate DistinctBricks(bricks: seq<Brick>)
  {
    forall i, j :: 0 <= i < j < |bricks| ==> bricks[i] != bricks[j]
  }

  /** The bricks are where `s` says, with the above and below sets that
      `h` gives them. */
  ghost predicate Layout(bricks: seq<Brick>, s: seq<Shape>, h: map<Pos, nat>)
    reads bricks
  {
    && |bricks| == |s| && AllPlaceable(s)
    && forall i :: 0 <= i < |bricks| ==>
         && bricks[i].Corners() == s[i]
         && bricks[i].above == Above(s[i], h) && bricks[i].below == Below(s[i], h)
  }

  /** Every recorded neighbour is a brick, and every brick has a bottom
      `below_ids` can look under: what the `unwrap`s of `solve1` and
      `count_falls` rely on. */
  ghost predicate LinksValid(bricks: seq<Brick>)
    reads bricks
  {
    forall i :: 0 <= i < |bricks| ==>
      bricks[i].p1.z >= 1 && forall j :: j in bricks[i].above ==> j < |bricks|
  }

  /** The ids a map of owned cubes holds are bricks. */
  lemma IdsAtOwned(s: seq<Shape>, h: map<Pos, nat>, done: seq<nat>, x1: int, x2: int, y1: int, y2: int, z: nat)
    requires Owned(s, h, done)
    ensures forall j :: j in IdsAt(x1, x2, y1, y2, z, h) ==> j < |s|
  {
    forall j | j in IdsAt(x1, x2, y1, y2, z, h) ensures j < |s| {
      var x: nat, y: nat :| x1 <= x <= x2 && y1 <= y <= y2 && Pos(x, y, z) in h && h[Pos(x, y, z)] == j;
    }
  }

  lemma LayoutLinks(bricks: seq<Brick>, s: seq<Shape>, h: map<Pos, nat>, done: seq<nat>)
    requires Layout(bricks, s, h) && Owned(s, h, done)
    ensures LinksValid(bricks)
  {
    forall i | 0 <= i < |bricks| ensures forall j :: j in bricks[i].above ==> j < |bricks| {
      IdsAtOwned(s, h, done, s[i].p1.x, s[i].p2.x, s[i].p1.y, s[i].p2.y, s[i].p2.z + 1);
    }
  }

  /** `prepare`, once the lines are parsed: one brick per line, the ids
      sorted by lowest z, every brick dropped in that order into an empty
      map, then every brick's above and below sets recorded. The ghost
      results are the bricks as they settle and the maps between the
      drops. */
  method Prepare(shapes: seq<Shape>) returns (bricks: seq<Brick>, order: seq<nat>, h: map<Pos, nat>,
                                             ghost cur: seq<Shape>, ghost hs: seq<map<Pos, nat>>)
    requires AllPlaceable(shapes)
    ensures order == DropOrder(shapes) && DistinctBricks(bricks)
    ensures Trace(shapes, order, cur, hs, |order|) && h == hs[|order|]
    ensures Layout(bricks, cur, h) && LinksValid(bricks)
  {
    bricks := MakeBricks(shapes);
    order := DropOrder(shapes);
    DropOrderAscends(shapes);
    h, cur, hs := DropAll(bricks, shapes, order);
    SettledStack(shapes, order, cur, hs);
    PermutationOfIds(order, |shapes|);
    PrepareAll(bricks, order, h, cur);
    LayoutLinks(bricks, cur, h, order);
  }

  /** The first line of `prepare`: a fresh brick per shape. */
  method MakeBricks(shapes: seq<Shape>) returns (bricks: seq<Brick>)
    ensures |bricks| == |shapes| && DistinctBricks(bricks)
    ensures forall i :: 0 <= i < |bricks| ==> fresh(bricks[i]) && bricks[i].Corners() == shapes[i]
  {
    bricks := [];
    var i := 0;
    while i < |shapes|
      invariant i <= |shapes| && |bricks| == i && DistinctBricks(bricks)
      invariant forall k :: 0 <= k < i ==> fresh(bricks[k]) && bricks[k].Corners() == shapes[k]
    {
      var b := new Brick(shapes[i]);
      bricks := bricks + [b];
      i := i + 1;
    }
  }

  /** The `for_each` of `drop` over the sorted ids. */
  method DropAll(bricks: seq<Brick>, shapes: seq<Shape>, order: seq<nat>)
    returns (h: map<Pos, nat>, ghost cur: seq<Shape>, ghost hs: seq<map<Pos, nat>>)
    requires |bricks| == |shapes| && DistinctBricks(bricks) && AllPlaceable(shapes)
    requires forall i :: 0 <= i < |bricks| ==> bricks[i].Corners() == shapes[i]
    requires InRange(order, |shapes|) && Distinct(order)
    modifies bricks
    ensures Trace(shapes, order, cur, hs, |order|) && h == hs[|order|]
    ensures forall i :: 0 <= i < |bricks| ==> bricks[i].Corners() == cur[i]
  {
    h, cur, hs := map[], shapes, [map[]];
    TraceStart(shapes, order);
    var k := 0;
    while k < |order|
      invariant Trace(shapes, order, cur, hs, k) && h == hs[k]
      invariant forall i :: 0 <= i < |bricks| ==> bricks[i].Corners() == cur[i]
    {
      var id := order[k];
      TraceWaiting(shapes, order, cur, hs, k);
      h := bricks[id].Drop(h, id);
      TraceStep(shapes, order, cur, hs, k, bricks[id].Corners(), h);
      cur, hs := cur[id := bricks[id].Corners()], hs + [h];
      k := k + 1;
    }
  }

  /** The `for_each` of `prepare` over the sorted ids. */
  method PrepareAll(bricks: seq<Brick>, order: seq<nat>, h: map<Pos, nat>, ghost s: seq<Shape>)
    requires |bricks| == |s| && DistinctBricks(bricks) && AllPlaceable(s)
    requires forall i :: 0 <= i < |bricks| ==> bricks[i].Corners() == s[i]
    requires InRange(order, |s|) && forall i :: 0 <= i < |s| ==> i in order
    modifies bricks
    ensures Layout(bricks, s, h)
  {
    var k := 0;
    while k < |order|
      invariant k <= |order|
      invariant forall i :: 0 <= i < |bricks| ==> bricks[i].Corners() == s[i]
      invariant forall i :: 0 <= i < |bricks| && i in order[..k] ==>
        bricks[i].above == Above(s[i], h) && bricks[i].below == Below(s[i], h)
    {
      var id := order[k];
      bricks[id].Prepare(h);
      assert order[..k + 1] == order[..k] + [id];
      k := k + 1;
    }
    assert order[..k] == order;
  }

  // ---------------------------------------------------------------------
  // Part 1

  /** `can_be_desintegrated` of brick i: every brick recorded above it
      has more than one brick under it in the map. */
  ghost predicate Removable(bricks: seq<Brick>, h: map<Pos, nat>, i: nat)
    requires i < |bricks| && LinksValid(bricks)
    reads bricks
  {
    forall j :: j in bricks[i].above ==> |Below(bricks[j].Corners(), h)| > 1
  }

  /** The number of ids of `order` whose brick is removable. */
  ghost function CountRemovable(bricks: seq<Brick>, h: map<Pos, nat>, order: seq<nat>): (r: nat)
    requires LinksValid(bricks) && InRange(order, |bricks|)
    reads bricks
    decreases |order|
  {
    if |order| == 0 then 0
    else
      CountRemovable(bricks, h, order[..|order| - 1])
        + (if Removable(bricks, h, order[|order| - 1]) then 1 else 0)
  }

  /** A removable brick leaves every brick it holds up with another
      supporter. */
  lemma RemovableLeavesSupport(bricks: seq<Brick>, h: map<Pos, nat>, i: nat, j: nat)
    requires i < |bricks| && LinksValid(bricks) && Removable(bricks, h, i) && j in bricks[i].above
    ensures exists k :: k in Below(bricks[j].Corners(), h) && k != i
  {
    var below := Below(bricks[j].Corners(), h);
    var k :| k in below;
    if k == i {
      assert below - {i} != {} by {
        assert |below - {i}| == |below| - 1;
      }
      var k' :| k' in below - {i};
    }
  }

  lemma {:induction false} CountRemovableAtMost(bricks: seq<Brick>, h: map<Pos, nat>, order: seq<nat>)
    requires LinksValid(bricks) && InRange(order, |bricks|)
    ensures CountRemovable(bricks, h, order) <= |order|
    decreases |order|
  {
    if |order| > 0 {
      CountRemovableAtMost(bricks, h, order[..|order| - 1]);
    }
  }

  /** `solve1`: the number of sorted ids whose brick can be removed. */
  method Solve1(bricks: seq<Brick>, order: seq<nat>, h: map<Pos, nat>) returns (r: nat)
    requires LinksValid(bricks) && InRange(order, |bricks|)
    ensures r == CountRemovable(bricks, h, order)
  {
    r := 0;
    var k := 0;
    while k < |order|
      invariant k <= |order| && r == CountRemovable(bricks, h, order[..k])
    {
      var f := bricks[order[k]].CanBeDesintegrated(bricks, h);
      assert order[..k + 1][..k] == order[..k];
      if f {
        r := r + 1;
      }
      k := k + 1;
    }
    assert order[..k] == order;
  }

  // ---------------------------------------------------------------------
  // Part 2

  /** What `count_falls` gathers from brick `id`: `id` itself, and only
      bricks that lie on some gathered brick and whose every supporter is
      gathered. */
  ghost predicate FallSound(bricks: seq<Brick>, id: nat, falls: set<nat>)
    reads bricks
  {
    && id in falls
    && (forall j :: j in falls ==> j < |bricks|)
    && forall j :: j in falls && j != id ==>
         j < |bricks| && bricks[j].below <= falls && exists i :: i in falls && i < |bricks| && j in bricks[i].above
  }

  /** The above and below sets agree: `j` lies on `i` exactly when `i`
      lies under `j`. */
  ghost predicate Linked(bricks: seq<Brick>)
    reads bricks
  {
    forall i, j :: 0 <= i < |bricks| && 0 <= j < |bricks| ==> (j in bricks[i].above <==> i in bricks[j].below)
  }

  /** Nothing is missed: a brick lying on a gathered brick whose every
      supporter is gathered is gathered too. */
  ghost predicate FallClosed(bricks: seq<Brick>, falls: set<nat>)
    reads bricks
  {
    forall i, j :: i in falls && i < |bricks| && j in bricks[i].above && j < |bricks| && bricks[j].below <= falls ==> j in falls
  }

  /** Some brick of `s` still waits on the stack. */
  predicate Pending(q: seq<nat>, s: set<nat>)
  {
    exists t :: 0 <= t < |q| && q[t] in s
  }

  /** `FallClosed` while the stack is worked off: a brick that would be
      missed has a supporter still waiting, or is one of `rest`, the
      bricks above the popped one that are still to be looked at. */
  ghost predicate Gathered(bricks: seq<Brick>, falls: set<nat>, q: seq<nat>, rest: set<nat>)
    reads bricks
  {
    forall k: nat :: Open(k) ==> GatheredFacts(bricks, falls, q, rest)
  }

  ghost predicate GatheredFacts(bricks: seq<Brick>, falls: set<nat>, q: seq<nat>, rest: set<nat>)
    reads bricks
  {
    forall i, j :: i in falls && i < |bricks| && j in bricks[i].above && j < |bricks| && bricks[j].below <= falls ==>
      j in falls || Pending(q, bricks[j].below) || j in rest
  }

  /** `count_falls`: a stack of falling bricks, starting with `id`; each
      popped brick pushes every brick above it whose supporters are all
      falling (a brick can be pushed more than once). The answer leaves
      `id` itself out. The loop ends in the source because the bricks
      above lie higher; the model bounds the number of pops by `fuel`
      and answers None when it runs out. With agreeing links, what is
      gathered is also closed, so it is the whole chain reaction. */
  method CountFalls(bricks: seq<Brick>, id: nat, fuel: nat) returns (r: Option<nat>, falls: set<nat>)
    requires LinksValid(bricks) && id < |bricks|
    ensures r.Some? ==> FallSound(bricks, id, falls) && r.value == |falls| - 1
    ensures r.Some? && Linked(bricks) ==> FallClosed(bricks, falls)
  {
    falls := {id};
    var q := [id];
    var left := fuel;
    if Linked(bricks) {
      StartGathered(bricks, id);
    }
    while q != []
      invariant FallSound(bricks, id, falls) && Stacked(q, falls)
      invariant Linked(bricks) ==> Gathered(bricks, falls, q, {})
      decreases left
    {
      if left == 0 {
        return None, falls;
      }
      left := left - 1;
      var i := q[|q| - 1];
      ghost var q0 := q;
      q := q[..|q| - 1];
      if Linked(bricks) {
        PopGathered(bricks, falls, q0, i);
      }
      falls, q := PushAbove(bricks, id, i, falls, q);
    }
    if Linked(bricks) {
      EndGathered(bricks, falls);
    }
    r := Some(|falls| - 1);
  }

  /** Every brick waiting on the stack is gathered. */
  predicate Stacked(q: seq<nat>, falls: set<nat>)
  {
    forall k :: 0 <= k < |q| ==> q[k] in falls
  }

  /** The inner loop of `count_falls`: each brick lying on the popped brick
      `i` whose supporters all fall is gathered and pushed. */
  method PushAbove(bricks: seq<Brick>, id: nat, i: nat, falls0: set<nat>, q0: seq<nat>)
    returns (falls: set<nat>, q: seq<nat>)
    requires LinksValid(bricks) && i in falls0 && i < |bricks|
    requires FallSound(bricks, id, falls0) && Stacked(q0, falls0)
    requires Linked(bricks) ==> Gathered(bricks, falls0, q0, bricks[i].above)
    ensures FallSound(bricks, id, falls) && Stacked(q, falls)
    ensures Linked(bricks) ==> Gathered(bricks, falls, q, {})
  {
    falls, q := falls0, q0;
    var rest := bricks[i].above;
    while rest != {}
      invariant rest <= bricks[i].above && i in falls
      invariant FallSound(bricks, id, falls) && Stacked(q, falls)
      invariant Linked(bricks) ==> Gathered(bricks, falls, q, rest)
      decreases |rest|
    {
      var j: nat :| j in rest;
      ghost var falls1, q1, rest0 := falls, q, rest;
      rest := rest - {j};
      if bricks[j].below <= falls {
        PushSound(bricks, id, falls, i, j);
        q := q + [j];
        falls := falls + {j};
        if Linked(bricks) {
          PushGathered(bricks, falls1, q1, rest0, j);
        }
      } else if Linked(bricks) {
        SkipGathered(bricks, falls, q, rest0, j);
      }
    }
  }

  /** A brick lying on a gathered brick, with every supporter gathered,
      can be gathered too. */
  lemma PushSound(bricks: seq<Brick>, id: nat, falls: set<nat>, i: nat, j: nat)
    requires LinksValid(bricks) && FallSound(bricks, id, falls)
    requires i in falls && i < |bricks| && j in bricks[i].above && bricks[j].below <= falls
    ensures FallSound(bricks, id, falls + {j})
  {
  }

  /** At the start only `id` is gathered, and it waits on the stack. */
  lemma StartGathered(bricks: seq<Brick>, id: nat)
    requires Linked(bricks) && id < |bricks|
    ensures Gathered(bricks, {id}, [id], {})
  {
    forall a, b | a in {id} && a < |bricks| && b in bricks[a].above && b < |bricks| && bricks[b].below <= {id}
      ensures Pending([id], bricks[b].below)
    {
      assert [id][0] in bricks[b].below;
    }
  }

  /** With the stack empty and nothing left to look at, nothing is missed. */
  lemma EndGathered(bricks: seq<Brick>, falls: set<nat>)
    requires Gathered(bricks, falls, [], {})
    ensures FallClosed(bricks, falls)
  {
    assert Open(0);
  }

  /** Popping `i` hands the bricks waiting on it over to `rest`. */
  lemma PopGathered(bricks: seq<Brick>, falls: set<nat>, q: seq<nat>, i: nat)
    requires Linked(bricks) && Gathered(bricks, falls, q, {}) && |q| > 0 && q[|q| - 1] == i && i < |bricks|
    ensures Gathered(bricks, falls, q[..|q| - 1], bricks[i].above)
  {
    assert Open(0);
    var q' := q[..|q| - 1];
    forall a, b | a in falls && a < |bricks| && b in bricks[a].above && b < |bricks| && bricks[b].below <= falls
      ensures b in falls || Pending(q', bricks[b].below) || b in bricks[i].above
    {
      if !(b in falls) && Pending(q, bricks[b].below) {
        var t :| 0 <= t < |q| && q[t] in bricks[b].below;
        if t < |q| - 1 {
          assert q'[t] == q[t];
        } else {
          assert i in bricks[b].below;
        }
      }
    }
  }

  /** Gathering `j` and pushing it keeps every other brick accounted
      for: a brick whose supporters are complete only now waits on `j`. */
  lemma PushGathered(bricks: seq<Brick>, falls: set<nat>, q: seq<nat>, rest: set<nat>, j: nat)
    requires Linked(bricks) && Gathered(bricks, falls, q, rest) && j in rest && j < |bricks|
    ensures Gathered(bricks, falls + {j}, q + [j], rest - {j})
  {
    assert Open(0);
    var f', q' := falls + {j}, q + [j];
    forall a, b | a in f' && a < |bricks| && b in bricks[a].above && b < |bricks| && bricks[b].below <= f'
      ensures b in f' || Pending(q', bricks[b].below) || b in rest - {j}
    {
      if b != j {
        if j in bricks[b].below {
          assert q'[|q|] == j;
        } else {
          assert bricks[b].below <= falls;
          if Pending(q, bricks[b].below) {
            var t :| 0 <= t < |q| && q[t] in bricks[b].below;
            assert q'[t] == q[t];
          }
        }
      }
    }
  }

  /** Passing over `j`, whose supporters are not all gathered, keeps
      every brick accounted for. */
  lemma SkipGathered(bricks: seq<Brick>, falls: set<nat>, q: seq<nat>, rest: set<nat>, j: nat)
    requires Gathered(bricks, falls, q, rest) && j < |bricks| && !(bricks[j].below <= falls)
    ensures Gathered(bricks, falls, q, rest - {j})
  {
    assert Open(0);
  }

  /** The sum, over the gathered sets, of the bricks other than the one
      removed. */
  function FallTotal(fs: seq<set<nat>>): nat
    decreases |fs|
  {
    if |fs| == 0 then 0
    else FallTotal(fs[..|fs| - 1]) + (if |fs[|fs| - 1]| > 0 then |fs[|fs| - 1]| - 1 else 0)
  }

  /** The first `|fs|` ids have their sets gathered, sound and, with
      agreeing links, closed. */
  ghost predicate Counted(bricks: seq<Brick>, order: seq<nat>, fs: seq<set<nat>>)
    reads bricks
  {
    && |fs| <= |order|
    && (forall t :: 0 <= t < |fs| ==> FallSound(bricks, order[t], fs[t]))
    && (Linked(bricks) ==> forall t :: 0 <= t < |fs| ==> FallClosed(bricks, fs[t]))
  }

  lemma CountedStep(bricks: seq<Brick>, order: seq<nat>, fs: seq<set<nat>>, falls: set<nat>)
    requires Counted(bricks, order, fs) && |fs| < |order|
    requires FallSound(bricks, order[|fs|], falls) && (Linked(bricks) ==> FallClosed(bricks, falls))
    ensures Counted(bricks, order, fs + [falls])
  {
  }

  /** `solve2`: `count_falls` summed over the sorted ids. */
  method Solve2(bricks: seq<Brick>, order: seq<nat>, fuel: nat) returns (r: Option<nat>, ghost fs: seq<set<nat>>)
    requires LinksValid(bricks) && InRange(order, |bricks|)
    ensures r.Some? ==> |fs| == |order| && r.value == FallTotal(fs)
    ensures r.Some? ==> forall k :: 0 <= k < |order| ==> FallSound(bricks, order[k], fs[k])
    ensures r.Some? && Linked(bricks) ==> forall k :: 0 <= k < |order| ==> FallClosed(bricks, fs[k])
  {
    var total := 0;
    fs := [];
    var k := 0;
    while k < |order|
      invariant k <= |order| && |fs| == k && total == FallTotal(fs)
      invariant Counted(bricks, order, fs)
    {
      var c, falls := CountFalls(bricks, order[k], fuel);
      if c.None? {
        return None, fs;
      }
      assert (fs + [falls])[..k] == fs;
      CountedStep(bricks, order, fs, falls);
      fs := fs + [falls];
      total := total + c.value;
      k := k + 1;
    }
    r := Some(total);
  }
}
