/** Day 23 (src/day23.rs), part 1: the longest hike from the start tile to
    the finish tile that never steps on the same tile twice. `solve1` keeps
    a queue of paths; each path knows the tiles it has visited and the tile
    it stands on. A slope sends a path one tile on in its direction, a plain
    tile to every neighbour on the map that is not forest, and a path that
    reaches the finish is not continued: its number of tiles is a candidate
    for the answer. No path is ever allowed back onto one of its own tiles.

    The map is the vector of rows `run` splits the input into. Every row is
    indexed by the width of the first one, and the finish column is that
    width minus two in `usize`, so every member asks for a rectangle at
    least two columns wide (`Grid`). */
module Day23 {
  import opened RustStd

  /** `Point<usize>`: column `x` and row `y` of a tile. */
  datatype Pos = Pos(x: nat, y: nat)

  predicate Grid(m: seq<seq<char>>)
  {
    |m| > 0 && |m[0]| >= 2 && forall y :: 0 <= y < |m| ==> |m[y]| == |m[0]|
  }

  predicate Inside(m: seq<seq<char>>, p: Pos)
    requires Grid(m)
  {
    p.x < |m[0]| && p.y < |m|
  }

  function Cell(m: seq<seq<char>>, p: Pos): char
    requires Grid(m) && Inside(m, p)
  {
    m[p.y][p.x]
  }

  function Start(): Pos { Pos(1, 0) }

  /** The tile in the second column from the right on the last row. */
  function Finish(m: seq<seq<char>>): Pos
    requires Grid(m)
  {
    Pos(|m[0]| - 2, |m| - 1)
  }

  /** Two tiles that share a side. */
  predicate Adjacent(a: Pos, b: Pos)
  {
    (a.x == b.x && (a.y + 1 == b.y || b.y + 1 == a.y)) ||
    (a.y == b.y && (a.x + 1 == b.x || b.x + 1 == a.x))
  }

  /** The offsets `(dy, dx)` in the order both searches try them: up,
      left, down, right. */
  const DY: seq<int> := [-1, 0, 1, 0]
  const DX: seq<int> := [0, -1, 0, 1]

  /** The neighbour in direction `d`, when it passes the bounds test
      `nx >= 0 && nx < w && ny >= 0 && ny < h`. */
  function Neighbour(m: seq<seq<char>>, p: Pos, d: nat): (r: Option<Pos>)
    requires Grid(m) && d < 4
    ensures r.Some? ==> Inside(m, r.value) && Adjacent(p, r.value)
  {
    var nx := p.x + DX[d];
    var ny := p.y + DY[d];
    if 0 <= nx < |m[0]| && 0 <= ny < |m| then Some(Pos(nx, ny)) else None
  }

  /** The four directions reach every neighbour on the map. */
  lemma NeighbourComplete(m: seq<seq<char>>, a: Pos, b: Pos) returns (d: nat)
    requires Grid(m) && Inside(m, b) && Adjacent(a, b)
    ensures d < 4 && Neighbour(m, a, d) == Some(b)
  {
    if b.y + 1 == a.y && a.x == b.x {
      d := 0;
    } else if b.x + 1 == a.x && a.y == b.y {
      d := 1;
    } else if a.y + 1 == b.y && a.x == b.x {
      d := 2;
    } else {
      d := 3;
    }
  }

  /** `Path`: the tiles visited so far, the tile stood on, and the finish. */
  datatype Path = Path(points: set<Pos>, last: Pos, finish: Pos)

  /** `Path::new`: a path that has visited only `p` and stands on it. */
  function NewPath(p: Pos, f: Pos): Path
  {
    Path({p}, p, f)
  }

  /** The path `add_new` pushes: one step further, onto `next`. */
  function Extend(p: Path, next: Pos): Path
  {
    Path(p.points + {next}, next, p.finish)
  }

  /** `add_new`: pushes the path extended to `next` onto the back of the
      caller's queue, unless `next` is already one of its tiles. */
  method AddNew(p: Path, next: Pos, q: seq<Path>) returns (q': seq<Path>)
    ensures next in p.points ==> q' == q
    ensures next !in p.points ==> q' == q + [Extend(p, next)]
  {
    q' := q;
    if next !in p.points {
      var newPath := p.(points := p.points + {next});
      newPath := newPath.(last := next);
      q' := q' + [newPath];
    }
  }

  /** A pushed path has exactly one tile more than the one it extends,
      the new tile is the one it stands on, and the finish stays. */
  lemma ExtendGrows(p: Path, next: Pos)
    requires next !in p.points
    ensures |Extend(p, next).points| == |p.points| + 1
    ensures p.points < Extend(p, next).points
    ensures Extend(p, next).last == next && next in Extend(p, next).points
    ensures Extend(p, next).finish == p.finish
  {
  }

  /** `weigth`: the number of tiles visited. */
  function Weight(p: Path): nat
  {
    |p.points|
  }

  /** `Ord for Path`: paths are ordered by their number of tiles. */
  function ComparePaths(a: Path, b: Path): (r: Ordering)
    ensures r == Less <==> |a.points| < |b.points|
    ensures r == Greater <==> |a.points| > |b.points|
    ensures r == Equal <==> |a.points| == |b.points|
  {
    Cmp(Weight(a), Weight(b))
  }

  /** The order is a total preorder: swapping flips it, and it is
      transitive. */
  lemma ComparePathsOrder(a: Path, b: Path, c: Path)
    ensures ComparePaths(a, b) == Less <==> ComparePaths(b, a) == Greater
    ensures ComparePaths(a, b) == Equal <==> ComparePaths(b, a) == Equal
    ensures ComparePaths(a, b) != Greater && ComparePaths(b, c) != Greater ==> ComparePaths(a, c) != Greater
  {
  }

  // ---------------------------------------------------------------------
  // Hikes: the walks the search enumerates.

  function Points(w: seq<Pos>): set<Pos>
  {
    set p | p in w
  }

  predicate Simple(w: seq<Pos>)
  {
    forall i, j :: 0 <= i < j < |w| ==> w[i] != w[j]
  }

  lemma PointsSnoc(w: seq<Pos>, b: Pos)
    ensures Points(w + [b]) == Points(w) + {b}
  {
  }

  /** A walk that never repeats a tile has as many tiles as steps plus one. */
  lemma {:induction false} SimplePoints(w: seq<Pos>)
    requires Simple(w)
    ensures |Points(w)| == |w|
  {
    if |w| > 0 {
      var u := w[..|w| - 1];
      assert w == u + [w[|w| - 1]];
      assert Simple(u);
      SimplePoints(u);
      PointsSnoc(u, w[|w| - 1]);
      assert w[|w| - 1] !in Points(u);
    }
  }

  /** A step of `solve1` out of tile `a`: a slope `>` or `v` leads one tile
      right or down, whatever lies there; a plain tile leads to each
      neighbour on the map that is not forest; any other tile has no step. */
  predicate Move(m: seq<seq<char>>, a: Pos, b: Pos)
    requires Grid(m)
  {
    Inside(m, a) &&
    if Cell(m, a) == '>' then b == Pos(a.x + 1, a.y)
    else if Cell(m, a) == 'v' then b == Pos(a.x, a.y + 1)
    else if Cell(m, a) == '.' then Inside(m, b) && Adjacent(a, b) && Cell(m, b) != '#'
    else false
  }

  /** A hike: starts on the start tile, takes only `Move` steps, never
      visits a tile twice and is not continued past the finish. */
  predicate Hike(m: seq<seq<char>>, w: seq<Pos>)
    requires Grid(m)
  {
    |w| > 0 && w[0] == Start() && Simple(w) &&
    forall i :: 0 <= i < |w| - 1 ==> w[i] != Finish(m) && Move(m, w[i], w[i + 1])
  }

  /** A hike that ends on the finish. */
  predicate Complete(m: seq<seq<char>>, w: seq<Pos>)
    requires Grid(m)
  {
    Hike(m, w) && w[|w| - 1] == Finish(m)
  }

  /** Path `p` records hike `w`. */
  predicate Follows(m: seq<seq<char>>, p: Path, w: seq<Pos>)
    requires Grid(m)
  {
    Hike(m, w) && p.points == Points(w) && p.last == w[|w| - 1] && p.finish == Finish(m)
  }

  ghost predicate Queued(m: seq<seq<char>>, q: seq<Path>, ws: seq<seq<Pos>>)
    requires Grid(m)
  {
    |ws| == |q| && forall i :: 0 <= i < |q| ==> Follows(m, q[i], ws[i])
  }

  /** The path recording the first `k` tiles of `w`. */
  function Prefix(m: seq<seq<char>>, w: seq<Pos>, k: nat): Path
    requires Grid(m) && 1 <= k <= |w|
  {
    Path(Points(w[..k]), w[k - 1], Finish(m))
  }

  /** Every complete hike has at most `mx` tiles or a path recording one of
      its prefixes waits in the queue. */
  ghost predicate Covered(m: seq<seq<char>>, q: seq<Path>, mx: nat)
    requires Grid(m)
  {
    forall k: nat :: Open(k) ==>
      forall w :: Complete(m, w) ==>
        |w| <= mx || exists i, j :: 0 <= i < |q| && 1 <= j <= |w| && q[i] == Prefix(m, w, j)
  }

  /** What expanding path `p` appends to the queue: only paths one `Move`
      further onto a new tile, and every one of them. */
  ghost predicate Grows(m: seq<seq<char>>, p: Path, q0: seq<Path>, q: seq<Path>)
    requires Grid(m)
  {
    |q0| <= |q| && q[..|q0|] == q0 &&
    (forall i :: |q0| <= i < |q| ==>
       Move(m, p.last, q[i].last) && q[i].last !in p.points && q[i] == Extend(p, q[i].last)) &&
    (forall b :: Move(m, p.last, b) && b !in p.points ==> Extend(p, b) in q)
  }

  /** Direction `e` from a plain tile leads onto the map, not into the
      forest, and to a tile the path has not visited. */
  predicate Offered(m: seq<seq<char>>, p: Path, e: nat)
    requires Grid(m) && e < 4
  {
    var nb := Neighbour(m, p.last, e);
    nb.Some? && Cell(m, nb.value) != '#' && nb.value !in p.points
  }

  /** The body of the `match` in `solve1` for a path that has not reached
      the finish; `ok` is false where the source reaches `unreachable!()`. */
  method Expand(m: seq<seq<char>>, p: Path, q0: seq<Path>) returns (q: seq<Path>, ok: bool)
    requires Grid(m) && Inside(m, p.last)
    ensures ok <==> Cell(m, p.last) in {'>', 'v', '.'}
    ensures ok ==> Grows(m, p, q0, q)
  {
    var c := m[p.last.y][p.last.x];
    if c == '>' {
      q := AddNew(p, Pos(p.last.x + 1, p.last.y), q0);
      ok := true;
    } else if c == 'v' {
      q := AddNew(p, Pos(p.last.x, p.last.y + 1), q0);
      ok := true;
    } else if c == '.' {
      q := q0;
      var d := 0;
      while d < 4
        invariant d <= 4
        invariant |q0| <= |q| && q[..|q0|] == q0
        invariant forall i :: |q0| <= i < |q| ==>
          Move(m, p.last, q[i].last) && q[i].last !in p.points && q[i] == Extend(p, q[i].last)
        invariant forall e :: 0 <= e < d && Offered(m, p, e) ==> Extend(p, Neighbour(m, p.last, e).value) in q
      {
        var nb := Neighbour(m, p.last, d);
        if nb.Some? && m[nb.value.y][nb.value.x] != '#' {
          q := AddNew(p, nb.value, q);
        }
        d := d + 1;
      }
      forall b | Move(m, p.last, b) && b !in p.points
        ensures Extend(p, b) in q
      {
        var e := NeighbourComplete(m, p.last, b);
      }
      ok := true;
    } else {
      q := q0;
      ok := false;
    }
  }

  lemma StartQueued(m: seq<seq<char>>)
    requires Grid(m)
    ensures Queued(m, [NewPath(Start(), Finish(m))], [[Start()]])
    ensures Covered(m, [NewPath(Start(), Finish(m))], 0)
  {
    assert Points([Start()]) == {Start()};
    var q := [NewPath(Start(), Finish(m))];
    forall k: nat, w | Open(k) && Complete(m, w)
      ensures exists i, j :: 0 <= i < |q| && 1 <= j <= |w| && q[i] == Prefix(m, w, j)
    {
      assert w[..1] == [Start()];
      assert q[0] == Prefix(m, w, 1);
    }
  }

  /** The paths a path that is expanded hands to the queue record hikes. */
  lemma GrowQueued(m: seq<seq<char>>, p: Path, w: seq<Pos>, q0: seq<Path>, ws0: seq<seq<Pos>>, q: seq<Path>)
    returns (ws: seq<seq<Pos>>)
    requires Grid(m) && Follows(m, p, w) && p.last != Finish(m)
    requires Queued(m, q0, ws0) && Grows(m, p, q0, q)
    ensures Queued(m, q, ws)
  {
    ws := ws0 + seq(|q| - |q0|, (i: nat) => w + [if |q0| + i < |q| then q[|q0| + i].last else p.last]);
    forall i | 0 <= i < |q|
      ensures Follows(m, q[i], ws[i])
    {
      if i >= |q0| {
        var b := q[i].last;
        assert ws[i] == w + [b];
        PointsSnoc(w, b);
        assert b !in w;
        var v := w + [b];
        forall s | 0 <= s < |v| - 1
          ensures v[s] != Finish(m) && Move(m, v[s], v[s + 1])
        {
          if s < |w| - 1 {
            assert v[s] == w[s] && v[s + 1] == w[s + 1];
          }
        }
      } else {
        assert q[i] == q0[i];
      }
    }
  }

  /** A path that reaches the finish leaves the queue; the hikes it stood
      for are no longer than the new maximum. */
  lemma FinishCovered(m: seq<seq<char>>, q: seq<Path>, mx: nat, mx': nat)
    requires Grid(m) && Covered(m, q, mx) && |q| > 0 && q[0].last == Finish(m)
    requires mx <= mx' && |q[0].points| <= mx'
    ensures Covered(m, q[1..], mx')
  {
    assert Open(0);
    forall k: nat, w | Open(k) && Complete(m, w) && |w| > mx'
      ensures exists i, j :: 0 <= i < |q[1..]| && 1 <= j <= |w| && q[1..][i] == Prefix(m, w, j)
    {
      var i, j :| 0 <= i < |q| && 1 <= j <= |w| && q[i] == Prefix(m, w, j);
      if i == 0 {
        assert j == |w|;
        assert w[..j] == w;
        SimplePoints(w);
        assert false;
      }
      assert q[1..][i - 1] == Prefix(m, w, j);
    }
  }

  /** The next prefix of a longer hike through `p` is among the paths
      expanding `p` appends. */
  lemma NextPrefix(m: seq<seq<char>>, p: Path, q0: seq<Path>, q: seq<Path>, w: seq<Pos>, j: nat)
    requires Grid(m) && Grows(m, p, q0, q) && p.last != Finish(m)
    requires Complete(m, w) && 1 <= j <= |w| && p == Prefix(m, w, j)
    ensures j < |w| && Prefix(m, w, j + 1) in q
  {
    assert j < |w|;
    assert Move(m, w[j - 1], w[j]);
    assert w[j] !in w[..j];
    assert w[..j + 1] == w[..j] + [w[j]];
    PointsSnoc(w[..j], w[j]);
    assert Extend(p, w[j]) == Prefix(m, w, j + 1);
  }

  /** Expanding the head of the queue keeps every longer complete hike
      represented: its next prefix is among the appended paths. */
  lemma GrowCovered(m: seq<seq<char>>, q: seq<Path>, mx: nat, q': seq<Path>)
    requires Grid(m) && Covered(m, q, mx) && |q| > 0 && q[0].last != Finish(m)
    requires Grows(m, q[0], q[1..], q')
    ensures Covered(m, q', mx)
  {
    assert Open(0);
    forall k: nat, w | Open(k) && Complete(m, w) && |w| > mx
      ensures exists i, j :: 0 <= i < |q'| && 1 <= j <= |w| && q'[i] == Prefix(m, w, j)
    {
      var i, j :| 0 <= i < |q| && 1 <= j <= |w| && q[i] == Prefix(m, w, j);
      if i == 0 {
        NextPrefix(m, q[0], q[1..], q', w, j);
        var t :| 0 <= t < |q'| && q'[t] == Prefix(m, w, j + 1);
      } else {
        assert q'[i - 1] == q[1..][i - 1];
      }
    }
  }

  /** `solve1`: the number of steps of the longest complete hike. `None`
      where the source panics: a path standing off the map or on a tile
      that is neither a slope nor plain (`unreachable!()`), or no path
      reaching the finish (`max - 1` underflows); also when `fuel` paths
      have been taken from the queue without emptying it. */
  method Solve1(m: seq<seq<char>>, fuel: nat) returns (r: Option<nat>, ghost best: seq<Pos>)
    requires Grid(m)
    ensures r.Some? ==> Complete(m, best) && r.value == |best| - 1
    ensures r.Some? ==> forall w :: Complete(m, w) ==> |w| - 1 <= r.value
  {
    var start := Pos(1, 0);
    var finish := Pos(|m[0]| - 2, |m| - 1);
    var mx := 0;
    var q := [NewPath(start, finish)];
    ghost var ws := [[start]];
    best := [];
    StartQueued(m);
    var left := fuel;
    while q != []
      invariant Queued(m, q, ws) && Covered(m, q, mx)
      invariant mx > 0 ==> Complete(m, best) && |best| == mx
      decreases left
    {
      if left == 0 {
        return None, best;
      }
      left := left - 1;
      var path := q[0];
      ghost var w := ws[0];
      if path.last == finish {
        var mx' := MaxNat(mx, |path.points|);
        if |path.points| > mx {
          SimplePoints(w);
          best := w;
        }
        FinishCovered(m, q, mx, mx');
        mx := mx';
        q, ws := q[1..], ws[1..];
        continue;
      }
      if !(path.last.y < |m| && path.last.x < |m[path.last.y]|) {
        return None, best;
      }
      var q', ok := Expand(m, path, q[1..]);
      if !ok {
        return None, best;
      }
      GrowCovered(m, q, mx, q');
      ws := GrowQueued(m, path, w, q[1..], ws[1..], q');
      q := q';
    }
    if mx == 0 {
      return None, best;
    }
    assert Open(0);
    r := Some(mx - 1);
  }
}
