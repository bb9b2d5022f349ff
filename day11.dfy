/** Cosmic Expansion (src/day11.rs). Every row and every column without a
    galaxy '#' is `m` times as wide as it looks; the answer is the sum of
    the distances between all pairs of galaxies in the expanded universe. */
module Day11 {
  import opened RustStd

  datatype Pos = Pos(x: nat, y: nat)

  /** `Universe`: the empty rows, the empty columns and the galaxies. */
  datatype Universe = Universe(rows: seq<nat>, cols: seq<nat>, galaxies: seq<Pos>)

  /** The indices `i < k` of lines without a '#', ascending. */
  function EmptyRows(lines: seq<string>, k: nat): (r: seq<nat>)
    requires k <= |lines|
    ensures forall i :: i in r <==> 0 <= i < k && '#' !in lines[i]
    ensures forall a :: 0 <= a < |r| ==> r[a] < k
    ensures forall a, b :: 0 <= a < b < |r| ==> r[a] < r[b]
  {
    if k == 0 then []
    else if '#' !in lines[k - 1] then EmptyRows(lines, k - 1) + [k - 1]
    else EmptyRows(lines, k - 1)
  }

  /** Column `i` has no '#' in any line. */
  predicate EmptyColumn(lines: seq<string>, i: nat)
    requires forall j :: 0 <= j < |lines| ==> i < |lines[j]|
  {
    forall j :: 0 <= j < |lines| ==> lines[j][i] != '#'
  }

  /** The indices `i < k` of columns without a '#', ascending; every line must
      be long enough for them (`nth(i).unwrap()`). */
  function EmptyCols(lines: seq<string>, k: nat): (r: seq<nat>)
    requires forall j :: 0 <= j < |lines| ==> k <= |lines[j]|
    ensures forall i :: i in r <==> 0 <= i < k && EmptyColumn(lines, i)
    ensures forall a :: 0 <= a < |r| ==> r[a] < k
    ensures forall a, b :: 0 <= a < b < |r| ==> r[a] < r[b]
  {
    if k == 0 then []
    else if EmptyColumn(lines, k - 1) then EmptyCols(lines, k - 1) + [k - 1]
    else EmptyCols(lines, k - 1)
  }

  /** The galaxies of one line, left to right. */
  function RowGalaxies(line: string, y: nat, k: nat): (r: seq<Pos>)
    requires k <= |line|
    ensures forall p :: p in r <==> p.y == y && p.x < k && line[p.x] == '#'
    ensures forall a, b :: 0 <= a < b < |r| ==> r[a].y == y && r[a].x < r[b].x
    ensures forall a :: 0 <= a < |r| ==> r[a].y == y
  {
    if k == 0 then []
    else if line[k - 1] == '#' then RowGalaxies(line, y, k - 1) + [Pos(k - 1, y)]
    else RowGalaxies(line, y, k - 1)
  }

  /** Galaxies come before others in row-major order. */
  predicate RowMajor(a: Pos, b: Pos)
  {
    a.y < b.y || (a.y == b.y && a.x < b.x)
  }

  /** The galaxies of the first `k` lines in row-major order. */
  function GalaxiesOf(lines: seq<string>, k: nat): (r: seq<Pos>)
    requires k <= |lines|
    ensures forall p :: p in r <==> p.y < k && p.x < |lines[p.y]| && lines[p.y][p.x] == '#'
    ensures forall a :: 0 <= a < |r| ==> r[a].y < k
  {
    if k == 0 then []
    else GalaxiesOf(lines, k - 1) + RowGalaxies(lines[k - 1], k - 1, |lines[k - 1]|)
  }

  /** The galaxies are listed in row-major order without repeats. */
  lemma {:induction false} GalaxiesOrdered(lines: seq<string>, k: nat)
    requires k <= |lines|
    ensures forall a, b :: 0 <= a < b < |GalaxiesOf(lines, k)| ==> RowMajor(GalaxiesOf(lines, k)[a], GalaxiesOf(lines, k)[b])
  {
    if k > 0 {
      GalaxiesOrdered(lines, k - 1);
      var g, row := GalaxiesOf(lines, k - 1), RowGalaxies(lines[k - 1], k - 1, |lines[k - 1]|);
      var r := g + row;
      forall a, b | 0 <= a < b < |r| ensures RowMajor(r[a], r[b]) {
        if b < |g| {
          assert r[a] == g[a] && r[b] == g[b];
        } else if a < |g| {
          assert r[a] == g[a] && r[b] == row[b - |g|];
        } else {
          assert r[a] == row[a - |g|] && r[b] == row[b - |g|];
        }
      }
    }
  }

  /** The nested loops collecting the galaxies. */
  method Galaxies(lines: seq<string>) returns (gs: seq<Pos>)
    ensures gs == GalaxiesOf(lines, |lines|)
  {
    gs := [];
    var y := 0;
    while y < |lines|
      invariant 0 <= y <= |lines| && gs == GalaxiesOf(lines, y)
    {
      var row := RowScan(lines[y], y);
      gs := gs + row;
      y := y + 1;
    }
  }

  /** The inner loop: the galaxies of one line, left to right. */
  method RowScan(line: string, y: nat) returns (row: seq<Pos>)
    ensures row == RowGalaxies(line, y, |line|)
  {
    row := [];
    var x := 0;
    while x < |line|
      invariant 0 <= x <= |line| && row == RowGalaxies(line, y, x)
    {
      if line[x] == '#' {
        row := row + [Pos(x, y)];
      }
      x := x + 1;
    }
  }

  /** `Universe::new`. The first line gives the column count (an empty input
      panics); a line shorter than the first panics when its column is
      read. */
  function UniverseOf(lines: seq<string>): (r: Option<Universe>)
    ensures r.Some? <==> |lines| > 0 && forall j :: 0 <= j < |lines| ==> |lines[0]| <= |lines[j]|
  {
    if |lines| == 0 || exists j :: 0 <= j < |lines| && |lines[j]| < |lines[0]| then None
    else Some(Universe(EmptyRows(lines, |lines|), EmptyCols(lines, |lines[0]|), GalaxiesOf(lines, |lines|)))
  }

  // ---------------------------------------------------------------------
  // Distances

  /** How many of `lo..hi` are listed in `empty`. */
  function CountRange(empty: seq<nat>, lo: nat, hi: nat): (r: nat)
    requires lo <= hi
    ensures r <= hi - lo
    decreases hi - lo
  {
    if lo == hi then 0 else CountRange(empty, lo, hi - 1) + (if hi - 1 in empty then 1 else 0)
  }

  lemma {:induction false} CountRangeSplit(empty: seq<nat>, lo: nat, mid: nat, hi: nat)
    requires lo <= mid <= hi
    ensures CountRange(empty, lo, hi) == CountRange(empty, lo, mid) + CountRange(empty, mid, hi)
    decreases hi - mid
  {
    if mid < hi {
      CountRangeSplit(empty, lo, mid, hi - 1);
    }
  }

  /** `get_dist`: the grid distance, each empty column and row in between
      counting `m` times. `m - 1` on `usize` needs `m >= 1`. */
  function Dist(u: Universe, g1: Pos, g2: Pos, m: nat): (r: nat)
    requires m >= 1
  {
    var xmin, xmax := MinNat(g1.x, g2.x), MaxNat(g1.x, g2.x);
    var ymin, ymax := MinNat(g1.y, g2.y), MaxNat(g1.y, g2.y);
    var dx := CountRange(u.cols, xmin, xmax);
    var dy := CountRange(u.rows, ymin, ymax);
    xmax - xmin + ymax - ymin + (dx + dy) * (m - 1)
  }


  function Manhattan(g1: Pos, g2: Pos): nat
  {
    Abs(g1.x - g2.x) + Abs(g1.y - g2.y)
  }

  /** The distance is symmetric, zero from a galaxy to itself, the plain
      Manhattan distance without expansion, and never shrinks as the
      expansion grows. */
  lemma DistProperties(u: Universe, g1: Pos, g2: Pos, m: nat, m': nat)
    requires 1 <= m <= m'
    ensures Dist(u, g1, g2, m) == Dist(u, g2, g1, m)
    ensures Dist(u, g1, g1, m) == 0
    ensures Dist(u, g1, g2, 1) == Manhattan(g1, g2)
    ensures Dist(u, g1, g2, m) <= Dist(u, g1, g2, m')
  {
    var d := CountRange(u.cols, MinNat(g1.x, g2.x), MaxNat(g1.x, g2.x)) + CountRange(u.rows, MinNat(g1.y, g2.y), MaxNat(g1.y, g2.y));
    assert d * (m - 1) <= d * (m' - 1) by {
      MulMonotone(d, m - 1, m' - 1);
    }
  }

  lemma MulMonotone(d: nat, a: nat, b: nat)
    requires a <= b
    ensures d * a <= d * b
  {
    assert d * b == d * a + d * (b - a);
  }

  /** The coordinate `x` takes once every empty line below it is `m` wide. */
  function Expanded(empty: seq<nat>, x: nat, m: nat): nat
    requires m >= 1
  {
    x + CountRange(empty, 0, x) * (m - 1)
  }

  lemma Distrib(a: int, b: int, c: int)
    ensures (a + b) * c == a * c + b * c
  {
  }

  lemma ExpandedGap(empty: seq<nat>, lo: nat, hi: nat, m: nat)
    requires lo <= hi && m >= 1
    ensures Expanded(empty, hi, m) - Expanded(empty, lo, m) == hi - lo + CountRange(empty, lo, hi) * (m - 1)
  {
    CountRangeSplit(empty, 0, lo, hi);
    var a, b, c := CountRange(empty, 0, lo), CountRange(empty, lo, hi), m - 1;
    assert Expanded(empty, hi, m) == hi + (a + b) * c;
    assert Expanded(empty, lo, m) == lo + a * c;
    Distrib(a, b, c);
  }

  /** `get_dist` is the Manhattan distance between the galaxies' positions in
      the expanded universe. */
  lemma DistIsExpandedManhattan(u: Universe, g1: Pos, g2: Pos, m: nat)
    requires m >= 1
    ensures Dist(u, g1, g2, m) == Abs(Expanded(u.cols, g1.x, m) - Expanded(u.cols, g2.x, m)) + Abs(Expanded(u.rows, g1.y, m) - Expanded(u.rows, g2.y, m))
  {
    var xmin, xmax := MinNat(g1.x, g2.x), MaxNat(g1.x, g2.x);
    var ymin, ymax := MinNat(g1.y, g2.y), MaxNat(g1.y, g2.y);
    ExpandedGap(u.cols, xmin, xmax, m);
    ExpandedGap(u.rows, ymin, ymax, m);
    var dx, dy, c := CountRange(u.cols, xmin, xmax), CountRange(u.rows, ymin, ymax), m - 1;
    Distrib(dx, dy, c);
    assert Dist(u, g1, g2, m) == (xmax - xmin) + (ymax - ymin) + (dx * c + dy * c);
    ExpandedOrder(u.cols, g1.x, g2.x, m);
    ExpandedOrder(u.rows, g1.y, g2.y, m);
  }

  /** Expansion keeps the order of coordinates. */
  lemma ExpandedOrder(empty: seq<nat>, a: nat, b: nat, m: nat)
    requires m >= 1
    ensures a <= b ==> Expanded(empty, a, m) <= Expanded(empty, b, m)
    ensures b <= a ==> Expanded(empty, b, m) <= Expanded(empty, a, m)
  {
    if a <= b { ExpandedGap(empty, a, b, m); }
    if b <= a { ExpandedGap(empty, b, a, m); }
  }

  // ---------------------------------------------------------------------
  // Summing over pairs

  /** The distances from `a` to each of `gs`. */
  function SumTo(u: Universe, a: Pos, gs: seq<Pos>, m: nat): nat
    requires m >= 1
  {
    if |gs| == 0 then 0 else Dist(u, a, gs[0], m) + SumTo(u, a, gs[1..], m)
  }

  /** `solve`: for each galaxy, the distances to the galaxies after it. Every
      unordered pair is counted once: twice the result is the sum over all
      ordered pairs. */
  function Solve(u: Universe, gs: seq<Pos>, m: nat): (r: nat)
    requires m >= 1
    ensures 2 * r == SumAll(u, gs, gs, m)
    decreases |gs|
  {
    if |gs| == 0 then 0
    else
      var g, t := gs[0], gs[1..];
      assert gs == [g] + t;
      var rest := Solve(u, t, m);
      SumAllCons(u, t, g, t, m);
      SumFromIsSumTo(u, t, g, m);
      DistProperties(u, g, g, m, m);
      assert SumAll(u, gs, gs, m) == SumTo(u, g, gs, m) + SumAll(u, t, gs, m);
      assert SumTo(u, g, gs, m) == Dist(u, g, g, m) + SumTo(u, g, t, m);
      SumTo(u, g, t, m) + rest
  }

  /** The distances from each of `ps` to each of `gs`: every ordered pair. */
  function SumAll(u: Universe, ps: seq<Pos>, gs: seq<Pos>, m: nat): nat
    requires m >= 1
  {
    if |ps| == 0 then 0 else SumTo(u, ps[0], gs, m) + SumAll(u, ps[1..], gs, m)
  }

  /** The distances from each of `ps` to `g`. */
  function SumFrom(u: Universe, ps: seq<Pos>, g: Pos, m: nat): nat
    requires m >= 1
  {
    if |ps| == 0 then 0 else Dist(u, ps[0], g, m) + SumFrom(u, ps[1..], g, m)
  }

  lemma {:induction false} SumFromIsSumTo(u: Universe, ps: seq<Pos>, g: Pos, m: nat)
    requires m >= 1
    ensures SumFrom(u, ps, g, m) == SumTo(u, g, ps, m)
    decreases |ps|
  {
    if |ps| > 0 {
      DistProperties(u, ps[0], g, m, m);
      SumFromIsSumTo(u, ps[1..], g, m);
    }
  }

  lemma {:induction false} SumAllCons(u: Universe, ps: seq<Pos>, g: Pos, t: seq<Pos>, m: nat)
    requires m >= 1
    ensures SumAll(u, ps, [g] + t, m) == SumFrom(u, ps, g, m) + SumAll(u, ps, t, m)
    decreases |ps|
  {
    assert ([g] + t)[1..] == t;
    if |ps| > 0 {
      SumAllCons(u, ps[1..], g, t, m);
    }
  }
}
