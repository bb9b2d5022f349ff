/** Day 16, The Floor Will Be Lava: a beam enters a grid of mirrors ('/'
    and '\'), splitters ('|' and '-') and empty space ('.'); each beam
    state is a cell of the grid together with a heading, and a tile is
    energized when some beam state reached from the start lies on it. */
module Day16 {
  import opened RustStd
  import opened Utils

  const LEFT: Point := Point(-1, 0)
  const RIGHT: Point := Point(1, 0)
  const UP: Point := Point(0, -1)
  const DOWN: Point := Point(0, 1)

  const DIRS: set<Point> := {LEFT, RIGHT, UP, DOWN}

  predicate IsDir(d: Point)
  {
    d == LEFT || d == RIGHT || d == UP || d == DOWN
  }

  /** A beam state: where the beam is and where it is heading. */
  datatype Cell = Cell(p: Point, d: Point)

  /** `Cell::add`: one step in heading `d`, which becomes the new heading. */
  function Move(c: Cell, d: Point): Cell
  {
    Cell(c.p.Add(d), d)
  }

  /** A contraption: a non-empty rectangle of the five tile kinds. */
  predicate Valid(table: seq<seq<char>>)
  {
    |table| > 0 &&
    forall y :: 0 <= y < |table| ==>
      |table[y]| == |table[0]| &&
      forall x :: 0 <= x < |table[y]| ==> IsTile(table[y][x])
  }

  predicate IsTile(ch: char)
  {
    ch == '.' || ch == '|' || ch == '-' || ch == '/' || ch == '\\'
  }

  predicate InGrid(table: seq<seq<char>>, p: Point)
    requires |table| > 0
  {
    0 <= p.y < |table| && 0 <= p.x < |table[0]|
  }

  function Tile(table: seq<seq<char>>, p: Point): char
    requires Valid(table) && InGrid(table, p)
  {
    table[p.y][p.x]
  }

  // ---------------------------------------------------------------------
  // Mirrors and splitters

  /** The new heading after a '/' mirror. */
  function Slash(d: Point): (r: Point)
    requires IsDir(d)
    ensures IsDir(r)
  {
    if d == DOWN then LEFT else if d == LEFT then DOWN
    else if d == UP then RIGHT else UP
  }

  /** The new heading after a '\' mirror. */
  function Backslash(d: Point): (r: Point)
    requires IsDir(d)
    ensures IsDir(r)
  {
    if d == DOWN then RIGHT else if d == RIGHT then DOWN
    else if d == UP then LEFT else UP
  }

  function Neg(d: Point): Point
  {
    Point(-d.x, -d.y)
  }

  /** Both mirrors are involutions, turn every heading a quarter turn (never
      straight on, never back), and are reversible: a beam sent back the
      way it left comes out the way it came in, reversed. */
  lemma MirrorLaws(d: Point)
    requires IsDir(d)
    ensures Slash(Slash(d)) == d && Backslash(Backslash(d)) == d
    ensures Slash(d) != d && Slash(d) != Neg(d)
    ensures Backslash(d) != d && Backslash(d) != Neg(d)
    ensures IsDir(Neg(d)) && Slash(Neg(Slash(d))) == Neg(d) && Backslash(Neg(Backslash(d))) == Neg(d)
  {
  }

  /** `Cell::next`: the beam states one step on. */
  function Next(table: seq<seq<char>>, c: Cell): (r: seq<Cell>)
    requires Valid(table) && InGrid(table, c.p) && IsDir(c.d)
    ensures 1 <= |r| <= 2
    ensures forall i :: 0 <= i < |r| ==> IsDir(r[i].d) && r[i].p == c.p.Add(r[i].d)
  {
    match Tile(table, c.p)
    case '.' => [Move(c, c.d)]
    case '|' => if c.d.x == 0 then [Move(c, c.d)] else [Move(c, DOWN), Move(c, UP)]
    case '-' => if c.d.y == 0 then [Move(c, c.d)] else [Move(c, LEFT), Move(c, RIGHT)]
    case '/' => [Move(c, Slash(c.d))]
    case _ => [Move(c, Backslash(c.d))]
  }

  /** Empty space keeps the heading. */
  lemma NextDot(table: seq<seq<char>>, c: Cell)
    requires Valid(table) && InGrid(table, c.p) && IsDir(c.d) && Tile(table, c.p) == '.'
    ensures Next(table, c) == [Move(c, c.d)]
  {
  }

  /** '|' lets a vertical beam pass and splits a horizontal one into a beam
      up and a beam down. */
  lemma NextPipe(table: seq<seq<char>>, c: Cell)
    requires Valid(table) && InGrid(table, c.p) && IsDir(c.d) && Tile(table, c.p) == '|'
    ensures forall s :: s in Next(table, c) ==> s.d.x == 0
    ensures c.d.x == 0 <==> Next(table, c) == [Move(c, c.d)]
    ensures c.d.x != 0 <==> Move(c, UP) in Next(table, c) && Move(c, DOWN) in Next(table, c)
  {
  }

  /** '-' lets a horizontal beam pass and splits a vertical one into a beam
      left and a beam right. */
  lemma NextDash(table: seq<seq<char>>, c: Cell)
    requires Valid(table) && InGrid(table, c.p) && IsDir(c.d) && Tile(table, c.p) == '-'
    ensures forall s :: s in Next(table, c) ==> s.d.y == 0
    ensures c.d.y == 0 <==> Next(table, c) == [Move(c, c.d)]
    ensures c.d.y != 0 <==> Move(c, LEFT) in Next(table, c) && Move(c, RIGHT) in Next(table, c)
  {
  }

  /** A mirror turns the beam a quarter turn. */
  lemma NextMirror(table: seq<seq<char>>, c: Cell)
    requires Valid(table) && InGrid(table, c.p) && IsDir(c.d)
    requires Tile(table, c.p) == '/' || Tile(table, c.p) == '\\'
    ensures |Next(table, c)| == 1 && Next(table, c)[0].d != c.d && Next(table, c)[0].d != Neg(c.d)
  {
  }

  // ---------------------------------------------------------------------
  // Reachable beam states

  /** A run of beam states from `start`, each one step on from the one
      before, which lies in the grid. */
  ghost predicate IsPath(table: seq<seq<char>>, start: Cell, path: seq<Cell>)
    requires Valid(table)
  {
    |path| > 0 && path[0] == start && IsDir(start.d) &&
    forall i :: 0 <= i < |path| - 1 ==>
      InGrid(table, path[i].p) && IsDir(path[i].d) && path[i + 1] in Next(table, path[i])
  }

  ghost predicate Reaches(table: seq<seq<char>>, start: Cell, c: Cell)
    requires Valid(table)
  {
    exists path :: IsPath(table, start, path) && path[|path| - 1] == c
  }

  /** Every beam state in the grid. */
  function AllCells(table: seq<seq<char>>): set<Cell>
  {
    set x, y, d | 0 <= y < |table| && 0 <= x < |table[0]| && d in DIRS :: Cell(Point(x, y), d)
  }

  /** The beam states in the grid reached from `start`. */
  ghost function ReachSet(table: seq<seq<char>>, start: Cell): set<Cell>
    requires Valid(table)
  {
    set c | c in AllCells(table) && Reaches(table, start, c)
  }

  /** The energized tiles. */
  ghost function Energized(table: seq<seq<char>>, start: Cell): set<Point>
    requires Valid(table)
  {
    set c | c in ReachSet(table, start) :: c.p
  }

  /** The number of energized tiles. */
  ghost function Energy(table: seq<seq<char>>, start: Cell): nat
    requires Valid(table)
  {
    |Energized(table, start)|
  }

  lemma ExtendPath(table: seq<seq<char>>, start: Cell, c: Cell, s: Cell)
    requires Valid(table) && InGrid(table, c.p) && IsDir(c.d)
    requires Reaches(table, start, c) && s in Next(table, c)
    ensures Reaches(table, start, s)
  {
    var path :| IsPath(table, start, path) && path[|path| - 1] == c;
    var longer := path + [s];
    assert longer[|longer| - 1] == s;
    assert IsPath(table, start, longer);
  }

  lemma StartReaches(table: seq<seq<char>>, start: Cell)
    requires Valid(table) && IsDir(start.d)
    ensures Reaches(table, start, start)
  {
    assert IsPath(table, start, [start]);
  }

  /** No beam state of `h` leads to a beam state in the grid outside `h`
      and `q`. */
  ghost predicate Closed(table: seq<seq<char>>, h: set<Cell>, q: seq<Cell>)
    requires Valid(table)
  {
    h <= AllCells(table) &&
    forall c, s :: c in h && s in Next(table, c) ==> s in h || s in q || !InGrid(table, s.p)
  }

  /** A closed set holding the start holds every beam state in the grid along
      any path. */
  lemma {:induction false} PathInside(table: seq<seq<char>>, start: Cell, h: set<Cell>, path: seq<Cell>)
    requires Valid(table) && Closed(table, h, []) && (start in h || !InGrid(table, start.p))
    requires IsPath(table, start, path)
    ensures InGrid(table, path[|path| - 1].p) ==> path[|path| - 1] in h
    decreases |path|
  {
    var n := |path|;
    if n > 1 {
      var front := path[..n - 1];
      assert IsPath(table, start, front);
      PathInside(table, start, h, front);
      assert path[n - 1] in Next(table, path[n - 2]);
      assert path[n - 2] in h;
    }
  }

  /** A closed set of reached beam states holding the start is exactly the
      set of beam states reached. */
  lemma ClosedIsReachSet(table: seq<seq<char>>, start: Cell, h: set<Cell>)
    requires Valid(table) && Closed(table, h, []) && (start in h || !InGrid(table, start.p))
    requires forall c :: c in h ==> Reaches(table, start, c)
    ensures h == ReachSet(table, start)
  {
    forall c | c in ReachSet(table, start) ensures c in h {
      var path :| IsPath(table, start, path) && path[|path| - 1] == c;
      PathInside(table, start, h, path);
    }
  }

  // ---------------------------------------------------------------------
  // Counting tiles

  function Rect(w: nat, ht: nat): set<Point>
  {
    set x, y | 0 <= y < ht && 0 <= x < w :: Point(x, y)
  }

  function RowSet(w: nat, y: int): set<Point>
  {
    set x | 0 <= x < w :: Point(x, y)
  }

  lemma {:induction false} RowSetCard(w: nat, y: int)
    ensures |RowSet(w, y)| == w
    decreases w
  {
    if w > 0 {
      RowSetCard(w - 1, y);
      assert RowSet(w, y) == RowSet(w - 1, y) + {Point(w - 1, y)};
    }
  }

  lemma RectSplit(w: nat, ht: nat)
    requires ht > 0
    ensures Rect(w, ht) == Rect(w, ht - 1) + RowSet(w, ht - 1)
    ensures Rect(w, ht - 1) !! RowSet(w, ht - 1)
  {
  }

  lemma MulSucc(a: nat, b: nat)
    ensures a * b + a == a * (b + 1)
  {
  }

  lemma {:induction false} RectCard(w: nat, ht: nat)
    ensures |Rect(w, ht)| == w * ht
    decreases ht
  {
    if ht > 0 {
      RectCard(w, ht - 1);
      RowSetCard(w, ht - 1);
      RectSplit(w, ht);
      MulSucc(w, ht - 1);
    }
  }

  /** At most every tile of the grid is energized. */
  lemma EnergizedBound(table: seq<seq<char>>, start: Cell)
    requires Valid(table)
    ensures Energy(table, start) <= |table| * |table[0]|
  {
    assert Energized(table, start) <= Rect(|table[0]|, |table|);
    SubsetCard(Energized(table, start), Rect(|table[0]|, |table|));
    RectCard(|table[0]|, |table|);
  }

  // ---------------------------------------------------------------------
  // The worklist

  /** `count_energized`: a depth-first walk over beam states with a stack
      `q` and a visited set `h`; states outside the grid or already visited
      are dropped, so each beam state is expanded at most once. */
  method CountEnergized(table: seq<seq<char>>, start: Cell) returns (r: nat)
    requires Valid(table) && IsDir(start.d)
    ensures r == Energy(table, start)
  {
    var h: set<Cell> := {};
    var q: seq<Cell> := [start];
    StartReaches(table, start);
    while |q| > 0
      invariant Closed(table, h, q)
      invariant start in h || start in q || !InGrid(table, start.p)
      invariant forall c :: c in h ==> Reaches(table, start, c)
      invariant forall i :: 0 <= i < |q| ==> IsDir(q[i].d) && Reaches(table, start, q[i])
      decreases AllCells(table) - h, |q|
    {
      var cell := q[|q| - 1];
      var rest := q[..|q| - 1];
      Pop(table, h, q, rest);
      q := rest;
      assert start in h || start in rest || start == cell || !InGrid(table, start.p);
      if !InGrid(table, cell.p) || cell in h {
        continue;
      }
      var succ := Next(table, cell);
      forall s | s in succ ensures Reaches(table, start, s) {
        ExtendPath(table, start, cell, s);
      }
      Visit(table, h, rest, cell);
      assert start in rest ==> start in rest + succ;
      q := q + succ;
      h := h + {cell};
    }
    ClosedIsReachSet(table, start, h);
    r := |set c | c in h :: c.p|;
  }

  /** Popping the top of the stack loses a pending state only into `h`, the
      outside of the grid, or the popped state itself. */
  lemma Pop(table: seq<seq<char>>, h: set<Cell>, q: seq<Cell>, rest: seq<Cell>)
    requires Valid(table) && Closed(table, h, q) && |q| > 0 && rest == q[..|q| - 1]
    ensures forall s :: s in q ==> s in rest || s == q[|q| - 1]
    ensures forall c, s :: c in h && s in Next(table, c) ==>
      s in h || s in rest || s == q[|q| - 1] || !InGrid(table, s.p)
  {
    forall s | s in q ensures s in rest || s == q[|q| - 1] {
      var k :| 0 <= k < |q| && q[k] == s;
      if k < |q| - 1 {
        assert rest[k] == s;
      }
    }
  }

  /** Visiting a new state and pushing its successors keeps `h` closed. */
  lemma Visit(table: seq<seq<char>>, h: set<Cell>, rest: seq<Cell>, cell: Cell)
    requires Valid(table) && h <= AllCells(table)
    requires InGrid(table, cell.p) && IsDir(cell.d) && cell !in h
    requires forall c, s :: c in h && s in Next(table, c) ==>
      s in h || s in rest || s == cell || !InGrid(table, s.p)
    ensures Closed(table, h + {cell}, rest + Next(table, cell))
    ensures AllCells(table) - (h + {cell}) < AllCells(table) - h
  {
    assert cell == Cell(Point(cell.p.x, cell.p.y), cell.d);
    assert cell in AllCells(table);
  }

  /** `solve1`: the beam enters at the top-left corner heading right. */
  method Solve1(table: seq<seq<char>>) returns (r: nat)
    requires Valid(table)
    ensures r == Energy(table, Cell(Point(0, 0), RIGHT))
  {
    r := CountEnergized(table, Cell(Point(0, 0), RIGHT));
  }

  // ---------------------------------------------------------------------
  // The best entry point

  predicate AllDirs(starts: seq<Cell>)
  {
    forall i :: 0 <= i < |starts| ==> IsDir(starts[i].d)
  }

  /** The most tiles energized by any of `starts`. */
  ghost function Best(table: seq<seq<char>>, starts: seq<Cell>): nat
    requires Valid(table) && AllDirs(starts)
  {
    if |starts| == 0 then 0
    else MaxNat(Best(table, starts[..|starts| - 1]), Energy(table, starts[|starts| - 1]))
  }

  lemma {:induction false} BestIsMax(table: seq<seq<char>>, starts: seq<Cell>)
    requires Valid(table) && AllDirs(starts)
    ensures forall i :: 0 <= i < |starts| ==> Energy(table, starts[i]) <= Best(table, starts)
    ensures |starts| > 0 ==> exists i :: 0 <= i < |starts| && Energy(table, starts[i]) == Best(table, starts)
    decreases |starts|
  {
    if |starts| > 0 {
      var front := starts[..|starts| - 1];
      BestIsMax(table, front);
      assert forall i :: 0 <= i < |front| ==> front[i] == starts[i];
    }
  }

  lemma BestSnoc2(table: seq<seq<char>>, starts: seq<Cell>, a: Cell, b: Cell)
    requires Valid(table) && AllDirs(starts)
    requires IsDir(a.d) && IsDir(b.d)
    ensures AllDirs(starts + [a, b])
    ensures Best(table, starts + [a, b]) ==
      MaxNat(MaxNat(Best(table, starts), Energy(table, a)), Energy(table, b))
  {
    var s := starts + [a, b];
    assert s[..|s| - 1] == starts + [a];
    assert (starts + [a])[..|starts|] == starts;
  }

  /** Columns `0 .. n`, entering at the top heading down and at the bottom
      heading up. */
  function ColStarts(ht: int, n: nat): (r: seq<Cell>)
    ensures AllDirs(r)
  {
    if n == 0 then []
    else ColStarts(ht, n - 1) + [Cell(Point(n - 1, 0), DOWN), Cell(Point(n - 1, ht - 1), UP)]
  }

  /** Rows `0 .. n` as `solve2` is written: heading left at the left edge and
      right at the right edge. */
  function RowStartsAsWritten(w: int, n: nat): (r: seq<Cell>)
    ensures AllDirs(r)
  {
    if n == 0 then []
    else RowStartsAsWritten(w, n - 1) + [Cell(Point(0, n - 1), LEFT), Cell(Point(w - 1, n - 1), RIGHT)]
  }

  /** Rows `0 .. n`, entering at the left edge heading right and at the right
      edge heading left. */
  function RowStarts(w: int, n: nat): (r: seq<Cell>)
    ensures AllDirs(r)
  {
    if n == 0 then []
    else RowStarts(w, n - 1) + [Cell(Point(0, n - 1), RIGHT), Cell(Point(w - 1, n - 1), LEFT)]
  }

  function Below(n: int): nat
  {
    if n > 0 then n - 1 else 0
  }

  /** The starts `solve2` tries: `0..w-1` and `0..h-1` leave out the last
      column and the last row. */
  function AsWrittenStarts(table: seq<seq<char>>): (r: seq<Cell>)
    requires Valid(table)
    ensures AllDirs(r)
  {
    ColStarts(|table|, Below(|table[0]|)) + RowStartsAsWritten(|table[0]|, Below(|table|))
  }

  /** Every beam entering the grid from outside. */
  function EdgeStarts(table: seq<seq<char>>): (r: seq<Cell>)
    requires Valid(table)
    ensures AllDirs(r)
  {
    ColStarts(|table|, |table[0]|) + RowStarts(|table[0]|, |table|)
  }

  /** A beam state on a tile of the grid whose tile behind it is outside. */
  predicate Entering(table: seq<seq<char>>, c: Cell)
    requires Valid(table)
  {
    IsDir(c.d) && InGrid(table, c.p) && !InGrid(table, c.p.Sub(c.d))
  }

  lemma {:induction false} ColStartsMembers(ht: int, n: nat, c: Cell)
    ensures c in ColStarts(ht, n) <==>
      0 <= c.p.x < n && ((c.p.y == 0 && c.d == DOWN) || (c.p.y == ht - 1 && c.d == UP))
    decreases n
  {
    if n > 0 {
      ColStartsMembers(ht, n - 1, c);
    }
  }

  lemma {:induction false} RowStartsMembers(w: int, n: nat, c: Cell)
    ensures c in RowStarts(w, n) <==>
      0 <= c.p.y < n && ((c.p.x == 0 && c.d == RIGHT) || (c.p.x == w - 1 && c.d == LEFT))
    decreases n
  {
    if n > 0 {
      RowStartsMembers(w, n - 1, c);
    }
  }

  /** The corrected starts are exactly the beams entering the grid. */
  lemma EdgeStartsEntering(table: seq<seq<char>>, c: Cell)
    requires Valid(table) && |table[0]| > 0
    ensures c in EdgeStarts(table) <==> Entering(table, c)
  {
    ColStartsMembers(|table|, |table[0]|, c);
    RowStartsMembers(|table[0]|, |table|, c);
  }

  /** One more column of starts. */
  lemma ColStep(table: seq<seq<char>>, c: nat, r: nat, top: nat, bottom: nat)
    requires Valid(table) && r == Best(table, ColStarts(|table|, c))
    requires top == Energy(table, Cell(Point(c, 0), DOWN))
    requires bottom == Energy(table, Cell(Point(c, |table| - 1), UP))
    ensures MaxNat(MaxNat(r, top), bottom) == Best(table, ColStarts(|table|, c + 1))
  {
    BestSnoc2(table, ColStarts(|table|, c), Cell(Point(c, 0), DOWN), Cell(Point(c, |table| - 1), UP));
  }

  /** One more row of starts, as written. */
  lemma RowStepAsWritten(table: seq<seq<char>>, y: nat, r0: nat, r: nat, left: nat, right: nat)
    requires Valid(table) && r == MaxNat(r0, Best(table, RowStartsAsWritten(|table[0]|, y)))
    requires left == Energy(table, Cell(Point(0, y), LEFT))
    requires right == Energy(table, Cell(Point(|table[0]| - 1, y), RIGHT))
    ensures MaxNat(MaxNat(r, left), right) == MaxNat(r0, Best(table, RowStartsAsWritten(|table[0]|, y + 1)))
  {
    var w := |table[0]|;
    BestSnoc2(table, RowStartsAsWritten(w, y), Cell(Point(0, y), LEFT), Cell(Point(w - 1, y), RIGHT));
  }

  /** One more row of starts, heading inward. */
  lemma RowStep(table: seq<seq<char>>, y: nat, r0: nat, r: nat, left: nat, right: nat)
    requires Valid(table) && r == MaxNat(r0, Best(table, RowStarts(|table[0]|, y)))
    requires left == Energy(table, Cell(Point(0, y), RIGHT))
    requires right == Energy(table, Cell(Point(|table[0]| - 1, y), LEFT))
    ensures MaxNat(MaxNat(r, left), right) == MaxNat(r0, Best(table, RowStarts(|table[0]|, y + 1)))
  {
    var w := |table[0]|;
    BestSnoc2(table, RowStarts(w, y), Cell(Point(0, y), RIGHT), Cell(Point(w - 1, y), LEFT));
  }

  /** The best over two runs of starts is the larger of the two bests. */
  lemma {:induction false} BestAppend(table: seq<seq<char>>, a: seq<Cell>, b: seq<Cell>)
    requires Valid(table) && AllDirs(a) && AllDirs(b)
    ensures AllDirs(a + b)
    ensures Best(table, a + b) == MaxNat(Best(table, a), Best(table, b))
    decreases |b|
  {
    if |b| == 0 {
      assert a + b == a;
    } else {
      var front := b[..|b| - 1];
      BestAppend(table, a, front);
      assert (a + b)[..|a + b| - 1] == a + front;
    }
  }

  /** The first loop of `solve2`: the best over the columns `0 .. n`. */
  method ScanColumns(table: seq<seq<char>>, n: nat) returns (r: nat)
    requires Valid(table)
    ensures r == Best(table, ColStarts(|table|, n))
  {
    var ht := |table|;
    r := 0;
    var c := 0;
    while c < n
      invariant 0 <= c <= n && r == Best(table, ColStarts(ht, c))
    {
      var top := CountEnergized(table, Cell(Point(c, 0), DOWN));
      var bottom := CountEnergized(table, Cell(Point(c, ht - 1), UP));
      ColStep(table, c, r, top, bottom);
      r := MaxNat(MaxNat(r, top), bottom);
      c := c + 1;
    }
  }

  /** The second loop of `solve2` as written, over the rows `0 .. n`,
      continuing from the best `r0` of the first. */
  method ScanRowsAsWritten(table: seq<seq<char>>, r0: nat, n: nat) returns (r: nat)
    requires Valid(table)
    ensures r == MaxNat(r0, Best(table, RowStartsAsWritten(|table[0]|, n)))
  {
    var w := |table[0]|;
    r := r0;
    var y := 0;
    while y < n
      invariant 0 <= y <= n && r == MaxNat(r0, Best(table, RowStartsAsWritten(w, y)))
    {
      var left := CountEnergized(table, Cell(Point(0, y), LEFT));
      var right := CountEnergized(table, Cell(Point(w - 1, y), RIGHT));
      RowStepAsWritten(table, y, r0, r, left, right);
      r := MaxNat(MaxNat(r, left), right);
      y := y + 1;
    }
  }

  /** The second loop with the beams heading inward. */
  method ScanRows(table: seq<seq<char>>, r0: nat, n: nat) returns (r: nat)
    requires Valid(table)
    ensures r == MaxNat(r0, Best(table, RowStarts(|table[0]|, n)))
  {
    var w := |table[0]|;
    r := r0;
    var y := 0;
    while y < n
      invariant 0 <= y <= n && r == MaxNat(r0, Best(table, RowStarts(w, y)))
    {
      var left := CountEnergized(table, Cell(Point(0, y), RIGHT));
      var right := CountEnergized(table, Cell(Point(w - 1, y), LEFT));
      RowStep(table, y, r0, r, left, right);
      r := MaxNat(MaxNat(r, left), right);
      y := y + 1;
    }
  }

  /** `solve2` as written: `0..w-1` and `0..h-1` stop one short. */
  method Solve2AsWritten(table: seq<seq<char>>) returns (r: nat)
    requires Valid(table)
    ensures r == Best(table, AsWrittenStarts(table))
  {
    r := ScanColumns(table, Below(|table[0]|));
    r := ScanRowsAsWritten(table, r, Below(|table|));
    BestAppend(table, ColStarts(|table|, Below(|table[0]|)), RowStartsAsWritten(|table[0]|, Below(|table|)));
  }

  /** `solve2` with every column and row and the beams heading inward: the
      most tiles any beam entering the grid energizes. */
  method Solve2(table: seq<seq<char>>) returns (r: nat)
    requires Valid(table)
    ensures r == Best(table, EdgeStarts(table))
    ensures forall c :: Entering(table, c) ==> Energy(table, c) <= r
    ensures |table[0]| > 0 ==> exists c :: Entering(table, c) && Energy(table, c) == r
  {
    r := ScanColumns(table, |table[0]|);
    r := ScanRows(table, r, |table|);
    BestAppend(table, ColStarts(|table|, |table[0]|), RowStarts(|table[0]|, |table|));
    BestEntering(table);
  }

  lemma BestEntering(table: seq<seq<char>>)
    requires Valid(table)
    ensures forall c :: Entering(table, c) ==> Energy(table, c) <= Best(table, EdgeStarts(table))
    ensures |table[0]| > 0 ==> exists c :: Entering(table, c) && Energy(table, c) == Best(table, EdgeStarts(table))
  {
    var starts := EdgeStarts(table);
    BestIsMax(table, starts);
    forall c | Entering(table, c) ensures Energy(table, c) <= Best(table, starts) {
      assert |table[0]| > 0;
      EdgeStartsEntering(table, c);
      var i :| 0 <= i < |starts| && starts[i] == c;
    }
    if |table[0]| > 0 {
      ColStartsMembers(|table|, |table[0]|, Cell(Point(0, 0), DOWN));
      var i :| 0 <= i < |starts| && Energy(table, starts[i]) == Best(table, starts);
      EdgeStartsEntering(table, starts[i]);
    }
  }

  // ---------------------------------------------------------------------
  // The edge starts as written miss beams

  lemma {:induction false} RowStartsAsWrittenMembers(w: int, n: nat, c: Cell)
    ensures c in RowStartsAsWritten(w, n) <==>
      0 <= c.p.y < n && ((c.p.x == 0 && c.d == LEFT) || (c.p.x == w - 1 && c.d == RIGHT))
    decreases n
  {
    if n > 0 {
      RowStartsAsWrittenMembers(w, n - 1, c);
    }
  }

  /** The starts `solve2` tries as written: down and up in every column but
      the last, and in every row but the last, heading left at the left edge
      and right at the right edge. */
  lemma AsWrittenStartsMembers(table: seq<seq<char>>, c: Cell)
    requires Valid(table)
    ensures c in AsWrittenStarts(table) <==>
      (0 <= c.p.x < |table[0]| - 1 && ((c.p.y == 0 && c.d == DOWN) || (c.p.y == |table| - 1 && c.d == UP))) ||
      (0 <= c.p.y < |table| - 1 && ((c.p.x == 0 && c.d == LEFT) || (c.p.x == |table[0]| - 1 && c.d == RIGHT)))
  {
    ColStartsMembers(|table|, Below(|table[0]|), c);
    RowStartsAsWrittenMembers(|table[0]|, Below(|table|), c);
  }

  /** On a grid at least two tiles wide, the beam entering at the top right
      corner heading left is never tried, and no horizontal start tried is a
      beam entering the grid: each one heads straight back out. */
  lemma AsWrittenMissesEntering(table: seq<seq<char>>)
    requires Valid(table) && |table[0]| >= 2
    ensures Entering(table, Cell(Point(|table[0]| - 1, 0), LEFT))
    ensures Cell(Point(|table[0]| - 1, 0), LEFT) !in AsWrittenStarts(table)
    ensures forall c :: c in AsWrittenStarts(table) && c.d.y == 0 ==>
      !Entering(table, c) && !InGrid(table, c.p.Add(c.d))
  {
    AsWrittenStartsMembers(table, Cell(Point(|table[0]| - 1, 0), LEFT));
    forall c | c in AsWrittenStarts(table) && c.d.y == 0
      ensures !Entering(table, c) && !InGrid(table, c.p.Add(c.d))
    {
      AsWrittenStartsMembers(table, c);
    }
  }

  /** A start whose next step leaves the grid energizes its own tile. */
  lemma DeadEnd(table: seq<seq<char>>, start: Cell, out: Cell)
    requires Valid(table) && InGrid(table, start.p) && IsDir(start.d)
    requires Next(table, start) == [out] && !InGrid(table, out.p)
    ensures Energy(table, start) == 1
  {
    assert start == Cell(Point(start.p.x, start.p.y), start.d);
    StartReaches(table, start);
    ClosedIsReachSet(table, start, {start});
    assert Energized(table, start) == {start.p};
  }

  /** So a horizontal start tried on an empty tile energizes that tile and
      nothing more. */
  lemma AsWrittenWasted(table: seq<seq<char>>, c: Cell)
    requires Valid(table) && |table[0]| >= 2 && c in AsWrittenStarts(table) && c.d.y == 0
    requires InGrid(table, c.p) && Tile(table, c.p) == '.'
    ensures Energy(table, c) == 1
  {
    AsWrittenMissesEntering(table);
    NextDot(table, c);
    DeadEnd(table, c, Move(c, c.d));
  }
}
