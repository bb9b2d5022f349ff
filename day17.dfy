/** Day 17, Clumsy Crucible: a crucible crosses a grid of heat-loss digits
    from the top-left to the bottom-right corner. It may go straight only a
    limited number of times in a row and may turn left or right only after
    a minimum run; the search keeps a priority queue of states ordered by
    loss plus the Manhattan distance to the finish. */
module Day17 {
  import opened RustStd
  import opened Utils

  const LEFT: Point := Point(-1, 0)
  const RIGHT: Point := Point(1, 0)
  const UP: Point := Point(0, -1)
  const DOWN: Point := Point(0, 1)

  const DIRS: set<Point> := {LEFT, RIGHT, UP, DOWN}

  predicate IsDir(d: Point)
  {
    d == LEFT || d == RIGHT || d == UP || d == DOWN
  }

  function Neg(d: Point): Point
  {
    Point(-d.x, -d.y)
  }

  // ---------------------------------------------------------------------
  // Rotations

  /** `rot_clockwise`, with y growing downwards: a quarter turn clockwise. */
  function RotClockwise(d: Point): (r: Point)
    requires IsDir(d)
    ensures IsDir(r) && r != d && r != Neg(d)
    ensures r == Point(-d.y, d.x)
  {
    if d == RIGHT then DOWN
    else if d == DOWN then LEFT
    else if d == LEFT then UP
    else RIGHT
  }

  /** `rot_cnt_clockwise`: a quarter turn counter-clockwise. */
  function RotCntClockwise(d: Point): (r: Point)
    requires IsDir(d)
    ensures IsDir(r) && r != d && r != Neg(d)
    ensures r == Point(d.y, -d.x)
  {
    if d == RIGHT then UP
    else if d == UP then LEFT
    else if d == LEFT then DOWN
    else RIGHT
  }

  /** The two rotations undo each other. */
  lemma RotationsInverse(d: Point)
    requires IsDir(d)
    ensures RotCntClockwise(RotClockwise(d)) == d
    ensures RotClockwise(RotCntClockwise(d)) == d
  {
  }

  /** Four clockwise quarter turns are the identity, and two are a U-turn. */
  lemma FourRotations(d: Point)
    requires IsDir(d)
    ensures RotClockwise(RotClockwise(d)) == Neg(d)
    ensures RotClockwise(RotClockwise(RotClockwise(RotClockwise(d)))) == d
  {
  }

  // ---------------------------------------------------------------------
  // States and their order

  /** Where the crucible is, its heading, and how many more straight steps
      it may take. */
  datatype Cell = Cell(p: Point, d: Point, n: nat)

  /** A search state: the heat lost so far, the estimate `h` of what is
      left, and the cell. */
  datatype State = State(loss: int, h: int, cell: Cell)

  function Priority(s: State): int
  {
    s.loss + s.h
  }

  /** `Ord for State` compares `loss + h` in reverse, so that the max-heap
      `BinaryHeap` pops a state with the smallest `loss + h`. */
  function CmpState(a: State, b: State): (r: Ordering)
    ensures r == Greater <==> Priority(a) < Priority(b)
    ensures r == Less <==> Priority(a) > Priority(b)
    ensures r == Equal <==> Priority(a) == Priority(b)
  {
    Cmp(b.loss + b.h, a.loss + a.h)
  }

  /** `BinaryHeap::pop`: the position of a greatest state, that is one with
      the smallest `loss + h`. Which of several equal states it picks is
      left open by the heap; this takes the first. */
  function Top(heap: seq<State>): (i: nat)
    requires |heap| > 0
    ensures i < |heap|
    ensures forall j :: 0 <= j < |heap| ==> CmpState(heap[j], heap[i]) != Greater
    ensures forall j :: 0 <= j < |heap| ==> Priority(heap[i]) <= Priority(heap[j])
  {
    if |heap| == 1 then 0
    else
      var k := Top(heap[1..]) + 1;
      assert forall j :: 1 <= j < |heap| ==> heap[j] == heap[1..][j - 1];
      if CmpState(heap[k], heap[0]) == Greater then k else 0
  }

  // ---------------------------------------------------------------------
  // The grid

  /** A non-empty rectangle of heat-loss values. */
  predicate Valid(table: seq<seq<int>>)
  {
    |table| > 0 && forall y :: 0 <= y < |table| ==> |table[y]| == |table[0]|
  }

  predicate IsInside(p: Point, table: seq<seq<int>>)
    requires |table| > 0
  {
    0 <= p.x < |table[0]| && 0 <= p.y < |table|
  }

  function At(table: seq<seq<int>>, p: Point): int
    requires Valid(table) && IsInside(p, table)
  {
    table[p.y][p.x]
  }

  /** The bottom-right corner. */
  function Finish(table: seq<seq<int>>): Point
    requires |table| > 0
  {
    Point(|table[0]| - 1, |table| - 1)
  }

  /** The Manhattan distance to the finish from a point above and left of
      it. */
  function Estimate(finish: Point, p: Point): int
  {
    finish.x - p.x + finish.y - p.y
  }

  // ---------------------------------------------------------------------
  // Moves

  /** One more step straight on, using up one of the remaining ones. */
  function Ahead(c: Cell): Cell
    requires c.n > 0
  {
    Cell(c.p.Add(c.d), c.d, c.n - 1)
  }

  /** One step in the new heading `d`, with the straight-line budget reset. */
  function Turned(c: Cell, d: Point, maxn: nat): Cell
    requires maxn >= 1
  {
    Cell(c.p.Add(d), d, maxn - 1)
  }

  /** Entering cell `c` from state `s` adds the heat loss of its tile. */
  function Enter(table: seq<seq<int>>, finish: Point, s: State, c: Cell): State
    requires Valid(table) && IsInside(c.p, table)
  {
    State(s.loss + At(table, c.p), Estimate(finish, c.p), c)
  }

  /** `get_next`: straight on, if that stays inside the grid. */
  function GetNext(s: State, table: seq<seq<int>>, finish: Point): (r: Option<State>)
    requires Valid(table) && s.cell.n > 0
    ensures r.Some? <==> IsInside(Ahead(s.cell).p, table)
    ensures r.Some? ==> r.value == Enter(table, finish, s, Ahead(s.cell))
  {
    var p := s.cell.p.Add(s.cell.d);
    var h := finish.x - p.x + finish.y - p.y;
    if IsInside(p, table) then
      Some(State(s.loss + At(table, p), h, Cell(p, s.cell.d, s.cell.n - 1)))
    else None
  }

  /** `get_rotated`: a quarter turn either way, each kept if it stays inside
      the grid. */
  function GetRotated(s: State, table: seq<seq<int>>, finish: Point, maxn: nat): (r: (Option<State>, Option<State>))
    requires Valid(table) && IsDir(s.cell.d) && maxn >= 1
    ensures var c1 := Turned(s.cell, RotClockwise(s.cell.d), maxn);
      (r.0.Some? <==> IsInside(c1.p, table)) &&
      (r.0.Some? ==> r.0.value == Enter(table, finish, s, c1))
    ensures var c2 := Turned(s.cell, RotCntClockwise(s.cell.d), maxn);
      (r.1.Some? <==> IsInside(c2.p, table)) &&
      (r.1.Some? ==> r.1.value == Enter(table, finish, s, c2))
  {
    var d1 := RotClockwise(s.cell.d);
    var d2 := RotCntClockwise(s.cell.d);
    var p1 := s.cell.p.Add(d1);
    var p2 := s.cell.p.Add(d2);
    var h1 := finish.x - p1.x + finish.y - p1.y;
    var h2 := finish.x - p2.x + finish.y - p2.y;
    var s1 := if IsInside(p1, table) then Some(State(s.loss + At(table, p1), h1, Cell(p1, d1, maxn - 1))) else None;
    var s2 := if IsInside(p2, table) then Some(State(s.loss + At(table, p2), h2, Cell(p2, d2, maxn - 1))) else None;
    (s1, s2)
  }

  function OptionSeq(o: Option<State>): seq<State>
  {
    if o.Some? then [o.value] else []
  }

  /** The states one expansion of `s` pushes, in the order `solve` pushes
      them: straight on when `n > 0`, then both turns when
      `n <= maxn - minn`. */
  function Expand(table: seq<seq<int>>, finish: Point, minn: nat, maxn: nat, s: State): seq<State>
    requires Valid(table) && IsDir(s.cell.d) && 1 <= minn <= maxn
  {
    (if s.cell.n > 0 then OptionSeq(GetNext(s, table, finish)) else []) +
    (if s.cell.n <= maxn - minn then
       var rot := GetRotated(s, table, finish, maxn);
       OptionSeq(rot.0) + OptionSeq(rot.1)
     else [])
  }

  function InsideSeq(table: seq<seq<int>>, c: Cell): seq<Cell>
    requires |table| > 0
  {
    if IsInside(c.p, table) then [c] else []
  }

  /** The cells the crucible may move to from `c`, independent of the loss. */
  function Successors(table: seq<seq<int>>, minn: nat, maxn: nat, c: Cell): seq<Cell>
    requires Valid(table) && IsDir(c.d) && 1 <= minn <= maxn
  {
    (if c.n > 0 then InsideSeq(table, Ahead(c)) else []) +
    (if c.n <= maxn - minn then
       InsideSeq(table, Turned(c, RotClockwise(c.d), maxn)) +
       InsideSeq(table, Turned(c, RotCntClockwise(c.d), maxn))
     else [])
  }

  predicate AllInside(table: seq<seq<int>>, cells: seq<Cell>)
    requires |table| > 0
  {
    forall i :: 0 <= i < |cells| ==> IsInside(cells[i].p, table)
  }

  /** The states entered from `s` into each of `cells` in turn. */
  function EnterEach(table: seq<seq<int>>, finish: Point, s: State, cells: seq<Cell>): seq<State>
    requires Valid(table) && AllInside(table, cells)
  {
    if cells == [] then []
    else [Enter(table, finish, s, cells[0])] + EnterEach(table, finish, s, cells[1..])
  }

  lemma {:induction false} EnterEachAppend(table: seq<seq<int>>, finish: Point, s: State, a: seq<Cell>, b: seq<Cell>)
    requires Valid(table) && AllInside(table, a) && AllInside(table, b)
    ensures AllInside(table, a + b)
    ensures EnterEach(table, finish, s, a + b) == EnterEach(table, finish, s, a) + EnterEach(table, finish, s, b)
    decreases |a|
  {
    if a != [] {
      assert (a + b)[1..] == a[1..] + b;
      EnterEachAppend(table, finish, s, a[1..], b);
    } else {
      assert a + b == b;
    }
  }

  /** Each state entered is the entry into one of the cells, and each cell
      is entered. */
  lemma {:induction false} EnterEachMembers(table: seq<seq<int>>, finish: Point, s: State, cells: seq<Cell>)
    requires Valid(table) && AllInside(table, cells)
    ensures forall x :: x in EnterEach(table, finish, s, cells) ==>
      x.cell in cells && x == Enter(table, finish, s, x.cell)
    ensures forall c :: c in cells ==> Enter(table, finish, s, c) in EnterEach(table, finish, s, cells)
    decreases |cells|
  {
    if cells != [] {
      EnterEachMembers(table, finish, s, cells[1..]);
      assert forall c :: c in cells <==> c == cells[0] || c in cells[1..];
    }
  }

  lemma EnterOption(table: seq<seq<int>>, finish: Point, s: State, o: Option<State>, c: Cell)
    requires Valid(table)
    requires o.Some? <==> IsInside(c.p, table)
    requires o.Some? ==> IsInside(c.p, table) && o.value == Enter(table, finish, s, c)
    ensures AllInside(table, InsideSeq(table, c))
    ensures OptionSeq(o) == EnterEach(table, finish, s, InsideSeq(table, c))
  {
    if o.Some? {
      assert [c][1..] == [];
    }
  }

  /** The turns of an expansion enter the turned cells inside the grid. */
  lemma TurnsEnter(table: seq<seq<int>>, finish: Point, maxn: nat, s: State)
    requires Valid(table) && IsDir(s.cell.d) && maxn >= 1
    ensures var cells := InsideSeq(table, Turned(s.cell, RotClockwise(s.cell.d), maxn)) +
                         InsideSeq(table, Turned(s.cell, RotCntClockwise(s.cell.d), maxn));
      AllInside(table, cells) &&
      OptionSeq(GetRotated(s, table, finish, maxn).0) + OptionSeq(GetRotated(s, table, finish, maxn).1) ==
        EnterEach(table, finish, s, cells)
  {
    var rot := GetRotated(s, table, finish, maxn);
    var c1 := Turned(s.cell, RotClockwise(s.cell.d), maxn);
    var c2 := Turned(s.cell, RotCntClockwise(s.cell.d), maxn);
    EnterOption(table, finish, s, rot.0, c1);
    EnterOption(table, finish, s, rot.1, c2);
    EnterEachAppend(table, finish, s, InsideSeq(table, c1), InsideSeq(table, c2));
  }

  /** An expansion enters exactly the successor cells, in the same order. */
  lemma ExpandIsEnter(table: seq<seq<int>>, finish: Point, minn: nat, maxn: nat, s: State)
    requires Valid(table) && IsDir(s.cell.d) && 1 <= minn <= maxn
    ensures AllInside(table, Successors(table, minn, maxn, s.cell))
    ensures Expand(table, finish, minn, maxn, s) == EnterEach(table, finish, s, Successors(table, minn, maxn, s.cell))
  {
    var c := s.cell;
    var straight := if c.n > 0 then OptionSeq(GetNext(s, table, finish)) else [];
    var ahead := if c.n > 0 then InsideSeq(table, Ahead(c)) else [];
    if c.n > 0 {
      EnterOption(table, finish, s, GetNext(s, table, finish), Ahead(c));
    }
    if c.n <= maxn - minn {
      TurnsEnter(table, finish, maxn, s);
      var turns := InsideSeq(table, Turned(c, RotClockwise(c.d), maxn)) +
                   InsideSeq(table, Turned(c, RotCntClockwise(c.d), maxn));
      EnterEachAppend(table, finish, s, ahead, turns);
    } else {
      assert straight + [] == straight && ahead + [] == ahead;
    }
  }

  /** The successors, one by one. */
  lemma SuccessorsMembers(table: seq<seq<int>>, minn: nat, maxn: nat, c: Cell, t: Cell)
    requires Valid(table) && IsDir(c.d) && 1 <= minn <= maxn
    ensures t in Successors(table, minn, maxn, c) <==>
      IsInside(t.p, table) &&
      ((c.n > 0 && t == Ahead(c)) ||
       (c.n <= maxn - minn &&
        (t == Turned(c, RotClockwise(c.d), maxn) || t == Turned(c, RotCntClockwise(c.d), maxn))))
  {
  }

  /** The move rules: a straight step only while `n > 0`, costing one of the
      remaining steps; a turn only when `n <= maxn - minn`, resetting the
      budget to `maxn - 1`; never a U-turn, and always one tile on inside
      the grid. */
  lemma SuccessorLaws(table: seq<seq<int>>, minn: nat, maxn: nat, c: Cell, t: Cell)
    requires Valid(table) && IsDir(c.d) && 1 <= minn <= maxn
    requires c.n < maxn && t in Successors(table, minn, maxn, c)
    ensures IsDir(t.d) && t.d != Neg(c.d) && t.p == c.p.Add(t.d) && IsInside(t.p, table)
    ensures t.n < maxn
    ensures t.d == c.d ==> c.n > 0 && t.n + 1 == c.n
    ensures t.d != c.d ==>
      c.n <= maxn - minn && t.n == maxn - 1 && (t.d == RotClockwise(c.d) || t.d == RotCntClockwise(c.d))
  {
    SuccessorsMembers(table, minn, maxn, c, t);
  }

  // ---------------------------------------------------------------------
  // Paths

  /** The two cells next to the start, entered heading right and down. */
  function StartCells(maxn: nat): seq<Cell>
    requires maxn >= 1
  {
    [Cell(Point(1, 0), RIGHT, maxn - 1), Cell(Point(0, 1), DOWN, maxn - 1)]
  }

  /** A run of cells from the start, each a legal move on from the one
      before. The start corner itself is not part of the run. */
  ghost predicate IsCellPath(table: seq<seq<int>>, minn: nat, maxn: nat, path: seq<Cell>)
    requires Valid(table) && 1 <= minn <= maxn
  {
    |path| > 0 && path[0] in StartCells(maxn) &&
    (forall i :: 0 <= i < |path| ==> IsInside(path[i].p, table)) &&
    forall i :: 0 <= i < |path| - 1 ==>
      IsDir(path[i].d) && path[i + 1] in Successors(table, minn, maxn, path[i])
  }

  /** The heat lost along a run: the sum over the tiles it enters. */
  function PathLoss(table: seq<seq<int>>, path: seq<Cell>): int
    requires Valid(table) && forall i :: 0 <= i < |path| ==> IsInside(path[i].p, table)
  {
    if |path| == 0 then 0
    else PathLoss(table, path[..|path| - 1]) + At(table, path[|path| - 1].p)
  }

  /** Every cell of a run lies inside the grid with a heading and a budget
      below `maxn`. */
  lemma {:induction false} PathCells(table: seq<seq<int>>, minn: nat, maxn: nat, path: seq<Cell>)
    requires Valid(table) && 1 <= minn <= maxn && IsCellPath(table, minn, maxn, path)
    ensures forall i :: 0 <= i < |path| ==> InCells(table, maxn, path[i])
    decreases |path|
  {
    var n := |path|;
    if n > 1 {
      var front := path[..n - 1];
      FrontRun(table, minn, maxn, path);
      PathCells(table, minn, maxn, front);
      forall i | 0 <= i < n ensures InCells(table, maxn, path[i]) {
        if i < n - 1 {
          assert front[i] == path[i];
        } else {
          assert front[n - 2] == path[n - 2];
          SuccessorLaws(table, minn, maxn, path[n - 2], path[n - 1]);
        }
      }
    }
  }

  /** A run without its last move is a run. */
  lemma FrontRun(table: seq<seq<int>>, minn: nat, maxn: nat, path: seq<Cell>)
    requires Valid(table) && 1 <= minn <= maxn && IsCellPath(table, minn, maxn, path) && |path| > 1
    ensures IsCellPath(table, minn, maxn, path[..|path| - 1])
    ensures IsDir(path[|path| - 2].d) && path[|path| - 1] in Successors(table, minn, maxn, path[|path| - 2])
  {
  }

  /** State `s` is the end of some run that lost `s.loss`, and its estimate
      is the distance left. */
  ghost predicate Witnessed(table: seq<seq<int>>, minn: nat, maxn: nat, s: State)
    requires Valid(table) && 1 <= minn <= maxn
  {
    s.h == Estimate(Finish(table), s.cell.p) &&
    exists path: seq<Cell> :: IsCellPath(table, minn, maxn, path) && path[|path| - 1] == s.cell &&
      PathLoss(table, path) == s.loss
  }

  // ---------------------------------------------------------------------
  // The search

  predicate InCells(table: seq<seq<int>>, maxn: nat, c: Cell)
    requires |table| > 0
  {
    IsInside(c.p, table) && IsDir(c.d) && c.n < maxn
  }

  /** Every cell the search can meet. */
  function AllCells(table: seq<seq<int>>, maxn: nat): set<Cell>
  {
    set x, y, d, n: nat | 0 <= y < |table| && 0 <= x < |table[0]| && d in DIRS && n < maxn ::
      Cell(Point(x, y), d, n)
  }

  lemma InAllCells(table: seq<seq<int>>, maxn: nat, c: Cell)
    requires |table| > 0 && InCells(table, maxn, c)
    ensures c in AllCells(table, maxn)
  {
    assert c == Cell(Point(c.p.x, c.p.y), c.d, c.n);
  }

  ghost function HeapCells(heap: seq<State>): set<Cell>
  {
    set s | s in heap :: s.cell
  }

  /** Every move from a visited cell leads to a covered cell: one visited or
      waiting in the heap. */
  ghost predicate Closed(table: seq<seq<int>>, minn: nat, maxn: nat, visited: set<Cell>, covered: set<Cell>)
    requires Valid(table) && 1 <= minn <= maxn
  {
    forall c, t :: c in visited && IsDir(c.d) && t in Successors(table, minn, maxn, c) ==> t in covered
  }

  /** Every state waiting in the heap lies in the grid and is witnessed. */
  ghost predicate HeapOk(table: seq<seq<int>>, minn: nat, maxn: nat, heap: seq<State>)
    requires Valid(table) && 1 <= minn <= maxn
  {
    forall s :: s in heap ==> InCells(table, maxn, s.cell) && Witnessed(table, minn, maxn, s)
  }

  /** No visited cell is at the finish. */
  predicate VisitedOk(table: seq<seq<int>>, maxn: nat, visited: set<Cell>)
    requires |table| > 0
  {
    forall c :: c in visited ==> InCells(table, maxn, c) && c.p != Finish(table)
  }

  predicate StartsCovered(maxn: nat, covered: set<Cell>)
    requires maxn >= 1
  {
    forall c :: c in StartCells(maxn) ==> c in covered
  }

  /** The invariant of the search loop. */
  ghost predicate SearchInv(table: seq<seq<int>>, minn: nat, maxn: nat, heap: seq<State>, visited: set<Cell>)
    requires Valid(table) && 1 <= minn <= maxn
  {
    HeapOk(table, minn, maxn, heap) && VisitedOk(table, maxn, visited) &&
    StartsCovered(maxn, visited + HeapCells(heap)) &&
    Closed(table, minn, maxn, visited, visited + HeapCells(heap))
  }

  lemma ClosedMono(table: seq<seq<int>>, minn: nat, maxn: nat, visited: set<Cell>, a: set<Cell>, b: set<Cell>)
    requires Valid(table) && 1 <= minn <= maxn && Closed(table, minn, maxn, visited, a) && a <= b
    ensures Closed(table, minn, maxn, visited, b)
  {
  }

  /** Visiting `x` keeps the set closed once all of its moves are covered. */
  lemma ClosedVisit(table: seq<seq<int>>, minn: nat, maxn: nat, visited: set<Cell>, x: Cell, b: set<Cell>)
    requires Valid(table) && 1 <= minn <= maxn && Closed(table, minn, maxn, visited, b) && IsDir(x.d)
    requires forall t :: t in Successors(table, minn, maxn, x) ==> t in b
    ensures Closed(table, minn, maxn, visited + {x}, b)
  {
  }

  /** Popping position `i` loses a waiting cell only into the popped state. */
  lemma PopCells(heap: seq<State>, i: nat)
    requires i < |heap|
    ensures forall s :: s in heap[..i] + heap[i + 1..] ==> s in heap
    ensures HeapCells(heap) <= HeapCells(heap[..i] + heap[i + 1..]) + {heap[i].cell}
  {
    var rest := heap[..i] + heap[i + 1..];
    forall s | s in heap ensures s == heap[i] || s in rest {
      var k :| 0 <= k < |heap| && heap[k] == s;
      if k < i {
        assert rest[k] == s;
      } else if k > i {
        assert rest[k - 1] == s;
      }
    }
    forall c | c in HeapCells(heap) ensures c in HeapCells(rest) + {heap[i].cell} {
      var s :| s in heap && s.cell == c;
      if s != heap[i] {
        assert s in rest;
      }
    }
  }

  lemma HeapOkSub(table: seq<seq<int>>, minn: nat, maxn: nat, heap: seq<State>, rest: seq<State>)
    requires Valid(table) && 1 <= minn <= maxn && HeapOk(table, minn, maxn, heap)
    requires forall s :: s in rest ==> s in heap
    ensures HeapOk(table, minn, maxn, rest)
  {
  }

  /** Skipping a popped state whose cell was visited keeps the invariant. */
  lemma SkipVisited(table: seq<seq<int>>, minn: nat, maxn: nat, heap: seq<State>, i: nat, visited: set<Cell>)
    requires Valid(table) && 1 <= minn <= maxn && i < |heap|
    requires SearchInv(table, minn, maxn, heap, visited) && heap[i].cell in visited
    ensures SearchInv(table, minn, maxn, heap[..i] + heap[i + 1..], visited)
  {
    var rest := heap[..i] + heap[i + 1..];
    PopCells(heap, i);
    HeapOkSub(table, minn, maxn, heap, rest);
    assert visited + HeapCells(heap) <= visited + HeapCells(rest);
    ClosedMono(table, minn, maxn, visited, visited + HeapCells(heap), visited + HeapCells(rest));
  }

  /** A run extended by one more move witnesses the state entered. */
  lemma WitnessStep(table: seq<seq<int>>, minn: nat, maxn: nat, s: State, t: Cell)
    requires Valid(table) && 1 <= minn <= maxn && IsDir(s.cell.d)
    requires Witnessed(table, minn, maxn, s) && t in Successors(table, minn, maxn, s.cell)
    ensures IsInside(t.p, table)
    ensures Witnessed(table, minn, maxn, Enter(table, Finish(table), s, t))
  {
    var path :| IsCellPath(table, minn, maxn, path) && path[|path| - 1] == s.cell &&
      PathLoss(table, path) == s.loss;
    ExtendRun(table, minn, maxn, path, t);
    var longer := path + [t];
    assert longer[|longer| - 1] == t;
  }

  /** A run extended by a legal move is a run, and loses the heat of the
      tile entered on top. */
  lemma ExtendRun(table: seq<seq<int>>, minn: nat, maxn: nat, path: seq<Cell>, t: Cell)
    requires Valid(table) && 1 <= minn <= maxn && IsCellPath(table, minn, maxn, path)
    requires IsDir(path[|path| - 1].d) && t in Successors(table, minn, maxn, path[|path| - 1])
    ensures IsInside(t.p, table) && IsCellPath(table, minn, maxn, path + [t])
    ensures PathLoss(table, path + [t]) == PathLoss(table, path) + At(table, t.p)
  {
    SuccessorsMembers(table, minn, maxn, path[|path| - 1], t);
    var longer := path + [t];
    assert longer[0] == path[0];
    forall i | 0 <= i < |longer| ensures IsInside(longer[i].p, table) {
      if i < |path| {
        assert longer[i] == path[i];
      }
    }
    forall i | 0 <= i < |longer| - 1
      ensures IsDir(longer[i].d) && longer[i + 1] in Successors(table, minn, maxn, longer[i])
    {
      assert longer[i] == path[i];
      if i + 1 < |path| {
        assert longer[i + 1] == path[i + 1];
      }
    }
    assert longer[..|longer| - 1] == path;
  }

  /** The states pushed by expanding a witnessed `s` are witnessed, and
      their cells are exactly the moves from `s`. */
  lemma Pushed(table: seq<seq<int>>, minn: nat, maxn: nat, s: State)
    requires Valid(table) && 1 <= minn <= maxn
    requires InCells(table, maxn, s.cell) && Witnessed(table, minn, maxn, s)
    ensures HeapOk(table, minn, maxn, Expand(table, Finish(table), minn, maxn, s))
    ensures forall t :: t in Successors(table, minn, maxn, s.cell) ==>
      t in HeapCells(Expand(table, Finish(table), minn, maxn, s))
  {
    var pushed := Expand(table, Finish(table), minn, maxn, s);
    var succ := Successors(table, minn, maxn, s.cell);
    ExpandIsEnter(table, Finish(table), minn, maxn, s);
    EnterEachMembers(table, Finish(table), s, succ);
    forall x | x in pushed ensures InCells(table, maxn, x.cell) && Witnessed(table, minn, maxn, x) {
      SuccessorLaws(table, minn, maxn, s.cell, x.cell);
      WitnessStep(table, minn, maxn, s, x.cell);
    }
    forall t | t in succ ensures t in HeapCells(pushed) {
      assert Enter(table, Finish(table), s, t) in pushed;
    }
  }

  lemma HeapOkAppend(table: seq<seq<int>>, minn: nat, maxn: nat, a: seq<State>, b: seq<State>)
    requires Valid(table) && 1 <= minn <= maxn && HeapOk(table, minn, maxn, a) && HeapOk(table, minn, maxn, b)
    ensures HeapOk(table, minn, maxn, a + b)
    ensures HeapCells(a + b) == HeapCells(a) + HeapCells(b)
  {
    assert forall s :: s in a + b <==> s in a || s in b;
  }

  /** Expanding an unvisited state that is not at the finish keeps the
      invariant and visits one more cell. */
  lemma ExpandVisited(table: seq<seq<int>>, minn: nat, maxn: nat, heap: seq<State>, i: nat, visited: set<Cell>)
    requires Valid(table) && 1 <= minn <= maxn && i < |heap|
    requires SearchInv(table, minn, maxn, heap, visited)
    requires heap[i].cell !in visited && heap[i].cell.p != Finish(table)
    ensures IsDir(heap[i].cell.d)
    ensures SearchInv(table, minn, maxn,
      heap[..i] + heap[i + 1..] + Expand(table, Finish(table), minn, maxn, heap[i]),
      visited + {heap[i].cell})
    ensures AllCells(table, maxn) - (visited + {heap[i].cell}) < AllCells(table, maxn) - visited
  {
    var s := heap[i];
    assert s in heap;
    var rest := heap[..i] + heap[i + 1..];
    var pushed := Expand(table, Finish(table), minn, maxn, s);
    var next := rest + pushed;
    var visited' := visited + {s.cell};
    PopCells(heap, i);
    HeapOkSub(table, minn, maxn, heap, rest);
    Pushed(table, minn, maxn, s);
    HeapOkAppend(table, minn, maxn, rest, pushed);
    assert visited + HeapCells(heap) <= visited' + HeapCells(next);
    ClosedMono(table, minn, maxn, visited, visited + HeapCells(heap), visited' + HeapCells(next));
    ClosedVisit(table, minn, maxn, visited, s.cell, visited' + HeapCells(next));
    InAllCells(table, maxn, s.cell);
  }

  /** Once nothing waits, every run stays among the visited cells. */
  lemma {:induction false} ClosedRuns(table: seq<seq<int>>, minn: nat, maxn: nat, visited: set<Cell>, path: seq<Cell>)
    requires Valid(table) && 1 <= minn <= maxn
    requires SearchInv(table, minn, maxn, [], visited)
    requires IsCellPath(table, minn, maxn, path)
    ensures path[|path| - 1] in visited
    decreases |path|
  {
    if |path| > 1 {
      var front := path[..|path| - 1];
      assert IsCellPath(table, minn, maxn, front);
      ClosedRuns(table, minn, maxn, visited, front);
      assert path[|path| - 1] in Successors(table, minn, maxn, path[|path| - 2]);
    } else {
      assert path[0] in StartCells(maxn);
    }
  }

  // ---------------------------------------------------------------------
  // Least heat loss

  /** Every tile costs at least 1, as every digit of a puzzle grid does; then
      the Manhattan estimate never drops by more than the cost of a move. */
  ghost predicate Positive(table: seq<seq<int>>)
  {
    forall y, x :: 0 <= y < |table| && 0 <= x < |table[y]| ==> table[y][x] >= 1
  }

  /** The loss each visited cell was visited with is no more than that of any
      run ending there. */
  ghost predicate Optimal(table: seq<seq<int>>, minn: nat, maxn: nat, best: map<Cell, int>)
    requires Valid(table) && 1 <= minn <= maxn
  {
    forall path: seq<Cell> :: IsCellPath(table, minn, maxn, path) && path[|path| - 1] in best ==>
      best[path[|path| - 1]] <= PathLoss(table, path)
  }

  /** Some state waiting in the heap enters `t` having lost at most `bound`. */
  ghost predicate Queued(heap: seq<State>, t: Cell, bound: int)
  {
    exists y :: y in heap && y.cell == t && y.loss <= bound
  }

  /** Every move from a visited cell leads to a visited cell or to a waiting
      state that lost no more than the visit plus the tile entered. */
  ghost predicate Relaxed(table: seq<seq<int>>, minn: nat, maxn: nat, heap: seq<State>, visited: set<Cell>,
                          best: map<Cell, int>)
    requires Valid(table) && 1 <= minn <= maxn
  {
    forall c, t :: c in best && IsDir(c.d) && t in Successors(table, minn, maxn, c) ==>
      t in visited || (IsInside(t.p, table) && Queued(heap, t, best[c] + At(table, t.p)))
  }

  /** Each start cell is visited or waits with the loss of its own tile. */
  ghost predicate StartsQueued(table: seq<seq<int>>, maxn: nat, heap: seq<State>, visited: set<Cell>)
    requires Valid(table) && maxn >= 1
  {
    forall c :: c in StartCells(maxn) ==>
      c in visited || (IsInside(c.p, table) && Queued(heap, c, At(table, c.p)))
  }

  /** The bookkeeping behind least loss: `best` records the loss of each
      visit, and with positive tiles those losses are least. */
  ghost predicate BestFacts(table: seq<seq<int>>, minn: nat, maxn: nat, heap: seq<State>, visited: set<Cell>,
                            best: map<Cell, int>)
    requires Valid(table) && 1 <= minn <= maxn
  {
    best.Keys == visited && Relaxed(table, minn, maxn, heap, visited, best) &&
    StartsQueued(table, maxn, heap, visited) &&
    (Positive(table) ==> Optimal(table, minn, maxn, best))
  }

  /** `BestFacts`, kept folded under `Open` so that the search loop only
      passes it from one step to the next. */
  ghost predicate BestInv(table: seq<seq<int>>, minn: nat, maxn: nat, heap: seq<State>, visited: set<Cell>,
                          best: map<Cell, int>)
    requires Valid(table) && 1 <= minn <= maxn
  {
    forall k: nat :: Open(k) ==> BestFacts(table, minn, maxn, heap, visited, best)
  }

  lemma Unfold(table: seq<seq<int>>, minn: nat, maxn: nat, heap: seq<State>, visited: set<Cell>,
               best: map<Cell, int>)
    requires Valid(table) && 1 <= minn <= maxn && BestInv(table, minn, maxn, heap, visited, best)
    ensures BestFacts(table, minn, maxn, heap, visited, best)
  {
    assert Open(0);
  }

  /** Some waiting state has a priority of at most `bound`. */
  ghost predicate Bounded(heap: seq<State>, bound: int)
  {
    exists j :: 0 <= j < |heap| && Priority(heap[j]) <= bound
  }

  /** With positive tiles the estimate is consistent: a move lowers it by at
      most the cost of the tile entered. */
  lemma Consistent(table: seq<seq<int>>, minn: nat, maxn: nat, c: Cell, t: Cell)
    requires Valid(table) && 1 <= minn <= maxn && Positive(table) && IsDir(c.d)
    requires t in Successors(table, minn, maxn, c)
    ensures IsInside(t.p, table)
    ensures Estimate(Finish(table), c.p) <= At(table, t.p) + Estimate(Finish(table), t.p)
  {
    SuccessorsMembers(table, minn, maxn, c, t);
    assert table[t.p.y][t.p.x] >= 1;
  }

  /** A waiting state bounds every run that ends at an unvisited cell: its
      priority is at most the run's loss plus the estimate left. */
  lemma {:induction false} Frontier(table: seq<seq<int>>, minn: nat, maxn: nat, heap: seq<State>,
                                    visited: set<Cell>, best: map<Cell, int>, path: seq<Cell>)
    requires Valid(table) && 1 <= minn <= maxn && Positive(table)
    requires HeapOk(table, minn, maxn, heap) && BestFacts(table, minn, maxn, heap, visited, best)
    requires IsCellPath(table, minn, maxn, path) && path[|path| - 1] !in visited
    ensures Bounded(heap, PathLoss(table, path) + Estimate(Finish(table), path[|path| - 1].p))
    decreases |path|
  {
    var k := |path|;
    var last := path[k - 1];
    if k == 1 {
      assert last in StartCells(maxn);
      var y :| y in heap && y.cell == last && y.loss <= At(table, last.p);
      var j :| 0 <= j < |heap| && heap[j] == y;
      assert PathLoss(table, path) == PathLoss(table, path[..0]) + At(table, last.p);
    } else {
      var front := path[..k - 1];
      var prev := path[k - 2];
      FrontRun(table, minn, maxn, path);
      assert front[k - 2] == prev;
      assert PathLoss(table, path) == PathLoss(table, front) + At(table, last.p);
      if prev in visited {
        assert best[prev] <= PathLoss(table, front);
        var y :| y in heap && y.cell == last && y.loss <= best[prev] + At(table, last.p);
        var j :| 0 <= j < |heap| && heap[j] == y;
      } else {
        Frontier(table, minn, maxn, heap, visited, best, front);
        Consistent(table, minn, maxn, prev, last);
      }
    }
  }

  /** The empty start: nothing visited, both start states waiting. */
  lemma BestStart(table: seq<seq<int>>, minn: nat, maxn: nat, heap: seq<State>)
    requires Valid(table) && 1 <= minn <= maxn && |table| >= 2 && |table[0]| >= 2
    requires heap == [State(table[0][1], |table| + |table[0]| - 3, StartCells(maxn)[0]),
                      State(table[1][0], |table| + |table[0]| - 3, StartCells(maxn)[1])]
    ensures BestInv(table, minn, maxn, heap, {}, map[])
  {
    assert heap[0].cell == StartCells(maxn)[0] && heap[0] in heap;
    assert heap[1].cell == StartCells(maxn)[1] && heap[1] in heap;
    assert BestFacts(table, minn, maxn, heap, {}, map[]);
  }

  /** Removing position `i` keeps every state waiting for a cell other than
      that of `heap[i]`; `more` may then be pushed. */
  lemma QueuedKeep(heap: seq<State>, i: nat, more: seq<State>, t: Cell, bound: int)
    requires i < |heap| && t != heap[i].cell && Queued(heap, t, bound)
    ensures Queued(heap[..i] + heap[i + 1..] + more, t, bound)
  {
    var y :| y in heap && y.cell == t && y.loss <= bound;
    PopCells(heap, i);
    assert y in heap[..i] + heap[i + 1..];
  }

  /** Skipping a popped state whose cell was visited keeps the bookkeeping:
      the states still needed are for unvisited cells. */
  lemma BestSkip(table: seq<seq<int>>, minn: nat, maxn: nat, heap: seq<State>, i: nat, visited: set<Cell>,
                 best: map<Cell, int>)
    requires Valid(table) && 1 <= minn <= maxn && i < |heap|
    requires BestInv(table, minn, maxn, heap, visited, best) && heap[i].cell in visited
    ensures BestInv(table, minn, maxn, heap[..i] + heap[i + 1..], visited, best)
  {
    Unfold(table, minn, maxn, heap, visited, best);
    var rest := heap[..i] + heap[i + 1..];
    forall t, bound | t !in visited && Queued(heap, t, bound) ensures Queued(rest, t, bound) {
      QueuedKeep(heap, i, [], t, bound);
      assert rest + [] == rest;
    }
    assert BestFacts(table, minn, maxn, rest, visited, best);
  }

  /** The states pushed by expanding `s` wait for each of its moves with
      the loss of `s` plus the tile entered. */
  lemma PushedQueued(table: seq<seq<int>>, minn: nat, maxn: nat, s: State, rest: seq<State>)
    requires Valid(table) && 1 <= minn <= maxn && IsDir(s.cell.d)
    ensures forall t :: t in Successors(table, minn, maxn, s.cell) ==>
      IsInside(t.p, table) &&
      Queued(rest + Expand(table, Finish(table), minn, maxn, s), t, s.loss + At(table, t.p))
  {
    var pushed := Expand(table, Finish(table), minn, maxn, s);
    ExpandIsEnter(table, Finish(table), minn, maxn, s);
    EnterEachMembers(table, Finish(table), s, Successors(table, minn, maxn, s.cell));
    forall t | t in Successors(table, minn, maxn, s.cell)
      ensures IsInside(t.p, table) && Queued(rest + pushed, t, s.loss + At(table, t.p))
    {
      var y := Enter(table, Finish(table), s, t);
      assert y in pushed && y in rest + pushed;
    }
  }

  /** With positive tiles, a state of least priority at an unvisited cell
      lost no more than any run to its cell. */
  lemma LeastAtPop(table: seq<seq<int>>, minn: nat, maxn: nat, heap: seq<State>, i: nat, visited: set<Cell>,
                   best: map<Cell, int>)
    requires Valid(table) && 1 <= minn <= maxn && i < |heap| && Positive(table)
    requires HeapOk(table, minn, maxn, heap) && BestFacts(table, minn, maxn, heap, visited, best)
    requires forall j :: 0 <= j < |heap| ==> Priority(heap[i]) <= Priority(heap[j])
    requires heap[i].cell !in visited
    ensures forall path: seq<Cell> :: IsCellPath(table, minn, maxn, path) && path[|path| - 1] == heap[i].cell ==>
      heap[i].loss <= PathLoss(table, path)
  {
    assert heap[i] in heap;
    forall path: seq<Cell> | IsCellPath(table, minn, maxn, path) && path[|path| - 1] == heap[i].cell
      ensures heap[i].loss <= PathLoss(table, path)
    {
      Frontier(table, minn, maxn, heap, visited, best, path);
    }
  }

  /** Popping `heap[i]`, visiting its cell and pushing states `more` that
      wait for each of its moves keeps every visited cell relaxed. */
  lemma RelaxedStep(table: seq<seq<int>>, minn: nat, maxn: nat, heap: seq<State>, i: nat, visited: set<Cell>,
                    best: map<Cell, int>, more: seq<State>)
    requires Valid(table) && 1 <= minn <= maxn && i < |heap| && IsDir(heap[i].cell.d)
    requires best.Keys == visited && Relaxed(table, minn, maxn, heap, visited, best)
    requires forall t :: t in Successors(table, minn, maxn, heap[i].cell) ==>
      IsInside(t.p, table) && Queued(heap[..i] + heap[i + 1..] + more, t, heap[i].loss + At(table, t.p))
    ensures Relaxed(table, minn, maxn, heap[..i] + heap[i + 1..] + more,
      visited + {heap[i].cell}, best[heap[i].cell := heap[i].loss])
  {
    var s := heap[i];
    var next := heap[..i] + heap[i + 1..] + more;
    var visited' := visited + {s.cell};
    var best' := best[s.cell := s.loss];
    forall c, t | c in best' && IsDir(c.d) && t in Successors(table, minn, maxn, c)
      ensures t in visited' || (IsInside(t.p, table) && Queued(next, t, best'[c] + At(table, t.p)))
    {
      if c != s.cell && t !in visited' {
        QueuedKeep(heap, i, more, t, best[c] + At(table, t.p));
      }
    }
  }

  /** The same step keeps every start cell waiting or visited. */
  lemma StartsStep(table: seq<seq<int>>, maxn: nat, heap: seq<State>, i: nat, visited: set<Cell>, more: seq<State>)
    requires Valid(table) && maxn >= 1 && i < |heap|
    requires StartsQueued(table, maxn, heap, visited)
    ensures StartsQueued(table, maxn, heap[..i] + heap[i + 1..] + more, visited + {heap[i].cell})
  {
    forall c | c in StartCells(maxn) && c !in visited + {heap[i].cell}
      ensures IsInside(c.p, table) && Queued(heap[..i] + heap[i + 1..] + more, c, At(table, c.p))
    {
      QueuedKeep(heap, i, more, c, At(table, c.p));
    }
  }

  /** Expanding the popped state `heap[i]`, of least priority and at an
      unvisited cell, records its loss, which with positive tiles is least. */
  lemma BestExpand(table: seq<seq<int>>, minn: nat, maxn: nat, heap: seq<State>, i: nat, visited: set<Cell>,
                   best: map<Cell, int>)
    requires Valid(table) && 1 <= minn <= maxn && i < |heap|
    requires HeapOk(table, minn, maxn, heap) && BestInv(table, minn, maxn, heap, visited, best)
    requires forall j :: 0 <= j < |heap| ==> Priority(heap[i]) <= Priority(heap[j])
    requires heap[i].cell !in visited
    ensures IsDir(heap[i].cell.d)
    ensures BestInv(table, minn, maxn,
      heap[..i] + heap[i + 1..] + Expand(table, Finish(table), minn, maxn, heap[i]),
      visited + {heap[i].cell}, best[heap[i].cell := heap[i].loss])
  {
    Unfold(table, minn, maxn, heap, visited, best);
    var s := heap[i];
    assert s in heap;
    var next := heap[..i] + heap[i + 1..] + Expand(table, Finish(table), minn, maxn, s);
    var best' := best[s.cell := s.loss];
    PushedQueued(table, minn, maxn, s, heap[..i] + heap[i + 1..]);
    RelaxedStep(table, minn, maxn, heap, i, visited, best, Expand(table, Finish(table), minn, maxn, s));
    StartsStep(table, maxn, heap, i, visited, Expand(table, Finish(table), minn, maxn, s));
    if Positive(table) {
      LeastAtPop(table, minn, maxn, heap, i, visited, best);
      assert Optimal(table, minn, maxn, best');
    }
    assert BestFacts(table, minn, maxn, next, visited + {s.cell}, best');
  }

  /** The first state popped at the finish lost no more than any run to the
      finish, when every tile costs at least 1. */
  lemma BestAtFinish(table: seq<seq<int>>, minn: nat, maxn: nat, heap: seq<State>, i: nat, visited: set<Cell>,
                     best: map<Cell, int>)
    requires Valid(table) && 1 <= minn <= maxn && i < |heap| && Positive(table)
    requires SearchInv(table, minn, maxn, heap, visited) && BestInv(table, minn, maxn, heap, visited, best)
    requires forall j :: 0 <= j < |heap| ==> Priority(heap[i]) <= Priority(heap[j])
    requires heap[i].cell.p == Finish(table)
    ensures forall path: seq<Cell> :: IsCellPath(table, minn, maxn, path) && path[|path| - 1].p == Finish(table) ==>
      heap[i].loss <= PathLoss(table, path)
  {
    Unfold(table, minn, maxn, heap, visited, best);
    assert heap[i] in heap;
    forall path: seq<Cell> | IsCellPath(table, minn, maxn, path) && path[|path| - 1].p == Finish(table)
      ensures heap[i].loss <= PathLoss(table, path)
    {
      Frontier(table, minn, maxn, heap, visited, best, path);
    }
  }

  /** `solve`: the loss of the first state popped at the finish. It is the
      loss of a legal run to the finish, and when every tile costs at least
      1 no legal run to the finish loses less. `None` stands for the panics
      of a grid narrower or lower than two tiles and for the
      `unreachable!()` after the heap runs dry, which happens only when no
      legal run reaches the finish. */
  method Solve(table: seq<seq<int>>, minn: nat, maxn: nat) returns (r: Option<int>)
    requires Valid(table) && 1 <= minn <= maxn
    ensures |table| < 2 || |table[0]| < 2 ==> r.None?
    ensures r.Some? ==>
      exists path: seq<Cell> :: IsCellPath(table, minn, maxn, path) &&
        path[|path| - 1].p == Finish(table) && PathLoss(table, path) == r.value
    ensures r.Some? && Positive(table) ==>
      forall path: seq<Cell> :: IsCellPath(table, minn, maxn, path) && path[|path| - 1].p == Finish(table) ==>
        r.value <= PathLoss(table, path)
    ensures r.None? && |table| >= 2 && |table[0]| >= 2 ==>
      forall path: seq<Cell> :: IsCellPath(table, minn, maxn, path) ==> path[|path| - 1].p != Finish(table)
  {
    if |table| < 2 || |table[0]| < 2 {
      return None;
    }
    var finish := Point(|table[0]| - 1, |table| - 1);
    var h := |table| + |table[0]| - 3;
    var heap := [State(table[0][1], h, Cell(Point(1, 0), RIGHT, maxn - 1)),
                 State(table[1][0], h, Cell(Point(0, 1), DOWN, maxn - 1))];
    var visited: set<Cell> := {};
    ghost var best: map<Cell, int> := map[];
    StartsWitnessed(table, minn, maxn, heap);
    BestStart(table, minn, maxn, heap);
    while heap != []
      invariant SearchInv(table, minn, maxn, heap, visited)
      invariant BestInv(table, minn, maxn, heap, visited, best)
      decreases AllCells(table, maxn) - visited, |heap|
    {
      var i := Top(heap);
      var s := heap[i];
      if s.cell in visited {
        SkipVisited(table, minn, maxn, heap, i, visited);
        BestSkip(table, minn, maxn, heap, i, visited, best);
        heap := heap[..i] + heap[i + 1..];
        continue;
      }
      if s.cell.p == finish {
        if Positive(table) {
          BestAtFinish(table, minn, maxn, heap, i, visited, best);
        }
        return Some(s.loss);
      }
      ExpandVisited(table, minn, maxn, heap, i, visited);
      BestExpand(table, minn, maxn, heap, i, visited, best);
      heap := heap[..i] + heap[i + 1..];
      heap := PushMoves(heap, s, table, finish, minn, maxn);
      visited := visited + {s.cell};
      best := best[s.cell := s.loss];
    }
    forall path: seq<Cell> | IsCellPath(table, minn, maxn, path) ensures path[|path| - 1].p != Finish(table) {
      ClosedRuns(table, minn, maxn, visited, path);
    }
    return None;
  }

  /** The pushes of one expansion: straight on when `n > 0`, then both
      turns when `n <= maxn - minn`, each only when it stays inside. */
  method PushMoves(heap: seq<State>, s: State, table: seq<seq<int>>, finish: Point, minn: nat, maxn: nat)
    returns (r: seq<State>)
    requires Valid(table) && IsDir(s.cell.d) && 1 <= minn <= maxn
    ensures r == heap + Expand(table, finish, minn, maxn, s)
  {
    r := heap;
    if s.cell.n > 0 {
      var ns := GetNext(s, table, finish);
      if ns.Some? {
        r := r + [ns.value];
      }
    }
    ghost var straight := r;
    if s.cell.n <= maxn - minn {
      var (s1, s2) := GetRotated(s, table, finish, maxn);
      if s1.Some? {
        r := r + [s1.value];
      }
      if s2.Some? {
        r := r + [s2.value];
      }
    }
    assert straight == heap + (if s.cell.n > 0 then OptionSeq(GetNext(s, table, finish)) else []);
  }

  /** The two starting states are witnessed by one-cell runs. */
  lemma StartsWitnessed(table: seq<seq<int>>, minn: nat, maxn: nat, heap: seq<State>)
    requires Valid(table) && 1 <= minn <= maxn && |table| >= 2 && |table[0]| >= 2
    requires heap == [State(table[0][1], |table| + |table[0]| - 3, StartCells(maxn)[0]),
                      State(table[1][0], |table| + |table[0]| - 3, StartCells(maxn)[1])]
    ensures SearchInv(table, minn, maxn, heap, {})
  {
    forall s | s in heap ensures InCells(table, maxn, s.cell) && Witnessed(table, minn, maxn, s) {
      var path := [s.cell];
      assert IsCellPath(table, minn, maxn, path);
      assert PathLoss(table, path) == At(table, s.cell.p);
    }
    assert heap[0].cell in HeapCells(heap);
    assert heap[1].cell in HeapCells(heap);
  }
}
