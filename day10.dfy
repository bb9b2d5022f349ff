/** Pipe Maze (src/day10.rs). A grid of pipe characters holds one 'S'; the
    maze works out which pipe the 'S' stands for, follows the loop through
    it (`collect_cycle`), reports half its length, and counts the cells the
    loop encloses by casting a ray to the right of each cell and counting
    the vertical crossings. */
module Day10 {
  import opened RustStd

  datatype Pos = Pos(x: int, y: int)

  /** The step of direction 0..3: left, up, right, down. */
  function Delta(dir: nat): Pos
    requires dir < 4
  {
    if dir == 0 then Pos(-1, 0) else if dir == 1 then Pos(0, -1) else if dir == 2 then Pos(1, 0) else Pos(0, 1)
  }

  predicate InGrid(p: Pos, size: Pos)
  {
    0 <= p.x < size.x && 0 <= p.y < size.y
  }

  /** `q` is a grid cell next to `p`. */
  predicate Adjacent(p: Pos, q: Pos, size: Pos)
  {
    InGrid(q, size) && Abs(p.x - q.x) + Abs(p.y - q.y) == 1
  }

  /** `get_next`: the neighbour in direction `dir`, `None` when it leaves the
      grid. The source panics on any other direction, and never passes one. */
  function GetNext(p: Pos, dir: nat, size: Pos): (r: Option<Pos>)
    requires dir < 4
    ensures r.None? <==> !InGrid(Pos(p.x + Delta(dir).x, p.y + Delta(dir).y), size)
    ensures r.Some? ==> r.value == Pos(p.x + Delta(dir).x, p.y + Delta(dir).y)
  {
    var np := Pos(p.x + Delta(dir).x, p.y + Delta(dir).y);
    if np.x < 0 || np.x >= size.x || np.y < 0 || np.y >= size.y then None else Some(np)
  }

  /** Stepping back undoes a step: direction `(dir + 2) % 4` is the opposite. */
  lemma OppositeDelta(dir: nat)
    requires dir < 4
    ensures Delta((dir + 2) % 4) == Pos(-Delta(dir).x, -Delta(dir).y)
  {
  }

  // ---------------------------------------------------------------------
  // Pipes

  /** `Pipe::create`: for each pipe character, whether it has an end to the
      left, up, right and down; `None` for a character that is not a pipe
      (the source's `get(..).unwrap()` panics on it). */
  function Ends(c: char): (r: Option<seq<int>>)
    ensures r.Some? ==> |r.value| == 4
    ensures r.Some? <==> c in PipeChars
  {
    if c == '|' then Some([0, 1, 0, 1])
    else if c == '-' then Some([1, 0, 1, 0])
    else if c == 'L' then Some([0, 1, 1, 0])
    else if c == 'J' then Some([1, 1, 0, 0])
    else if c == '7' then Some([1, 0, 0, 1])
    else if c == 'F' then Some([0, 0, 1, 1])
    else if c == '.' then Some([0, 0, 0, 0])
    else None
  }

  const PipeChars: string := "|-LJ7F."

  function EndCount(e: seq<int>): int
    requires |e| == 4
  {
    e[0] + e[1] + e[2] + e[3]
  }

  /** Every pipe but '.' has exactly two ends, each 0 or 1; '.' has none;
      no two pipe characters share their ends. */
  lemma PipeEnds(c: char, d: char)
    requires c in PipeChars && d in PipeChars
    ensures forall i :: 0 <= i < 4 ==> Ends(c).value[i] == 0 || Ends(c).value[i] == 1
    ensures EndCount(Ends(c).value) == if c == '.' then 0 else 2
    ensures Ends(c) == Ends(d) ==> c == d
  {
  }

  /** `Pipe::connected`: this pipe has an end in direction `dir` and the
      other one has an end pointing back. */
  predicate Connected(a: seq<int>, b: seq<int>, dir: nat)
    requires |a| == 4 && |b| == 4 && dir < 4
  {
    a[dir] == 1 && b[(dir + 2) % 4] == 1
  }

  /** Connection is symmetric when seen from the other side. */
  lemma ConnectedSymmetric(a: seq<int>, b: seq<int>, dir: nat)
    requires |a| == 4 && |b| == 4 && dir < 4
    ensures Connected(a, b, dir) == Connected(b, a, (dir + 2) % 4)
  {
    assert ((dir + 2) % 4 + 2) % 4 == dir;
  }

  // ---------------------------------------------------------------------
  // The maze

  datatype Maze = Maze(data: seq<string>, start: Pos, size: Pos, startChar: char)

  /** The position of the first 'S' in row `y` or a later one, in row-major
      order. */
  function FindStart(lines: seq<string>, y: nat): (r: Option<Pos>)
    requires y <= |lines|
    ensures r.Some? ==> y <= r.value.y < |lines| && 0 <= r.value.x < |lines[r.value.y]| && lines[r.value.y][r.value.x] == 'S'
    ensures r.Some? ==> 'S' !in lines[r.value.y][..r.value.x]
    ensures r.Some? ==> forall j :: y <= j < r.value.y ==> 'S' !in lines[j]
    ensures r.None? ==> forall j :: y <= j < |lines| ==> 'S' !in lines[j]
    decreases |lines| - y
  {
    if y == |lines| then None
    else
      match Position(lines[y], 'S')
      case Some(x) =>
        assert 'S' !in lines[y][..x] by {
          forall i | 0 <= i < x ensures lines[y][..x][i] != 'S' { }
        }
        Some(Pos(x, y))
      case None => FindStart(lines, y + 1)
  }

  /** `get_start`: the nested loops returning the first 'S'; no 'S' panics. */
  method GetStart(lines: seq<string>) returns (r: Option<Pos>)
    ensures r == FindStart(lines, 0)
  {
    var y := 0;
    while y < |lines|
      invariant 0 <= y <= |lines|
      invariant FindStart(lines, y) == FindStart(lines, 0)
    {
      var x := 0;
      while x < |lines[y]|
        invariant 0 <= x <= |lines[y]|
        invariant 'S' !in lines[y][..x]
      {
        if lines[y][x] == 'S' {
          assert Position(lines[y], 'S') == Some(x) by {
            PositionIsFirst(lines[y], 'S', x);
          }
          return Some(Pos(x, y));
        }
        assert lines[y][..x + 1] == lines[y][..x] + [lines[y][x]];
        x := x + 1;
      }
      assert lines[y][..x] == lines[y];
      y := y + 1;
    }
    return None;
  }

  lemma PositionIsFirst(s: string, c: char, x: nat)
    requires x < |s| && s[x] == c && c !in s[..x]
    ensures Position(s, c) == Some(x)
  {
    forall j | 0 <= j < x ensures s[j] != c {
      assert s[..x][j] == s[j];
    }
  }

  /** The character a neighbour of 'S' in direction `dir` shows, and the end
      of that pipe pointing back at 'S'; 0 when the neighbour is outside the
      grid. A row too short for the cell, or a character that is not a pipe,
      panics. */
  function BackEnd(lines: seq<string>, start: Pos, size: Pos, dir: nat): (r: Option<int>)
    requires dir < 4
  {
    match GetNext(start, dir, size)
    case None => Some(0)
    case Some(next) =>
      if next.y >= |lines| || next.x >= |lines[next.y]| then None
      else
        match Ends(lines[next.y][next.x])
        case None => None
        case Some(e) => Some(e[(dir + 2) % 4])
  }

  /** The vector `start_ends`. */
  function StartEnds(lines: seq<string>, start: Pos, size: Pos): (r: Option<seq<int>>)
    ensures r.Some? ==> |r.value| == 4 && forall d :: 0 <= d < 4 ==> BackEnd(lines, start, size, d) == Some(r.value[d])
    ensures r.None? ==> exists d :: 0 <= d < 4 && BackEnd(lines, start, size, d).None?
  {
    match (BackEnd(lines, start, size, 0), BackEnd(lines, start, size, 1), BackEnd(lines, start, size, 2), BackEnd(lines, start, size, 3))
    case (Some(a), Some(b), Some(c), Some(d)) => Some([a, b, c, d])
    case _ => None
  }

  /** The pipe character among `chars` whose ends are `e`. */
  function PipeWithEnds(chars: string, e: seq<int>): (r: Option<char>)
    ensures r.Some? ==> r.value in chars && Ends(r.value) == Some(e)
    ensures r.None? ==> forall c :: c in chars ==> Ends(c) != Some(e)
  {
    if |chars| == 0 then None
    else if Ends(chars[0]) == Some(e) then Some(chars[0])
    else PipeWithEnds(chars[1..], e)
  }

  /** `start_char`: the first pipe of the map's iteration whose ends are the
      start's; at most one pipe matches, so the map's order does not matter.
      No match panics on the index. */
  lemma StartCharDetermined(e: seq<int>, c: char)
    requires c in PipeChars && Ends(c) == Some(e)
    ensures PipeWithEnds(PipeChars, e) == Some(c)
  {
    var r := PipeWithEnds(PipeChars, e);
    PipeEnds(r.value, c);
  }

  /** `Maze::new` on the non-empty lines: the start, the size taken from the
      first line and the line count, and the start's pipe. */
  function MazeOf(data: string): (r: Option<Maze>)
    ensures r.Some? ==> FindStart(r.value.data, 0) == Some(r.value.start)
    ensures r.Some? ==> r.value.size == Pos(|r.value.data[0]|, |r.value.data|)
    ensures r.Some? ==> StartEnds(r.value.data, r.value.start, r.value.size) == Ends(r.value.startChar)
  {
    var lines := NonEmpty(Split(data, "\n"));
    match FindStart(lines, 0)
    case None => None
    case Some(start) =>
      var size := Pos(|lines[0]|, |lines|);
      match StartEnds(lines, start, size)
      case None => None
      case Some(e) =>
        match PipeWithEnds(PipeChars, e)
        case None => None
        case Some(c) => Some(Maze(lines, start, size, c))
  }

  /** `get_pipe`: the start's pipe at the start, the grid's pipe elsewhere. */
  function GetPipe(m: Maze, p: Pos): (r: Option<seq<int>>)
    ensures r.Some? ==> |r.value| == 4
  {
    if p == m.start then Ends(m.startChar)
    else if 0 <= p.y < |m.data| && 0 <= p.x < |m.data[p.y]| then Ends(m.data[p.y][p.x])
    else None
  }

  // ---------------------------------------------------------------------
  // Following the loop

  /** What the closure of `filter_map` makes of one direction. */
  datatype Probe = Panic | Skip | Found(p: Pos)

  /** Direction `dir` is taken when the neighbour is in the grid, the pipes
      connect, and the neighbour is not the cell the path just came from. */
  function Candidate(m: Maze, path: seq<Pos>, curEnds: seq<int>, dir: nat): (r: Probe)
    requires |path| > 0 && |curEnds| == 4 && dir < 4
    ensures r.Found? ==> GetNext(path[|path| - 1], dir, m.size) == Some(r.p) && Adjacent(path[|path| - 1], r.p, m.size)
    ensures r.Found? ==> |path| == 1 || path[|path| - 2] != r.p
  {
    match GetNext(path[|path| - 1], dir, m.size)
    case None => Skip
    case Some(next) =>
      match GetPipe(m, next)
      case None => Panic
      case Some(e) =>
        if Connected(curEnds, e, dir) && (|path| == 1 || (|path| > 1 && path[|path| - 2] != next)) then Found(next)
        else Skip
  }

  /** `.next().unwrap()` of the filtered directions `dir..4`: the first one
      taken; none at all panics. */
  function FirstMove(m: Maze, path: seq<Pos>, curEnds: seq<int>, dir: nat): (r: Option<Pos>)
    requires |path| > 0 && |curEnds| == 4 && dir <= 4
    ensures r.Some? ==> Adjacent(path[|path| - 1], r.value, m.size)
    ensures r.Some? ==> |path| == 1 || path[|path| - 2] != r.value
    decreases 4 - dir
  {
    if dir == 4 then None
    else
      match Candidate(m, path, curEnds, dir)
      case Panic => None
      case Found(p) => Some(p)
      case Skip => FirstMove(m, path, curEnds, dir + 1)
  }

  /** One iteration of `collect_cycle`: the position appended to the path. */
  function Move(m: Maze, path: seq<Pos>): (r: Option<Pos>)
    requires |path| > 0
    ensures r.Some? ==> |path| == 1 || path[|path| - 2] != r.value
    ensures r.Some? ==> Adjacent(path[|path| - 1], r.value, m.size)
  {
    match GetPipe(m, path[|path| - 1])
    case None => None
    case Some(e) => var first: nat := 0; FirstMove(m, path, e, first)
  }

  /** `k` iterations of `step` from the path `[s]`; `None` once an iteration
      fails. */
  function Walk(step: seq<Pos> -> Option<Pos>, s: Pos, k: nat): (r: Option<seq<Pos>>)
    ensures r.Some? ==> |r.value| == k + 1 && r.value[0] == s
  {
    if k == 0 then Some([s])
    else
      match Walk(step, s, k - 1)
      case None => None
      case Some(p) =>
        match step(p)
        case None => None
        case Some(next) => Some(p + [next])
  }

  /** `Move` as a step of `Walk`. */
  function MoveOf(m: Maze): seq<Pos> -> Option<Pos>
  {
    p => if |p| == 0 then None else Move(m, p)
  }

  /** The path after `k` iterations, starting from `[start]`; `None` once an
      iteration panics. */
  function WalkPath(m: Maze, k: nat): (r: Option<seq<Pos>>)
    ensures r.Some? ==> |r.value| == k + 1 && r.value[0] == m.start
  {
    Walk(MoveOf(m), m.start, k)
  }

  /** After `k` iterations the path is back at the start. */
  predicate Closed(m: Maze, k: nat)
  {
    k >= 1 && WalkPath(m, k).Some? && WalkPath(m, k).value[k] == m.start
  }

  /** No iteration before the `k`-th panicked or closed the loop. */
  predicate OpenBefore(m: Maze, k: nat)
  {
    forall j :: 1 <= j < k ==> WalkPath(m, j).Some? && WalkPath(m, j).value[j] != m.start
  }

  /** The loop of `collect_cycle` ends at iteration `k`. */
  ghost predicate CycleEnds(m: Maze)
  {
    exists k: nat :: k >= 1 && (WalkPath(m, k).None? || WalkPath(m, k).value[k] == m.start)
  }

  /** Extending the path by one iteration. */
  lemma WalkStep(m: Maze, k: nat, p: seq<Pos>)
    requires WalkPath(m, k) == Some(p)
    ensures WalkPath(m, k + 1) == if Move(m, p).Some? then Some(p + [Move(m, p).value]) else None
  {
    assert Walk(MoveOf(m), m.start, k) == Some(p);
    assert MoveOf(m)(p) == Move(m, p);
  }

  /** No step of `q` goes straight back to the cell before. */
  predicate NoBacktrack(q: seq<Pos>)
  {
    forall i :: 2 <= i < |q| ==> q[i] != q[i - 2]
  }

  /** Each cell of `q` after the first is in the grid and next to the one
      before. */
  predicate Steps(q: seq<Pos>, size: Pos)
  {
    forall i :: 1 <= i < |q| ==> Adjacent(q[i - 1], q[i], size)
  }

  /** A step that goes to a neighbouring grid cell other than the cell the
      path came from. */
  ghost predicate LegalStep(step: seq<Pos> -> Option<Pos>, size: Pos)
  {
    forall p :: |p| > 0 && step(p).Some? ==>
      Adjacent(p[|p| - 1], step(p).value, size) && (|p| == 1 || p[|p| - 2] != step(p).value)
  }

  lemma NoBacktrackSnoc(p: seq<Pos>, next: Pos)
    requires NoBacktrack(p) && |p| > 0 && (|p| == 1 || p[|p| - 2] != next)
    ensures NoBacktrack(p + [next])
  {
    var q := p + [next];
    forall i | 2 <= i < |q| ensures q[i] != q[i - 2] {
      if i < |p| { assert q[i] == p[i] && q[i - 2] == p[i - 2]; }
    }
  }

  lemma StepsSnoc(p: seq<Pos>, next: Pos, size: Pos)
    requires Steps(p, size) && |p| > 0 && Adjacent(p[|p| - 1], next, size)
    ensures Steps(p + [next], size)
  {
    var q := p + [next];
    forall i | 1 <= i < |q| ensures Adjacent(q[i - 1], q[i], size) {
      if i < |p| { assert q[i] == p[i] && q[i - 1] == p[i - 1]; }
    }
  }

  /** A walk of legal steps never steps straight back and moves between
      neighbouring grid cells. */
  lemma {:induction false} WalkLegal(step: seq<Pos> -> Option<Pos>, s: Pos, k: nat, size: Pos)
    requires LegalStep(step, size) && Walk(step, s, k).Some?
    ensures NoBacktrack(Walk(step, s, k).value) && Steps(Walk(step, s, k).value, size)
  {
    if k > 0 {
      var p := Walk(step, s, k - 1).value;
      WalkLegal(step, s, k - 1, size);
      NoBacktrackSnoc(p, step(p).value);
      StepsSnoc(p, step(p).value, size);
    }
  }

  lemma MoveLegal(m: Maze)
    ensures LegalStep(MoveOf(m), m.size)
  {
    forall p | |p| > 0 && MoveOf(m)(p).Some?
      ensures Adjacent(p[|p| - 1], MoveOf(m)(p).value, m.size) && (|p| == 1 || p[|p| - 2] != MoveOf(m)(p).value)
    {
      assert MoveOf(m)(p) == Move(m, p);
    }
  }

  /** The walk never steps straight back to the cell it came from. */
  lemma WalkNoBacktrack(m: Maze, k: nat)
    requires WalkPath(m, k).Some?
    ensures NoBacktrack(WalkPath(m, k).value)
  {
    MoveLegal(m);
    WalkLegal(MoveOf(m), m.start, k, m.size);
  }

  /** Every step of the walk moves to a neighbouring cell of the grid. */
  lemma WalkAdjacent(m: Maze, k: nat)
    requires WalkPath(m, k).Some?
    ensures Steps(WalkPath(m, k).value, m.size)
  {
    MoveLegal(m);
    WalkLegal(MoveOf(m), m.start, k, m.size);
  }

  lemma OpenExtend(m: Maze, n: nat)
    requires OpenBefore(m, n) && WalkPath(m, n).Some? && WalkPath(m, n).value[n] != m.start
    ensures OpenBefore(m, n + 1)
  {
  }

  /** The walk of `n` iterations that first returns to the start is the
      loop `collect_cycle` returns. */
  lemma CycleFound(m: Maze, n: nat, path: seq<Pos>)
    requires n >= 1 && WalkPath(m, n) == Some(path) && OpenBefore(m, n) && path[n] == m.start
    ensures |path| >= 2 && Closed(m, |path| - 1) && OpenBefore(m, |path| - 1)
    ensures WalkPath(m, |path| - 1) == Some(path)
    ensures path[0] == m.start && path[|path| - 1] == m.start
  {
  }

  /** `collect_cycle`: the path from the start around the loop and back to
      the start, which it holds at both ends. The loop runs for ever when the
      walk never comes back, so the caller must know that it ends. */
  method CollectCycle(m: Maze) returns (r: Option<seq<Pos>>)
    requires CycleEnds(m)
    ensures r.Some? ==> |r.value| >= 2 && Closed(m, |r.value| - 1) && OpenBefore(m, |r.value| - 1)
    ensures r.Some? ==> WalkPath(m, |r.value| - 1) == r
    ensures r.Some? ==> r.value[0] == m.start && r.value[|r.value| - 1] == m.start
    ensures r.None? ==> exists k :: k >= 1 && WalkPath(m, k).None? && OpenBefore(m, k)
  {
    ghost var K: nat :| K >= 1 && (WalkPath(m, K).None? || WalkPath(m, K).value[K] == m.start);
    var path := [m.start];
    ghost var n: nat := 0;
    while true
      invariant WalkPath(m, n) == Some(path) && OpenBefore(m, n + 1) && n < K
      decreases K - n
    {
      WalkStep(m, n, path);
      var next := Move(m, path);
      if next.None? {
        WalkStopped(m, n + 1);
        return None;
      }
      path := path + [next.value];
      n := n + 1;
      if next.value == m.start {
        CycleFound(m, n, path);
        return Some(path);
      }
      StillOpen(m, n, K);
    }
  }

  /** The walk panics at iteration `k`, with no earlier iteration back at
      the start. */
  lemma WalkStopped(m: Maze, k: nat)
    requires k >= 1 && WalkPath(m, k).None? && OpenBefore(m, k)
    ensures exists k :: k >= 1 && WalkPath(m, k).None? && OpenBefore(m, k)
  {
  }

  /** A walk that has not come back at iteration `n` is open through it,
      and has not reached an iteration `K` where the loop ends. */
  lemma StillOpen(m: Maze, n: nat, K: nat)
    requires OpenBefore(m, n) && WalkPath(m, n).Some? && WalkPath(m, n).value[n] != m.start
    requires K >= 1 && (WalkPath(m, K).None? || WalkPath(m, K).value[K] == m.start)
    ensures OpenBefore(m, n + 1) && n < K
  {
    OpenExtend(m, n);
  }

  /** `solve1`: the farthest point of the loop is half its length away. */
  function Solve1(path: seq<Pos>): (r: nat)
    requires |path| >= 1
    ensures 2 * r <= |path| - 1 < 2 * r + 2
  {
    (|path| - 1) / 2
  }

  // ---------------------------------------------------------------------
  // Counting enclosed cells

  /** The character `cast_ray` sees at `np`: the start's pipe at the start, the
      grid's character at a loop cell, '.' elsewhere; `None` when a loop cell
      lies outside its row (an index panic). */
  function RayChar(m: Maze, np: Pos, path: set<Pos>): Option<char>
  {
    if np == m.start then Some(m.startChar)
    else if np in path then
      if 0 <= np.y < |m.data| && 0 <= np.x < |m.data[np.y]| then Some(m.data[np.y][np.x]) else None
    else Some('.')
  }

  predicate Crossing(c: char)
  {
    c == '|' || c == 'J' || c == 'L'
  }

  /** The crossings at `x..size.x` on the row of `p`. */
  function RayFrom(m: Maze, p: Pos, path: set<Pos>, x: int): (r: Option<nat>)
    ensures r.Some? ==> r.value <= if x < m.size.x then m.size.x - x else 0
    decreases m.size.x - x
  {
    if x >= m.size.x then Some(0)
    else
      match (RayChar(m, Pos(x, p.y), path), RayFrom(m, p, path, x + 1))
      case (Some(c), Some(n)) => Some(if Crossing(c) then n + 1 else n)
      case _ => None
  }

  /** Only loop cells (or the start) can be crossings: a row without any to
      the right of `p` has no crossings. */
  lemma {:induction false} RayWithoutLoop(m: Maze, p: Pos, path: set<Pos>, x: int)
    requires forall q :: q in path ==> q.y != p.y || q.x < x
    requires m.start.y != p.y || m.start.x < x
    ensures RayFrom(m, p, path, x) == Some(0)
    decreases m.size.x - x
  {
    if x < m.size.x {
      RayWithoutLoop(m, p, path, x + 1);
    }
  }

  /** `cast_ray`: counts the '|', 'J' and 'L' loop cells strictly to the
      right of `p`. */
  method CastRay(m: Maze, p: Pos, path: set<Pos>) returns (r: Option<nat>)
    ensures r == RayFrom(m, p, path, p.x + 1)
  {
    var count: nat := 0;
    var x := p.x + 1;
    while x < m.size.x
      invariant p.x + 1 <= x || m.size.x <= p.x + 1
      invariant RayFrom(m, p, path, p.x + 1) == (match RayFrom(m, p, path, x) case None => None case Some(n) => Some(n + count))
      decreases m.size.x - x
    {
      var c := RayChar(m, Pos(x, p.y), path);
      if c.None? {
        RayNone(m, p, path, p.x + 1, x);
        return None;
      }
      if Crossing(c.value) {
        count := count + 1;
      }
      x := x + 1;
    }
    r := Some(count);
  }

  /** A panic in the ray at `x` is a panic of the ray from any earlier start. */
  lemma {:induction false} RayNone(m: Maze, p: Pos, path: set<Pos>, from: int, x: int)
    requires from <= x < m.size.x && RayChar(m, Pos(x, p.y), path).None?
    ensures RayFrom(m, p, path, from).None?
    decreases x - from
  {
    if from < x {
      RayNone(m, p, path, from + 1, x);
    }
  }

  /** A cell is enclosed when it is not on the loop and its ray crosses the
      loop an odd number of times. */
  function Inside(m: Maze, p: Pos, path: set<Pos>): Option<bool>
  {
    if p in path then Some(false)
    else
      match RayFrom(m, p, path, p.x + 1)
      case None => None
      case Some(n) => Some(n % 2 == 1)
  }

  /** The enclosed cells among the first `x` cells of row `y`. */
  function InsideRow(m: Maze, path: set<Pos>, y: nat, x: nat): (r: Option<nat>)
    requires y < |m.data| && x <= |m.data[y]|
    ensures r.Some? ==> r.value <= x
  {
    if x == 0 then Some(0)
    else
      match (InsideRow(m, path, y, x - 1), Inside(m, Pos(x - 1, y), path))
      case (Some(n), Some(b)) => Some(if b then n + 1 else n)
      case _ => None
  }

  /** The enclosed cells in the first `y` rows. */
  function InsideRows(m: Maze, path: set<Pos>, y: nat): (r: Option<nat>)
    requires y <= |m.data|
  {
    if y == 0 then Some(0)
    else
      match (InsideRows(m, path, y - 1), InsideRow(m, path, y - 1, |m.data[y - 1]|))
      case (Some(a), Some(b)) => Some(a + b)
      case _ => None
  }

  /** `solve2`: the nested loops over every cell of the grid, counting the
      enclosed ones. */
  method Solve2(m: Maze, path: seq<Pos>) returns (r: Option<nat>)
    ensures r == InsideRows(m, set q | q in path, |m.data|)
  {
    var points := set q | q in path;
    var res: nat := 0;
    var y := 0;
    while y < |m.data|
      invariant 0 <= y <= |m.data|
      invariant InsideRows(m, points, y) == Some(res)
    {
      var row := CountRow(m, points, y);
      if row.None? {
        RowsNone(m, points, y + 1, |m.data|);
        return None;
      }
      res := res + row.value;
      y := y + 1;
    }
    r := Some(res);
  }

  /** The inner loop of `solve2` over the cells of row `y`. */
  method CountRow(m: Maze, points: set<Pos>, y: nat) returns (r: Option<nat>)
    requires y < |m.data|
    ensures r == InsideRow(m, points, y, |m.data[y]|)
  {
    var x := 0;
    var row: nat := 0;
    while x < |m.data[y]|
      invariant 0 <= x <= |m.data[y]|
      invariant InsideRow(m, points, y, x) == Some(row)
    {
      var cur := Pos(x, y);
      if cur !in points {
        var n := CastRay(m, cur, points);
        if n.None? {
          RowNone(m, points, y, x + 1, |m.data[y]|);
          return None;
        }
        if n.value % 2 == 1 {
          row := row + 1;
        }
      }
      x := x + 1;
    }
    r := Some(row);
  }

  lemma {:induction false} RowNone(m: Maze, path: set<Pos>, y: nat, x: nat, x': nat)
    requires y < |m.data| && 1 <= x <= x' <= |m.data[y]| && InsideRow(m, path, y, x).None?
    ensures InsideRow(m, path, y, x').None?
    decreases x' - x
  {
    if x < x' {
      RowNone(m, path, y, x + 1, x');
    }
  }

  lemma {:induction false} RowsNone(m: Maze, path: set<Pos>, y: nat, y': nat)
    requires 1 <= y <= y' <= |m.data| && InsideRow(m, path, y - 1, |m.data[y - 1]|).None?
    ensures InsideRows(m, path, y').None?
    decreases y' - y
  {
    RowsNoneFrom(m, path, y, y');
  }

  lemma {:induction false} RowsNoneFrom(m: Maze, path: set<Pos>, y: nat, y': nat)
    requires 1 <= y <= y' <= |m.data| && InsideRows(m, path, y).None?
    ensures InsideRows(m, path, y').None?
    decreases y' - y
  {
    if y < y' {
      RowsNoneFrom(m, path, y + 1, y');
    }
  }
}
