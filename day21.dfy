/** Day 21 (src/day21.rs): the plots an elf can stand on after exactly `n`
    steps. A step goes to one of the four orthogonal neighbours that is
    allowed: inside the garden and not a rock (`available1`), or not a rock
    in the garden repeated forever in both directions (`available2`, through
    `wrapped`). `count_steps` keeps the set of positions after every step and
    records its size. A field is a vector of rows of characters; the source
    reads `f[0]` for the width and indexes every row by it, so every member
    asks for a non-empty rectangle (`Field`). */
module Day21 {
  import opened RustStd
  import opened Utils

  const LEFT: Point := Point(-1, 0)
  const RIGHT: Point := Point(1, 0)
  const UP: Point := Point(0, -1)
  const DOWN: Point := Point(0, 1)

  /** A garden: at least one row, all rows as long as the first, which is
      not empty. */
  predicate Field(f: seq<seq<char>>)
  {
    |f| > 0 && |f[0]| > 0 && forall y :: 0 <= y < |f| ==> |f[y]| == |f[0]|
  }

  predicate InGrid(f: seq<seq<char>>, p: Point)
    requires Field(f)
  {
    0 <= p.x < |f[0]| && 0 <= p.y < |f|
  }

  /** The number of single steps between `p` and `q`. */
  function Dist(p: Point, q: Point): nat
  {
    Abs(p.x - q.x) + Abs(p.y - q.y)
  }

  /** `nbrs`: up, left, down and right of `p`. */
  function Nbrs(p: Point): (r: seq<Point>)
    ensures |r| == 4
  {
    [p.Add(UP), p.Add(LEFT), p.Add(DOWN), p.Add(RIGHT)]
  }

  /** The elements of `nbrs(p)`, as the `collect` into a set sees them. */
  function NbrSet(p: Point): set<Point>
  {
    {p.Add(UP), p.Add(LEFT), p.Add(DOWN), p.Add(RIGHT)}
  }

  lemma NbrSetIsNbrs(p: Point, q: Point)
    ensures q in NbrSet(p) <==> q in Nbrs(p)
  {
  }

  /** The neighbours are exactly the points one step away. */
  lemma NbrsAreSteps(p: Point, q: Point)
    ensures q in NbrSet(p) <==> Dist(p, q) == 1
  {
    if Dist(p, q) == 1 {
      if q.x == p.x {
        assert q == p.Add(UP) || q == p.Add(DOWN);
      } else {
        assert q == p.Add(LEFT) || q == p.Add(RIGHT);
      }
    }
  }

  /** `available1`: inside the garden and not a rock. */
  predicate Available1(p: Point, f: seq<seq<char>>)
    requires Field(f)
  {
    p.x >= 0 && p.x < |f[0]| && p.y >= 0 && p.y < |f| && f[p.y][p.x] != '#'
  }

  /** Rust's `((a % n) + n) % n` with its truncating `%`; the result is
      the Euclidean remainder. */
  function WrapCoord(a: int, n: int): (r: int)
    requires n > 0
    ensures 0 <= r < n && r == a % n
  {
    TruncRemPositive(a, n);
    var t := TruncRem(a, n);
    TruncRemPositive(t + n, n);
    WrapShift(a, n);
    TruncRem(t + n, n)
  }

  /** Adding `n` to the remainder of either sign leaves a value whose
      remainder is that of `a`. */
  lemma WrapShift(a: int, n: int)
    requires n > 0
    ensures var t := if a >= 0 || a % n == 0 then a % n else a % n - n;
      t + n >= 0 && (t + n) % n == a % n
  {
    var m := a % n;
    if a >= 0 || m == 0 {
      DivModUnique(m + n, n, 1, m);
    } else {
      DivModUnique(m, n, 0, m);
    }
  }

  /** `wrapped`: the character at `p` in the garden repeated in every
      direction. */
  function Wrapped(p: Point, f: seq<seq<char>>): (r: char)
    requires Field(f)
    ensures r == f[p.y % |f|][p.x % |f[0]|]
  {
    var h := |f|;
    var w := |f[0]|;
    var x := WrapCoord(p.x, w);
    var y := WrapCoord(p.y, h);
    f[y][x]
  }

  /** `available2`: not a rock in the repeated garden. */
  predicate Available2(p: Point, f: seq<seq<char>>)
    requires Field(f)
  {
    Wrapped(p, f) != '#'
  }

  /** The two rules `count_steps` is called with. */
  datatype Rule = Bounded | Repeating

  predicate Allowed(rule: Rule, p: Point, f: seq<seq<char>>)
    requires Field(f)
  {
    match rule
    case Bounded => Available1(p, f)
    case Repeating => Available2(p, f)
  }

  // ---------------------------------------------------------------------
  // The steps

  /** One turn of the `for` loop of `count_steps`: all neighbours of the
      current positions that the rule allows, collected into a set. */
  function Step(rule: Rule, f: seq<seq<char>>, s: set<Point>): set<Point>
    requires Field(f)
  {
    set p, q | p in s && q in NbrSet(p) && Allowed(rule, q, f) :: q
  }

  /** The positions after `k` steps from `start`. */
  function Reach(rule: Rule, f: seq<seq<char>>, start: Point, k: nat): set<Point>
    requires Field(f)
  {
    if k == 0 then {start} else Step(rule, f, Reach(rule, f, start, k - 1))
  }

  // ---------------------------------------------------------------------
  // Wrapping

  /** Inside the garden, the repeated garden is the garden. */
  lemma WrappedInGrid(p: Point, f: seq<seq<char>>)
    requires Field(f) && InGrid(f, p)
    ensures Wrapped(p, f) == f[p.y][p.x]
  {
    DivModUnique(p.x, |f[0]|, 0, p.x);
    DivModUnique(p.y, |f|, 0, p.y);
  }

  /** The repeated garden has period `w` across and `h` down. */
  lemma WrappedPeriodic(p: Point, f: seq<seq<char>>, a: int, b: int)
    requires Field(f)
    ensures Wrapped(Point(p.x + a * |f[0]|, p.y + b * |f|), f) == Wrapped(p, f)
  {
    ModShift(p.x, |f[0]|, a);
    ModShift(p.y, |f|, b);
  }

  lemma ModShift(x: int, n: int, a: int)
    requires n > 0
    ensures (x + a * n) % n == x % n
  {
    assert x + a * n == n * (x / n + a) + x % n;
    DivModUnique(x + a * n, n, x / n + a, x % n);
  }

  /** `available1` is `available2` cut down to the garden: both directions. */
  lemma AvailableAgree(p: Point, f: seq<seq<char>>)
    requires Field(f)
    ensures Available1(p, f) <==> InGrid(f, p) && Available2(p, f)
  {
    if InGrid(f, p) {
      WrappedInGrid(p, f);
    }
  }

  // ---------------------------------------------------------------------
  // What a step does

  /** A step reaches exactly the allowed points one step away from a
      current position. */
  lemma StepExactly(rule: Rule, f: seq<seq<char>>, s: set<Point>, q: Point)
    requires Field(f)
    ensures q in Step(rule, f, s) <==> Allowed(rule, q, f) && exists p :: p in s && Dist(p, q) == 1
  {
    if q in Step(rule, f, s) {
      var p :| p in s && q in NbrSet(p) && Allowed(rule, q, f);
      NbrsAreSteps(p, q);
    }
    if Allowed(rule, q, f) && exists p :: p in s && Dist(p, q) == 1 {
      var p :| p in s && Dist(p, q) == 1;
      NbrsAreSteps(p, q);
    }
  }

  /** Every point the bounded rule allows is a plot of the garden. */
  lemma StepInGrid(f: seq<seq<char>>, s: set<Point>)
    requires Field(f)
    ensures Step(Bounded, f, s) <= Cells(|f[0]|, |f|)
  {
    forall q | q in Step(Bounded, f, s)
      ensures q in Cells(|f[0]|, |f|)
    {
      var p :| p in s && q in NbrSet(p) && Allowed(Bounded, q, f);
      CellsHas(|f[0]|, |f|, q);
    }
  }

  /** The bounded rule reaches never more positions than the garden has
      plots. */
  lemma ReachBounded(f: seq<seq<char>>, start: Point, k: nat)
    requires Field(f) && k >= 1
    ensures |Reach(Bounded, f, start, k)| <= |f[0]| * |f|
  {
    StepInGrid(f, Reach(Bounded, f, start, k - 1));
    CellsCard(|f[0]|, |f|);
    SubsetCard(Reach(Bounded, f, start, k), Cells(|f[0]|, |f|));
  }

  /** After `k` steps the elf is at most `k` steps from the start, and an
      odd or even number of steps away as `k` is. */
  lemma {:induction false} ReachDistance(rule: Rule, f: seq<seq<char>>, start: Point, k: nat, q: Point)
    requires Field(f) && q in Reach(rule, f, start, k)
    ensures Dist(start, q) <= k && Even(Dist(start, q) + k)
  {
    if k > 0 {
      var p := StepFrom(rule, f, Reach(rule, f, start, k - 1), q);
      ReachDistance(rule, f, start, k - 1, p);
      DistStep(start, p, q, k);
    }
  }

  /** A point after a step has a neighbour before it. */
  lemma StepFrom(rule: Rule, f: seq<seq<char>>, s: set<Point>, q: Point) returns (p: Point)
    requires Field(f) && q in Step(rule, f, s)
    ensures p in s && Dist(p, q) == 1
  {
    p :| p in s && q in NbrSet(p) && Allowed(rule, q, f);
    NbrsAreSteps(p, q);
  }

  /** One step more changes the distance by one either way. */
  lemma DistStep(s: Point, p: Point, q: Point, k: nat)
    requires Dist(p, q) == 1 && k >= 1 && Dist(s, p) <= k - 1 && Even(Dist(s, p) + (k - 1))
    ensures Dist(s, q) <= k && Even(Dist(s, q) + k)
  {
    assert Dist(s, q) == Dist(s, p) + 1 || Dist(s, q) == Dist(s, p) - 1;
  }

  /** `n` is even, counted down by twos. */
  predicate Even(n: nat)
  {
    n == 0 || (n >= 2 && Even(n - 2))
  }

  lemma {:induction false} EvenIsMod(n: nat)
    ensures Even(n) <==> n % 2 == 0
  {
    if n >= 2 {
      EvenIsMod(n - 2);
      DivModUnique(n, 2, (n - 2) / 2 + 1, (n - 2) % 2);
    }
  }

  /** Whatever the bounded rule reaches, the repeating rule reaches too. */
  lemma {:induction false} ReachBoundedRepeats(f: seq<seq<char>>, start: Point, k: nat)
    requires Field(f)
    ensures Reach(Bounded, f, start, k) <= Reach(Repeating, f, start, k)
  {
    if k > 0 {
      ReachBoundedRepeats(f, start, k - 1);
      StepBoundedRepeats(f, Reach(Bounded, f, start, k - 1), Reach(Repeating, f, start, k - 1));
    }
  }

  lemma StepBoundedRepeats(f: seq<seq<char>>, b: set<Point>, r: set<Point>)
    requires Field(f) && b <= r
    ensures Step(Bounded, f, b) <= Step(Repeating, f, r)
  {
    forall q | q in Step(Bounded, f, b)
      ensures q in Step(Repeating, f, r)
    {
      var p :| p in b && q in NbrSet(p) && Allowed(Bounded, q, f);
      AvailableAgree(q, f);
      StepIntro(Repeating, f, r, p, q);
    }
  }

  lemma StepIntro(rule: Rule, f: seq<seq<char>>, s: set<Point>, p: Point, q: Point)
    requires Field(f) && p in s && q in NbrSet(p) && Allowed(rule, q, f)
    ensures q in Step(rule, f, s)
  {
  }

  // ---------------------------------------------------------------------
  // The plots of a w by h garden

  function Row(w: nat, y: int): set<Point>
  {
    if w == 0 then {} else Row(w - 1, y) + {Point(w - 1, y)}
  }

  function Cells(w: nat, h: nat): set<Point>
  {
    if h == 0 then {} else Cells(w, h - 1) + Row(w, h - 1)
  }

  lemma {:induction false} RowHas(w: nat, y: int, q: Point)
    ensures q in Row(w, y) <==> q.y == y && 0 <= q.x < w
  {
    if w > 0 {
      RowHas(w - 1, y, q);
    }
  }

  lemma {:induction false} CellsHas(w: nat, h: nat, q: Point)
    ensures q in Cells(w, h) <==> 0 <= q.x < w && 0 <= q.y < h
  {
    if h > 0 {
      CellsHas(w, h - 1, q);
      RowHas(w, h - 1, q);
    }
  }

  lemma {:induction false} RowCard(w: nat, y: int)
    ensures |Row(w, y)| == w
  {
    if w > 0 {
      RowCard(w - 1, y);
      RowHas(w - 1, y, Point(w - 1, y));
    }
  }

  lemma {:induction false} CellsCard(w: nat, h: nat)
    ensures |Cells(w, h)| == w * h
  {
    if h > 0 {
      var h' := h - 1;
      CellsCard(w, h');
      RowCard(w, h');
      CellsRowDisjoint(w, h');
      MulSucc(w, h');
    }
  }

  lemma CellsRowDisjoint(w: nat, h: nat)
    ensures Cells(w, h) * Row(w, h) == {}
  {
    forall q | q in Cells(w, h) * Row(w, h)
      ensures false
    {
      CellsHas(w, h, q);
      RowHas(w, h, q);
    }
  }

  lemma MulSucc(w: nat, h: nat)
    ensures w * (h + 1) == w * h + w
  {
  }

  lemma {:induction false} SubsetCard<T>(a: set<T>, b: set<T>)
    requires a <= b
    ensures |a| <= |b|
    decreases |a|
  {
    if a != {} {
      var x :| x in a;
      SubsetCard(a - {x}, b - {x});
    }
  }

  // ---------------------------------------------------------------------
  // The methods

  /** `count_steps`: the sizes of the sets after 1, 2, ..., `n` steps. */
  method CountSteps(f: seq<seq<char>>, start: Point, rule: Rule, n: nat) returns (res: seq<nat>)
    requires Field(f)
    ensures |res| == n
    ensures forall k :: 0 <= k < n ==> res[k] == |Reach(rule, f, start, k + 1)|
  {
    res := [];
    var edge := {start};
    var i := 1;
    while i <= n
      invariant 1 <= i <= n + 1 && |res| == i - 1
      invariant edge == Reach(rule, f, start, i - 1)
      invariant forall k :: 0 <= k < i - 1 ==> res[k] == |Reach(rule, f, start, k + 1)|
    {
      edge := Step(rule, f, edge);
      res := res + [|edge|];
      i := i + 1;
    }
  }

  /** The first 'S' in reading order. */
  predicate IsStart(f: seq<seq<char>>, p: Point)
    requires Field(f)
  {
    InGrid(f, p) && f[p.y][p.x] == 'S' &&
    forall y, x :: 0 <= y < |f| && 0 <= x < |f[0]| && (y < p.y || (y == p.y && x < p.x)) ==> f[y][x] != 'S'
  }

  predicate HasS(f: seq<seq<char>>)
    requires Field(f)
  {
    exists y, x :: 0 <= y < |f| && 0 <= x < |f[0]| && f[y][x] == 'S'
  }

  /** There is at most one first 'S'. */
  lemma StartUnique(f: seq<seq<char>>, p: Point, q: Point)
    requires Field(f) && IsStart(f, p) && IsStart(f, q)
    ensures p == q
  {
  }

  /** `get_start`: the first 'S' row by row; `None` for the
      `unreachable!()` panic when there is none. */
  method GetStart(f: seq<seq<char>>) returns (r: Option<Point>)
    requires Field(f)
    ensures r.Some? ==> IsStart(f, r.value)
    ensures r.None? <==> !HasS(f)
  {
    var y := 0;
    while y < |f|
      invariant 0 <= y <= |f|
      invariant forall y', x :: 0 <= y' < y && 0 <= x < |f[0]| ==> f[y'][x] != 'S'
    {
      var x := 0;
      while x < |f[0]|
        invariant 0 <= x <= |f[0]|
        invariant forall x' :: 0 <= x' < x ==> f[y][x'] != 'S'
      {
        if f[y][x] == 'S' {
          return Some(Point(x, y));
        }
        x := x + 1;
      }
      y := y + 1;
    }
    return None;
  }

  /** `solve1`: the number of plots reachable in exactly `n` steps inside
      the garden from its 'S'. `None` when there is no 'S' or `n` is 0
      (`res[n - 1]` underflows). */
  method Solve1(f: seq<seq<char>>, n: nat) returns (r: Option<nat>)
    requires Field(f)
    ensures r.None? <==> !HasS(f) || n == 0
    ensures r.Some? ==> exists s :: IsStart(f, s) && r.value == |Reach(Bounded, f, s, n)|
    ensures r.Some? ==> r.value <= |f[0]| * |f|
  {
    var s := GetStart(f);
    if s.None? {
      return None;
    }
    var res := CountSteps(f, s.value, Bounded, n);
    if n == 0 {
      return None;
    }
    ReachBounded(f, s.value, n);
    return Some(res[n - 1]);
  }
}
