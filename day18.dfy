/** Day 18, Lavaduct Lagoon: a dig plan of straight trenches, each a
    direction and a length, encloses a lagoon; its size is the shoelace
    area of the corner points plus half the perimeter plus one (Pick's
    theorem). In part two the length and direction come from the
    hexadecimal colour code instead. */
module Day18 {
  import opened RustStd
  import opened Utils

  const LEFT: Point := Point(-1, 0)
  const RIGHT: Point := Point(1, 0)
  const UP: Point := Point(0, -1)
  const DOWN: Point := Point(0, 1)

  predicate IsDir(d: Point)
  {
    d == LEFT || d == RIGHT || d == UP || d == DOWN
  }

  // ---------------------------------------------------------------------
  // Parsing the dig plan

  /** `dir_by_char`: the letters R, D, L, U and the colour digits 0, 1, 2, 3
      in that order; any other character reaches `unreachable!()`, here
      `None`. */
  function DirByChar(c: char): (r: Option<Point>)
    ensures r.Some? <==> c == '0' || c == 'R' || c == '1' || c == 'D' || c == '2' || c == 'L' || c == '3' || c == 'U'
    ensures r.Some? ==> IsDir(r.value)
  {
    match c
    case '0' => Some(RIGHT)
    case 'R' => Some(RIGHT)
    case '1' => Some(DOWN)
    case 'D' => Some(DOWN)
    case '2' => Some(LEFT)
    case 'L' => Some(LEFT)
    case '3' => Some(UP)
    case 'U' => Some(UP)
    case _ => None
  }

  /** The letter of each heading. */
  function Letter(d: Point): char
    requires IsDir(d)
  {
    if d == RIGHT then 'R' else if d == DOWN then 'D' else if d == LEFT then 'L' else 'U'
  }

  /** The colour digit of each heading. */
  function Digit(d: Point): char
    requires IsDir(d)
  {
    if d == RIGHT then '0' else if d == DOWN then '1' else if d == LEFT then '2' else '3'
  }

  /** Both codes of a heading read back as that heading. */
  lemma DirCodes(d: Point)
    requires IsDir(d)
    ensures DirByChar(Letter(d)) == Some(d)
    ensures DirByChar(Digit(d)) == Some(d)
  {
  }

  /** Each heading has one letter and one digit: two characters of the same
      kind naming the same heading are equal. */
  lemma DirByCharInjective(c1: char, c2: char)
    requires DirByChar(c1).Some? && DirByChar(c1) == DirByChar(c2)
    requires ('0' <= c1 <= '3') == ('0' <= c2 <= '3')
    ensures c1 == c2
  {
  }

  /** One line of the plan: a heading, a length and the colour text. */
  datatype Move = Move(d: Point, n: int, color: string)

  /** `Move::new`: "<letter> <length> <colour>". A missing part, an empty
      first part, an unknown letter or a length that is not an `i64` panics,
      here `None`. Parts after the third are ignored. */
  function NewMove(line: string): (r: Option<Move>)
    ensures r.Some? ==> IsDir(r.value.d) && I64_MIN <= r.value.n <= I64_MAX
  {
    var parts := Split(line, " ");
    if |parts[0]| == 0 || |parts| < 3 then None
    else
      match DirByChar(parts[0][0])
      case None => None
      case Some(d) =>
        match ParseSigned(parts[1], I64_MIN, I64_MAX)
        case None => None
        case Some(n) => Some(Move(d, n, parts[2]))
  }

  /** The line `Move::new` reads a move from. */
  function MoveText(m: Move): string
    requires IsDir(m.d) && m.n >= 0
  {
    [Letter(m.d)] + " " + NatToString(m.n) + " " + m.color
  }

  /** The line of a move whose colour has no blank splits into the letter,
      the length and the colour. */
  lemma SplitMoveText(m: Move)
    requires IsDir(m.d) && m.n >= 0 && ' ' !in m.color
    ensures Split(MoveText(m), " ") == [[Letter(m.d)], NatToString(m.n), m.color]
  {
    var num := NatToString(m.n);
    var letter := [Letter(m.d)];
    assert ' ' !in num by {
      assert forall i :: 0 <= i < |num| ==> IsDigit(num[i]);
    }
    var tail := num + " " + m.color;
    assert MoveText(m) == letter + " " + tail by {
      assert (letter + " " + num) + " " + m.color == letter + " " + (num + " " + m.color);
    }
    SplitSingle(m.color, " ");
    SplitCons(num, " ", m.color);
    SplitCons(letter, " ", tail);
  }

  /** `Move::new` reads back the line of a move whose colour has no blank. */
  lemma NewMoveText(m: Move)
    requires IsDir(m.d) && 0 <= m.n <= I64_MAX && ' ' !in m.color
    ensures NewMove(MoveText(m)) == Some(m)
  {
    SplitMoveText(m);
    DirCodes(m.d);
    ParseSignedNatToString(m.n, I64_MIN, I64_MAX);
  }

  /** `Move::colored`: the length is the five hexadecimal digits at
      positions 2 to 6 of the colour, the heading the digit at position 7.
      A colour too short, digits that are not hexadecimal or an unknown
      heading digit panic, here `None`. */
  function Colored(m: Move): (r: Option<Move>)
    ensures r.Some? ==> IsDir(r.value.d) && r.value.color == ""
  {
    if |m.color| < 8 then None
    else
      match ParseHexSigned(m.color[2..7], I64_MIN, I64_MAX)
      case None => None
      case Some(n) =>
        match DirByChar(m.color[7])
        case None => None
        case Some(d) => Some(Move(d, n, ""))
  }

  /** The colour text "(#" + five hex digits + heading digit + ")". */
  function ColorText(n: nat, d: Point): string
    requires IsDir(d)
  {
    "(#" + HexDigits(n, 5) + [Digit(d)] + ")"
  }

  /** The colour of a move reads back as the length and heading written
      into it. */
  lemma ColoredText(m: Move, n: nat, d: Point)
    requires IsDir(d) && n < Pow(16, 5) && m.color == ColorText(n, d)
    ensures Colored(m) == Some(Move(d, n, ""))
  {
    var hex := HexDigits(n, 5);
    assert m.color[2..7] == hex;
    assert m.color[7] == Digit(d);
    HexDigitsValue(n, 5);
    assert hex[0] != '+' && hex[0] != '-' by { assert IsHexDigit(hex[0]); }
    DirCodes(d);
  }

  // ---------------------------------------------------------------------
  // The lagoon

  /** One trench: the heading times the length. */
  function Step(m: Move): Point
  {
    m.d.Mul(m.n)
  }

  /** The corner reached after the first `k` trenches, from (0, 0). */
  function Corner(moves: seq<Move>, k: nat): Point
    requires k <= |moves|
  {
    if k == 0 then Point(0, 0) else Corner(moves, k - 1).Add(Step(moves[k - 1]))
  }

  /** The corner at the start of each trench (`edge` in `solve`). */
  function Corners(moves: seq<Move>): (r: seq<Point>)
    ensures |r| == |moves|
  {
    seq(|moves|, k requires 0 <= k < |moves| => Corner(moves, k))
  }

  function Cross(a: Point, b: Point): int
  {
    a.x * b.y - a.y * b.x
  }

  /** The cross products of the first `k` corners with their successors,
      the last corner paired with the first. */
  function CrossSum(vs: seq<Point>, k: nat): int
    requires k <= |vs|
  {
    if k == 0 then 0 else CrossSum(vs, k - 1) + Cross(vs[k - 1], vs[k % |vs|])
  }

  /** Twice the signed area by the shoelace formula. */
  function Shoelace(vs: seq<Point>): int
  {
    CrossSum(vs, |vs|)
  }

  function Perimeter(moves: seq<Move>): int
  {
    if |moves| == 0 then 0 else Perimeter(moves[..|moves| - 1]) + moves[|moves| - 1].n
  }

  /** The answer `solve` computes: half the absolute shoelace sum, half the
      perimeter rounded toward zero, and one. */
  function Lagoon(moves: seq<Move>): int
  {
    Abs(Shoelace(Corners(moves))) / 2 + TruncDiv(Perimeter(moves), 2) + 1
  }

  /** `solve`: walks the plan collecting the corners, then sums. */
  method Solve(moves: seq<Move>) returns (r: int)
    ensures r == Lagoon(moves)
  {
    var edge: seq<Point> := [];
    var cur := Point(0, 0);
    for i := 0 to |moves|
      invariant edge == Corners(moves)[..i] && cur == Corner(moves, i)
    {
      assert Corners(moves)[..i + 1] == Corners(moves)[..i] + [Corner(moves, i)];
      edge := edge + [cur];
      cur := cur.Add(moves[i].d.Mul(moves[i].n));
    }
    assert edge == Corners(moves);
    var s := Abs(Shoelace(edge)) / 2;
    var total := 0;
    for i := 0 to |moves|
      invariant total == Perimeter(moves[..i])
    {
      assert moves[..i + 1][..i] == moves[..i];
      total := total + moves[i].n;
    }
    assert moves[..|moves|] == moves;
    r := s + TruncDiv(total, 2) + 1;
  }

  // ---------------------------------------------------------------------
  // What the shoelace sum measures

  predicate Closed(moves: seq<Move>)
  {
    Corner(moves, |moves|) == Point(0, 0)
  }

  predicate AxisAligned(moves: seq<Move>)
  {
    forall i :: 0 <= i < |moves| ==> IsDir(moves[i].d)
  }

  /** x times the vertical extent of each of the first `k` trenches. */
  function XDy(moves: seq<Move>, k: nat): int
    requires k <= |moves|
  {
    if k == 0 then 0 else XDy(moves, k - 1) + Corner(moves, k - 1).x * Step(moves[k - 1]).y
  }

  /** y times the horizontal extent of each of the first `k` trenches. */
  function YDx(moves: seq<Move>, k: nat): int
    requires k <= |moves|
  {
    if k == 0 then 0 else YDx(moves, k - 1) + Corner(moves, k - 1).y * Step(moves[k - 1]).x
  }

  /** The cross product of a corner with the next one is x dy - y dx. */
  lemma CrossStep(ax: int, ay: int, wx: int, wy: int)
    ensures ax * (ay + wy) - ay * (ax + wx) == ax * wy - ay * wx
  {
  }

  /** On a closed plan each corner's successor is the corner after the next
      trench, so the shoelace sum is the sum of x dy - y dx. */
  lemma {:induction false} CrossSumSteps(moves: seq<Move>, k: nat)
    requires Closed(moves) && k <= |moves|
    ensures CrossSum(Corners(moves), k) == XDy(moves, k) - YDx(moves, k)
    decreases k
  {
    if k > 0 {
      CrossSumSteps(moves, k - 1);
      var vs := Corners(moves);
      var a := Corner(moves, k - 1);
      var w := Step(moves[k - 1]);
      var j := if k == |vs| then 0 else k;
      WrapIndex(k, |vs|);
      assert vs[j] == a.Add(w);
      assert vs[k - 1] == a;
      CrossStep(a.x, a.y, w.x, w.y);
      assert Cross(vs[k - 1], vs[k % |vs|]) == a.x * w.y - a.y * w.x;
    }
  }

  /** `(i + 1) % len` for `i + 1 <= len`. */
  lemma WrapIndex(k: nat, n: nat)
    requires 0 < k <= n
    ensures k % n == if k == n then 0 else k
  {
  }

  lemma ProductOfSteps(dx: int, dy: int, n: int)
    requires dx == 0 || dy == 0
    ensures (dx * n) * (dy * n) == 0
  {
  }

  lemma Foil(ax: int, ay: int, wx: int, wy: int)
    requires wx * wy == 0
    ensures (ax + wx) * (ay + wy) == ax * ay + ax * wy + ay * wx
  {
    assert (ax + wx) * (ay + wy) == ax * ay + ax * wy + wx * ay + wx * wy;
  }

  /** With only axis-aligned trenches, x y at the current corner equals
      the running sums x dy + y dx. */
  lemma {:induction false} Telescope(moves: seq<Move>, k: nat)
    requires AxisAligned(moves) && k <= |moves|
    ensures XDy(moves, k) + YDx(moves, k) == Corner(moves, k).x * Corner(moves, k).y
    decreases k
  {
    if k > 0 {
      Telescope(moves, k - 1);
      var a := Corner(moves, k - 1);
      var m := moves[k - 1];
      var w := Step(m);
      assert w == Point(m.d.x * m.n, m.d.y * m.n);
      ProductOfSteps(m.d.x, m.d.y, m.n);
      Foil(a.x, a.y, w.x, w.y);
      assert Corner(moves, k) == Point(a.x + w.x, a.y + w.y);
    }
  }

  /** Green's theorem for a closed, axis-aligned dig plan: the shoelace sum
      is twice the sum over the trenches of x times the vertical extent. */
  lemma ShoelaceIsTwiceXDy(moves: seq<Move>)
    requires Closed(moves) && AxisAligned(moves)
    ensures Shoelace(Corners(moves)) == 2 * XDy(moves, |moves|)
  {
    CrossSumSteps(moves, |moves|);
    Telescope(moves, |moves|);
  }

  predicate IsRectangle(moves: seq<Move>, a: nat, b: nat)
  {
    |moves| == 4 &&
    moves[0].d == RIGHT && moves[1].d == DOWN && moves[2].d == LEFT && moves[3].d == UP &&
    moves[0].n == a && moves[1].n == b && moves[2].n == a && moves[3].n == b
  }

  lemma RectangleCorners(moves: seq<Move>, a: nat, b: nat)
    requires IsRectangle(moves, a, b)
    ensures Corners(moves) == [Point(0, 0), Point(a, 0), Point(a, b), Point(0, b)]
  {
    assert Corner(moves, 1) == Point(a, 0);
    assert Corner(moves, 2) == Point(a, b);
    assert Corner(moves, 3) == Point(0, b);
  }

  lemma RectangleCross(vs: seq<Point>, a: nat, b: nat)
    requires vs == [Point(0, 0), Point(a, 0), Point(a, b), Point(0, b)]
    ensures Shoelace(vs) == 2 * (a * b)
  {
    WrapIndex(4, 4);
    assert CrossSum(vs, 1) == 0;
    assert CrossSum(vs, 2) == a * b;
    assert CrossSum(vs, 3) == 2 * (a * b);
    assert Cross(vs[3], vs[0]) == 0;
  }

  lemma RectanglePerimeter(moves: seq<Move>, a: nat, b: nat)
    requires IsRectangle(moves, a, b)
    ensures Perimeter(moves) == 2 * a + 2 * b
  {
    assert Perimeter(moves[..1]) == a by {
      assert moves[..1][..0] == [];
    }
    assert Perimeter(moves[..2]) == a + b by {
      assert moves[..2][..1] == moves[..1];
    }
    assert Perimeter(moves[..3]) == 2 * a + b by {
      assert moves[..3][..2] == moves[..2];
    }
    assert moves[..4 - 1] == moves[..3];
  }

  /** An `a` by `b` rectangle dug clockwise from its top-left corner
      holds `(a + 1) * (b + 1)` cubic metres: the trench counts. */
  lemma Rectangle(moves: seq<Move>, a: nat, b: nat)
    requires IsRectangle(moves, a, b)
    ensures Lagoon(moves) == (a + 1) * (b + 1)
  {
    RectangleCorners(moves, a, b);
    RectangleCross(Corners(moves), a, b);
    RectanglePerimeter(moves, a, b);
    assert (a + 1) * (b + 1) == a * b + a + b + 1;
  }
}
