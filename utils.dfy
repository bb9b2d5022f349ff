/** `Point` from src/utils.rs: a pair of coordinates with componentwise
    arithmetic. The pure operations (`mul`, `div`, `add`, `sub`, `euclidian`)
    are functions on the datatype; the in-place `imul`, `idiv`, `iadd` and
    `isub`, which take `&mut self`, are methods of the class `PointVar`.
    `Point::new(x, y)` is the datatype constructor `Point(x, y)`. */
module Utils {
  import opened RustStd

  datatype Point = Point(x: int, y: int) {

    /** Both coordinates times the scalar `k`. */
    function Mul(k: int): Point
    {
      Point(x * k, y * k)
    }

    /** Both coordinates divided by `k`, rounding toward zero as Rust does. */
    function Div(k: int): Point
      requires k != 0
    {
      Point(TruncDiv(x, k), TruncDiv(y, k))
    }

    function Add(q: Point): Point
    {
      Point(x + q.x, y + q.y)
    }

    function Sub(q: Point): Point
    {
      Point(x - q.x, y - q.y)
    }

    /** The squared length x*x + y*y. */
    function Euclidian(): (r: int)
      ensures r >= 0
      ensures r == 0 <==> x == 0 && y == 0
    {
      x * x + y * y
    }
  }

  /** Subtracting what was added gives the point back, and adding undoes
      subtracting. */
  lemma AddSubInverse(p: Point, q: Point)
    ensures p.Add(q).Sub(q) == p
    ensures p.Sub(q).Add(q) == p
  {
  }

  lemma AddCommutes(p: Point, q: Point)
    ensures p.Add(q) == q.Add(p)
  {
  }

  /** Scaling distributes over addition. */
  lemma MulDistributes(p: Point, q: Point, k: int)
    ensures p.Add(q).Mul(k) == p.Mul(k).Add(q.Mul(k))
  {
    assert (p.x + q.x) * k == p.x * k + q.x * k;
    assert (p.y + q.y) * k == p.y * k + q.y * k;
  }

  /** Dividing a scaled point by the same nonzero scalar gives it back. */
  lemma MulDivInverse(p: Point, k: int)
    requires k != 0
    ensures p.Mul(k).Div(k) == p
  {
    TruncDivMul(p.x, k);
    TruncDivMul(p.y, k);
  }

  /** A point whose fields are updated in place. */
  class PointVar {
    var x: int
    var y: int

    function Value(): Point
      reads this
    {
      Point(x, y)
    }

    constructor (p: Point)
      ensures Value() == p
    {
      x, y := p.x, p.y;
    }

    /** `imul`: each field times the matching field of `q`. */
    method IMul(q: Point)
      modifies this
      ensures x == old(x) * q.x && y == old(y) * q.y
    {
      x := x * q.x;
      y := y * q.y;
    }

    /** `idiv`: each field divided by the matching field of `q`; Rust panics
        on a zero divisor, so the caller must avoid one. */
    method IDiv(q: Point)
      requires q.x != 0 && q.y != 0
      modifies this
      ensures x == TruncDiv(old(x), q.x) && y == TruncDiv(old(y), q.y)
    {
      x := TruncDiv(x, q.x);
      y := TruncDiv(y, q.y);
    }

    /** `iadd` leaves the point equal to the old point `add` q. */
    method IAdd(q: Point)
      modifies this
      ensures Value() == old(Value()).Add(q)
    {
      x := x + q.x;
      y := y + q.y;
    }

    /** `isub` leaves the point equal to the old point `sub` q. */
    method ISub(q: Point)
      modifies this
      ensures Value() == old(Value()).Sub(q)
    {
      x := x - q.x;
      y := y - q.y;
    }
  }
}
