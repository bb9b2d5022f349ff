/** Day 22: sand bricks. Each brick is a box of unit cubes between two
    corners `p1` and `p2`. Bricks are dropped one at a time, in ascending
    order of their lowest z, until they rest on the ground (z = 1) or on a
    cube recorded in the occupancy map `h`, which maps each occupied cube
    to the id of its brick. Then every brick records the ids of the bricks
    directly above and directly below it. Part 1 counts the bricks that can
    be removed without anything falling; part 2 adds up, over all bricks,
    how many other bricks would fall if that one were removed. */
module Day22 {
  import opened RustStd

  /** A cube position; the coordinates are `u32` in the source. */
  datatype Pos = Pos(x: nat, y: nat, z: nat)

  /** The two corners of a brick, without its above/below sets. */
  datatype Shape = Shape(p1: Pos, p2: Pos)

  // ---------------------------------------------------------------------
  // Parsing (`Pos::new`, `Brick::new`)

  /** `Pos::new`: the first three numbers of the iterator; the map is lazy,
      so words after the third are neither parsed nor checked. */
  function ParsePos(s: string): (r: Option<Pos>)
  {
    var words := Split(s, ",");
    if |words| < 3 then None
    else
      var x, y, z := ParseUnsigned(words[0], U32_MAX), ParseUnsigned(words[1], U32_MAX), ParseUnsigned(words[2], U32_MAX);
      if x.None? || y.None? || z.None? then None
      else Some(Pos(x.value, y.value, z.value))
  }

  /** `Brick::new`: the text before the first '~' and the text after it. */
  function ParseBrick(s: string): (r: Option<Shape>)
  {
    var parts := Split(s, "~");
    if |parts| < 2 then None
    else
      var a, b := ParsePos(parts[0]), ParsePos(parts[1]);
      if a.None? || b.None? then None
      else Some(Shape(a.value, b.value))
  }

  /** All the lines of the puzzle input as bricks, or a panic. */
  function ParseBricks(lines: seq<string>): (r: Option<seq<Shape>>)
    ensures r.Some? <==> forall i :: 0 <= i < |lines| ==> ParseBrick(lines[i]).Some?
    ensures r.Some? ==> |r.value| == |lines| && forall i :: 0 <= i < |lines| ==> ParseBrick(lines[i]) == Some(r.value[i])
  {
    CollectAll(lines, ParseBrick)
  }

  function PosText(p: Pos): string
  {
    Join([NatToString(p.x), NatToString(p.y), NatToString(p.z)], ",")
  }

  /** The input line of a brick, `x,y,z~x,y,z`. */
  function ShapeText(b: Shape): string
  {
    Join([PosText(b.p1), PosText(b.p2)], "~")
  }

  predicate InU32(p: Pos)
  {
    p.x <= U32_MAX && p.y <= U32_MAX && p.z <= U32_MAX
  }

  lemma DigitsAvoid(n: nat, c: char)
    requires !IsDigit(c)
    ensures c !in NatToString(n)
  {
  }

  lemma ParsePosText(p: Pos)
    requires InU32(p)
    ensures ParsePos(PosText(p)) == Some(p)
    ensures '~' !in PosText(p)
  {
    var ws := [NatToString(p.x), NatToString(p.y), NatToString(p.z)];
    DigitsAvoid(p.x, ','); DigitsAvoid(p.y, ','); DigitsAvoid(p.z, ',');
    DigitsAvoid(p.x, '~'); DigitsAvoid(p.y, '~'); DigitsAvoid(p.z, '~');
    SplitJoin(ws, ",");
    JoinAvoids(ws, ",", '~');
    ParseNatToString(p.x, U32_MAX);
    ParseNatToString(p.y, U32_MAX);
    ParseNatToString(p.z, U32_MAX);
  }

  /** Reading back the text of a brick whose coordinates fit in `u32`
      gives the brick. */
  lemma ParseShapeText(b: Shape)
    requires InU32(b.p1) && InU32(b.p2)
    ensures ParseBrick(ShapeText(b)) == Some(b)
  {
    ParsePosText(b.p1);
    ParsePosText(b.p2);
    SplitJoin([PosText(b.p1), PosText(b.p2)], "~");
  }

  // ---------------------------------------------------------------------
  // Cubes and the occupancy map

  /** The cubes with x in [x1, x2], y in [y1, y2] and z in [z1, z2]; a
      range whose start is past its end (`p1.x..=p2.x` with p1.x > p2.x)
      is empty. */
  function Box(x1: int, x2: int, y1: int, y2: int, z1: int, z2: int): set<Pos>
  {
    set x: nat, y: nat, z: nat | x1 <= x <= x2 && y1 <= y <= y2 && z1 <= z <= z2 :: Pos(x, y, z)
  }

  lemma BoxHas(x1: int, x2: int, y1: int, y2: int, z1: int, z2: int, c: Pos)
    ensures c in Box(x1, x2, y1, y2, z1, z2) <==> x1 <= c.x <= x2 && y1 <= c.y <= y2 && z1 <= c.z <= z2
  {
    if x1 <= c.x <= x2 && y1 <= c.y <= y2 && z1 <= c.z <= z2 {
      assert c == Pos(c.x, c.y, c.z);
    }
  }

  /** The cubes of a brick. */
  function Cells(p1: Pos, p2: Pos): set<Pos>
  {
    Box(p1.x, p2.x, p1.y, p2.y, p1.z, p2.z)
  }

  /** The loops over `p1.x..=p2.x` and so on cover the brick from one
      corner to the other exactly when p1 <= p2 in every coordinate; in
      any other case they record no cube at all. */
  lemma CellsCorners(p1: Pos, p2: Pos)
    ensures p1.x <= p2.x && p1.y <= p2.y && p1.z <= p2.z ==> p1 in Cells(p1, p2) && p2 in Cells(p1, p2)
    ensures !(p1.x <= p2.x && p1.y <= p2.y && p1.z <= p2.z) ==> Cells(p1, p2) == {}
  {
    BoxHas(p1.x, p2.x, p1.y, p2.y, p1.z, p2.z, p1);
    BoxHas(p1.x, p2.x, p1.y, p2.y, p1.z, p2.z, p2);
    if !(p1.x <= p2.x && p1.y <= p2.y && p1.z <= p2.z) {
      forall c | c in Cells(p1, p2) ensures false {
        BoxHas(p1.x, p2.x, p1.y, p2.y, p1.z, p2.z, c);
      }
    }
  }

  /** `h` after `h.insert(c, id)` for every cube `c` of `cells`. */
  function Record(h: map<Pos, nat>, cells: set<Pos>, id: nat): (r: map<Pos, nat>)
  {
    map c | c in h.Keys + cells :: if c in cells then id else h[c]
  }

  lemma RecordHas(h: map<Pos, nat>, cells: set<Pos>, id: nat, c: Pos)
    ensures c in Record(h, cells, id) <==> c in h || c in cells
    ensures c in cells ==> Record(h, cells, id)[c] == id
    ensures c !in cells && c in h ==> Record(h, cells, id)[c] == h[c]
  {
  }

  lemma RecordMore(h: map<Pos, nat>, a: set<Pos>, b: set<Pos>, id: nat)
    ensures Record(Record(h, a, id), b, id) == Record(h, a + b, id)
  {
  }

  lemma RecordOne(h: map<Pos, nat>, a: set<Pos>, c: Pos, id: nat)
    ensures Record(h, a, id)[c := id] == Record(h, a + {c}, id)
  {
  }

  /** Some cube under the footprint [x1, x2] x [y1, y2] at height z is
      occupied. */
  ghost predicate Occupied(x1: int, x2: int, y1: int, y2: int, z: nat, h: map<Pos, nat>)
  {
    exists x: nat, y: nat :: x1 <= x <= x2 && y1 <= y <= y2 && Pos(x, y, z) in h
  }

  /** The ids of the bricks occupying the footprint at height z. */
  function IdsAt(x1: int, x2: int, y1: int, y2: int, z: nat, h: map<Pos, nat>): set<nat>
  {
    set x: nat, y: nat | x1 <= x <= x2 && y1 <= y <= y2 && Pos(x, y, z) in h :: h[Pos(x, y, z)]
  }

  /** A footprint is occupied at a height exactly when some brick id is
      found there. */
  lemma OccupiedIds(x1: int, x2: int, y1: int, y2: int, z: nat, h: map<Pos, nat>)
    ensures Occupied(x1, x2, y1, y2, z, h) <==> IdsAt(x1, x2, y1, y2, z, h) != {}
  {
    if Occupied(x1, x2, y1, y2, z, h) {
      var x: nat, y: nat :| x1 <= x <= x2 && y1 <= y <= y2 && Pos(x, y, z) in h;
      assert h[Pos(x, y, z)] in IdsAt(x1, x2, y1, y2, z, h);
    }
  }

  /** The ids of the bricks just above the top of a brick (`above_ids`). */
  function Above(b: Shape, h: map<Pos, nat>): set<nat>
  {
    IdsAt(b.p1.x, b.p2.x, b.p1.y, b.p2.y, b.p2.z + 1, h)
  }

  /** The ids of the bricks just under the bottom of a brick
      (`below_ids`); `p1.z - 1` must not underflow. */
  function Below(b: Shape, h: map<Pos, nat>): set<nat>
    requires b.p1.z >= 1
  {
    IdsAt(b.p1.x, b.p2.x, b.p1.y, b.p2.y, b.p1.z - 1, h)
  }

  // ---------------------------------------------------------------------
  // Dropping

  /** The height at which the bottom of a brick with footprint
      [x1, x2] x [y1, y2] comes to rest when it starts at height z: it
      moves down while it is above the ground and the cubes under its
      footprint are free. */
  ghost function Rest(x1: int, x2: int, y1: int, y2: int, z: nat, h: map<Pos, nat>): nat
    decreases z
  {
    if z > 1 && !Occupied(x1, x2, y1, y2, z - 1, h) then Rest(x1, x2, y1, y2, z - 1, h) else z
  }

  /** A brick comes to rest on the ground or on an occupied cube. */
  lemma {:induction false} RestStops(x1: int, x2: int, y1: int, y2: int, z: nat, h: map<Pos, nat>)
    ensures var r := Rest(x1, x2, y1, y2, z, h); r <= 1 || Occupied(x1, x2, y1, y2, r - 1, h)
    decreases z
  {
    if z > 1 && !Occupied(x1, x2, y1, y2, z - 1, h) {
      RestStops(x1, x2, y1, y2, z - 1, h);
    }
  }

  /** Every level the brick passes on its way down is free, so it stops
      at the first occupied one; and it never moves up, nor below 1. */
  lemma {:induction false} RestFalls(x1: int, x2: int, y1: int, y2: int, z: nat, h: map<Pos, nat>)
    ensures var r := Rest(x1, x2, y1, y2, z, h); r <= z && (z >= 1 ==> r >= 1)
    ensures forall k: nat :: Rest(x1, x2, y1, y2, z, h) <= k < z ==> !Occupied(x1, x2, y1, y2, k, h)
    decreases z
  {
    if z > 1 && !Occupied(x1, x2, y1, y2, z - 1, h) {
      RestFalls(x1, x2, y1, y2, z - 1, h);
    }
  }

  /** The brick after `drop` on the map `h`: both z values lowered by the
      same amount, x and y untouched. */
  ghost function Dropped(b: Shape, h: map<Pos, nat>): Shape
    requires b.p1.z <= b.p2.z + 1
  {
    var r := Rest(b.p1.x, b.p2.x, b.p1.y, b.p2.y, b.p1.z, h);
    RestFalls(b.p1.x, b.p2.x, b.p1.y, b.p2.y, b.p1.z, h);
    Shape(b.p1.(z := r), b.p2.(z := b.p2.z + r - b.p1.z))
  }

  // ---------------------------------------------------------------------
  // The brick

  class Brick {
    var p1: Pos
    var p2: Pos
    var above: set<nat>
    var below: set<nat>

    function Corners(): Shape
      reads this
    {
      Shape(p1, p2)
    }

    constructor (s: Shape)
      ensures p1 == s.p1 && p2 == s.p2 && above == {} && below == {}
    {
      p1, p2 := s.p1, s.p2;
      above, below := {}, {};
    }

    /** `prepare`: records the ids above and below the brick. */
    method Prepare(h: map<Pos, nat>)
      requires p1.z >= 1
      modifies this
      ensures p1 == old(p1) && p2 == old(p2)
      ensures above == Above(Corners(), h) && below == Below(Corners(), h)
    {
      above := AboveIds(h);
      below := BelowIds(h);
    }

    /** `above_ids`: the ids recorded just above the top of the brick. */
    method AboveIds(h: map<Pos, nat>) returns (res: set<nat>)
      ensures res == Above(Corners(), h)
    {
      res := CollectIds(h, p1.x, p2.x, p1.y, p2.y, p2.z + 1);
    }

    /** `below_ids`: the ids recorded just under the bottom of the brick. */
    method BelowIds(h: map<Pos, nat>) returns (res: set<nat>)
      requires p1.z >= 1
      ensures res == Below(Corners(), h)
    {
      res := CollectIds(h, p1.x, p2.x, p1.y, p2.y, p1.z - 1);
    }

    /** `can_be_desintegrated`: every brick resting on this one has another
        brick under it as well (it short-circuits at the first brick that
        has only one). The precondition is the map lookup that unwraps. */
    method CanBeDesintegrated(bricks: seq<Brick>, h: map<Pos, nat>) returns (r: bool)
      requires forall j :: j in above ==> j < |bricks| && bricks[j].p1.z >= 1
      ensures r <==> forall j :: j in above ==> |Below(bricks[j].Corners(), h)| > 1
    {
      var rest := above;
      while rest != {}
        invariant rest <= above
        invariant forall j :: j in above - rest ==> |Below(bricks[j].Corners(), h)| > 1
        decreases |rest|
      {
        var j :| j in rest;
        var ids := bricks[j].BelowIds(h);
        if |ids| <= 1 {
          return false;
        }
        rest := rest - {j};
      }
      return true;
    }

    /** `drop`: lowers the brick while it is above the ground and the
        cubes under it are free, then records its cubes in `h` under `id`.
        The precondition keeps `p2.z -= 1` from underflowing. */
    method Drop(h0: map<Pos, nat>, id: nat) returns (h: map<Pos, nat>)
      requires p1.z <= p2.z + 1
      modifies this
      ensures Corners() == Dropped(old(Corners()), h0)
      ensures above == old(above) && below == old(below)
      ensures h == Record(h0, Cells(p1, p2), id)
    {
      ghost var z0 := p1.z;
      ghost var x1, x2, y1, y2 := p1.x, p2.x, p1.y, p2.y;
      while p1.z > 1
        invariant p1.z <= p2.z + 1 && p2.z + z0 == old(p2.z) + p1.z
        invariant p1 == old(p1).(z := p1.z) && p2 == old(p2).(z := p2.z)
        invariant above == old(above) && below == old(below)
        invariant Rest(x1, x2, y1, y2, p1.z, h0) == Rest(x1, x2, y1, y2, z0, h0)
        decreases p1.z
      {
        var stop := AnyOccupied(h0, p1.x, p2.x, p1.y, p2.y, p1.z - 1);
        if stop { break; }
        p1 := p1.(z := p1.z - 1);
        p2 := p2.(z := p2.z - 1);
      }
      h := FillBox(h0, p1.x, p2.x, p1.y, p2.y, p1.z, p2.z, id);
    }
  }

  /** The nested loops of `drop` that look for an occupied cube under the
      footprint, stopping at the first one. */
  method AnyOccupied(h: map<Pos, nat>, x1: nat, x2: nat, y1: nat, y2: nat, z: nat) returns (stop: bool)
    ensures stop == Occupied(x1, x2, y1, y2, z, h)
  {
    stop := false;
    var x := x1;
    while x <= x2
      invariant x1 <= x <= x2 + 1 || (x == x1 && x1 > x2)
      invariant !Occupied(x1, x - 1, y1, y2, z, h)
      decreases x2 + 1 - x
    {
      var y := y1;
      while y <= y2
        invariant y1 <= y <= y2 + 1 || (y == y1 && y1 > y2)
        invariant forall y': nat :: y1 <= y' < y ==> Pos(x, y', z) !in h
        decreases y2 + 1 - y
      {
        if Pos(x, y, z) in h {
          stop := true;
          return;
        }
        y := y + 1;
      }
      x := x + 1;
    }
  }

  predicate InBox(c: Pos, x1: int, x2: int, y1: int, y2: int, z1: int, z2: int)
  {
    x1 <= c.x <= x2 && y1 <= c.y <= y2 && z1 <= c.z <= z2
  }

  /** `h` is `h0` with every cube of the box inserted under `id`, stated
      cube by cube (kept folded behind `Open`). */
  ghost predicate Filled(h: map<Pos, nat>, h0: map<Pos, nat>, x1: int, x2: int, y1: int, y2: int, z1: int, z2: int, id: nat)
  {
    forall k: nat :: Open(k) ==> FilledCubes(h, h0, x1, x2, y1, y2, z1, z2, id)
  }

  ghost predicate FilledCubes(h: map<Pos, nat>, h0: map<Pos, nat>, x1: int, x2: int, y1: int, y2: int, z1: int, z2: int, id: nat)
  {
    && (forall c :: c in h <==> c in h0 || InBox(c, x1, x2, y1, y2, z1, z2))
    && (forall c :: c in h && InBox(c, x1, x2, y1, y2, z1, z2) ==> h[c] == id)
    && (forall c :: c in h && !InBox(c, x1, x2, y1, y2, z1, z2) ==> h[c] == h0[c])
  }

  lemma FilledNothing(h0: map<Pos, nat>, x1: int, x2: int, y1: int, y2: int, z1: int, z2: int, id: nat)
    requires x1 > x2 || y1 > y2 || z1 > z2
    ensures Filled(h0, h0, x1, x2, y1, y2, z1, z2, id)
  {
  }

  lemma FilledOne(h: map<Pos, nat>, h0: map<Pos, nat>, x: nat, y: nat, z1: int, z: nat, id: nat)
    requires z1 <= z
    requires Filled(h, h0, x, x, y, y, z1, z - 1, id)
    ensures Filled(h[Pos(x, y, z) := id], h0, x, x, y, y, z1, z, id)
  {
    assert Open(0);
  }

  lemma FilledEmpty(h: map<Pos, nat>, h0: map<Pos, nat>, x1: int, x2: int, y1: int, y2: int, z1: int, z2: int, id: nat)
    requires x1 > x2 && Filled(h, h0, x1, x1 - 1, y1, y2, z1, z2, id)
    ensures Filled(h, h0, x1, x2, y1, y2, z1, z2, id)
  {
    assert Open(0);
  }

  lemma FilledIsRecord(h: map<Pos, nat>, h0: map<Pos, nat>, x1: int, x2: int, y1: int, y2: int, z1: int, z2: int, id: nat)
    requires Filled(h, h0, x1, x2, y1, y2, z1, z2, id)
    ensures h == Record(h0, Box(x1, x2, y1, y2, z1, z2), id)
  {
    assert Open(0);
    var r := Record(h0, Box(x1, x2, y1, y2, z1, z2), id);
    forall c ensures (c in h <==> c in r) && (c in h ==> h[c] == r[c]) {
      BoxHas(x1, x2, y1, y2, z1, z2, c);
    }
  }

  lemma FilledAfterY(h2: map<Pos, nat>, h1: map<Pos, nat>, h0: map<Pos, nat>, x: int, y1: int, y: int, z1: int, z2: int, id: nat)
    requires y1 <= y
    requires Filled(h1, h0, x, x, y1, y - 1, z1, z2, id) && Filled(h2, h1, x, x, y, y, z1, z2, id)
    ensures Filled(h2, h0, x, x, y1, y, z1, z2, id)
  {
    assert Open(0);
    forall c ensures (c in h2 <==> c in h0 || InBox(c, x, x, y1, y, z1, z2))
      && (c in h2 && InBox(c, x, x, y1, y, z1, z2) ==> h2[c] == id)
      && (c in h2 && !InBox(c, x, x, y1, y, z1, z2) ==> h2[c] == h0[c])
    {
      assert InBox(c, x, x, y1, y, z1, z2) <==> InBox(c, x, x, y1, y - 1, z1, z2) || InBox(c, x, x, y, y, z1, z2);
    }
  }

  lemma FilledAfterX(h2: map<Pos, nat>, h1: map<Pos, nat>, h0: map<Pos, nat>, x1: int, x: int, y1: int, y2: int, z1: int, z2: int, id: nat)
    requires x1 <= x
    requires Filled(h1, h0, x1, x - 1, y1, y2, z1, z2, id) && Filled(h2, h1, x, x, y1, y2, z1, z2, id)
    ensures Filled(h2, h0, x1, x, y1, y2, z1, z2, id)
  {
    assert Open(0);
    forall c ensures (c in h2 <==> c in h0 || InBox(c, x1, x, y1, y2, z1, z2))
      && (c in h2 && InBox(c, x1, x, y1, y2, z1, z2) ==> h2[c] == id)
      && (c in h2 && !InBox(c, x1, x, y1, y2, z1, z2) ==> h2[c] == h0[c])
    {
      assert InBox(c, x1, x, y1, y2, z1, z2) <==> InBox(c, x1, x - 1, y1, y2, z1, z2) || InBox(c, x, x, y1, y2, z1, z2);
    }
  }

  lemma FilledEmptyY(h: map<Pos, nat>, h0: map<Pos, nat>, x: int, y1: int, y2: int, z1: int, z2: int, id: nat)
    requires y1 > y2 && Filled(h, h0, x, x, y1, y1 - 1, z1, z2, id)
    ensures Filled(h, h0, x, x, y1, y2, z1, z2, id)
  {
    assert Open(0);
  }

  lemma FilledEmptyZ(h: map<Pos, nat>, h0: map<Pos, nat>, x: int, y: int, z1: int, z2: int, id: nat)
    requires z1 > z2 && Filled(h, h0, x, x, y, y, z1, z1 - 1, id)
    ensures Filled(h, h0, x, x, y, y, z1, z2, id)
  {
    assert Open(0);
  }

  /** The nested loops of `drop` that insert every cube of the box. */
  method FillBox(h0: map<Pos, nat>, x1: nat, x2: nat, y1: nat, y2: nat, z1: nat, z2: nat, id: nat) returns (h: map<Pos, nat>)
    ensures h == Record(h0, Box(x1, x2, y1, y2, z1, z2), id)
  {
    h := h0;
    var x := x1;
    FilledNothing(h0, x1, x1 - 1, y1, y2, z1, z2, id);
    while x <= x2
      invariant x1 <= x <= x2 + 1 || (x == x1 && x1 > x2)
      invariant Filled(h, h0, x1, x - 1, y1, y2, z1, z2, id)
      decreases x2 + 1 - x
    {
      ghost var before := h;
      h := FillSlab(h, x, y1, y2, z1, z2, id);
      FilledAfterX(h, before, h0, x1, x, y1, y2, z1, z2, id);
      x := x + 1;
    }
    if x1 > x2 {
      FilledEmpty(h, h0, x1, x2, y1, y2, z1, z2, id);
    }
    FilledIsRecord(h, h0, x1, x2, y1, y2, z1, z2, id);
  }

  method FillSlab(h0: map<Pos, nat>, x: nat, y1: nat, y2: nat, z1: nat, z2: nat, id: nat) returns (h: map<Pos, nat>)
    ensures Filled(h, h0, x, x, y1, y2, z1, z2, id)
  {
    h := h0;
    var y := y1;
    FilledNothing(h0, x, x, y1, y1 - 1, z1, z2, id);
    while y <= y2
      invariant y1 <= y <= y2 + 1 || (y == y1 && y1 > y2)
      invariant Filled(h, h0, x, x, y1, y - 1, z1, z2, id)
      decreases y2 + 1 - y
    {
      ghost var before := h;
      h := FillColumn(h, x, y, z1, z2, id);
      FilledAfterY(h, before, h0, x, y1, y, z1, z2, id);
      y := y + 1;
    }
    if y1 > y2 {
      FilledEmptyY(h, h0, x, y1, y2, z1, z2, id);
    }
  }

  method FillColumn(h0: map<Pos, nat>, x: nat, y: nat, z1: nat, z2: nat, id: nat) returns (h: map<Pos, nat>)
    ensures Filled(h, h0, x, x, y, y, z1, z2, id)
  {
    h := h0;
    var z := z1;
    FilledNothing(h0, x, x, y, y, z1, z1 - 1, id);
    while z <= z2
      invariant z1 <= z <= z2 + 1 || (z == z1 && z1 > z2)
      invariant Filled(h, h0, x, x, y, y, z1, z - 1, id)
      decreases z2 + 1 - z
    {
      FilledOne(h, h0, x, y, z1, z, id);
      h := h[Pos(x, y, z) := id];
      z := z + 1;
    }
    if z1 > z2 {
      FilledEmptyZ(h, h0, x, y, z1, z2, id);
    }
  }

  /** The nested loops of `above_ids`/`below_ids`. */
  method CollectIds(h: map<Pos, nat>, x1: nat, x2: nat, y1: nat, y2: nat, z: nat) returns (res: set<nat>)
    ensures res == IdsAt(x1, x2, y1, y2, z, h)
  {
    res := {};
    var x := x1;
    while x <= x2
      invariant x1 <= x <= x2 + 1 || (x == x1 && x1 > x2)
      invariant res == IdsAt(x1, x - 1, y1, y2, z, h)
      decreases x2 + 1 - x
    {
      var y := y1;
      ghost var row := res;
      while y <= y2
        invariant y1 <= y <= y2 + 1 || (y == y1 && y1 > y2)
        invariant res == row + IdsAt(x, x, y1, y - 1, z, h)
        decreases y2 + 1 - y
      {
        if Pos(x, y, z) in h {
          res := res + {h[Pos(x, y, z)]};
        }
        IdsGrowY(x, y1, y, z, h);
        y := y + 1;
      }
      if y1 > y2 {
        IdsEmpty(x, x, y1, y2, z, h);
      }
      IdsGrowX(x1, x, y1, y2, z, h);
      x := x + 1;
    }
    if x1 > x2 {
      IdsEmpty(x1, x2, y1, y2, z, h);
    }
  }

  lemma IdsEmpty(x1: int, x2: int, y1: int, y2: int, z: nat, h: map<Pos, nat>)
    requires x1 > x2 || y1 > y2
    ensures IdsAt(x1, x2, y1, y2, z, h) == {}
  {
  }

  lemma IdsGrowX(x1: int, x: int, y1: int, y2: int, z: nat, h: map<Pos, nat>)
    requires x1 <= x
    ensures IdsAt(x1, x - 1, y1, y2, z, h) + IdsAt(x, x, y1, y2, z, h) == IdsAt(x1, x, y1, y2, z, h)
  {
  }

  lemma IdsGrowY(x: nat, y1: int, y: nat, z: nat, h: map<Pos, nat>)
    requires y1 <= y
    ensures IdsAt(x, x, y1, y - 1, z, h) + (if Pos(x, y, z) in h then {h[Pos(x, y, z)]} else {}) == IdsAt(x, x, y1, y, z, h)
  {
  }
}
