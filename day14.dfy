/** Parabolic Reflector Dish (src/day14.rs). Round rocks 'O' roll across a
    platform of empty cells '.' and cube rocks '#' when it is tilted;
    `tilt_*` move each rock one cell at a time, `cycle` tilts north, west,
    south and east, `calc_load` weighs the rocks and `solve2` finds the
    load after a billion cycles by detecting when the platform repeats. */
module Day14 {
  import opened RustStd

  // ---------------------------------------------------------------------
  // One line of cells, read in the direction the rocks roll

  /** A cell the moves may change: a round rock or an empty cell. */
  predicate Loose(c: char)
  {
    c == 'O' || c == '.'
  }

  /** Where the final run of empty cells begins. */
  function DotsStart(s: seq<char>): (q: nat)
    ensures q <= |s|
    ensures forall k :: q <= k < |s| ==> s[k] == '.'
    ensures q == 0 || s[q - 1] != '.'
  {
    if |s| == 0 || s[|s| - 1] != '.' then |s| else DotsStart(s[..|s| - 1])
  }

  /** The start of the final run of empty cells is the only index with
      empty cells after it and none just before it. */
  lemma {:induction false} DotsStartUnique(s: seq<char>, q: nat)
    requires q <= |s| && (forall k :: q <= k < |s| ==> s[k] == '.') && (q == 0 || s[q - 1] != '.')
    ensures q == DotsStart(s)
    decreases |s|
  {
    if q < |s| {
      DotsStartUnique(s[..|s| - 1], q);
    }
  }

  /** The line after the rocks have rolled towards index 0: a rock added at
      the end rolls back to the start of the final run of empty cells. */
  function Roll(s: seq<char>): (r: seq<char>)
    ensures |r| == |s|
  {
    if |s| == 0 then []
    else
      var rolled := Roll(s[..|s| - 1]);
      if s[|s| - 1] == 'O' then
        var q := DotsStart(rolled);
        rolled[..q] + ['O'] + rolled[q..]
      else rolled + [s[|s| - 1]]
  }

  /** No rock has an empty cell just before it. */
  predicate Settled(s: seq<char>)
  {
    forall k :: 1 <= k < |s| ==> !(s[k] == 'O' && s[k - 1] == '.')
  }

  lemma {:induction false} RollSettled(s: seq<char>)
    ensures Settled(Roll(s))
    decreases |s|
  {
    if |s| > 0 {
      var init := s[..|s| - 1];
      RollSettled(init);
      if s[|s| - 1] == 'O' {
        InsertSettled(Roll(init));
      } else {
        AppendSettled(Roll(init), s[|s| - 1]);
      }
    }
  }

  /** A rock put at the start of the final run of empty cells keeps a
      settled line settled. */
  lemma InsertSettled(rolled: seq<char>)
    requires Settled(rolled)
    ensures var q := DotsStart(rolled); Settled(rolled[..q] + ['O'] + rolled[q..])
  {
    var q := DotsStart(rolled);
    var r := rolled[..q] + ['O'] + rolled[q..];
    forall k | 1 <= k < |r| ensures !(r[k] == 'O' && r[k - 1] == '.') {
      if k < q {
        assert r[k] == rolled[k] && r[k - 1] == rolled[k - 1];
      } else if k == q {
        assert r[k - 1] == rolled[q - 1];
      } else {
        assert r[k] == rolled[k - 1];
      }
    }
  }

  /** Any cell but a rock appended to a settled line keeps it settled. */
  lemma AppendSettled(rolled: seq<char>, c: char)
    requires Settled(rolled) && c != 'O'
    ensures Settled(rolled + [c])
  {
    var r := rolled + [c];
    forall k | 1 <= k < |r| ensures !(r[k] == 'O' && r[k - 1] == '.') {
      if k < |rolled| {
        assert r[k] == rolled[k] && r[k - 1] == rolled[k - 1];
      }
    }
  }

  /** Cube rocks and every other fixed cell stay where they are, and loose
      cells stay loose. */
  lemma {:induction false} RollKeepsFixed(s: seq<char>)
    ensures forall k :: 0 <= k < |s| && !Loose(s[k]) ==> Roll(s)[k] == s[k]
    ensures forall k :: 0 <= k < |s| && Loose(s[k]) ==> Loose(Roll(s)[k])
    decreases |s|
  {
    if |s| > 0 {
      var init := s[..|s| - 1];
      RollKeepsFixed(init);
      var rolled := Roll(init);
      var r := Roll(s);
      if s[|s| - 1] == 'O' {
        var q := DotsStart(rolled);
        assert r == rolled[..q] + ['O'] + rolled[q..];
        forall k | 0 <= k < |s| ensures (!Loose(s[k]) ==> r[k] == s[k]) && (Loose(s[k]) ==> Loose(r[k])) {
          if k < q {
            assert r[k] == rolled[k] && s[k] == init[k];
          } else {
            assert k == q ==> r[k] == 'O';
            assert k > q ==> r[k] == rolled[k - 1] == '.';
            if k < |init| {
              assert s[k] == init[k] && rolled[k] == '.';
            }
          }
        }
      } else {
        assert r == rolled + [s[|s| - 1]];
        forall k | 0 <= k < |s| ensures (!Loose(s[k]) ==> r[k] == s[k]) && (Loose(s[k]) ==> Loose(r[k])) {
          if k < |init| {
            assert r[k] == rolled[k] && s[k] == init[k];
          }
        }
      }
    }
  }

  /** Rolling keeps the number of round rocks. */
  lemma {:induction false} RollCount(s: seq<char>)
    ensures Count(Roll(s), 'O') == Count(s, 'O')
    decreases |s|
  {
    if |s| > 0 {
      var init := s[..|s| - 1];
      RollCount(init);
      var rolled := Roll(init);
      assert s == init + [s[|s| - 1]];
      CountAppend(init, [s[|s| - 1]], 'O');
      if s[|s| - 1] == 'O' {
        var q := DotsStart(rolled);
        assert rolled == rolled[..q] + rolled[q..];
        CountAppend(rolled[..q], rolled[q..], 'O');
        CountAppend(rolled[..q] + ['O'], rolled[q..], 'O');
        CountAppend(rolled[..q], ['O'], 'O');
      } else {
        CountAppend(rolled, [s[|s| - 1]], 'O');
      }
    }
  }

  /** A settled line does not move. */
  lemma {:induction false} SettledStays(s: seq<char>)
    requires Settled(s)
    ensures Roll(s) == s
    decreases |s|
  {
    if |s| > 0 {
      var init := s[..|s| - 1];
      assert Settled(init);
      SettledStays(init);
      if s[|s| - 1] == 'O' {
        DotsStartUnique(init, |init|);
        assert init[..|init|] == init && init[|init|..] == [];
      }
    }
  }

  /** Rolling twice is rolling once. */
  lemma RollIdempotent(s: seq<char>)
    ensures Roll(Roll(s)) == Roll(s)
  {
    RollSettled(s);
    SettledStays(Roll(s));
  }

  /** A single cell is already rolled. */
  lemma RollOne(s: seq<char>)
    requires |s| == 1
    ensures Roll(s) == s
  {
    assert s[..0] == [];
  }

  // ---------------------------------------------------------------------
  // The platform seen along a direction

  /** A platform: at least one row, all as wide as the first, which is not
      empty. */
  predicate Grid(t: seq<seq<char>>)
  {
    |t| > 0 && |t[0]| > 0 && forall r :: 0 <= r < |t| ==> |t[r]| == |t[0]|
  }

  function Height(t: seq<seq<char>>): nat
  {
    |t|
  }

  function Width(t: seq<seq<char>>): nat
    requires |t| > 0
  {
    |t[0]|
  }

  /** The direction of a tilt. */
  datatype Dir = North | West | South | East

  /** A tilt moves rocks along lines: the columns for north and south, the
      rows for west and east. */
  function Lines(d: Dir, h: nat, w: nat): nat
  {
    if d == North || d == South then w else h
  }

  /** The length of a line. */
  function Len(d: Dir, h: nat, w: nat): nat
  {
    if d == North || d == South then h else w
  }

  /** Position `p` of line `l`, counted from the edge the rocks roll
      towards: row `p` of column `l` when tilting north, row `h - 1 - p`
      when tilting south; column `p`, or `w - 1 - p`, of row `l` when
      tilting west or east. */
  function RowAt(d: Dir, h: nat, w: nat, l: nat, p: nat): (r: nat)
    requires l < Lines(d, h, w) && p < Len(d, h, w)
    ensures r < h
  {
    match d
    case North => p
    case South => h - 1 - p
    case West => l
    case East => l
  }

  function ColAt(d: Dir, h: nat, w: nat, l: nat, p: nat): (c: nat)
    requires l < Lines(d, h, w) && p < Len(d, h, w)
    ensures c < w
  {
    match d
    case North => l
    case South => l
    case West => p
    case East => w - 1 - p
  }

  /** The line through cell (`r`, `c`) and the position of the cell on it. */
  function LineOf(d: Dir, h: nat, w: nat, r: nat, c: nat): (l: nat)
    requires r < h && c < w
    ensures l < Lines(d, h, w)
  {
    if d == North || d == South then c else r
  }

  function PosOf(d: Dir, h: nat, w: nat, r: nat, c: nat): (p: nat)
    requires r < h && c < w
    ensures p < Len(d, h, w)
    ensures RowAt(d, h, w, LineOf(d, h, w, r, c), p) == r && ColAt(d, h, w, LineOf(d, h, w, r, c), p) == c
  {
    match d
    case North => r
    case South => h - 1 - r
    case West => c
    case East => w - 1 - c
  }

  /** Different positions on lines are different cells. */
  lemma CellsDistinct(d: Dir, h: nat, w: nat, l1: nat, p1: nat, l2: nat, p2: nat)
    requires l1 < Lines(d, h, w) && p1 < Len(d, h, w) && l2 < Lines(d, h, w) && p2 < Len(d, h, w)
    requires RowAt(d, h, w, l1, p1) == RowAt(d, h, w, l2, p2) && ColAt(d, h, w, l1, p1) == ColAt(d, h, w, l2, p2)
    ensures l1 == l2 && p1 == p2
  {
  }

  /** Line `l` of the platform in direction `d`, from the edge the rocks
      roll towards. */
  function Line(t: seq<seq<char>>, d: Dir, l: nat): (s: seq<char>)
    requires Grid(t) && l < Lines(d, Height(t), Width(t))
    ensures |s| == Len(d, Height(t), Width(t))
  {
    var h, w := Height(t), Width(t);
    seq(Len(d, h, w), p requires 0 <= p < Len(d, h, w) => t[RowAt(d, h, w, l, p)][ColAt(d, h, w, l, p)])
  }

  /** The platform tilted in direction `d`: every line rolled. */
  function Tilted(t: seq<seq<char>>, d: Dir): (r: seq<seq<char>>)
    requires Grid(t)
    ensures Grid(r) && Height(r) == Height(t) && Width(r) == Width(t)
  {
    var h, w := Height(t), Width(t);
    seq(h, r requires 0 <= r < h =>
      seq(w, c requires 0 <= c < w => Roll(Line(t, d, LineOf(d, h, w, r, c)))[PosOf(d, h, w, r, c)]))
  }

  /** Two platforms of the same size with the same lines are equal. */
  lemma SameLines(a: seq<seq<char>>, b: seq<seq<char>>, d: Dir)
    requires Grid(a) && Grid(b) && Height(a) == Height(b) && Width(a) == Width(b)
    requires forall l :: 0 <= l < Lines(d, Height(a), Width(a)) ==> Line(a, d, l) == Line(b, d, l)
    ensures a == b
  {
    var h, w := Height(a), Width(a);
    forall r, c | 0 <= r < h && 0 <= c < w ensures a[r][c] == b[r][c] {
      var l, p := LineOf(d, h, w, r, c), PosOf(d, h, w, r, c);
      assert Line(a, d, l)[p] == Line(b, d, l)[p];
    }
    assert forall r :: 0 <= r < h ==> a[r] == b[r];
  }

  /** Each line of the tilted platform is the rolled line. */
  lemma TiltedLines(t: seq<seq<char>>, d: Dir, l: nat)
    requires Grid(t) && l < Lines(d, Height(t), Width(t))
    ensures Line(Tilted(t, d), d, l) == Roll(Line(t, d, l))
  {
    var h, w := Height(t), Width(t);
    var a, b := Line(Tilted(t, d), d, l), Roll(Line(t, d, l));
    forall p | 0 <= p < Len(d, h, w) ensures a[p] == b[p] {
      var r, c := RowAt(d, h, w, l, p), ColAt(d, h, w, l, p);
      CellsDistinct(d, h, w, l, p, LineOf(d, h, w, r, c), PosOf(d, h, w, r, c));
    }
  }

  // ---------------------------------------------------------------------
  // Moving one rock

  /** The platform with cell (`r`, `c`) overwritten by `v`. */
  function Set(t: seq<seq<char>>, r: nat, c: nat, v: char): seq<seq<char>>
    requires r < |t| && c < |t[r]|
  {
    t[r := t[r][c := v]]
  }

  /** The platform with position `p` of line `l` overwritten by `v`. */
  function SetAt(t: seq<seq<char>>, d: Dir, l: nat, p: nat, v: char): (u: seq<seq<char>>)
    requires Grid(t) && l < Lines(d, Height(t), Width(t)) && p < Len(d, Height(t), Width(t))
    ensures Grid(u) && Height(u) == Height(t) && Width(u) == Width(t)
  {
    var u := Set(t, RowAt(d, Height(t), Width(t), l, p), ColAt(d, Height(t), Width(t), l, p), v);
    assert Width(u) == Width(t);
    u
  }

  /** Overwriting a position of a line changes that position only ... */
  lemma LineAfterSet(t: seq<seq<char>>, d: Dir, l: nat, p: nat, v: char)
    requires Grid(t) && l < Lines(d, Height(t), Width(t)) && p < Len(d, Height(t), Width(t))
    ensures Line(SetAt(t, d, l, p, v), d, l) == Line(t, d, l)[p := v]
  {
    var h, w := Height(t), Width(t);
    forall q | 0 <= q < Len(d, h, w) && q != p ensures Line(SetAt(t, d, l, p, v), d, l)[q] == Line(t, d, l)[q] {
      if RowAt(d, h, w, l, q) == RowAt(d, h, w, l, p) && ColAt(d, h, w, l, q) == ColAt(d, h, w, l, p) {
        CellsDistinct(d, h, w, l, q, l, p);
      }
    }
  }

  /** ... and leaves the other lines alone. */
  lemma OthersAfterSet(t: seq<seq<char>>, d: Dir, l: nat, p: nat, v: char)
    requires Grid(t) && l < Lines(d, Height(t), Width(t)) && p < Len(d, Height(t), Width(t))
    ensures forall k :: 0 <= k < Lines(d, Height(t), Width(t)) && k != l ==> Line(SetAt(t, d, l, p, v), d, k) == Line(t, d, k)
  {
    var h, w := Height(t), Width(t);
    forall k, q | 0 <= k < Lines(d, h, w) && 0 <= q < Len(d, h, w) && k != l
      ensures Line(SetAt(t, d, l, p, v), d, k)[q] == Line(t, d, k)[q]
    {
      if RowAt(d, h, w, k, q) == RowAt(d, h, w, l, p) && ColAt(d, h, w, k, q) == ColAt(d, h, w, l, p) {
        CellsDistinct(d, h, w, k, q, l, p);
      }
    }
  }

  /** The number of round rocks in each row. */
  function RowRocks(t: seq<seq<char>>): (n: seq<int>)
    ensures |n| == |t|
  {
    seq(|t|, r requires 0 <= r < |t| => Count(t[r], 'O'))
  }

  /** The number of round rocks on the platform. */
  function Rocks(t: seq<seq<char>>): int
  {
    Sum(RowRocks(t))
  }

  /** Overwriting a cell changes the rock count by what left and what came. */
  lemma RocksAfterSet(t: seq<seq<char>>, r: nat, c: nat, v: char)
    requires r < |t| && c < |t[r]|
    ensures Rocks(Set(t, r, c, v)) + (if t[r][c] == 'O' then 1 else 0) == Rocks(t) + (if v == 'O' then 1 else 0)
  {
    CountUpdate(t[r], c, v, 'O');
    var delta := (if v == 'O' then 1 else 0) - (if t[r][c] == 'O' then 1 else 0);
    assert RowRocks(Set(t, r, c, v)) == RowRocks(t)[r := RowRocks(t)[r] + delta];
    SumUpdate(RowRocks(t), r, delta, RowRocks(Set(t, r, c, v)));
  }

  /** The line while the rock `x` that was at position `|R|` slides: it is
      at position `cur`, between the cells `R` had, with `rest` after. */
  function Sliding(R: seq<char>, x: char, rest: seq<char>, cur: nat): (r: seq<char>)
    requires cur <= |R|
    ensures |r| == |R| + 1 + |rest| && r[cur] == x
    ensures cur > 0 ==> r[cur - 1] == R[cur - 1]
  {
    R[..cur] + [x] + R[cur..] + rest
  }

  /** The cells `lo..hi` of `R` are empty. */
  predicate Dots(R: seq<char>, lo: nat, hi: nat)
    requires hi <= |R|
  {
    forall k :: lo <= k < hi ==> R[k] == '.'
  }

  lemma DotsBefore(R: seq<char>, lo: nat, hi: nat)
    requires 0 < lo <= hi <= |R| && Dots(R, lo, hi) && R[lo - 1] == '.'
    ensures Dots(R, lo - 1, hi)
  {
  }

  /** One step of a rock towards the edge, as seen on its line. */
  lemma SlideStep(R: seq<char>, x: char, rest: seq<char>, cur: nat)
    requires 0 < cur <= |R| && R[cur - 1] == '.'
    ensures Sliding(R, x, rest, cur)[cur := '.'][cur - 1 := x] == Sliding(R, x, rest, cur - 1)
  {
  }

  /** Before position `pos` the line is rolled; from `pos` on it is as it
      was. */
  function Partial(s: seq<char>, pos: nat): (r: seq<char>)
    requires pos <= |s|
    ensures |r| == |s|
  {
    Roll(s[..pos]) + s[pos..]
  }

  lemma PartialEnds(s: seq<char>)
    ensures Partial(s, 0) == s && Partial(s, |s|) == Roll(s)
  {
    assert s[..|s|] == s;
  }

  /** The rock at `pos` has not moved yet. */
  lemma SlideStart(s: seq<char>, pos: nat)
    requires pos < |s|
    ensures Partial(s, pos) == Sliding(Roll(s[..pos]), s[pos], s[pos + 1..], pos)
  {
    var R := Roll(s[..pos]);
    assert s[pos..] == [s[pos]] + s[pos + 1..];
    assert R[..pos] == R && R[pos..] == [];
  }

  /** Where the sliding rock stops, the line is rolled one position
      further. */
  lemma SlideDone(s: seq<char>, pos: nat, cur: nat)
    requires cur <= pos < |s|
    requires forall k :: cur <= k < pos ==> Roll(s[..pos])[k] == '.'
    requires cur < pos ==> s[pos] == 'O'
    requires !(cur > 0 && s[pos] == 'O' && Roll(s[..pos])[cur - 1] == '.')
    ensures Partial(s, pos + 1) == Sliding(Roll(s[..pos]), s[pos], s[pos + 1..], cur)
  {
    var R := Roll(s[..pos]);
    assert s[..pos + 1][..pos] == s[..pos];
    if s[pos] == 'O' {
      DotsStartUnique(R, cur);
    } else {
      assert R[..cur] + [s[pos]] + R[cur..] == R + [s[pos]];
    }
  }

  /** While a rock slides along line `l` of `t0`: the table `t` has the
      same size, line `l` reads `Sliding(R, x, rest, cur)`, the other lines
      and the rock count are as in `t0`. */
  /** The cells at positions `cur` and `cur - 1` of a sliding line. */
  lemma SlideStop(t: seq<seq<char>>, t0: seq<seq<char>>, d: Dir, l: nat, R: seq<char>, x: char, rest: seq<char>, cur: nat)
    requires SlideState(t, t0, d, l, R, x, rest, cur) && 0 < cur < Len(d, Height(t), Width(t))
    ensures var h, w := Height(t), Width(t);
      t[RowAt(d, h, w, l, cur)][ColAt(d, h, w, l, cur)] == x &&
      t[RowAt(d, h, w, l, cur - 1)][ColAt(d, h, w, l, cur - 1)] == R[cur - 1]
  {
    assert Line(t, d, l)[cur] == x && Line(t, d, l)[cur - 1] == R[cur - 1];
  }

  ghost predicate SlideState(t: seq<seq<char>>, t0: seq<seq<char>>, d: Dir, l: nat, R: seq<char>, x: char, rest: seq<char>, cur: nat)
  {
    Grid(t) && Grid(t0) && Height(t) == Height(t0) && Width(t) == Width(t0) &&
    l < Lines(d, Height(t), Width(t)) && cur <= |R| &&
    Line(t, d, l) == Sliding(R, x, rest, cur) &&
    (forall k :: 0 <= k < Lines(d, Height(t), Width(t)) && k != l ==> Line(t, d, k) == Line(t0, d, k)) &&
    Rocks(t) == Rocks(t0)
  }

  /** A rock moving from position `cur` to `cur - 1` of line `l` is one
      step of the slide. */
  lemma MoveAlong(t: seq<seq<char>>, t0: seq<seq<char>>, d: Dir, l: nat, R: seq<char>, x: char, rest: seq<char>, cur: nat)
    requires SlideState(t, t0, d, l, R, x, rest, cur) && 0 < cur
    requires x == 'O' && R[cur - 1] == '.'
    ensures SlideState(SetAt(SetAt(t, d, l, cur, '.'), d, l, cur - 1, 'O'), t0, d, l, R, x, rest, cur - 1)
  {
    var t1 := SetAt(t, d, l, cur, '.');
    LineAfterSet(t, d, l, cur, '.');
    LineAfterSet(t1, d, l, cur - 1, 'O');
    OthersAfterSet(t, d, l, cur, '.');
    OthersAfterSet(t1, d, l, cur - 1, 'O');
    SlideStep(R, x, rest, cur);
    SwapKeepsRocks(t, d, l, cur);
  }

  /** Moving a rock one position back along its line onto an empty cell
      keeps the rock count. */
  lemma SwapKeepsRocks(t: seq<seq<char>>, d: Dir, l: nat, cur: nat)
    requires Grid(t) && l < Lines(d, Height(t), Width(t)) && 0 < cur < Len(d, Height(t), Width(t))
    requires Line(t, d, l)[cur] == 'O' && Line(t, d, l)[cur - 1] == '.'
    ensures Rocks(SetAt(SetAt(t, d, l, cur, '.'), d, l, cur - 1, 'O')) == Rocks(t)
  {
    var h, w := Height(t), Width(t);
    var t1 := SetAt(t, d, l, cur, '.');
    LineAfterSet(t, d, l, cur, '.');
    assert Line(t1, d, l)[cur - 1] == '.';
    RocksAfterSet(t, RowAt(d, h, w, l, cur), ColAt(d, h, w, l, cur), '.');
    RocksAfterSet(t1, RowAt(d, h, w, l, cur - 1), ColAt(d, h, w, l, cur - 1), 'O');
  }

  /** Every line of `t` is the line of `t0` rolled up to position `pos`. */
  ghost predicate Swept(t: seq<seq<char>>, t0: seq<seq<char>>, d: Dir, pos: nat)
  {
    Grid(t) && Grid(t0) && Height(t) == Height(t0) && Width(t) == Width(t0) &&
    pos <= Len(d, Height(t), Width(t)) &&
    forall k: nat :: Open(k) ==> SweptLines(t, t0, d, pos)
  }

  ghost predicate SweptLines(t: seq<seq<char>>, t0: seq<seq<char>>, d: Dir, pos: nat)
    requires Grid(t) && Grid(t0) && Height(t) == Height(t0) && Width(t) == Width(t0)
    requires pos <= Len(d, Height(t), Width(t))
  {
    forall l :: 0 <= l < Lines(d, Height(t), Width(t)) ==> Line(t, d, l) == Partial(Line(t0, d, l), pos)
  }

  /** A line of one cell is rolled already. */
  lemma SweepStart(t: seq<seq<char>>, d: Dir)
    requires Grid(t)
    ensures Swept(t, t, d, 1)
  {
    forall l | 0 <= l < Lines(d, Height(t), Width(t)) ensures Line(t, d, l) == Partial(Line(t, d, l), 1) {
      var s := Line(t, d, l);
      RollOne(s[..1]);
      assert s == s[..1] + s[1..];
    }
  }

  /** Rolled up to the end, the platform is tilted. */
  lemma SweepDone(t: seq<seq<char>>, t0: seq<seq<char>>, d: Dir)
    requires |t| > 0 && Swept(t, t0, d, Len(d, Height(t), Width(t)))
    ensures t == Tilted(t0, d)
  {
    assert Open(0);
    forall l | 0 <= l < Lines(d, Height(t), Width(t)) ensures Line(t, d, l) == Line(Tilted(t0, d), d, l) {
      PartialEnds(Line(t0, d, l));
      TiltedLines(t0, d, l);
    }
    SameLines(t, Tilted(t0, d), d);
  }

  /** One cycle: north, west, south, east. */
  function CycleOf(t: seq<seq<char>>): (r: seq<seq<char>>)
    requires Grid(t)
    ensures Grid(r) && Height(r) == Height(t) && Width(r) == Width(t)
  {
    Tilted(Tilted(Tilted(Tilted(t, North), West), South), East)
  }

  /** Cell by cell: a loose cell stays loose and any other cell is kept. */
  predicate RowCompatible(x: seq<char>, y: seq<char>)
  {
    |y| == |x| && forall k :: 0 <= k < |x| ==> if Loose(x[k]) then Loose(y[k]) else y[k] == x[k]
  }

  /** `b` is `a` with only round rocks and empty cells changed. */
  predicate Compatible(a: seq<seq<char>>, b: seq<seq<char>>)
  {
    |b| == |a| && forall r :: 0 <= r < |a| ==> RowCompatible(a[r], b[r])
  }

  lemma CompatibleTrans(a: seq<seq<char>>, b: seq<seq<char>>, c: seq<seq<char>>)
    requires Compatible(a, b) && Compatible(b, c)
    ensures Compatible(a, c)
  {
    forall r | 0 <= r < |a| ensures RowCompatible(a[r], c[r]) {
      assert RowCompatible(a[r], b[r]) && RowCompatible(b[r], c[r]);
    }
  }

  /** A cell of the tilted platform is the rolled line at the cell's
      position. */
  lemma TiltedCell(t: seq<seq<char>>, d: Dir, r: nat, c: nat)
    requires Grid(t) && r < Height(t) && c < Width(t)
    ensures var h, w := Height(t), Width(t);
      t[r][c] == Line(t, d, LineOf(d, h, w, r, c))[PosOf(d, h, w, r, c)] &&
      Tilted(t, d)[r][c] == Roll(Line(t, d, LineOf(d, h, w, r, c)))[PosOf(d, h, w, r, c)]
  {
  }

  /** Every tilt keeps the cube rocks (every cell that is neither 'O' nor
      '.') where they are, and loose cells loose. */
  lemma TiltedKeepsFixed(t: seq<seq<char>>, d: Dir)
    requires Grid(t)
    ensures Compatible(t, Tilted(t, d))
  {
    var h, w := Height(t), Width(t);
    forall r | 0 <= r < h ensures RowCompatible(t[r], Tilted(t, d)[r]) {
      forall c | 0 <= c < w
        ensures if Loose(t[r][c]) then Loose(Tilted(t, d)[r][c]) else Tilted(t, d)[r][c] == t[r][c]
      {
        TiltedCell(t, d, r, c);
        RollKeepsFixed(Line(t, d, LineOf(d, h, w, r, c)));
      }
    }
  }

  /** Every line of a tilted platform is settled towards the edge. */
  lemma TiltedSettled(t: seq<seq<char>>, d: Dir, l: nat)
    requires Grid(t) && l < Lines(d, Height(t), Width(t))
    ensures Settled(Line(Tilted(t, d), d, l))
  {
    TiltedLines(t, d, l);
    RollSettled(Line(t, d, l));
  }

  /** Cell (`r`, `c`) holds a round rock and the cell above it is empty. */
  predicate GapAbove(t: seq<seq<char>>, r: nat, c: nat)
    requires 1 <= r < |t| && c < |t[r]| && c < |t[r - 1]|
  {
    t[r][c] == 'O' && t[r - 1][c] == '.'
  }

  /** After tilting north no round rock has an empty cell just above it. */
  lemma NorthSettled(t: seq<seq<char>>)
    requires Grid(t)
    ensures forall r, c :: 1 <= r < Height(t) && 0 <= c < Width(t) ==> !GapAbove(Tilted(t, North), r, c)
  {
    var n := Tilted(t, North);
    forall r, c | 1 <= r < Height(t) && 0 <= c < Width(t) ensures !GapAbove(n, r, c) {
      TiltedSettled(t, North, c);
      assert Line(n, North, c)[r] == n[r][c] && Line(n, North, c)[r - 1] == n[r - 1][c];
    }
  }

  /** Every line keeps its number of round rocks. */
  lemma TiltedLineRocks(t: seq<seq<char>>, d: Dir, l: nat)
    requires Grid(t) && l < Lines(d, Height(t), Width(t))
    ensures Count(Line(Tilted(t, d), d, l), 'O') == Count(Line(t, d, l), 'O')
  {
    TiltedLines(t, d, l);
    RollCount(Line(t, d, l));
  }

  /** Tilting twice in the same direction is tilting once. */
  lemma TiltedIdempotent(t: seq<seq<char>>, d: Dir)
    requires Grid(t)
    ensures Tilted(Tilted(t, d), d) == Tilted(t, d)
  {
    var once := Tilted(t, d);
    forall l | 0 <= l < Lines(d, Height(t), Width(t)) ensures Line(Tilted(once, d), d, l) == Line(once, d, l) {
      TiltedLines(t, d, l);
      TiltedLines(once, d, l);
      RollIdempotent(Line(t, d, l));
    }
    SameLines(Tilted(once, d), once, d);
  }

  /** A platform whose lines are all settled does not move. */
  lemma SettledGridStays(t: seq<seq<char>>, d: Dir)
    requires Grid(t) && forall l :: 0 <= l < Lines(d, Height(t), Width(t)) ==> Settled(Line(t, d, l))
    ensures Tilted(t, d) == t
  {
    forall l | 0 <= l < Lines(d, Height(t), Width(t)) ensures Line(Tilted(t, d), d, l) == Line(t, d, l) {
      TiltedLines(t, d, l);
      SettledStays(Line(t, d, l));
    }
    SameLines(Tilted(t, d), t, d);
  }

  // ---------------------------------------------------------------------
  // The platform (`struct Platform`)

  class Platform {
    var table: seq<seq<char>>
    var w: nat
    var h: nat

    /** The table is a platform and `w`, `h` are its width and height. */
    ghost predicate Valid()
      reads this
    {
      Grid(table) && h == Height(table) && w == Width(table)
    }

    /** `Platform::new`: the lines become the rows. */
    constructor (lines: seq<string>)
      requires Grid(lines)
      ensures Valid() && table == lines
    {
      table := lines;
      w := |lines[0]|;
      h := |lines|;
    }

    /** `move_rock`: the cell left becomes empty, then the cell reached
        holds the rock. */
    method MoveRock(from: (nat, nat), to: (nat, nat))
      requires Valid() && from.0 < h && from.1 < w && to.0 < h && to.1 < w
      modifies this
      ensures Valid() && h == old(h) && w == old(w)
      ensures table == Set(Set(old(table), from.0, from.1, '.'), to.0, to.1, 'O')
    {
      table := Set(table, from.0, from.1, '.');
      table := Set(table, to.0, to.1, 'O');
    }

    /** `can_move`: a round rock with an empty cell at the destination. */
    predicate CanMove(from: (nat, nat), to: (nat, nat))
      requires Valid() && from.0 < h && from.1 < w && to.0 < h && to.1 < w
      reads this
    {
      table[from.0][from.1] == 'O' && table[to.0][to.1] == '.'
    }

    /** The position `p` of line `l` as a cell of the table. */
    function Cell(d: Dir, l: nat, p: nat): (rc: (nat, nat))
      requires l < Lines(d, h, w) && p < Len(d, h, w)
      reads this
      ensures rc.0 < h && rc.1 < w
    {
      (RowAt(d, h, w, l, p), ColAt(d, h, w, l, p))
    }

    /** `tilt_north`, `tilt_west`, `tilt_south` and `tilt_east`: every
        line is rolled towards the edge named by `d`. */
    method Tilt(d: Dir)
      requires Valid()
      modifies this
      ensures Valid() && h == old(h) && w == old(w)
      ensures table == Tilted(old(table), d)
      ensures Rocks(table) == Rocks(old(table))
    {
      ghost var t0 := table;
      SweepStart(t0, d);
      var pos := 1;
      while pos < Len(d, h, w)
        invariant Valid() && h == old(h) && w == old(w)
        invariant 1 <= pos <= Len(d, h, w)
        invariant Swept(table, t0, d, pos)
        invariant Rocks(table) == Rocks(t0)
      {
        Pass(d, pos, t0);
        pos := pos + 1;
      }
      SweepDone(table, t0, d);
    }

    /** The loop of a tilt across the lines, at distance `pos` from the
        edge (`for col in 0..self.w` in `tilt_north`). */
    method Pass(d: Dir, pos: nat, ghost t0: seq<seq<char>>)
      requires Valid() && pos < Len(d, h, w) && Swept(table, t0, d, pos)
      modifies this
      ensures Valid() && h == old(h) && w == old(w)
      ensures Swept(table, t0, d, pos + 1)
      ensures Rocks(table) == Rocks(old(table))
    {
      assert Open(0);
      var l := 0;
      while l < Lines(d, h, w)
        invariant Valid() && h == old(h) && w == old(w)
        invariant l <= Lines(d, h, w)
        invariant forall k :: 0 <= k < l ==> Line(table, d, k) == Partial(Line(t0, d, k), pos + 1)
        invariant forall k :: l <= k < Lines(d, h, w) ==> Line(table, d, k) == Partial(Line(t0, d, k), pos)
        invariant Rocks(table) == Rocks(old(table))
      {
        Slide(d, l, pos, Line(t0, d, l));
        l := l + 1;
      }
    }

    /** `tilt_north`: for each row from the second, each rock of the row
        slides up. */
    method TiltNorth()
      requires Valid()
      modifies this
      ensures Valid() && h == old(h) && w == old(w)
      ensures table == Tilted(old(table), North)
      ensures Rocks(table) == Rocks(old(table))
    {
      Tilt(North);
    }

    /** `tilt_west`: for each column from the second. */
    method TiltWest()
      requires Valid()
      modifies this
      ensures Valid() && h == old(h) && w == old(w)
      ensures table == Tilted(old(table), West)
      ensures Rocks(table) == Rocks(old(table))
    {
      Tilt(West);
    }

    /** `tilt_south`: for each row from the bottom; the rocks of the bottom
        row cannot move. */
    method TiltSouth()
      requires Valid()
      modifies this
      ensures Valid() && h == old(h) && w == old(w)
      ensures table == Tilted(old(table), South)
      ensures Rocks(table) == Rocks(old(table))
    {
      Tilt(South);
    }

    /** `tilt_east`: for each column from the right; the rocks of the last
        column cannot move. */
    method TiltEast()
      requires Valid()
      modifies this
      ensures Valid() && h == old(h) && w == old(w)
      ensures table == Tilted(old(table), East)
      ensures Rocks(table) == Rocks(old(table))
    {
      Tilt(East);
    }

    /** `cycle`: north, then west, then south, then east. */
    method Cycle()
      requires Valid()
      modifies this
      ensures Valid() && h == old(h) && w == old(w)
      ensures table == CycleOf(old(table))
      ensures Rocks(table) == Rocks(old(table))
    {
      TiltNorth();
      TiltWest();
      TiltSouth();
      TiltEast();
    }

    /** The inner `while` of each `tilt_*`: the cell at position `pos` of
        line `l` moves towards the edge while it is a rock with an empty
        cell before it. */
    method Slide(d: Dir, l: nat, pos: nat, ghost s: seq<char>)
      requires Valid() && l < Lines(d, h, w) && pos < Len(d, h, w) && |s| == Len(d, h, w)
      requires Line(table, d, l) == Partial(s, pos)
      modifies this
      ensures Valid() && h == old(h) && w == old(w)
      ensures Line(table, d, l) == Partial(s, pos + 1)
      ensures forall k :: 0 <= k < Lines(d, h, w) && k != l ==> Line(table, d, k) == Line(old(table), d, k)
      ensures Rocks(table) == Rocks(old(table))
    {
      SlideStart(s, pos);
      var cur := SlideFrom(d, l, pos, Roll(s[..pos]), s[pos], s[pos + 1..]);
      SlideDone(s, pos, cur);
    }

    /** The loop of `Slide`, from the rock `x` at position `pos` of a line
        reading `Sliding(R, x, rest, pos)`; it returns where the rock
        stops. */
    method SlideFrom(d: Dir, l: nat, pos: nat, ghost R: seq<char>, ghost x: char, ghost rest: seq<char>) returns (cur: nat)
      requires Valid() && l < Lines(d, h, w) && pos == |R| && pos < Len(d, h, w)
      requires Line(table, d, l) == Sliding(R, x, rest, pos)
      modifies this
      ensures Valid() && h == old(h) && w == old(w)
      ensures cur <= pos && SlideState(table, old(table), d, l, R, x, rest, cur)
      ensures Dots(R, cur, pos)
      ensures cur < pos ==> x == 'O'
      ensures !(cur > 0 && x == 'O' && R[cur - 1] == '.')
    {
      ghost var t0 := table;
      cur := pos;
      while cur > 0 && CanMove(Cell(d, l, cur), Cell(d, l, cur - 1))
        invariant Valid() && h == old(h) && w == old(w)
        invariant cur <= pos
        invariant SlideState(table, t0, d, l, R, x, rest, cur)
        invariant Dots(R, cur, pos)
        invariant cur < pos ==> x == 'O'
        decreases cur
      {
        Step(d, l, cur, t0, R, x, rest);
        DotsBefore(R, cur, pos);
        cur := cur - 1;
      }
      if cur > 0 {
        SlideStop(table, t0, d, l, R, x, rest, cur);
      }
    }

    /** One pass of that loop: the rock at position `cur` moves to
        `cur - 1`. */
    method Step(d: Dir, l: nat, cur: nat, ghost t0: seq<seq<char>>, ghost R: seq<char>, ghost x: char, ghost rest: seq<char>)
      requires Valid() && l < Lines(d, h, w) && 0 < cur < Len(d, h, w)
      requires SlideState(table, t0, d, l, R, x, rest, cur)
      requires CanMove(Cell(d, l, cur), Cell(d, l, cur - 1))
      modifies this
      ensures Valid() && h == old(h) && w == old(w)
      ensures SlideState(table, t0, d, l, R, x, rest, cur - 1)
      ensures x == 'O' && R[cur - 1] == '.'
    {
      assert Line(table, d, l)[cur] == x && Line(table, d, l)[cur - 1] == R[cur - 1];
      MoveAlong(table, t0, d, l, R, x, rest, cur);
      MoveRock(Cell(d, l, cur), Cell(d, l, cur - 1));
    }
  }
}
