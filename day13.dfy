/** Point of Incidence (src/day13.rs). A pattern of ash '.' and rocks '#'
    has a line of reflection between two rows or two columns; the line
    sought is the first one across which exactly `max` cells differ from
    their mirror images (`max` is 0 in part 1 and 1 in part 2). */
module Day13 {
  import opened RustStd

  /** `Pattern`: the rows and the width and height taken from them. */
  datatype Pattern = Pattern(field: seq<seq<char>>, w: nat, h: nat)

  /** What `Pattern::new` guarantees: the height is the number of rows, at
      least one, and the width is the length of the first row. */
  predicate Valid(p: Pattern)
  {
    p.h == |p.field| && p.h > 0 && p.w == |p.field[0]|
  }

  /** Every row is as wide as the first. */
  predicate Rectangular(p: Pattern)
  {
    forall k :: 0 <= k < |p.field| ==> |p.field[k]| == p.w
  }

  /** `Pattern::new`: `field[0]` panics on an empty block. */
  function PatternOf(data: seq<string>): (r: Option<Pattern>)
    ensures r.None? <==> |data| == 0
    ensures r.Some? ==> Valid(r.value) && r.value.field == data
  {
    if |data| == 0 then None else Some(Pattern(data, |data[0]|, |data|))
  }

  // ---------------------------------------------------------------------
  // Differences between rows and between columns

  /** `count_diff`: the zipped positions (up to the shorter length) where the
      two sequences differ. */
  function CountDiff(a: seq<char>, b: seq<char>): (r: nat)
    ensures r <= |a| && r <= |b|
  {
    if |a| == 0 || |b| == 0 then 0
    else (if a[0] != b[0] then 1 else 0) + CountDiff(a[1..], b[1..])
  }

  lemma {:induction false} CountDiffSelf(a: seq<char>)
    ensures CountDiff(a, a) == 0
  {
    if |a| > 0 {
      CountDiffSelf(a[1..]);
    }
  }

  lemma {:induction false} CountDiffSymmetric(a: seq<char>, b: seq<char>)
    ensures CountDiff(a, b) == CountDiff(b, a)
  {
    if |a| > 0 && |b| > 0 {
      CountDiffSymmetric(a[1..], b[1..]);
    }
  }

  /** No difference means the two agree on every zipped position, and for
      sequences of the same length that they are equal. */
  lemma {:induction false} CountDiffZero(a: seq<char>, b: seq<char>)
    ensures CountDiff(a, b) == 0 <==> forall i :: 0 <= i < |a| && i < |b| ==> a[i] == b[i]
  {
    if |a| > 0 && |b| > 0 {
      CountDiffZero(a[1..], b[1..]);
      assert forall i :: 1 <= i < |a| && i < |b| ==> a[i] == a[1..][i - 1] && b[i] == b[1..][i - 1];
    }
  }

  /** `col_iter`: column `c`, one character from every row. */
  predicate HasColumn(field: seq<seq<char>>, c: nat)
  {
    forall k :: 0 <= k < |field| ==> c < |field[k]|
  }

  function Column(field: seq<seq<char>>, c: nat): (r: seq<char>)
    requires HasColumn(field, c)
    ensures |r| == |field| && forall k :: 0 <= k < |field| ==> r[k] == field[k][c]
  {
    seq(|field|, k requires 0 <= k < |field| => field[k][c])
  }

  /** Which way a line of reflection runs: between rows or between columns. */
  datatype Axis = Rows | Cols

  /** The `edge` `get_reflection` passes: the height for rows, the width
      for columns. */
  function Edge(p: Pattern, axis: Axis): nat
  {
    match axis
    case Rows => p.h
    case Cols => p.w
  }

  /** `rows_diff` and `cols_diff`; `None` for an index panic: a row that
      does not exist, or a row too short for `nth(c).unwrap()`. */
  function Diff(p: Pattern, axis: Axis, i: nat, j: nat): (r: Option<nat>)
  {
    match axis
    case Rows =>
      if i < |p.field| && j < |p.field| then Some(CountDiff(p.field[i], p.field[j])) else None
    case Cols =>
      if HasColumn(p.field, i) && HasColumn(p.field, j) then Some(CountDiff(Column(p.field, i), Column(p.field, j))) else None
  }

  /** In a valid pattern, rows within the height, and in a rectangular one,
      columns within the width, always have a difference. */
  lemma DiffDefined(p: Pattern, axis: Axis, i: nat, j: nat)
    requires Valid(p) && (axis == Cols ==> Rectangular(p))
    requires i < Edge(p, axis) && j < Edge(p, axis)
    ensures Diff(p, axis, i, j).Some?
  {
  }

  lemma DiffSymmetric(p: Pattern, axis: Axis, i: nat, j: nat)
    ensures Diff(p, axis, i, j) == Diff(p, axis, j, i)
  {
    match axis
    case Rows =>
      if i < |p.field| && j < |p.field| {
        CountDiffSymmetric(p.field[i], p.field[j]);
      }
    case Cols =>
      if HasColumn(p.field, i) && HasColumn(p.field, j) {
        CountDiffSymmetric(Column(p.field, i), Column(p.field, j));
      }
  }

  lemma DiffSelf(p: Pattern, axis: Axis, i: nat)
    requires Diff(p, axis, i, i).Some?
    ensures Diff(p, axis, i, i) == Some(0)
  {
    match axis
    case Rows => CountDiffSelf(p.field[i]);
    case Cols => CountDiffSelf(Column(p.field, i));
  }

  // ---------------------------------------------------------------------
  // A line of reflection

  /** The mirrored pairs across the line after `x`: `x - d` and `x + 1 + d`
      for as long as both lie within the edge. */
  function PairCount(p: Pattern, axis: Axis, x: nat): (k: nat)
    ensures k <= x + 1 && (k > 0 ==> x + k < Edge(p, axis))
    ensures k < x + 1 ==> x + 1 + k >= Edge(p, axis)
  {
    if x + 1 >= Edge(p, axis) then 0 else MinNat(x + 1, Edge(p, axis) - x - 1)
  }

  /** The differences of the first `k` mirrored pairs added up; `None` if one
      of them panics. */
  function Mirror(p: Pattern, axis: Axis, x: nat, k: nat): (r: Option<nat>)
    requires k <= x + 1
  {
    if k == 0 then Some(0)
    else
      match (Mirror(p, axis, x, k - 1), Diff(p, axis, x - (k - 1), x + k))
      case (Some(a), Some(b)) => Some(a + b)
      case _ => None
  }

  /** A line after `x` with exactly `max` differing cells across it. */
  predicate IsLine(p: Pattern, axis: Axis, x: nat, max: nat)
  {
    x + 1 < Edge(p, axis) && Mirror(p, axis, x, PairCount(p, axis, x)) == Some(max)
  }

  /** The loop of `is_reflected` from pair `d` on, with `n` differences so
      far: it stops with `false` as soon as `n` exceeds `max`. */
  function ReflectedFrom(p: Pattern, axis: Axis, x: nat, max: nat, d: nat, n: nat): Option<bool>
    decreases x + 1 - d
  {
    if d > x || x + 1 + d >= Edge(p, axis) then Some(n == max)
    else
      match Diff(p, axis, x - d, x + 1 + d)
      case None => None
      case Some(v) => if n + v > max then Some(false) else ReflectedFrom(p, axis, x, max, d + 1, n + v)
  }

  /** `is_reflected`. */
  method IsReflected(p: Pattern, x: nat, max: nat, axis: Axis) returns (r: Option<bool>)
    ensures r == ReflectedFrom(p, axis, x, max, 0, 0)
  {
    var edge := Edge(p, axis);
    var n: nat := 0;
    var d: nat := 0;
    while d <= x
      invariant d <= x + 1
      invariant ReflectedFrom(p, axis, x, max, d, n) == ReflectedFrom(p, axis, x, max, 0, 0)
      decreases x + 1 - d
    {
      if x + 1 + d >= edge {
        break;
      }
      var v := Diff(p, axis, x - d, x + 1 + d);
      if v.None? {
        return None;
      }
      ReflectedUnfold(p, axis, x, max, d, n, v.value);
      n := n + v.value;
      if n > max {
        return Some(false);
      }
      d := d + 1;
    }
    ReflectedDone(p, axis, x, max, d, n);
    r := Some(n == max);
  }

  /** One turn of the loop of `is_reflected`. */
  lemma ReflectedUnfold(p: Pattern, axis: Axis, x: nat, max: nat, d: nat, n: nat, v: nat)
    requires d <= x && x + 1 + d < Edge(p, axis) && Diff(p, axis, x - d, x + 1 + d) == Some(v)
    ensures ReflectedFrom(p, axis, x, max, d, n) ==
      if n + v > max then Some(false) else ReflectedFrom(p, axis, x, max, d + 1, n + v)
  {
  }

  /** A defined sum of `k` pairs has defined, smaller sums of fewer pairs. */
  lemma {:induction false} MirrorPrefix(p: Pattern, axis: Axis, x: nat, d: nat, k: nat)
    requires d <= k <= x + 1 && Mirror(p, axis, x, k).Some?
    ensures Mirror(p, axis, x, d).Some? && Mirror(p, axis, x, d).value <= Mirror(p, axis, x, k).value
    decreases k - d
  {
    if d < k {
      MirrorPrefix(p, axis, x, d, k - 1);
    }
  }

  /** The early `return false` agrees with summing all the pairs: when no
      pair panics, `is_reflected` says whether the whole sum is `max`. */
  lemma {:induction false} ReflectedIsLine(p: Pattern, axis: Axis, x: nat, max: nat, d: nat, n: nat)
    requires d <= PairCount(p, axis, x)
    requires Mirror(p, axis, x, PairCount(p, axis, x)).Some?
    requires Mirror(p, axis, x, d) == Some(n)
    ensures ReflectedFrom(p, axis, x, max, d, n) == Some(Mirror(p, axis, x, PairCount(p, axis, x)).value == max)
    decreases x + 1 - d
  {
    if d < PairCount(p, axis, x) {
      var v := ReflectedStep(p, axis, x, max, d, n);
      if n + v <= max {
        ReflectedIsLine(p, axis, x, max, d + 1, n + v);
      }
    } else {
      assert d > x || x + 1 + d >= Edge(p, axis);
      ReflectedDone(p, axis, x, max, d, n);
    }
  }

  /** Past the last pair the loop answers whether the sum is `max`. */
  lemma ReflectedDone(p: Pattern, axis: Axis, x: nat, max: nat, d: nat, n: nat)
    requires d > x || x + 1 + d >= Edge(p, axis)
    ensures ReflectedFrom(p, axis, x, max, d, n) == Some(n == max)
  {
  }

  /** One pair of the loop: its difference `v` extends the sum, and the
      loop stops there if the sum exceeds `max`. */
  lemma ReflectedStep(p: Pattern, axis: Axis, x: nat, max: nat, d: nat, n: nat) returns (v: nat)
    requires d < PairCount(p, axis, x)
    requires Mirror(p, axis, x, PairCount(p, axis, x)).Some? && Mirror(p, axis, x, d) == Some(n)
    ensures Mirror(p, axis, x, d + 1) == Some(n + v) && n + v <= Mirror(p, axis, x, PairCount(p, axis, x)).value
    ensures ReflectedFrom(p, axis, x, max, d, n) == if n + v > max then Some(false) else ReflectedFrom(p, axis, x, max, d + 1, n + v)
  {
    MirrorPrefix(p, axis, x, d + 1, PairCount(p, axis, x));
    assert d <= x && x + 1 + d < Edge(p, axis);
    v := PairDefined(p, axis, x, d);
    MirrorNext(p, axis, x, d, n, v);
    ReflectedUnfold(p, axis, x, max, d, n, v);
  }

  /** When the sum of `d + 1` pairs is defined, so is pair `d`. */
  lemma PairDefined(p: Pattern, axis: Axis, x: nat, d: nat) returns (v: nat)
    requires d <= x && Mirror(p, axis, x, d + 1).Some?
    ensures Diff(p, axis, x - d, x + 1 + d) == Some(v)
  {
    v := Diff(p, axis, x - d, x + 1 + d).value;
  }

  /** The sum of `d + 1` pairs is the sum of `d` pairs plus pair `d`. */
  lemma MirrorNext(p: Pattern, axis: Axis, x: nat, d: nat, n: nat, v: nat)
    requires d <= x && Mirror(p, axis, x, d) == Some(n) && Diff(p, axis, x - d, x + 1 + d) == Some(v)
    ensures Mirror(p, axis, x, d + 1) == Some(n + v)
  {
  }

  /** All pairs of a valid pattern (rectangular, for columns) are defined. */
  lemma {:induction false} MirrorDefined(p: Pattern, axis: Axis, x: nat, k: nat)
    requires Valid(p) && (axis == Cols ==> Rectangular(p))
    requires k <= PairCount(p, axis, x)
    ensures Mirror(p, axis, x, k).Some?
  {
    if k > 0 {
      MirrorDefined(p, axis, x, k - 1);
      DiffDefined(p, axis, x - (k - 1), x + k);
    }
  }

  /** For a valid pattern (rectangular, for columns) `is_reflected` is
      `Some(true)` exactly at a line with `max` differences. */
  lemma ReflectedIffLine(p: Pattern, axis: Axis, x: nat, max: nat)
    requires Valid(p) && (axis == Cols ==> Rectangular(p))
    requires x + 1 < Edge(p, axis)
    ensures ReflectedFrom(p, axis, x, max, 0, 0) == Some(IsLine(p, axis, x, max))
  {
    MirrorDefined(p, axis, x, PairCount(p, axis, x));
    ReflectedIsLine(p, axis, x, max, 0, 0);
  }

  /** Row `x - d` equals its image `x + 1 + d`. */
  predicate RowsMatch(p: Pattern, x: nat, d: nat)
  {
    d <= x && x + 1 + d < |p.field| && p.field[x - d] == p.field[x + 1 + d]
  }

  /** With `max` = 0 a line of rows is a perfect mirror: every row within
      reach equals its image. */
  lemma {:induction false} PerfectMirror(p: Pattern, x: nat, k: nat)
    requires Valid(p) && Rectangular(p) && k <= PairCount(p, Rows, x)
    ensures Mirror(p, Rows, x, k) == Some(0) <==> forall d :: 0 <= d < k ==> RowsMatch(p, x, d)
  {
    if k > 0 {
      PerfectMirror(p, x, k - 1);
      MirrorDefined(p, Rows, x, k - 1);
      var a, b := p.field[x - (k - 1)], p.field[x + k];
      CountDiffZero(a, b);
      assert |a| == |b|;
      assert (forall i :: 0 <= i < |a| && i < |b| ==> a[i] == b[i]) <==> a == b;
      assert RowsMatch(p, x, k - 1) <==> a == b;
      assert Mirror(p, Rows, x, k) == Some(Mirror(p, Rows, x, k - 1).value + CountDiff(a, b));
      assert (forall d :: 0 <= d < k ==> RowsMatch(p, x, d)) <==> (forall d :: 0 <= d < k - 1 ==> RowsMatch(p, x, d)) && RowsMatch(p, x, k - 1);
    }
  }

  // ---------------------------------------------------------------------
  // The first line

  /** The loop of `get_reflection` over `0..edge - 1` from `i` on: the first
      line, `edge` when there is none, `None` on a panic. */
  function FirstFrom(p: Pattern, axis: Axis, max: nat, i: nat): (r: Option<nat>)
    ensures r.Some? && r.value < Edge(p, axis) ==>
      i <= r.value && r.value + 1 < Edge(p, axis) && ReflectedFrom(p, axis, r.value, max, 0, 0) == Some(true)
    ensures r.Some? ==> r.value < Edge(p, axis) || r.value == Edge(p, axis)
    ensures r.Some? ==> forall j :: i <= j < r.value && j + 1 < Edge(p, axis) ==> ReflectedFrom(p, axis, j, max, 0, 0) == Some(false)
    decreases Edge(p, axis) - i
  {
    if i + 1 >= Edge(p, axis) then Some(Edge(p, axis))
    else
      match ReflectedFrom(p, axis, i, max, 0, 0)
      case None => None
      case Some(b) => if b then Some(i) else FirstFrom(p, axis, max, i + 1)
  }

  /** What `get_reflection` returns: `100 * (row + 1)` for the first line
      between rows, else `col + 1` for the first between columns. Both
      loops run; `0..w - 1` underflows on an empty first row, and finding
      no line at all panics. */
  function Reflection(p: Pattern, max: nat): Option<nat>
  {
    match FirstFrom(p, Rows, max, 0)
    case None => None
    case Some(row) =>
      if p.w == 0 then None
      else
        match FirstFrom(p, Cols, max, 0)
        case None => None
        case Some(col) =>
          if row == p.h && col == p.w then None
          else if row < p.h then Some(100 * (row + 1))
          else Some(col + 1)
  }

  /** `get_reflection`. */
  method GetReflection(p: Pattern, max: nat) returns (r: Option<nat>)
    requires Valid(p)
    ensures r == Reflection(p, max)
  {
    var row := FirstLine(p, Rows, max);
    if row.None? {
      return None;
    }
    if p.w == 0 {
      return None;
    }
    var col := FirstLine(p, Cols, max);
    if col.None? {
      return None;
    }
    if row.value == p.h && col.value == p.w {
      return None;
    }
    if row.value < p.h {
      r := Some(100 * (row.value + 1));
    } else {
      r := Some(col.value + 1);
    }
  }

  /** One loop of `get_reflection`: the first line across `axis`, or
      `Edge` when there is none; `None` on a panic. */
  method FirstLine(p: Pattern, axis: Axis, max: nat) returns (r: Option<nat>)
    requires Edge(p, axis) > 0
    ensures r == FirstFrom(p, axis, max, 0)
  {
    var edge := Edge(p, axis);
    var line := edge;
    var k := 0;
    while k < edge - 1
      invariant k <= edge - 1
      invariant FirstFrom(p, axis, max, k) == FirstFrom(p, axis, max, 0)
    {
      var f := IsReflected(p, k, max, axis);
      if f.None? {
        return None;
      }
      if f.value {
        line := k;
        break;
      }
      k := k + 1;
    }
    r := Some(line);
  }

  /** In a rectangular pattern the search finds the first line, or reports
      the edge when there is none. */
  lemma FirstIsFirstLine(p: Pattern, axis: Axis, max: nat)
    requires Valid(p) && Rectangular(p)
    ensures FirstFrom(p, axis, max, 0).Some?
    ensures var f := FirstFrom(p, axis, max, 0).value;
      (f < Edge(p, axis) ==> IsLine(p, axis, f, max)) &&
      (forall j :: 0 <= j < f && j + 1 < Edge(p, axis) ==> !IsLine(p, axis, j, max))
  {
    FirstDefined(p, axis, max, 0);
    var f := FirstFrom(p, axis, max, 0).value;
    if f < Edge(p, axis) {
      ReflectedIffLine(p, axis, f, max);
    }
    forall j | 0 <= j < f && j + 1 < Edge(p, axis) ensures !IsLine(p, axis, j, max) {
      ReflectedIffLine(p, axis, j, max);
    }
  }

  lemma {:induction false} FirstDefined(p: Pattern, axis: Axis, max: nat, i: nat)
    requires Valid(p) && Rectangular(p)
    ensures FirstFrom(p, axis, max, i).Some?
    decreases Edge(p, axis) - i
  {
    if i + 1 < Edge(p, axis) {
      ReflectedIffLine(p, axis, i, max);
      FirstDefined(p, axis, max, i + 1);
    }
  }

  /** Rows take precedence: when a line between rows exists and the search
      over the columns does not panic, the rows' line is the answer. */
  lemma RowsFirst(p: Pattern, max: nat, row: nat)
    requires Valid(p) && p.w > 0 && FirstFrom(p, Rows, max, 0) == Some(row) && row < p.h
    requires FirstFrom(p, Cols, max, 0).Some?
    ensures Reflection(p, max) == Some(100 * (row + 1))
  {
  }

  /** For a rectangular pattern the answer is `None` exactly when there is
      no line of either kind, or the rows are empty. */
  lemma NoLinePanics(p: Pattern, max: nat)
    requires Valid(p) && Rectangular(p)
    ensures Reflection(p, max).None? <==>
      p.w == 0 || ((forall x :: 0 <= x && x + 1 < p.h ==> !IsLine(p, Rows, x, max)) && (forall x :: 0 <= x && x + 1 < p.w ==> !IsLine(p, Cols, x, max)))
  {
    FirstIsFirstLine(p, Rows, max);
    FirstIsFirstLine(p, Cols, max);
    var row, col := FirstFrom(p, Rows, max, 0).value, FirstFrom(p, Cols, max, 0).value;
    if row < p.h {
      assert IsLine(p, Rows, row, max);
    }
    if col < p.w {
      assert IsLine(p, Cols, col, max);
    }
  }

  // ---------------------------------------------------------------------
  // Reading the patterns

  /** The lines cut at every empty line, as `split` cuts a string: there is
      always one piece more than there are empty lines. */
  function Blocks(lines: seq<string>): (r: seq<seq<string>>)
    ensures |r| >= 1
  {
    if |lines| == 0 then [[]]
    else if lines[0] == "" then [[]] + Blocks(lines[1..])
    else
      var rest := Blocks(lines[1..]);
      [[lines[0]] + rest[0]] + rest[1..]
  }

  /** Appending an empty line starts a new block. */
  lemma {:induction false} BlocksSnocEmpty(lines: seq<string>)
    ensures Blocks(lines + [""]) == Blocks(lines) + [[]]
  {
    if |lines| > 0 {
      assert (lines + [""])[1..] == lines[1..] + [""];
      BlocksSnocEmpty(lines[1..]);
    }
  }

  /** Appending any other line extends the last block. */
  lemma {:induction false} BlocksSnocLine(lines: seq<string>, l: string)
    requires l != ""
    ensures var b := Blocks(lines); Blocks(lines + [l]) == b[..|b| - 1] + [b[|b| - 1] + [l]]
  {
    if |lines| > 0 {
      BlocksSnocLine(lines[1..], l);
      var s := lines + [l];
      assert s[0] == lines[0] && s[1..] == lines[1..] + [l];
      if lines[0] == "" {
        SnocAfterEmpty(lines, l);
      } else {
        SnocAfterLine(lines, l);
      }
    } else {
      assert lines + [l] == [l];
      BlocksOne(l);
    }
  }

  /** The step of `BlocksSnocLine` when the first line is empty. */
  lemma SnocAfterEmpty(lines: seq<string>, l: string)
    requires |lines| > 0 && lines[0] == ""
    requires var rest := Blocks(lines[1..]);
      Blocks(lines[1..] + [l]) == rest[..|rest| - 1] + [rest[|rest| - 1] + [l]]
    requires var s := lines + [l]; s[0] == lines[0] && s[1..] == lines[1..] + [l]
    ensures var b := Blocks(lines); Blocks(lines + [l]) == b[..|b| - 1] + [b[|b| - 1] + [l]]
  {
    var rest, b := Blocks(lines[1..]), Blocks(lines);
    var last := rest[|rest| - 1] + [l];
    var rest' := rest[..|rest| - 1] + [last];
    assert Blocks(lines + [l]) == [[]] + rest';
    assert b == [[]] + rest;
    assert b[..|b| - 1] == [[]] + rest[..|rest| - 1];
    assert b[|b| - 1] == rest[|rest| - 1];
    assert [[]] + rest' == ([[]] + rest[..|rest| - 1]) + [last];
  }

  /** The step of `BlocksSnocLine` when the first line is not empty. */
  lemma SnocAfterLine(lines: seq<string>, l: string)
    requires |lines| > 0 && lines[0] != ""
    requires var rest := Blocks(lines[1..]);
      Blocks(lines[1..] + [l]) == rest[..|rest| - 1] + [rest[|rest| - 1] + [l]]
    requires var s := lines + [l]; s[0] == lines[0] && s[1..] == lines[1..] + [l]
    ensures var b := Blocks(lines); Blocks(lines + [l]) == b[..|b| - 1] + [b[|b| - 1] + [l]]
  {
    var rest, b := Blocks(lines[1..]), Blocks(lines);
    var last := rest[|rest| - 1] + [l];
    var rest' := rest[..|rest| - 1] + [last];
    if |rest| == 1 {
      assert rest' == [last];
      assert Blocks(lines + [l]) == [[lines[0]] + last];
      assert b == [[lines[0]] + rest[0]];
      assert [lines[0]] + last == ([lines[0]] + rest[0]) + [l];
    } else {
      var x, tail := [lines[0]] + rest[0], rest[1..];
      var mid := tail[..|tail| - 1];
      assert rest'[0] == rest[0] && rest'[1..] == mid + [last];
      assert Blocks(lines + [l]) == [x] + (mid + [last]);
      assert b == [x] + tail;
      InitOfCons(x, tail);
      assert tail[|tail| - 1] == rest[|rest| - 1];
      SnocOfCons(x, mid, last);
    }
  }

  lemma InitOfCons<T>(x: T, r: seq<T>)
    requires |r| >= 1
    ensures ([x] + r)[..|r|] == [x] + r[..|r| - 1] && ([x] + r)[|r|] == r[|r| - 1]
  {
  }

  lemma SnocOfCons<T>(x: T, r: seq<T>, y: T)
    ensures [x] + (r + [y]) == ([x] + r) + [y]
  {
  }

  lemma BlocksOne(l: string)
    requires l != ""
    ensures Blocks([l]) == [[l]] && Blocks([]) == [[]]
  {
    var one, e: seq<string> := [l], [];
    assert one[0] == l && one[1..] == e && Blocks(e) == [[]];
    assert [l] + Blocks(e)[0] == [l] && |Blocks(e)[1..]| == 0;
  }

  /** No block holds an empty line. */
  lemma {:induction false} BlocksHaveNoEmptyLine(lines: seq<string>)
    ensures forall b :: 0 <= b < |Blocks(lines)| ==> "" !in Blocks(lines)[b]
  {
    if |lines| > 0 {
      BlocksHaveNoEmptyLine(lines[1..]);
    }
  }

  /** The lines of the blocks are the non-empty lines, in order. */
  function Concat(bs: seq<seq<string>>): seq<string>
  {
    if |bs| == 0 then [] else bs[0] + Concat(bs[1..])
  }

  function NonEmptyLines(lines: seq<string>): seq<string>
  {
    if |lines| == 0 then [] else (if lines[0] == "" then [] else [lines[0]]) + NonEmptyLines(lines[1..])
  }

  lemma {:induction false} BlocksKeepLines(lines: seq<string>)
    ensures Concat(Blocks(lines)) == NonEmptyLines(lines)
  {
    if |lines| > 0 {
      BlocksKeepLines(lines[1..]);
      var rest := Blocks(lines[1..]);
      if lines[0] == "" {
        assert Concat([[]] + rest) == [] + Concat(rest);
      } else {
        var bs := [[lines[0]] + rest[0]] + rest[1..];
        assert bs[1..] == rest[1..];
        assert Concat(rest) == rest[0] + Concat(rest[1..]);
      }
    }
  }

  /** The blocks `read` turns into patterns: all the blocks, except a last
      one left empty. */
  function ReadBlocks(lines: seq<string>): seq<seq<string>>
  {
    var bs := Blocks(lines);
    if |bs[|bs| - 1]| == 0 then bs[..|bs| - 1] else bs
  }

  /** `read`: every block becomes a pattern as soon as an empty line closes
      it; an empty block (two empty lines in a row, or one at the start)
      panics in `Pattern::new`. */
  method Read(data: string) returns (r: Option<seq<Pattern>>)
    ensures r == CollectAll(ReadBlocks(Split(data, "\n")), PatternOf)
  {
    var lines := Split(data, "\n");
    var res: seq<Pattern> := [];
    var cur: seq<string> := [];
    ghost var closed: seq<seq<string>> := [];
    var i := 0;
    while i < |lines|
      invariant 0 <= i <= |lines|
      invariant Blocks(lines[..i]) == closed + [cur]
      invariant CollectAll(closed, PatternOf) == Some(res)
    {
      assert lines[..i + 1] == lines[..i] + [lines[i]];
      if lines[i] == "" {
        BlocksSnocEmpty(lines[..i]);
        CollectAllSnoc(closed, cur, PatternOf);
        closed := closed + [cur];
        var pat := PatternOf(cur);
        if pat.None? {
          assert Blocks(lines[..i + 1]) == closed + [[]];
          assert closed == Blocks(lines[..i + 1])[..|closed|];
          ClosedBlockPanics(lines, i + 1, closed);
          return None;
        }
        res := res + [pat.value];
        cur := [];
      } else {
        BlocksSnocLine(lines[..i], lines[i]);
        assert (closed + [cur])[..|closed|] == closed;
        cur := cur + [lines[i]];
      }
      i := i + 1;
    }
    assert lines[..i] == lines;
    if |cur| > 0 {
      CollectAllSnoc(closed, cur, PatternOf);
      res := res + [PatternOf(cur).value];
    } else {
      assert (closed + [cur])[..|closed|] == closed;
    }
    r := Some(res);
  }

  /** A panicking block among the closed ones makes the whole `read` panic. */
  lemma ClosedBlockPanics(lines: seq<string>, i: nat, closed: seq<seq<string>>)
    requires i <= |lines| && 0 < |closed| < |Blocks(lines[..i])| && closed == Blocks(lines[..i])[..|closed|]
    requires PatternOf(closed[|closed| - 1]).None?
    ensures CollectAll(ReadBlocks(lines), PatternOf).None?
  {
    BlocksPrefix(lines, i);
    var b := |closed| - 1;
    assert Blocks(lines[..i])[b] == Blocks(lines)[b];
    assert ReadBlocks(lines)[b] == closed[b];
  }

  /** The blocks of a prefix agree with the whole one's, except that the
      last of them may still grow. */
  lemma {:induction false} BlocksPrefix(lines: seq<string>, i: nat)
    requires i <= |lines|
    ensures |Blocks(lines[..i])| <= |Blocks(lines)|
    ensures forall b :: 0 <= b < |Blocks(lines[..i])| - 1 ==> Blocks(lines[..i])[b] == Blocks(lines)[b]
    decreases |lines| - i
  {
    if i < |lines| {
      BlocksPrefix(lines, i + 1);
      assert lines[..i + 1] == lines[..i] + [lines[i]];
      if lines[i] == "" {
        BlocksSnocEmpty(lines[..i]);
      } else {
        BlocksSnocLine(lines[..i], lines[i]);
      }
    } else {
      assert lines[..i] == lines;
    }
  }

  /** Every block of the input is a pattern with a reflection line. */
  predicate Parsed(data: string, max: nat)
  {
    var bs := ReadBlocks(Split(data, "\n"));
    forall i :: 0 <= i < |bs| ==> PatternOf(bs[i]).Some? && Reflection(PatternOf(bs[i]).value, max).Some?
  }

  /** `solve1` and `solve2`: the answers of all patterns added up. */
  function Solve(data: string, max: nat): (r: Option<nat>)
    ensures r.Some? <==> Parsed(data, max)
  {
    var bs := ReadBlocks(Split(data, "\n"));
    match CollectAll(bs, PatternOf)
    case None =>
      None
    case Some(ps) =>
      assert forall i :: 0 <= i < |bs| ==> PatternOf(bs[i]) == Some(ps[i]);
      SumReflections(ps, max)
  }

  function SumReflections(ps: seq<Pattern>, max: nat): (r: Option<nat>)
    ensures r.Some? <==> forall i :: 0 <= i < |ps| ==> Reflection(ps[i], max).Some?
  {
    if |ps| == 0 then Some(0)
    else
      var init := ps[..|ps| - 1];
      assert forall i :: 0 <= i < |init| ==> init[i] == ps[i];
      match (SumReflections(init, max), Reflection(ps[|ps| - 1], max))
      case (Some(a), Some(b)) => Some(a + b)
      case _ => None
  }
}
