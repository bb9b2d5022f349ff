/** Mirage Maintenance (src/day09.rs). Each history is extrapolated by its
    table of differences: `get_diffs` takes differences until a row is all
    zero, `get_next` adds up the rows' last values and `get_prev` folds the
    rows' first values from the bottom up. */
module Day09 {
  import opened RustStd

  /** `diff`: the differences of neighbouring values. */
  function Diff(nums: seq<int>): (r: seq<int>)
    ensures |r| == if |nums| == 0 then 0 else |nums| - 1
    ensures forall i :: 0 <= i < |r| ==> r[i] == nums[i + 1] - nums[i]
  {
    if |nums| == 0 then [] else seq(|nums| - 1, i requires 0 <= i < |nums| - 1 => nums[i + 1] - nums[i])
  }

  predicate AllZero(s: seq<int>)
  {
    forall i :: 0 <= i < |s| ==> s[i] == 0
  }

  /** The rows `get_diffs` returns: the input, then differences until the
      first all-zero row, which is included. The input row itself is never
      checked for zeros. */
  function DiffTable(nums: seq<int>): (rows: seq<seq<int>>)
    ensures |rows| >= 2 && rows[0] == nums
    decreases |nums|
  {
    var d := Diff(nums);
    if AllZero(d) then [nums, d] else [nums] + DiffTable(d)
  }

  /** Dropping the first row leaves the difference row followed by the rest
      of its own table, or just the difference row when that is all zero. */
  lemma DiffTableStep(cur: seq<int>)
    ensures DiffTable(cur)[1..] == if AllZero(Diff(cur)) then [Diff(cur)] else [Diff(cur)] + DiffTable(Diff(cur))[1..]
  {
    var d := Diff(cur);
    if !AllZero(d) {
      assert DiffTable(d) == [d] + DiffTable(d)[1..];
    }
  }

  /** Each row after the first is the difference of the row above. */
  lemma {:induction false} DiffTableRows(nums: seq<int>)
    ensures forall k :: 0 <= k < |DiffTable(nums)| - 1 ==> DiffTable(nums)[k + 1] == Diff(DiffTable(nums)[k])
    decreases |nums|
  {
    var d := Diff(nums);
    if !AllZero(d) {
      DiffTableRows(d);
      var rest := DiffTable(d);
      assert forall k :: 1 <= k < |DiffTable(nums)| ==> DiffTable(nums)[k] == rest[k - 1];
    }
  }

  /** The last row is all zero. */
  lemma {:induction false} DiffTableLast(nums: seq<int>)
    ensures AllZero(DiffTable(nums)[|DiffTable(nums)| - 1])
    decreases |nums|
  {
    var d := Diff(nums);
    if !AllZero(d) {
      DiffTableLast(d);
      LastOfCons(nums, DiffTable(d));
    } else {
      LastOfCons(nums, [d]);
    }
  }

  lemma LastOfCons<T>(x: T, rest: seq<T>)
    requires |rest| >= 1
    ensures ([x] + rest)[|[x] + rest| - 1] == rest[|rest| - 1]
  {
  }

  /** No row between the first and the last is all zero. */
  lemma {:induction false} DiffTableMiddle(nums: seq<int>)
    ensures forall k :: 1 <= k < |DiffTable(nums)| - 1 ==> !AllZero(DiffTable(nums)[k])
    decreases |nums|
  {
    var d := Diff(nums);
    if !AllZero(d) {
      DiffTableMiddle(d);
      var rows, rest := DiffTable(nums), DiffTable(d);
      assert rows == [nums] + rest;
      forall k | 1 <= k < |rows| - 1 ensures !AllZero(rows[k]) {
        assert rows[k] == rest[k - 1];
      }
    }
  }

  /** The last row is all zero and no row between the first and the last is. */
  lemma DiffTableEnds(nums: seq<int>)
    ensures AllZero(DiffTable(nums)[|DiffTable(nums)| - 1])
    ensures forall k :: 1 <= k < |DiffTable(nums)| - 1 ==> !AllZero(DiffTable(nums)[k])
  {
    DiffTableLast(nums);
    DiffTableMiddle(nums);
  }

  /** The rows shrink by one, so there are at most |nums| + 2 of them. */
  lemma {:induction false} DiffTableLength(nums: seq<int>)
    ensures |DiffTable(nums)| <= |nums| + 2
    decreases |nums|
  {
    var d := Diff(nums);
    if !AllZero(d) {
      DiffTableLength(d);
    }
  }

  /** `get_diffs`: the loop pushing difference rows until one is all zero;
      the rows shrink by one, and an empty row counts as all zero, so the
      loop ends. */
  method GetDiffs(nums: seq<int>) returns (res: seq<seq<int>>)
    ensures res == DiffTable(nums)
  {
    res := [nums];
    var cur := nums;
    while true
      invariant res + DiffTable(cur)[1..] == DiffTable(nums)
      decreases |cur|
    {
      DiffTableStep(cur);
      ghost var before := res;
      cur := Diff(cur);
      res := res + [cur];
      if AllZero(cur) {
        return res;
      }
      assert res + DiffTable(cur)[1..] == before + ([cur] + DiffTable(cur)[1..]);
    }
  }

  // ---------------------------------------------------------------------
  // Extrapolation

  /** The sum of the last values of rows `k..`; `None` when one of those rows
      is empty (the source's `last().unwrap()` panics). */
  function NextFrom(rows: seq<seq<int>>, k: nat): Option<int>
    requires k <= |rows|
    decreases |rows| - k
  {
    if k == |rows| then Some(0)
    else if |rows[k]| == 0 then None
    else
      match NextFrom(rows, k + 1)
      case None => None
      case Some(n) => Some(rows[k][|rows[k]| - 1] + n)
  }

  /** The first value of row `k` minus the extrapolated previous value of row
      `k + 1`; `None` when one of the rows is empty (an index panic). */
  function PrevFrom(rows: seq<seq<int>>, k: nat): Option<int>
    requires k <= |rows|
    decreases |rows| - k
  {
    if k == |rows| then Some(0)
    else if |rows[k]| == 0 then None
    else
      match PrevFrom(rows, k + 1)
      case None => None
      case Some(n) => Some(rows[k][0] - n)
  }

  /** `get_next`: walks the rows from the bottom, adding each row's last value. */
  method GetNext(rows: seq<seq<int>>) returns (r: Option<int>)
    ensures r == NextFrom(rows, 0)
    ensures r.None? <==> exists k :: 0 <= k < |rows| && |rows[k]| == 0
  {
    var n := 0;
    var i := |rows|;
    while i > 0
      invariant 0 <= i <= |rows|
      invariant NextFrom(rows, i) == Some(n)
      invariant forall k :: i <= k < |rows| ==> |rows[k]| > 0
    {
      if |rows[i - 1]| == 0 {
        NoneBelow(rows, i - 1, 0);
        return None;
      }
      n := n + rows[i - 1][|rows[i - 1]| - 1];
      i := i - 1;
    }
    r := Some(n);
  }

  /** `get_prev`: walks the rows from the bottom, `n = v[0] - n`. */
  method GetPrev(rows: seq<seq<int>>) returns (r: Option<int>)
    ensures r == PrevFrom(rows, 0)
    ensures r.None? <==> exists k :: 0 <= k < |rows| && |rows[k]| == 0
  {
    var n := 0;
    var i := |rows|;
    while i > 0
      invariant 0 <= i <= |rows|
      invariant PrevFrom(rows, i) == Some(n)
      invariant forall k :: i <= k < |rows| ==> |rows[k]| > 0
    {
      if |rows[i - 1]| == 0 {
        NoneBelow(rows, i - 1, 0);
        return None;
      }
      n := rows[i - 1][0] - n;
      i := i - 1;
    }
    r := Some(n);
  }

  /** An empty row makes the extrapolation from any row above it fail. */
  lemma {:induction false} NoneBelow(rows: seq<seq<int>>, k: nat, j: nat)
    requires j <= k < |rows| && |rows[k]| == 0
    ensures NextFrom(rows, j).None? && PrevFrom(rows, j).None?
    decreases k - j
  {
    if j < k {
      NoneBelow(rows, k, j + 1);
    }
  }

  lemma DiffSnoc(s: seq<int>, x: int)
    requires |s| > 0
    ensures Diff(s + [x]) == Diff(s) + [x - s[|s| - 1]]
  {
    var t, l, r := s + [x], Diff(s + [x]), Diff(s) + [x - s[|s| - 1]];
    assert |l| == |r|;
    forall i | 0 <= i < |l| ensures l[i] == r[i] {
      if i < |s| - 1 {
        assert t[i + 1] == s[i + 1] && t[i] == s[i];
      }
    }
  }

  lemma DiffCons(x: int, s: seq<int>)
    requires |s| > 0
    ensures Diff([x] + s) == [s[0] - x] + Diff(s)
  {
    var t, l, r := [x] + s, Diff([x] + s), [s[0] - x] + Diff(s);
    assert |l| == |r|;
    forall i | 0 <= i < |l| ensures l[i] == r[i] {
      if i > 0 {
        assert t[i + 1] == s[i] && t[i] == s[i - 1];
      }
    }
  }

  /** The extrapolated value extends row `k` so that its differences are row
      `k + 1` extended by its own extrapolated value: the table stays a table
      of differences with one more column on the right. */
  lemma NextExtends(rows: seq<seq<int>>, k: nat)
    requires k + 1 < |rows| && rows[k + 1] == Diff(rows[k])
    requires NextFrom(rows, k).Some?
    ensures Diff(rows[k] + [NextFrom(rows, k).value]) == rows[k + 1] + [NextFrom(rows, k + 1).value]
  {
    DiffSnoc(rows[k], NextFrom(rows, k).value);
  }

  /** The same on the left for the previous value. */
  lemma PrevExtends(rows: seq<seq<int>>, k: nat)
    requires k + 1 < |rows| && rows[k + 1] == Diff(rows[k])
    requires PrevFrom(rows, k).Some?
    ensures Diff([PrevFrom(rows, k).value] + rows[k]) == [PrevFrom(rows, k + 1).value] + rows[k + 1]
  {
    DiffCons(PrevFrom(rows, k).value, rows[k]);
  }

  /** At the all-zero bottom row the extrapolation adds a zero. */
  lemma BottomExtends(rows: seq<seq<int>>)
    requires |rows| > 0 && AllZero(rows[|rows| - 1]) && |rows[|rows| - 1]| > 0
    ensures NextFrom(rows, |rows| - 1) == Some(0) && PrevFrom(rows, |rows| - 1) == Some(0)
  {
  }

  function NextValue(nums: seq<int>): Option<int>
  {
    NextFrom(DiffTable(nums), 0)
  }

  function PrevValue(nums: seq<int>): Option<int>
  {
    PrevFrom(DiffTable(nums), 0)
  }

  /** A constant history of at least two values extrapolates to the same
      constant on both ends. */
  lemma ConstantHistory(nums: seq<int>, c: int)
    requires |nums| >= 2 && forall i :: 0 <= i < |nums| ==> nums[i] == c
    ensures NextValue(nums) == Some(c) && PrevValue(nums) == Some(c)
  {
    ConstantRows(nums, c);
    var rows := DiffTable(nums);
    assert NextFrom(rows, 2) == Some(0) && PrevFrom(rows, 2) == Some(0);
    assert NextFrom(rows, 1) == Some(0);
    assert PrevFrom(rows, 1) == Some(0);
  }

  /** A constant history's table is the history and one row of zeros. */
  lemma ConstantRows(nums: seq<int>, c: int)
    requires |nums| >= 2 && forall i :: 0 <= i < |nums| ==> nums[i] == c
    ensures |Diff(nums)| >= 1 && AllZero(Diff(nums))
    ensures DiffTable(nums) == [nums, Diff(nums)]
  {
    assert AllZero(Diff(nums));
  }

  /** A history of two values 1, 2 gives the rows [1, 2], [1], [] and the
      empty bottom row makes both extrapolations panic. */
  lemma ShortHistoryPanics()
    ensures DiffTable([1, 2]) == [[1, 2], [1], []]
    ensures NextValue([1, 2]).None? && PrevValue([1, 2]).None?
  {
    assert Diff([1, 2]) == [1];
    assert !AllZero([1]) by { assert [1][0] != 0; }
    assert Diff([1]) == [];
    assert DiffTable([1]) == [[1], []];
    NoneBelow([[1, 2], [1], []], 2, 0);
  }

  /** `solve`: the sum of one extrapolated value per history; a panic on any
      history is a panic of the whole. */
  function Solve(histories: seq<seq<int>>, get: seq<int> -> Option<int>): (r: Option<int>)
    ensures r.Some? <==> forall i :: 0 <= i < |histories| ==> get(histories[i]).Some?
    decreases |histories|
  {
    if |histories| == 0 then Some(0)
    else
      var init := histories[..|histories| - 1];
      assert forall i :: 0 <= i < |init| ==> init[i] == histories[i];
      match (Solve(init, get), get(histories[|histories| - 1]))
      case (Some(a), Some(b)) => Some(a + b)
      case _ => None
  }

  /** One more history adds its own value. */
  lemma SolveSnoc(histories: seq<seq<int>>, h: seq<int>, get: seq<int> -> Option<int>)
    requires Solve(histories, get).Some? && get(h).Some?
    ensures Solve(histories + [h], get) == Some(Solve(histories, get).value + get(h).value)
  {
    assert (histories + [h])[..|histories|] == histories;
  }
}
