/** Hot Springs (src/day12.rs). A row of springs '.', '#' and unknown '?'
    comes with the lengths of its runs of damaged springs '#'; `count`
    finds in how many ways the unknowns can be filled in, with a dynamic
    programme over prefixes of the row, one table per group. */
module Day12 {
  import opened RustStd

  /** `Pattern`: the row, prefixed with '.', and the group lengths. */
  datatype Pattern = Pattern(line: string, groups: seq<nat>)

  /** `vec![x; n]` joined, or `Vec::repeat`. */
  function Repeat<T>(x: seq<T>, n: nat): (r: seq<T>)
    ensures |r| == n * |x|
    ensures forall i :: 0 <= i < n * |x| ==> r[i] == x[i % |x|]
  {
    if n == 0 then []
    else
      var r := Repeat(x, n - 1) + x;
      assert forall i :: (n - 1) * |x| <= i < n * |x| ==> i % |x| == i - (n - 1) * |x| by {
        forall i | (n - 1) * |x| <= i < n * |x| ensures i % |x| == i - (n - 1) * |x| {
          DivModUnique(i, |x|, n - 1, i - (n - 1) * |x|);
        }
      }
      r
  }

  function Copies(s: string, n: nat): (r: seq<string>)
    ensures |r| == n && forall i :: 0 <= i < n ==> r[i] == s
  {
    if n == 0 then [] else Copies(s, n - 1) + [s]
  }

  /** The row of `Pattern::new`: `n` copies joined by '?', trailing '.'
      trimmed, and a '.' in front. */
  function LineOf(row: string, n: nat): (line: string)
    ensures |line| >= 1 && line[0] == '.'
    ensures |line| == 1 || line[|line| - 1] != '.'
    ensures line[1..] == TrimEndMatches(Join(Copies(row, n), "?"), '.')
  {
    var t := TrimEndMatches(Join(Copies(row, n), "?"), '.');
    assert ("." + t)[1..] == t;
    "." + t
  }

  /** The comma-separated group lengths of a line. */
  function GroupWords(s: string): seq<string>
  {
    var parts := Split(s, " ");
    if |parts| < 2 then [] else Split(parts[1], ",")
  }

  /** `Pattern::new`: the row with its copies, and the groups repeated `n`
      times. A missing second part or a group that is not a number panics. */
  function PatternOf(s: string, n: nat): (r: Option<Pattern>)
    ensures r.Some? <==> |Split(s, " ")| >= 2 && forall i :: 0 <= i < |GroupWords(s)| ==> ParseUnsigned(GroupWords(s)[i], USIZE_MAX).Some?
    ensures r.Some? ==> r.value.line == LineOf(Split(s, " ")[0], n)
    ensures r.Some? ==> |r.value.groups| == n * |GroupWords(s)|
    ensures r.Some? ==> forall i :: 0 <= i < |r.value.groups| ==> ParseUnsigned(GroupWords(s)[i % |GroupWords(s)|], USIZE_MAX) == Some(r.value.groups[i])
  {
    var parts := Split(s, " ");
    if |parts| < 2 then None
    else
      assert GroupWords(s) == Split(parts[1], ",");
      match ParseAllUnsigned(Split(parts[1], ","), USIZE_MAX)
      case None => None
      case Some(gs) =>
        var words, groups := Split(parts[1], ","), Repeat(gs, n);
        assert forall i :: 0 <= i < |groups| ==> groups[i] == gs[i % |words|];
        Some(Pattern(LineOf(parts[0], n), groups))
  }

  // ---------------------------------------------------------------------
  // The reference count

  /** The last `g` springs of `s` form a damaged run: none of them is '.',
      and the spring before them, if any, is not '#'. */
  predicate EndsWithRun(s: string, g: nat)
  {
    g <= |s| && (forall t :: |s| - g <= t < |s| ==> s[t] != '.') && (g == |s| || s[|s| - g - 1] != '#')
  }

  /** The number of ways to fill in the unknowns of `s` so that its runs of
      '#' are exactly `gs`, in order: either the last spring is operational,
      or the last run ends the row. */
  function Ways(s: string, gs: seq<nat>): nat
    decreases |s|
  {
    if |s| == 0 then (if |gs| == 0 then 1 else 0)
    else
      var g := if |gs| > 0 then gs[|gs| - 1] else 0;
      (if s[|s| - 1] != '#' then Ways(s[..|s| - 1], gs) else 0)
      + (if |gs| > 0 && g > 0 && EndsWithRun(s, g) then Ways(s[..if g == |s| then 0 else |s| - g - 1], gs[..|gs| - 1]) else 0)
  }

  /** With no groups there is one way when no spring is '#', else none. */
  lemma {:induction false} WaysNoGroups(s: string)
    ensures Ways(s, []) == if '#' in s then 0 else 1
    decreases |s|
  {
    if |s| > 0 {
      WaysNoGroups(s[..|s| - 1]);
      assert s == s[..|s| - 1] + [s[|s| - 1]];
    }
  }

  // ---------------------------------------------------------------------
  // The dynamic programme

  /** The first table: 1 for every prefix before the first '#'. */
  function InitRow(line: string): (r: seq<nat>)
    ensures |r| == |line| + 1
    ensures forall j :: 0 <= j <= |line| ==> r[j] == if '#' in line[..j] then 0 else 1
  {
    seq(|line| + 1, j requires 0 <= j <= |line| => if '#' in line[..j] then 0 else 1)
  }

  /** `chunk` after reading `line[i]`: the length of the run of springs that
      are not '.' ending at `i`. */
  function Chunk(line: string, i: nat): (r: nat)
    requires i < |line|
    ensures r <= i + 1
  {
    if line[i] == '.' then 0 else if i == 0 then 1 else Chunk(line, i - 1) + 1
  }

  /** The chunk is a maximal run: no '.' in it, and a '.' just before it
      unless it reaches the start. */
  lemma {:induction false} ChunkRun(line: string, i: nat)
    requires i < |line|
    ensures forall t :: i + 1 - Chunk(line, i) <= t <= i ==> line[t] != '.'
    ensures Chunk(line, i) <= i ==> line[i - Chunk(line, i)] == '.'
  {
    if line[i] != '.' && i > 0 {
      ChunkRun(line, i - 1);
    }
  }

  /** A run of at least `g` springs that are not '.' ends at `i` exactly when
      the chunk there is at least `g`. */
  lemma ChunkAtLeast(line: string, i: nat, g: nat)
    requires i < |line| && g <= i + 1
    ensures Chunk(line, i) >= g <==> forall t :: i + 1 - g <= t <= i ==> line[t] != '.'
  {
    var c := Chunk(line, i);
    ChunkRun(line, i);
    if c < g {
      assert line[i - c] == '.';
    }
  }

  /** Entry `j` of the table for group `g` built from the table `prev` of the
      groups before it. */
  function NextEntry(line: string, prev: seq<nat>, g: nat, j: nat): nat
    requires |prev| == |line| + 1 && j <= |line|
  {
    if j == 0 then 0
    else
      var i := j - 1;
      (if line[i] != '#' then NextEntry(line, prev, g, i) else 0)
      + (if Chunk(line, i) >= g && i >= g && line[i - g] != '#' then prev[i - g] else 0)
  }

  function NextRow(line: string, prev: seq<nat>, g: nat): (r: seq<nat>)
    requires |prev| == |line| + 1
    ensures |r| == |line| + 1 && forall j :: 0 <= j <= |line| ==> r[j] == NextEntry(line, prev, g, j)
  {
    seq(|line| + 1, j requires 0 <= j <= |line| => NextEntry(line, prev, g, j))
  }

  /** The table after the first `k` groups; every table has one entry more
      than the row has springs. */
  function Table(line: string, groups: seq<nat>, k: nat): (r: seq<nat>)
    requires k <= |groups|
    ensures |r| == |line| + 1
  {
    if k == 0 then InitRow(line) else NextRow(line, Table(line, groups, k - 1), groups[k - 1])
  }

  /** Behind a leading '.', a run never reaches the start of the prefix, so
      the reference count splits at the spring before the last run. */
  lemma WaysLast(line: string, j: nat, gs: seq<nat>)
    requires 0 < j <= |line| && line[0] == '.' && |gs| > 0 && gs[|gs| - 1] > 0
    ensures EndsWithRun(line[..j], gs[|gs| - 1]) ==> gs[|gs| - 1] < j
    ensures Ways(line[..j], gs) ==
      (if line[j - 1] != '#' then Ways(line[..j - 1], gs) else 0)
      + (if EndsWithRun(line[..j], gs[|gs| - 1]) then Ways(line[..j - 1 - gs[|gs| - 1]], gs[..|gs| - 1]) else 0)
  {
    var s, g := line[..j], gs[|gs| - 1];
    assert s[..|s| - 1] == line[..j - 1];
    assert Ways(s, gs) == (if s[|s| - 1] != '#' then Ways(s[..|s| - 1], gs) else 0)
      + (if EndsWithRun(s, g) then Ways(s[..if g == |s| then 0 else |s| - g - 1], gs[..|gs| - 1]) else 0);
    if g == j {
      assert s[0] == '.';
    }
    if EndsWithRun(s, g) {
      assert s[..|s| - g - 1] == line[..j - 1 - g];
    }
  }

  /** The programme's guard for a run of `g` ending at `i` is the reference
      condition on the prefix up to `i`. */
  lemma RunGuard(line: string, i: nat, g: nat)
    requires i < |line| && line[0] == '.' && g > 0
    ensures (Chunk(line, i) >= g && i >= g && line[i - g] != '#') <==> EndsWithRun(line[..i + 1], g)
  {
    var s := line[..i + 1];
    if g <= i {
      ChunkAtLeast(line, i, g);
      assert (forall t :: |s| - g <= t < |s| ==> s[t] != '.') <==> (forall t :: i + 1 - g <= t <= i ==> line[t] != '.');
      assert s[|s| - g - 1] == line[i - g];
    } else if g == i + 1 {
      assert s[0] == '.';
    }
  }

  /** With a '.' in front, entry `j` of the table after `k` groups is the
      number of ways to fill in the first `j` springs with runs
      `groups[..k]`. The '.' makes every run start after a spring that can
      separate it, which is what lets the programme read `line[i - g]`. */
  lemma {:induction false} TableIsWays(line: string, groups: seq<nat>, k: nat, j: nat)
    requires |line| > 0 && line[0] == '.' && k <= |groups| && j <= |line|
    requires forall t :: 0 <= t < |groups| ==> groups[t] > 0
    ensures Table(line, groups, k)[j] == Ways(line[..j], groups[..k])
    decreases k, j
  {
    if k == 0 {
      InitIsWays(line, groups, j);
    } else if j > 0 {
      TableIsWays(line, groups, k, j - 1);
      var g := groups[k - 1];
      if EndsWithRun(line[..j], g) {
        WaysLast(line, j, groups[..k]);
        TableIsWays(line, groups, k - 1, j - 1 - g);
      }
      TableStep(line, groups, k, j);
    } else {
      assert |groups[..k]| > 0;
    }
  }

  lemma InitIsWays(line: string, groups: seq<nat>, j: nat)
    requires j <= |line|
    ensures Table(line, groups, 0)[j] == Ways(line[..j], groups[..0])
  {
    assert groups[..0] == [];
    WaysNoGroups(line[..j]);
  }

  /** One entry of a table from the entry before it and the table of the
      groups before. */
  lemma TableStep(line: string, groups: seq<nat>, k: nat, j: nat)
    requires 0 < j <= |line| && line[0] == '.' && 0 < k <= |groups| && groups[k - 1] > 0
    requires Table(line, groups, k)[j - 1] == Ways(line[..j - 1], groups[..k])
    requires EndsWithRun(line[..j], groups[k - 1]) ==> groups[k - 1] < j && Table(line, groups, k - 1)[j - 1 - groups[k - 1]] == Ways(line[..j - 1 - groups[k - 1]], groups[..k - 1])
    ensures Table(line, groups, k)[j] == Ways(line[..j], groups[..k])
  {
    var gs, g, i := groups[..k], groups[k - 1], j - 1;
    var prev := Table(line, groups, k - 1);
    assert Table(line, groups, k)[j] == NextEntry(line, prev, g, j);
    assert gs[|gs| - 1] == g && gs[..|gs| - 1] == groups[..k - 1];
    RunGuard(line, i, g);
    WaysLast(line, j, gs);
  }

  /** One step of the pass: entry `i + 1` from entry `i` and the chunk at `i`. */
  lemma NextEntryStep(line: string, prev: seq<nat>, g: nat, i: nat, chunk: nat, before: nat)
    requires |prev| == |line| + 1 && i < |line|
    requires chunk == Chunk(line, i) && before == NextEntry(line, prev, g, i)
    ensures NextEntry(line, prev, g, i + 1) ==
      (if line[i] != '#' then before else 0) + (if chunk >= g && i >= g && line[i - g] != '#' then prev[i - g] else 0)
  {
  }

  /** `count`: the tables as vectors updated in place, one pass over the row
      per group; the answer is the last entry. */
  method Count(line: string, groups: seq<nat>) returns (r: nat)
    ensures r == Table(line, groups, |groups|)[|line|]
  {
    var dp := new nat[|line| + 1](_ => 0);
    dp[0] := 1;
    var i := 0;
    while i < |line| && line[i] != '#'
      invariant 0 <= i <= |line| && '#' !in line[..i]
      invariant dp[0] == 1
      invariant forall j :: 1 <= j <= i ==> dp[j] == 1
      invariant forall j :: i < j <= |line| ==> dp[j] == 0
    {
      dp[i + 1] := 1;
      assert line[..i + 1] == line[..i] + [line[i]];
      i := i + 1;
    }
    forall j | 0 <= j <= |line| ensures dp[j] == InitRow(line)[j] {
      if i < j {
        assert line[..j][i] == '#';
      } else {
        assert line[..j] == line[..i][..j];
      }
    }
    assert dp[..] == Table(line, groups, 0);
    var k := 0;
    while k < |groups|
      invariant 0 <= k <= |groups| && dp.Length == |line| + 1
      invariant dp[..] == Table(line, groups, k)
    {
      dp := NextTable(line, dp, groups[k]);
      k := k + 1;
    }
    r := dp[|line|];
  }

  /** One pass of `count` for group `g`, building `dp_next`. */
  method NextTable(line: string, dp: array<nat>, g: nat) returns (next: array<nat>)
    requires dp.Length == |line| + 1
    ensures fresh(next) && next[..] == NextRow(line, dp[..], g)
  {
    next := new nat[|line| + 1](_ => 0);
    ghost var prev := dp[..];
    ghost var row := NextRow(line, prev, g);
    var chunk: nat := 0;
    var i := 0;
    while i < |line|
      invariant 0 <= i <= |line| && next.Length == |line| + 1
      invariant chunk == if i == 0 then 0 else Chunk(line, i - 1)
      invariant forall j :: 0 <= j <= i ==> next[j] == row[j]
      invariant forall j :: i < j <= |line| ==> next[j] == 0
    {
      var c := line[i];
      if c != '.' {
        chunk := chunk + 1;
      } else {
        chunk := 0;
      }
      // `dp_next[i + 1]` starts at 0 and receives the two contributions
      var v := 0;
      if c != '#' {
        v := v + next[i];
      }
      if chunk >= g && i >= g && line[i - g] != '#' {
        v := v + dp[i - g];
      }
      NextEntryStep(line, prev, g, i, chunk, row[i]);
      next[i + 1] := v;
      i := i + 1;
    }
    assert next[..] == row;
  }

  /** Counting through the programme gives the reference count whenever the
      row starts with '.', as every row built by `Pattern::new` does. */
  lemma CountIsWays(p: Pattern)
    requires |p.line| > 0 && p.line[0] == '.'
    requires forall t :: 0 <= t < |p.groups| ==> p.groups[t] > 0
    ensures Table(p.line, p.groups, |p.groups|)[|p.line|] == Ways(p.line, p.groups)
  {
    TableIsWays(p.line, p.groups, |p.groups|, |p.line|);
    assert p.line[..|p.line|] == p.line;
    assert p.groups[..|p.groups|] == p.groups;
  }

  /** Without groups the count is 1 when the row has no '#', else 0. */
  lemma CountNoGroups(line: string)
    ensures Table(line, [], 0)[|line|] == if '#' in line then 0 else 1
  {
    assert line[..|line|] == line;
  }

  /** A trailing operational spring does not change the count, so trimming
      the row's trailing '.' does not either. */
  lemma WaysTrailingDot(x: string, gs: seq<nat>)
    requires forall t :: 0 <= t < |gs| ==> gs[t] > 0
    ensures Ways(x + ".", gs) == Ways(x, gs)
  {
    var s := x + ".";
    assert s[..|s| - 1] == x;
    if |gs| > 0 {
      assert gs[|gs| - 1] > 0 && s[|s| - 1] == '.';
      assert !EndsWithRun(s, gs[|gs| - 1]);
    }
  }

  /** A leading operational spring does not change the count either: the
      '.' `Pattern::new` puts in front only serves the programme. */
  lemma {:induction false} WaysLeadingDot(x: string, gs: seq<nat>)
    requires forall t :: 0 <= t < |gs| ==> gs[t] > 0
    ensures Ways("." + x, gs) == Ways(x, gs)
    decreases |x|
  {
    var s := "." + x;
    if |x| == 0 {
      assert s[..0] == "";
      if |gs| > 0 {
        assert !EndsWithRun(s, gs[|gs| - 1]) by { assert s[0] == '.'; }
      }
    } else {
      assert s[..|s| - 1] == "." + x[..|x| - 1];
      WaysLeadingDot(x[..|x| - 1], gs);
      if |gs| > 0 {
        var g, init := gs[|gs| - 1], gs[..|gs| - 1];
        assert forall t :: 0 <= t < |init| ==> init[t] > 0;
        LeadingDotRun(x, g);
        if EndsWithRun(x, g) {
          if g == |x| {
            assert s[..|s| - g - 1] == x[..0];
          } else {
            assert s[..|s| - g - 1] == "." + x[..|x| - g - 1];
            WaysLeadingDot(x[..|x| - g - 1], init);
          }
        }
      }
    }
  }

  /** A run ends the row behind a '.' exactly when it ends the row itself. */
  lemma LeadingDotRun(x: string, g: nat)
    requires g > 0
    ensures EndsWithRun("." + x, g) <==> EndsWithRun(x, g)
  {
    var s := "." + x;
    if g <= |x| {
      assert forall t :: |s| - g <= t < |s| ==> s[t] == x[t - 1];
      assert (forall t :: |s| - g <= t < |s| ==> s[t] != '.') <==> (forall t :: |x| - g <= t < |x| ==> x[t] != '.') by {
        if forall t :: |x| - g <= t < |x| ==> x[t] != '.' {
          forall t | |s| - g <= t < |s| ensures s[t] != '.' {
            assert s[t] == x[t - 1];
          }
        }
        if forall t :: |s| - g <= t < |s| ==> s[t] != '.' {
          forall t | |x| - g <= t < |x| ensures x[t] != '.' {
            assert s[t + 1] == x[t];
          }
        }
      }
      if g < |x| {
        assert s[|s| - g - 1] == x[|x| - g - 1];
      } else {
        assert s[|s| - g - 1] == '.';
      }
    } else if g == |s| {
      assert s[0] == '.';
    }
  }

  /** The count of a parsed pattern: the last entry of its last table. */
  function CountOf(p: Pattern): nat
  {
    Table(p.line, p.groups, |p.groups|)[|p.line|]
  }

  /** A pattern's count is the reference count of its row as joined, before
      the trimming and the leading '.'. */
  lemma {:induction false} PatternCountIsWays(s: string, n: nat)
    requires PatternOf(s, n).Some?
    requires forall t :: 0 <= t < |PatternOf(s, n).value.groups| ==> PatternOf(s, n).value.groups[t] > 0
    ensures CountOf(PatternOf(s, n).value) == Ways(Join(Copies(Split(s, " ")[0], n), "?"), PatternOf(s, n).value.groups)
  {
    var p := PatternOf(s, n).value;
    var joined := Join(Copies(Split(s, " ")[0], n), "?");
    CountIsWays(p);
    assert p.line == "." + p.line[1..];
    WaysLeadingDot(p.line[1..], p.groups);
    TrimmedWays(joined, p.groups);
  }

  /** Trimming trailing '.' leaves the count unchanged. */
  lemma {:induction false} TrimmedWays(x: string, gs: seq<nat>)
    requires forall t :: 0 <= t < |gs| ==> gs[t] > 0
    ensures Ways(TrimEndMatches(x, '.'), gs) == Ways(x, gs)
    decreases |x|
  {
    if |x| > 0 && x[|x| - 1] == '.' {
      TrimmedWays(x[..|x| - 1], gs);
      assert x == x[..|x| - 1] + ".";
      WaysTrailingDot(x[..|x| - 1], gs);
    }
  }

  /** Every line parsed with `Pattern::new`; a line that does not parse
      panics, which makes the whole of `solve` panic. */
  function PatternsOf(lines: seq<string>, n: nat): (r: Option<seq<Pattern>>)
    ensures r.Some? <==> forall i :: 0 <= i < |lines| ==> PatternOf(lines[i], n).Some?
    ensures r.Some? ==> |r.value| == |lines| && forall i :: 0 <= i < |lines| ==> PatternOf(lines[i], n) == Some(r.value[i])
  {
    CollectAll(lines, s => PatternOf(s, n))
  }

  /** The sum of the patterns' counts. */
  function SumCounts(ps: seq<Pattern>): nat
  {
    if |ps| == 0 then 0 else SumCounts(ps[..|ps| - 1]) + CountOf(ps[|ps| - 1])
  }

  /** When every pattern's groups are positive, the sum of the counts is the
      sum of the reference counts. */
  lemma {:induction false} SumCountsIsWays(ps: seq<Pattern>, ws: seq<nat>)
    requires |ws| == |ps|
    requires forall i :: 0 <= i < |ps| ==> CountOf(ps[i]) == ws[i]
    ensures SumCounts(ps) == Sum(ws)
    decreases |ps|
  {
    if |ps| > 0 {
      SumCountsIsWays(ps[..|ps| - 1], ws[..|ws| - 1]);
      assert ws == ws[..|ws| - 1] + [ws[|ws| - 1]];
      SumAppend(ws[..|ws| - 1], [ws[|ws| - 1]]);
    }
  }

  /** `solve`: the counts of all lines added up. */
  method Solve(lines: seq<string>, n: nat) returns (r: Option<nat>)
    ensures r.Some? <==> forall i :: 0 <= i < |lines| ==> PatternOf(lines[i], n).Some?
    ensures r.Some? ==> r.value == SumCounts(PatternsOf(lines, n).value)
  {
    match PatternsOf(lines, n)
    case None =>
      return None;
    case Some(ps) =>
      var sum := AddCounts(ps);
      return Some(sum);
  }

  /** The `sum` over the parsed patterns, one `count` each. */
  method AddCounts(ps: seq<Pattern>) returns (sum: nat)
    ensures sum == SumCounts(ps)
  {
    sum := 0;
    var i := 0;
    while i < |ps|
      invariant 0 <= i <= |ps| && sum == SumCounts(ps[..i])
    {
      assert ps[..i + 1][..i] == ps[..i];
      var c := Count(ps[i].line, ps[i].groups);
      sum := sum + c;
      i := i + 1;
    }
    assert ps[..i] == ps;
  }
}
