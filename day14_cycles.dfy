/** The loads of the platform of src/day14.rs: `calc_load`, `hash`,
    `solve1`, and the cycle detection of `solve2`. */
module Day14Cycles {
  import opened RustStd
  import opened Day14

  // ---------------------------------------------------------------------
  // Load and hash

  /** The weight of each row: its distance from the south edge times its
      number of round rocks. */
  function Weights(t: seq<seq<char>>): (r: seq<int>)
    ensures |r| == |t|
  {
    seq(|t|, i requires 0 <= i < |t| => (|t| - i) * Count(t[i], 'O'))
  }

  /** `calc_load`: the sum of the row weights. The load is never negative
      and is zero exactly when there is no round rock. */
  function CalcLoad(t: seq<seq<char>>): (r: int)
    ensures r >= 0
    ensures r == 0 <==> forall y :: 0 <= y < |t| ==> 'O' !in t[y]
  {
    WeightsZero(t);
    Sum(Weights(t))
  }

  lemma {:induction false} WeightsZero(t: seq<seq<char>>)
    ensures Sum(Weights(t)) >= 0
    ensures Sum(Weights(t)) == 0 <==> forall y :: 0 <= y < |t| ==> 'O' !in t[y]
    decreases |t|
  {
    if |t| > 0 {
      var c := Count(t[0], 'O');
      var top := |t| * c;
      var rest := Weights(t[1..]);
      WeightsCons(t);
      SumAppend([top], rest);
      SumOne(top);
      assert Sum(Weights(t)) == top + Sum(rest);
      WeightsZero(t[1..]);
      NoRockSplit(t);
      ZeroProduct(|t|, c);
    } else {
      assert Weights(t) == [];
    }
  }

  /** The top row's weight comes first, then the weights of the rows below. */
  lemma WeightsCons(t: seq<seq<char>>)
    requires |t| > 0
    ensures Weights(t) == [|t| * Count(t[0], 'O')] + Weights(t[1..])
  {
    var w, rest := Weights(t), Weights(t[1..]);
    forall i | 1 <= i < |t| ensures w[i] == rest[i - 1] {
      assert t[i] == t[1..][i - 1];
    }
  }

  lemma ZeroProduct(a: nat, b: nat)
    requires a > 0
    ensures a * b >= 0 && (a * b == 0 <==> b == 0)
  {
    if b > 0 {
      assert a * b >= b;
    }
  }

  lemma SumOne(x: int)
    ensures Sum([x]) == x
  {
    assert [x][..0] == [];
  }

  /** No row holds a rock exactly when the top row does not and no row
      below it does. */
  lemma NoRockSplit(t: seq<seq<char>>)
    requires |t| > 0
    ensures (forall y :: 0 <= y < |t| ==> 'O' !in t[y]) <==>
      'O' !in t[0] && forall y :: 0 <= y < |t[1..]| ==> 'O' !in t[1..][y]
  {
    assert forall y :: 1 <= y < |t| ==> t[y] == t[1..][y - 1];
  }

  /** The top row weighs its height; the rows below weigh as the platform
      without it. */
  lemma LoadFirstRow(t: seq<seq<char>>)
    requires |t| > 0
    ensures CalcLoad(t) == |t| * Count(t[0], 'O') + CalcLoad(t[1..])
  {
    assert Weights(t) == [|t| * Count(t[0], 'O')] + Weights(t[1..]);
    SumAppend([|t| * Count(t[0], 'O')], Weights(t[1..]));
    assert [|t| * Count(t[0], 'O')][..0] == [];
  }

  /** Every row has `w` cells. */
  predicate RowsOf(t: seq<seq<char>>, w: nat)
  {
    forall y :: 0 <= y < |t| ==> |t[y]| == w
  }

  /** `hash`: the rows one after another, so a platform of width `w` hashes
      to `w` characters per row. */
  function Hash(t: seq<seq<char>>): (r: string)
    ensures forall w: nat :: RowsOf(t, w) ==> |r| == |t| * w
  {
    if |t| == 0 then []
    else
      var rest := Hash(t[1..]);
      forall w: nat | RowsOf(t, w) ensures |t[0] + rest| == |t| * w {
        assert RowsOf(t[1..], w) by {
          assert forall y :: 0 <= y < |t| - 1 ==> t[1..][y] == t[y + 1];
        }
        assert |t| * w == w + (|t| - 1) * w;
      }
      t[0] + rest
  }

  /** On a platform of width `w` the cell in row `y` and column `x` is
      character `y * w + x` of the hash. */
  lemma {:induction false} HashCell(t: seq<seq<char>>, w: nat, y: nat, x: nat)
    requires RowsOf(t, w) && y < |t| && x < w
    ensures y * w + x < |Hash(t)| && Hash(t)[y * w + x] == t[y][x]
    decreases y
  {
    assert y * w + x < |t| * w by {
      assert y * w + x < y * w + w == (y + 1) * w;
      assert (y + 1) * w <= |t| * w;
    }
    if y > 0 {
      assert RowsOf(t[1..], w) by {
        assert forall k :: 0 <= k < |t| - 1 ==> t[1..][k] == t[k + 1];
      }
      HashCell(t[1..], w, y - 1, x);
      assert y * w + x == w + ((y - 1) * w + x);
      assert Hash(t) == t[0] + Hash(t[1..]);
    }
  }

  /** For platforms of the same size, equal hashes mean equal platforms. */
  lemma {:induction false} HashInjective(a: seq<seq<char>>, b: seq<seq<char>>)
    requires |a| == |b| && forall r :: 0 <= r < |a| ==> |a[r]| == |b[r]|
    requires Hash(a) == Hash(b)
    ensures a == b
    decreases |a|
  {
    if |a| > 0 {
      assert a[0] == Hash(a)[..|a[0]|] == b[0];
      assert Hash(a[1..]) == Hash(a)[|a[0]|..] == Hash(b[1..]);
      HashInjective(a[1..], b[1..]);
      assert a == [a[0]] + a[1..] && b == [b[0]] + b[1..];
    }
  }

  /** Two platforms of the same size. */
  predicate SameSize(a: seq<seq<char>>, b: seq<seq<char>>)
  {
    Grid(a) && Grid(b) && Height(a) == Height(b) && Width(a) == Width(b)
  }

  lemma SameSizeHash(a: seq<seq<char>>, b: seq<seq<char>>)
    requires SameSize(a, b) && Hash(a) == Hash(b)
    ensures a == b
  {
    HashInjective(a, b);
  }

  /** `solve1`: the load after tilting north. */
  method Solve1(p: Platform) returns (r: int)
    requires p.Valid()
    modifies p
    ensures r == CalcLoad(Tilted(old(p.table), North))
  {
    p.TiltNorth();
    r := CalcLoad(p.table);
  }

  // ---------------------------------------------------------------------
  // Cycles

  /** `x` after `k` applications of `f`. */
  function Iterate<T>(f: T -> T, x: T, k: nat): T
  {
    if k == 0 then x else f(Iterate(f, x, k - 1))
  }

  lemma {:induction false} IterateAdd<T>(f: T -> T, x: T, m: nat, n: nat)
    ensures Iterate(f, x, m + n) == Iterate(f, Iterate(f, x, m), n)
    decreases n
  {
    if n > 0 {
      IterateAdd(f, x, m, n - 1);
    }
  }

  /** Once a state comes back after `p` steps, it comes back after any
      multiple of `p`. */
  lemma {:induction false} IteratePeriodic<T>(f: T -> T, x: T, a: nat, p: nat, q: nat)
    requires Iterate(f, x, a + p) == Iterate(f, x, a)
    ensures Iterate(f, x, a + q * p) == Iterate(f, x, a)
    decreases q
  {
    if q > 0 {
      IteratePeriodic(f, x, a, p, q - 1);
      assert a + q * p == (a + (q - 1) * p) + p;
      IterateAdd(f, x, a + (q - 1) * p, p);
      IterateAdd(f, x, a, p);
    }
  }

  /** From the first state that comes back, the state after `n` steps is
      the one at the same place of the period. */
  lemma CorrectedState<T>(f: T -> T, x: T, s: nat, p: nat, n: nat)
    requires p > 0 && Iterate(f, x, s + 1 + p) == Iterate(f, x, s + 1) && s < n
    ensures Iterate(f, x, s + 1 + (n - 1 - s) % p) == Iterate(f, x, n)
  {
    var q, r := (n - 1 - s) / p, (n - 1 - s) % p;
    assert n == (s + 1 + q * p) + r;
    IteratePeriodic(f, x, s + 1, p, q);
    IterateAdd(f, x, s + 1 + q * p, r);
    IterateAdd(f, x, s + 1, r);
  }

  /** One cycle, on a platform. */
  function Cycled(t: seq<seq<char>>): seq<seq<char>>
  {
    if Grid(t) then CycleOf(t) else t
  }

  /** The platform after `k` cycles. */
  function Iter(t: seq<seq<char>>, k: nat): seq<seq<char>>
  {
    Iterate(Cycled, t, k)
  }

  /** The next platform is one cycle on. */
  lemma IterNext(t: seq<seq<char>>, k: nat)
    requires Grid(Iter(t, k))
    ensures Iter(t, k + 1) == CycleOf(Iter(t, k))
  {
  }

  lemma {:induction false} IterSameSize(t: seq<seq<char>>, k: nat)
    requires Grid(t)
    ensures SameSize(t, Iter(t, k))
    decreases k
  {
    if k > 0 {
      IterSameSize(t, k - 1);
    }
  }

  /** One cycle changes only round rocks and empty cells. */
  lemma CycleCompatible(u: seq<seq<char>>)
    requires Grid(u)
    ensures Compatible(u, CycleOf(u))
  {
    var n := Tilted(u, North);
    var nw := Tilted(n, West);
    var nws := Tilted(nw, South);
    TiltedKeepsFixed(u, North);
    TiltedKeepsFixed(n, West);
    TiltedKeepsFixed(nw, South);
    TiltedKeepsFixed(nws, East);
    CompatibleTrans(u, n, nw);
    CompatibleTrans(u, nw, nws);
    CompatibleTrans(u, nws, CycleOf(u));
  }

  /** Cycles change only round rocks and empty cells. */
  lemma {:induction false} IterCompatible(t: seq<seq<char>>, k: nat)
    requires Grid(t)
    ensures Compatible(t, Iter(t, k))
    decreases k
  {
    if k == 0 {
      forall r | 0 <= r < |t| ensures RowCompatible(t[r], t[r]) {
      }
    } else {
      IterCompatible(t, k - 1);
      IterSameSize(t, k - 1);
      var u := Iter(t, k - 1);
      CycleCompatible(u);
      CompatibleTrans(t, u, Iter(t, k));
    }
  }

  /** Every row a row can become by moving round rocks. */
  function RowChoices(x: seq<char>): set<seq<char>>
  {
    if |x| == 0 then {[]}
    else
      var heads := if Loose(x[0]) then {'O', '.'} else {x[0]};
      set c, y | c in heads && y in RowChoices(x[1..]) :: [c] + y
  }

  /** Every platform a platform can become by moving round rocks. */
  function GridChoices(t: seq<seq<char>>): set<seq<seq<char>>>
  {
    if |t| == 0 then {[]}
    else set x, g | x in RowChoices(t[0]) && g in GridChoices(t[1..]) :: [x] + g
  }

  lemma {:induction false} RowInChoices(x: seq<char>, y: seq<char>)
    requires RowCompatible(x, y)
    ensures y in RowChoices(x)
    decreases |x|
  {
    if |x| > 0 {
      assert RowCompatible(x[1..], y[1..]) by {
        assert forall k :: 0 <= k < |x| - 1 ==> x[1..][k] == x[k + 1] && y[1..][k] == y[k + 1];
      }
      RowInChoices(x[1..], y[1..]);
      assert y == [y[0]] + y[1..];
    }
  }

  lemma {:induction false} GridInChoices(a: seq<seq<char>>, b: seq<seq<char>>)
    requires Compatible(a, b)
    ensures b in GridChoices(a)
    decreases |a|
  {
    if |a| > 0 {
      RowInChoices(a[0], b[0]);
      assert Compatible(a[1..], b[1..]) by {
        assert forall r :: 0 <= r < |a| - 1 ==> a[1..][r] == a[r + 1] && b[1..][r] == b[r + 1];
      }
      GridInChoices(a[1..], b[1..]);
      assert b == [b[0]] + b[1..];
    }
  }

  /** The platforms after cycles 1 to `i`. */
  function Visited(t: seq<seq<char>>, i: nat): set<seq<seq<char>>>
  {
    set a | 1 <= a <= i :: Iter(t, a)
  }

  lemma {:induction false} VisitedCard(t: seq<seq<char>>, i: nat)
    requires Distinct(t, i)
    ensures |Visited(t, i)| == i
    decreases i
  {
    if i > 0 {
      assert Distinct(t, i - 1);
      VisitedCard(t, i - 1);
      VisitedSnoc(t, i);
      CardAddOne(Visited(t, i - 1), Iter(t, i), Visited(t, i));
    } else {
      assert Visited(t, i) == {};
    }
  }

  /** The platforms up to cycle `i` are those up to cycle `i - 1` and a
      new one. */
  lemma VisitedSnoc(t: seq<seq<char>>, i: nat)
    requires i > 0 && Distinct(t, i)
    ensures Visited(t, i) == Visited(t, i - 1) + {Iter(t, i)}
    ensures Iter(t, i) !in Visited(t, i - 1)
  {
  }

  lemma CardAddOne<T>(s: set<T>, x: T, r: set<T>)
    requires x !in s && r == s + {x}
    ensures |r| == |s| + 1
  {
  }

  lemma VisitedChoices(t: seq<seq<char>>, i: nat)
    requires Grid(t)
    ensures Visited(t, i) <= GridChoices(t)
  {
    forall g | g in Visited(t, i) ensures g in GridChoices(t) {
      var a :| 1 <= a <= i && g == Iter(t, a);
      IterCompatible(t, a);
      GridInChoices(t, g);
    }
  }

  /** Pairwise different platforms after cycles 1 to `i` are `i` of the
      finitely many platforms `t` can become. */
  lemma VisitedBound(t: seq<seq<char>>, i: nat)
    requires Grid(t) && Distinct(t, i)
    ensures i <= |GridChoices(t)|
  {
    VisitedCard(t, i);
    VisitedChoices(t, i);
    SubsetCard(Visited(t, i), GridChoices(t));
  }

  /** The number of cycles `solve2` asks about. */
  const CYCLES: nat := 1000000000

  /** The loop of `solve2` stopped after cycle `s + 1 + p`, the first that
      repeats a platform seen before, namely the one after cycle `s + 1`. */
  predicate FirstRepeat(t: seq<seq<char>>, s: nat, p: nat)
    requires Grid(t)
  {
    p > 0 && Iter(t, s + 1 + p) == Iter(t, s + 1) &&
    forall a, b :: 1 <= a < b <= s + p ==> Iter(t, a) != Iter(t, b)
  }

  /** The platforms after cycles 1 to `i` are all different. */
  predicate Distinct(t: seq<seq<char>>, i: nat)
  {
    forall a, b :: 1 <= a < b <= i ==> Iter(t, a) != Iter(t, b)
  }

  /** `v[k]` is the platform after cycle `k + 1`. */
  predicate Trace(t: seq<seq<char>>, v: seq<seq<seq<char>>>)
  {
    forall k :: 0 <= k < |v| ==> v[k] == Iter(t, k + 1)
  }

  lemma TraceSnoc(t: seq<seq<char>>, v: seq<seq<seq<char>>>, x: seq<seq<char>>)
    requires Trace(t, v) && x == Iter(t, |v| + 1)
    ensures Trace(t, v + [x])
  {
    forall k | 0 <= k < |v| + 1 ensures (v + [x])[k] == Iter(t, k + 1) {
      if k < |v| {
        assert (v + [x])[k] == v[k];
      }
    }
  }

  /** The state of the loop of `solve2` after `i` cycles: `v[k]` is the
      platform after cycle `k + 1`, `h` maps its hash to `k`, and no
      platform came twice. */
  ghost predicate Seen(t: seq<seq<char>>, v: seq<seq<seq<char>>>, h: map<string, nat>, i: nat)
  {
    |v| == i && Trace(t, v) &&
    (forall k :: 0 <= k < i ==> Hash(v[k]) in h && h[Hash(v[k])] == k) &&
    (forall key :: key in h ==> h[key] < i && Hash(v[h[key]]) == key) &&
    Distinct(t, i)
  }

  /** A platform with a new hash is a new platform. */
  lemma SeenExtend(t: seq<seq<char>>, v: seq<seq<seq<char>>>, h: map<string, nat>, i: nat, x: seq<seq<char>>)
    requires Seen(t, v, h, i) && x == Iter(t, i + 1) && Hash(x) !in h
    ensures Seen(t, v + [x], h[Hash(x) := i], i + 1)
  {
    TraceSnoc(t, v, x);
    forall a | 1 <= a <= i ensures Iter(t, a) != x {
      assert Hash(v[a - 1]) in h;
    }
  }

  /** A platform with a hash seen before repeats the platform of that
      cycle, and no earlier cycle repeated. */
  lemma SeenRepeat(t: seq<seq<char>>, v: seq<seq<seq<char>>>, h: map<string, nat>, i: nat, x: seq<seq<char>>, key: string)
    requires Grid(t) && Seen(t, v, h, i) && x == Iter(t, i + 1) && key == Hash(x) && key in h
    ensures h[key] < i && FirstRepeat(t, h[key], i - h[key])
  {
    var s := h[key];
    IterSameSize(t, s + 1);
    IterSameSize(t, i + 1);
    SameSizeHash(Iter(t, s + 1), x);
  }

  /** The loop of `solve2` stops at a repeated hash: the first repeat is
      found and `v` holds the platforms up to it. */
  lemma RepeatFound(t: seq<seq<char>>, v: seq<seq<seq<char>>>, h: map<string, nat>, i: nat, x: seq<seq<char>>, key: string)
    requires Grid(t) && Seen(t, v, h, i) && x == Iter(t, i + 1) && key == Hash(x) && key in h
    ensures h[key] < i && FirstRepeat(t, h[key], i - h[key])
    ensures |v + [x]| == i + 1 && Trace(t, v + [x])
  {
    SeenRepeat(t, v, h, i, x, key);
    TraceSnoc(t, v, x);
  }

  /** `solve2`: cycles until a platform repeats, then reads the load after a
      billion cycles off the period. */
  method Solve2(p: Platform) returns (r: int, ghost start: nat, ghost period: nat)
    requires p.Valid()
    modifies p
    ensures FirstRepeat(old(p.table), start, period)
    ensures r == CalcLoad(Iter(old(p.table), CYCLES))
  {
    ghost var t0 := p.table;
    var v, start', period' := FindRepeat(p);
    start, period := start', period';
    if CYCLES <= start' {
      r := CalcLoad(v[CYCLES - 1]);
    } else {
      var x := (CYCLES - 1 - start') % period';
      CorrectedState(Cycled, t0, start, period, CYCLES);
      r := CalcLoad(v[start' + x]);
    }
  }

  /** The loop of `solve2`: it stops at the first cycle whose platform was
      seen before. `v[k]` is the platform after cycle `k + 1`. */
  method FindRepeat(p: Platform) returns (v: seq<seq<seq<char>>>, start: nat, period: nat)
    requires p.Valid()
    modifies p
    ensures FirstRepeat(old(p.table), start, period)
    ensures |v| == start + period + 1 && Trace(old(p.table), v)
  {
    ghost var t0 := p.table;
    var h: map<string, nat> := map[];
    v := [];
    var i: nat := 0;
    ghost var bound := |GridChoices(t0)|;
    while true
      invariant p.Valid() && p.table == Iter(t0, i)
      invariant Seen(t0, v, h, i)
      invariant i <= bound
      decreases bound - i
    {
      ghost var seen := v;
      IterNext(t0, i);
      p.Cycle();
      v := v + [p.table];
      var hash := Hash(p.table);
      if hash in h {
        RepeatFound(t0, seen, h, i, p.table, hash);
        start := h[hash];
        period := i - start;
        break;
      }
      SeenExtend(t0, seen, h, i, p.table);
      VisitedBound(t0, i + 1);
      h := h[hash := i];
      i := i + 1;
    }
  }

  /** The load `solve2` reads as written: `v[start + x - 1]`, with
      `x = (1000000000 - start) % period`, is the platform after cycle
      `start + x`; `None` where the `usize` arithmetic underflows and the
      program panics. */
  function AsWrittenLoad(t: seq<seq<char>>, start: nat, period: nat): (r: Option<int>)
    requires Grid(t) && period > 0
    ensures r.None? <==> start > CYCLES || (start == 0 && CYCLES % period == 0)
  {
    if start > CYCLES then None
    else
      var x := (CYCLES - start) % period;
      if start + x == 0 then None else Some(CalcLoad(Iter(t, start + x)))
  }

  /** One less than a number leaves the remainder one lower, or `p - 1`
      where it was 0. */
  lemma ModPred(m: nat, p: nat)
    requires m > 0 && p > 0
    ensures (m - 1) % p == if m % p == 0 then p - 1 else m % p - 1
  {
    var q, x := m / p, m % p;
    assert m == p * q + x;
    if x == 0 {
      assert q >= 1;
      assert p * (q - 1) == p * q - p;
      DivModUnique(m - 1, p, q - 1, p - 1);
    } else {
      DivModUnique(m - 1, p, q, x - 1);
    }
  }

  /** Where the remainder `x` is not 0, the platform `solve2` reads as
      written is the one after a billion cycles. */
  lemma AsWrittenAgrees(t: seq<seq<char>>, start: nat, period: nat)
    requires Grid(t) && FirstRepeat(t, start, period)
    requires start <= CYCLES && (CYCLES - start) % period != 0
    ensures AsWrittenLoad(t, start, period) == Some(CalcLoad(Iter(t, CYCLES)))
  {
    ModPred(CYCLES - start, period);
    CorrectedState(Cycled, t, start, period, CYCLES);
  }

  /** Where the repeat starts after the first cycle and `x` is 0, `solve2`
      as written reads `v[start - 1]`, the platform one cycle before the
      repeating stretch, which is not the platform after a billion
      cycles. */
  lemma AsWrittenMisreads(t: seq<seq<char>>, start: nat, period: nat)
    requires Grid(t) && FirstRepeat(t, start, period)
    requires 0 < start < CYCLES && (CYCLES - start) % period == 0
    ensures AsWrittenLoad(t, start, period) == Some(CalcLoad(Iter(t, start)))
    ensures Iter(t, start) != Iter(t, CYCLES)
  {
    assert AsWrittenLoad(t, start, period) == Some(CalcLoad(Iter(t, start)));
    assert Iter(t, start) != Iter(t, start + period) by {
      assert 1 <= start < start + period;
    }
    WrapsToPeriodEnd(t, start, period);
  }

  /** With `x` 0, a billion cycles end on the last platform of the
      repeating stretch. */
  lemma WrapsToPeriodEnd(t: seq<seq<char>>, start: nat, period: nat)
    requires Grid(t) && FirstRepeat(t, start, period)
    requires start < CYCLES && (CYCLES - start) % period == 0
    ensures Iter(t, start + period) == Iter(t, CYCLES)
  {
    PeriodEndIndex(start, period, CYCLES);
    CorrectedState(Cycled, t, start, period, CYCLES);
  }

  lemma PeriodEndIndex(start: nat, period: nat, n: nat)
    requires period > 0 && start < n && (n - start) % period == 0
    ensures start + 1 + (n - 1 - start) % period == start + period
  {
    ModPred(n - start, period);
  }

  /** A platform no cycle changes. */
  lemma {:induction false} StillIter(t: seq<seq<char>>, k: nat)
    requires Grid(t) && CycleOf(t) == t
    ensures Iter(t, k) == t
    decreases k
  {
    if k > 0 {
      StillIter(t, k - 1);
    }
  }

  /** The platform of one empty cell: where `solve2` as written panics,
      although its load after a billion cycles is 0. */
  lemma AsWrittenPanics()
    ensures Grid(["."]) && FirstRepeat(["."], 0, 1)
    ensures forall s, p :: FirstRepeat(["."], s, p) ==> s == 0 && p == 1
    ensures AsWrittenLoad(["."], 0, 1).None?
    ensures CalcLoad(Iter(["."], CYCLES)) == 0
  {
    var t := ["."];
    assert Grid(t);
    forall d: Dir ensures Tilted(t, d) == t {
      SettledGridStays(t, d);
    }
    assert CycleOf(t) == t;
    StillIter(t, 1);
    StillIter(t, 2);
    StillIter(t, CYCLES);
    forall s, p | FirstRepeat(t, s, p) ensures s == 0 && p == 1 {
      if s + p >= 2 {
        assert false;
      }
    }
    assert Weights(t) == [0];
    assert [0][..0] == [];
  }
}
