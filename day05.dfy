/** Seed almanac (src/day05.rs). A range is `size` consecutive values from
    `start`; a map is a list of entries, each sending the values of its
    `from` range to the `to` range by a fixed shift, values outside every
    entry staying as they are. `solve` pushes the seed ranges through the
    maps, splitting them into pieces, and reports the smallest start. */
module Day05 {
  import opened RustStd

  datatype Range = Range(start: nat, size: nat)

  predicate Contains(r: Range, x: int)
  {
    r.start <= x < r.start + r.size
  }

  /** Some range of `rs` holds the value `y`. */
  predicate InAny(rs: seq<Range>, y: int)
  {
    exists j :: 0 <= j < |rs| && Contains(rs[j], y)
  }

  function Smaller(a: int, b: int): int
  {
    if a <= b then a else b
  }

  function Larger(a: int, b: int): int
  {
    if a >= b then a else b
  }

  /** The outcome of `Range::intersect`: no common part (`None` in the
      source), the common part, or a `u64` subtraction below zero, which
      panics. */
  datatype Meet = Disjoint | Overlap(i: Range) | Underflow

  /** `Range::intersect`: disjoint when one range starts at or after the
      other's end; otherwise from the larger start to the smaller last value. */
  function Intersect(a: Range, r: Range): (m: Meet)
    ensures m.Overlap? ==> m.i.start == Larger(a.start, r.start)
    ensures m.Overlap? ==> m.i.start + m.i.size == Smaller(a.start + a.size, r.start + r.size)
    ensures m.Overlap? ==> m.i.size > 0
  {
    if a.start >= r.start + r.size || r.start >= a.start + a.size then Disjoint
    else
      var start := Larger(a.start, r.start);
      var end := Smaller(a.start + a.size - 1, r.start + r.size - 1);
      if end < start then Underflow else Overlap(Range(start, end - start + 1))
  }

  /** For non-empty ranges: `None` exactly when no value lies in both, and
      otherwise the result holds exactly the values lying in both. */
  lemma IntersectSpec(a: Range, r: Range)
    requires a.size > 0 && r.size > 0
    ensures !Intersect(a, r).Underflow?
    ensures Intersect(a, r).Disjoint? <==> forall x :: !(Contains(a, x) && Contains(r, x))
    ensures Intersect(a, r).Overlap? ==> forall x :: Contains(Intersect(a, r).i, x) <==> Contains(a, x) && Contains(r, x)
  {
    if !Intersect(a, r).Disjoint? {
      var x := Larger(a.start, r.start);
      assert Contains(a, x) && Contains(r, x);
    }
  }

  lemma IntersectSymmetric(a: Range, r: Range)
    ensures Intersect(a, r) == Intersect(r, a)
  {
  }

  /** The subtraction can only go below zero when a range is empty. */
  lemma IntersectUnderflow(a: Range, r: Range)
    ensures Intersect(a, r).Underflow? ==> a.size == 0 || r.size == 0
    ensures a.size == 0 && r.start < a.start < r.start + r.size ==> Intersect(a, r).Underflow?
  {
  }

  /** An entry of a map: `from` is sent to `to`, which has the same size. */
  datatype RangeMap = RangeMap(from: Range, to: Range)

  /** `RangeMap::new([dest, src, len])`: `v[0..2]` panics on a shorter vector. */
  function NewRangeMap(v: seq<nat>): (r: Option<RangeMap>)
    ensures r.Some? <==> |v| >= 3
  {
    if |v| < 3 then None else Some(RangeMap(Range(v[1], v[2]), Range(v[0], v[2])))
  }

  /** Where an entry sends the value `x` of its `from` range. */
  function Shift(rm: RangeMap, x: int): int
  {
    x - rm.from.start + rm.to.start
  }

  /** `RangeMap::map`: a range inside `from` moves by to.start - from.start;
      any other range panics. */
  function MapRange(rm: RangeMap, r: Range): Option<Range>
  {
    if r.start >= rm.from.start && r.start + r.size <= rm.from.start + rm.from.size then
      Some(Range(rm.to.start + r.start - rm.from.start,
                 Smaller(rm.from.start + rm.from.size, r.start + r.size) - r.start))
    else None
  }

  /** A range inside `from` is shifted whole: same size, and its values are
      exactly the shifted values of the original. */
  lemma MapRangeSpec(rm: RangeMap, r: Range)
    ensures MapRange(rm, r).Some? <==> rm.from.start <= r.start && r.start + r.size <= rm.from.start + rm.from.size
    ensures MapRange(rm, r).Some? ==> MapRange(rm, r).value.size == r.size
    ensures MapRange(rm, r).Some? ==> forall x :: Contains(r, x) <==> Contains(MapRange(rm, r).value, Shift(rm, x))
  {
  }

  /** The entry line "dest src len" builds the entry that sends src..src+len
      to dest..dest+len. */
  lemma NewRangeMapShift(dest: nat, src: nat, len: nat, x: int)
    requires src <= x < src + len
    ensures NewRangeMap([dest, src, len]).Some?
    ensures Contains(NewRangeMap([dest, src, len]).value.from, x)
    ensures Shift(NewRangeMap([dest, src, len]).value, x) == dest + (x - src)
    ensures Contains(NewRangeMap([dest, src, len]).value.to, dest + (x - src))
  {
  }

  /** What a map does to a single value: the first entry holding it shifts
      it; a value in no entry stays. */
  function ApplyMap(m: seq<RangeMap>, x: int): int
    decreases |m|
  {
    if |m| == 0 then x
    else if Contains(m[0].from, x) then Shift(m[0], x)
    else ApplyMap(m[1..], x)
  }

  lemma {:induction false} ApplyMapAt(m: seq<RangeMap>, k: nat, x: int)
    requires k < |m| && Contains(m[k].from, x)
    requires forall j :: 0 <= j < k ==> !Contains(m[j].from, x)
    ensures ApplyMap(m, x) == Shift(m[k], x)
    decreases k
  {
    if k > 0 {
      assert !Contains(m[0].from, x);
      ApplyMapAt(m[1..], k - 1, x);
    }
  }

  lemma {:induction false} ApplyMapOutside(m: seq<RangeMap>, x: int)
    requires forall j :: 0 <= j < |m| ==> !Contains(m[j].from, x)
    ensures ApplyMap(m, x) == x
    decreases |m|
  {
    if |m| > 0 {
      assert !Contains(m[0].from, x);
      ApplyMapOutside(m[1..], x);
    }
  }

  /** Entries with non-empty `from` ranges, sorted by start and not
      overlapping. */
  predicate Ordered(m: seq<RangeMap>)
  {
    (forall j :: 0 <= j < |m| ==> m[j].from.size > 0)
    && forall i, j :: 0 <= i < j < |m| ==> m[i].from.start + m[i].from.size <= m[j].from.start
  }

  // Range::map_rng

  /** Which test decides whether the uncovered part before an entry is
      pushed: the source compares against the start of the whole input
      range; the evident intent is the start of the part still unmapped. */
  datatype Guard = AsWritten | Corrected

  predicate PushesGap(g: Guard, self: Range, cr: Range, i: Range)
  {
    match g
    case AsWritten => i.start != self.start
    case Corrected => i.start != cr.start
  }

  /** The pieces pushed so far and the still unmapped rest `cr`. */
  datatype Scan = Scan(res: seq<Range>, cr: Range)

  /** The uncovered part of `cr` before `i`, pushed when the guard says so. */
  function Gap(g: Guard, self: Range, cr: Range, i: Range): seq<Range>
    requires cr.start <= i.start
  {
    if PushesGap(g, self, cr, i) then [Range(cr.start, i.start - cr.start)] else []
  }

  /** What is left of `cr` after `i`. */
  function Rest(cr: Range, i: Range): Range
    requires cr.start <= i.start + i.size <= cr.start + cr.size
  {
    Range(i.start + i.size, cr.size - (i.start + i.size - cr.start))
  }

  /** One entry of the loop in `map_rng`. */
  function StepRng(self: Range, s: Scan, rm: RangeMap, g: Guard): Option<Scan>
  {
    match Intersect(s.cr, rm.from)
    case Disjoint => Some(s)
    case Underflow => None
    case Overlap(i) =>
      match MapRange(rm, i)
      case None => None
      case Some(mapped) => Some(Scan(s.res + Gap(g, self, s.cr, i) + [mapped], Rest(s.cr, i)))
  }

  function ScanEntries(self: Range, m: seq<RangeMap>, k: nat, g: Guard): Option<Scan>
    requires k <= |m|
  {
    if k == 0 then Some(Scan([], self))
    else
      match ScanEntries(self, m, k - 1, g)
      case None => None
      case Some(s) => StepRng(self, s, m[k - 1], g)
  }

  /** What `map_rng` returns: the pieces, then the unmapped rest when it is
      not empty; `None` for a panic. */
  function MapRngSpec(self: Range, m: seq<RangeMap>, g: Guard): Option<seq<Range>>
  {
    match ScanEntries(self, m, |m|, g)
    case None => None
    case Some(s) => Some(if s.cr.size > 0 then s.res + [s.cr] else s.res)
  }

  /** `Range::map_rng`, its loop over the map's entries. */
  method MapRng(self: Range, m: seq<RangeMap>, g: Guard) returns (r: Option<seq<Range>>)
    ensures r == MapRngSpec(self, m, g)
  {
    var res: seq<Range> := [];
    var cr := self;
    var k := 0;
    while k < |m|
      invariant 0 <= k <= |m|
      invariant ScanEntries(self, m, k, g) == Some(Scan(res, cr))
    {
      var step := MapEntry(self, m[k], g, res, cr);
      if step.None? {
        ScanStopsAt(self, m, k, g);
        return None;
      }
      res, cr := step.value.res, step.value.cr;
      k := k + 1;
    }
    if cr.size > 0 {
      res := res + [cr];
    }
    r := Some(res);
  }

  /** One turn of the loop of `map_rng`, over the entry `rm`: the gap
      before the overlap and its image are pushed and `cr` shrinks to the
      part after it; `None` for a panic. */
  method MapEntry(self: Range, rm: RangeMap, g: Guard, res0: seq<Range>, cr0: Range) returns (r: Option<Scan>)
    ensures r == StepRng(self, Scan(res0, cr0), rm, g)
  {
    var res, cr := res0, cr0;
    var meet := Intersect(cr, rm.from);
    if meet.Underflow? {
      return None;
    }
    if meet.Overlap? {
      var i := meet.i;
      if PushesGap(g, self, cr, i) {
        res := res + [Range(cr.start, i.start - cr.start)];
      } else {
        assert res == res + [];
      }
      var mapped := MapRange(rm, i);
      if mapped.None? {
        return None;
      }
      res := res + [mapped.value];
      var s := cr.start;
      var start := i.start + i.size;
      cr := Range(start, cr.size - (start - s));
    }
    r := Some(Scan(res, cr));
  }

  /** A panic ends the scan: once `None`, always `None`. */
  lemma {:induction false} ScanEntriesStaysNone(self: Range, m: seq<RangeMap>, k: nat, g: Guard)
    requires k <= |m| && ScanEntries(self, m, k, g).None?
    ensures MapRngSpec(self, m, g).None?
    decreases |m| - k
  {
    if k < |m| {
      ScanEntriesStaysNone(self, m, k + 1, g);
    }
  }

  /** A panic in entry `k` makes the whole scan panic. */
  lemma ScanStopsAt(self: Range, m: seq<RangeMap>, k: nat, g: Guard)
    requires k < |m| && ScanEntries(self, m, k, g).Some?
    requires StepRng(self, ScanEntries(self, m, k, g).value, m[k], g).None?
    ensures MapRngSpec(self, m, g).None?
  {
    ScanEntriesStaysNone(self, m, k + 1, g);
  }

  function SumSizes(rs: seq<Range>): nat
  {
    if |rs| == 0 then 0 else SumSizes(rs[..|rs| - 1]) + rs[|rs| - 1].size
  }

  lemma {:induction false} SumSizesAppend(a: seq<Range>, b: seq<Range>)
    ensures SumSizes(a + b) == SumSizes(a) + SumSizes(b)
    decreases |b|
  {
    if |b| == 0 {
      assert a + b == a;
    } else {
      assert (a + b)[..|a + b| - 1] == a + b[..|b| - 1];
      SumSizesAppend(a, b[..|b| - 1]);
    }
  }

  /** `cr` is the upper part of `self`. */
  predicate Spans(self: Range, cr: Range)
  {
    self.start <= cr.start && cr.start + cr.size == self.start + self.size
  }

  /** None of the first `k` entries meets `cr`. */
  ghost predicate Unseen(m: seq<RangeMap>, k: nat, cr: Range)
    requires k <= |m|
  {
    forall j, x :: 0 <= j < k && cr.start <= x < cr.start + cr.size ==> !Contains(m[j].from, x)
  }

  /** An empty `cr` lies at or before every entry still to come. */
  predicate StaysBefore(m: seq<RangeMap>, k: nat, cr: Range)
    requires k <= |m|
  {
    cr.size == 0 ==> forall j :: k <= j < |m| ==> cr.start <= m[j].from.start
  }

  /** The map as a function on values. */
  function Image(m: seq<RangeMap>): int -> int
  {
    x => ApplyMap(m, x)
  }

  /** The image under `f` of every value in lo..hi lies in some range of `rs`. */
  ghost predicate Covers(f: int -> int, lo: int, hi: int, rs: seq<Range>)
  {
    forall x :: lo <= x < hi ==> InAny(rs, f(x))
  }

  /** Every value of `rs` is the image under `f` of a value in lo..hi. */
  ghost predicate Images(f: int -> int, lo: int, hi: int, rs: seq<Range>)
  {
    forall j, y :: 0 <= j < |rs| && Contains(rs[j], y) ==> exists x :: lo <= x < hi && f(x) == y
  }

  predicate AllNonEmpty(rs: seq<Range>)
  {
    forall j :: 0 <= j < |rs| ==> rs[j].size > 0
  }

  /** What holds after the first `k` entries of an ordered map:
      `cr` is the upper part of the input, no entry seen so far meets it,
      the pieces hold exactly the images of the values below it, and the
      sizes add up. */
  ghost predicate ScanInv(self: Range, m: seq<RangeMap>, k: nat, g: Guard, s: Scan)
    requires k <= |m|
  {
    Spans(self, s.cr) && Unseen(m, k, s.cr) && StaysBefore(m, k, s.cr)
    && SumSizes(s.res) + s.cr.size == self.size
    && Covers(Image(m), self.start, s.cr.start, s.res)
    && Images(Image(m), self.start, s.cr.start, s.res)
    && (g == Corrected ==> AllNonEmpty(s.res))
  }

  lemma InAnyAppend(a: seq<Range>, b: seq<Range>, y: int)
    requires InAny(a, y) || InAny(b, y)
    ensures InAny(a + b, y)
  {
    if InAny(a, y) {
      var j :| 0 <= j < |a| && Contains(a[j], y);
      assert (a + b)[j] == a[j];
    } else {
      var j :| 0 <= j < |b| && Contains(b[j], y);
      assert (a + b)[|a| + j] == b[j];
    }
  }

  /** A value of the unmapped rest that lies before entry `k`'s range is in
      no entry at all, so the map leaves it unchanged. */
  lemma GapIsIdentity(m: seq<RangeMap>, k: nat, cr: Range, x: int)
    requires Ordered(m) && k < |m|
    requires Unseen(m, k, cr)
    requires cr.start <= x < m[k].from.start && x < cr.start + cr.size
    ensures ApplyMap(m, x) == x
  {
    forall j | 0 <= j < |m| ensures !Contains(m[j].from, x) {
      if j > k {
        assert m[k].from.start + m[k].from.size <= m[j].from.start;
      }
    }
    ApplyMapOutside(m, x);
  }

  /** One step of an ordered map keeps `ScanInv`. */
  lemma StepKeepsInv(self: Range, m: seq<RangeMap>, k: nat, k1: nat, g: Guard, s: Scan)
    requires k1 == k + 1
    requires Ordered(m) && k < |m| && ScanInv(self, m, k, g, s)
    ensures StepRng(self, s, m[k], g).Some?
    ensures ScanInv(self, m, k1, g, StepRng(self, s, m[k], g).value)
  {
    IntersectUnderflow(s.cr, m[k].from);
    match Intersect(s.cr, m[k].from)
    case Disjoint =>
      forall j, x | 0 <= j < k1 && s.cr.start <= x < s.cr.start + s.cr.size
        ensures !Contains(m[j].from, x)
      {
      }
    case Overlap(i) =>
      OverlapKeepsInv(self, m, k, k1, g, s, i);
    case Underflow =>
  }

  /** The shape of an overlapping step: `i` is the part of `cr` in entry
      k's range, the entry maps it whole, and the gap before it is pushed
      (with the size `i.start - cr.start`) when the guard says so. */
  lemma OverlapShape(self: Range, m: seq<RangeMap>, k: nat, g: Guard, s: Scan, i: Range)
    requires Ordered(m) && k < |m| && ScanInv(self, m, k, g, s)
    requires Intersect(s.cr, m[k].from) == Overlap(i)
    ensures s.cr.start <= i.start && i.start + i.size <= s.cr.start + s.cr.size
    ensures MapRange(m[k], i).Some? && MapRange(m[k], i).value.size == i.size
    ensures StepRng(self, s, m[k], g) ==
      Some(Scan(s.res + Gap(g, self, s.cr, i) + [MapRange(m[k], i).value],
                Rest(s.cr, i)))
    ensures i.start != s.cr.start ==> Gap(g, self, s.cr, i) == [Range(s.cr.start, i.start - s.cr.start)]
    ensures |Gap(g, self, s.cr, i)| <= 1
    ensures forall j :: 0 <= j < |Gap(g, self, s.cr, i)| ==> Gap(g, self, s.cr, i)[j].start == s.cr.start
    ensures forall j :: 0 <= j < |Gap(g, self, s.cr, i)| ==> Gap(g, self, s.cr, i)[j].size == i.start - s.cr.start
    ensures g == Corrected ==> forall j :: 0 <= j < |Gap(g, self, s.cr, i)| ==> Gap(g, self, s.cr, i)[j].size > 0
  {
    MapRangeSpec(m[k], i);
  }

  /** The values of an overlapping step: those of `i` are sent by entry k,
      those of `cr` before it are in no entry. */
  lemma OverlapValues(self: Range, m: seq<RangeMap>, k: nat, g: Guard, s: Scan, i: Range)
    requires Ordered(m) && k < |m| && ScanInv(self, m, k, g, s)
    requires Intersect(s.cr, m[k].from) == Overlap(i)
    ensures MapRange(m[k], i).Some?
    ensures forall x :: i.start <= x < i.start + i.size ==> Contains(MapRange(m[k], i).value, Image(m)(x))
    ensures forall x :: s.cr.start <= x < i.start ==> Image(m)(x) == x
    ensures forall y :: Contains(MapRange(m[k], i).value, y) ==>
      exists x :: i.start <= x < i.start + i.size && Image(m)(x) == y
  {
    MapRangeSpec(m[k], i);
    forall y | Contains(MapRange(m[k], i).value, y)
      ensures exists x :: i.start <= x < i.start + i.size && Image(m)(x) == y
    {
      var x := y - m[k].to.start + m[k].from.start;
      assert Contains(i, x) && Shift(m[k], x) == y;
      ApplyMapAt(m, k, x);
      assert Image(m)(x) == y;
    }
    forall x | i.start <= x < i.start + i.size ensures Contains(MapRange(m[k], i).value, Image(m)(x)) {
      ApplyMapAt(m, k, x);
    }
    forall x | s.cr.start <= x < i.start ensures Image(m)(x) == x {
      GapIsIdentity(m, k, s.cr, x);
    }
  }

  lemma SumSizesGap(g: Guard, self: Range, cr: Range, i: Range)
    requires cr.start <= i.start
    requires i.start != cr.start ==> Gap(g, self, cr, i) == [Range(cr.start, i.start - cr.start)]
    requires forall j :: 0 <= j < |Gap(g, self, cr, i)| ==> Gap(g, self, cr, i)[j].size == i.start - cr.start
    ensures SumSizes(Gap(g, self, cr, i)) == i.start - cr.start
  {
    var gap := Gap(g, self, cr, i);
    if |gap| == 1 {
      assert gap[..0] == [];
    }
  }

  lemma OverlapKeepsInv(self: Range, m: seq<RangeMap>, k: nat, k1: nat, g: Guard, s: Scan, i: Range)
    requires k1 == k + 1
    requires Ordered(m) && k < |m| && ScanInv(self, m, k, g, s)
    requires Intersect(s.cr, m[k].from) == Overlap(i)
    ensures StepRng(self, s, m[k], g).Some?
    ensures ScanInv(self, m, k1, g, StepRng(self, s, m[k], g).value)
  {
    OverlapShape(self, m, k, g, s, i);
    var cr := s.cr;
    var mapped := MapRange(m[k], i).value;
    var gap := Gap(g, self, cr, i);
    var res' := s.res + gap + [mapped];
    var cr' := Rest(cr, i);
    assert StepRng(self, s, m[k], g).value == Scan(res', cr');
    assert Spans(self, cr');
    assert Unseen(m, k1, cr') by {
      UnseenAfterOverlap(m, k, k1, cr, i);
    }
    assert StaysBefore(m, k1, cr') by {
      if cr'.size == 0 {
        forall j | k1 <= j < |m| ensures cr'.start <= m[j].from.start {
          assert m[k].from.start + m[k].from.size <= m[j].from.start;
        }
      }
    }
    assert SumSizes(res') + cr'.size == self.size by {
      SumSizesGap(g, self, cr, i);
      SumSizesAppend(s.res + gap, [mapped]);
      SumSizesAppend(s.res, gap);
    }
    OverlapImagesKept(self, m, k, g, s, i);
    assert g == Corrected ==> AllNonEmpty(res') by {
      if g == Corrected {
        forall j | 0 <= j < |res'| ensures res'[j].size > 0 {
          if j < |s.res| { assert res'[j] == s.res[j]; }
          else if j < |s.res| + |gap| { assert res'[j] == gap[j - |s.res|]; }
        }
      }
    }
  }

  /** After the overlap, the rest starts at the end of `i`, which is the end
      of entry k's range or the end of `cr`; so entry k does not meet it. */
  lemma UnseenAfterOverlap(m: seq<RangeMap>, k: nat, k1: nat, cr: Range, i: Range)
    requires k1 == k + 1
    requires k < |m| && Unseen(m, k, cr)
    requires Intersect(cr, m[k].from) == Overlap(i)
    ensures Unseen(m, k1, Rest(cr, i))
  {
  }

  /** The covering and image facts of `ScanInv` carry over an overlapping step. */
  lemma OverlapImagesKept(self: Range, m: seq<RangeMap>, k: nat, g: Guard, s: Scan, i: Range)
    requires Ordered(m) && k < |m| && ScanInv(self, m, k, g, s)
    requires Intersect(s.cr, m[k].from) == Overlap(i)
    ensures MapRange(m[k], i).Some? && s.cr.start <= i.start
    ensures var res' := s.res + Gap(g, self, s.cr, i) + [MapRange(m[k], i).value];
      Covers(Image(m), self.start, i.start + i.size, res') && Images(Image(m), self.start, i.start + i.size, res')
  {
    OverlapShape(self, m, k, g, s, i);
    OverlapValues(self, m, k, g, s, i);
    var mapped := MapRange(m[k], i).value;
    var gap := Gap(g, self, s.cr, i);
    CoverStep(Image(m), self.start, s.cr.start, i.start, i.start + i.size, s.res, gap, mapped);
    ImageStep(Image(m), self.start, s.cr.start, i.start, i.start + i.size, s.res, gap, mapped);
  }

  /** Pushing the gap and the mapped part keeps every value below `ie` covered. */
  lemma CoverStep(f: int -> int, lo: int, crs: nat, mid: nat, ie: int,
                  res: seq<Range>, gap: seq<Range>, mapped: Range)
    requires crs <= mid
    requires Covers(f, lo, crs, res)
    requires mid != crs ==> gap == [Range(crs, mid - crs)]
    requires forall x :: crs <= x < mid ==> f(x) == x
    requires forall x :: mid <= x < ie ==> Contains(mapped, f(x))
    ensures Covers(f, lo, ie, res + gap + [mapped])
  {
    forall x | lo <= x < ie
      ensures InAny(res + gap + [mapped], f(x))
    {
      if x < crs {
        InAnyAppend(res, gap, f(x));
        InAnyAppend(res + gap, [mapped], f(x));
      } else if x < mid {
        assert Contains(gap[0], f(x));
        InAnyAppend(res, gap, f(x));
        InAnyAppend(res + gap, [mapped], f(x));
      } else {
        assert Contains([mapped][0], f(x));
        InAnyAppend(res + gap, [mapped], f(x));
      }
    }
  }

  /** Pushing the gap and the mapped part adds only images of values below `ie`. */
  lemma ImageStep(f: int -> int, lo: int, crs: nat, mid: nat, ie: int,
                  res: seq<Range>, gap: seq<Range>, mapped: Range)
    requires lo <= crs <= mid <= ie
    requires Images(f, lo, crs, res)
    requires forall j :: 0 <= j < |gap| ==> gap[j] == Range(crs, mid - crs)
    requires forall x :: crs <= x < mid ==> f(x) == x
    requires forall y :: Contains(mapped, y) ==> exists x :: mid <= x < ie && f(x) == y
    ensures Images(f, lo, ie, res + gap + [mapped])
  {
    var out := res + gap + [mapped];
    forall j, y | 0 <= j < |out| && Contains(out[j], y)
      ensures exists x :: lo <= x < ie && f(x) == y
    {
      if j < |res| {
        assert out[j] == res[j];
        var x :| lo <= x < crs && f(x) == y;
        assert lo <= x < ie;
      } else if j < |res| + |gap| {
        assert out[j] == gap[j - |res|];
        assert f(y) == y && lo <= y < ie;
      } else {
        assert out[j] == mapped;
        var x :| mid <= x < ie && f(x) == y;
        assert lo <= x < ie;
      }
    }
  }

  /** Entry `k - 1` takes the scan from `prev` to a state that keeps `ScanInv`. */
  lemma StepInv(self: Range, m: seq<RangeMap>, k: nat, g: Guard, prev: Scan) returns (s: Scan)
    requires Ordered(m) && 0 < k <= |m| && ScanInv(self, m, k - 1, g, prev)
    requires ScanEntries(self, m, k - 1, g) == Some(prev)
    ensures ScanEntries(self, m, k, g) == Some(s)
    ensures ScanInv(self, m, k, g, s)
  {
    var k0 := k - 1;
    StepKeepsInv(self, m, k0, k, g, prev);
    var next := StepRng(self, prev, m[k0], g);
    assert ScanEntries(self, m, k, g) == next;
    s := next.value;
  }

  lemma ScanInvInitially(self: Range, m: seq<RangeMap>, g: Guard)
    requires self.size > 0
    ensures ScanInv(self, m, 0, g, Scan([], self))
  {
  }

  lemma {:induction false} ScanEntriesInv(self: Range, m: seq<RangeMap>, k: nat, g: Guard) returns (s: Scan)
    requires Ordered(m) && k <= |m| && self.size > 0
    ensures ScanEntries(self, m, k, g) == Some(s)
    ensures ScanInv(self, m, k, g, s)
  {
    if k == 0 {
      s := Scan([], self);
      ScanInvInitially(self, m, g);
    } else {
      var prev := ScanEntriesInv(self, m, k - 1, g);
      s := StepInv(self, m, k, g, prev);
    }
  }


  /** `map_rng` over an ordered map: no panic, every input value's image
      lies in some output range, every output value is the image of an input
      value (values in no entry pass through unchanged), and the output
      sizes add up to the input size. With the corrected test no output
      range is empty. */
  lemma MapRngPoints(self: Range, m: seq<RangeMap>, g: Guard)
    requires Ordered(m) && self.size > 0
    ensures MapRngSpec(self, m, g).Some?
    ensures var out := MapRngSpec(self, m, g).value;
      (forall x :: Contains(self, x) ==> InAny(out, ApplyMap(m, x)))
      && (forall j, y :: 0 <= j < |out| && Contains(out[j], y) ==> exists x :: Contains(self, x) && ApplyMap(m, x) == y)
      && SumSizes(out) == self.size
      && (g == Corrected ==> forall j :: 0 <= j < |out| ==> out[j].size > 0)
  {
    MapRngPieces(self, m, g);
    var out := MapRngSpec(self, m, g).value;
    var hi := self.start + self.size;
    forall x | Contains(self, x) ensures InAny(out, ApplyMap(m, x)) {
      assert Image(m)(x) == ApplyMap(m, x);
    }
    forall j, y | 0 <= j < |out| && Contains(out[j], y)
      ensures exists x :: Contains(self, x) && ApplyMap(m, x) == y
    {
      var x :| self.start <= x < hi && Image(m)(x) == y;
      assert Contains(self, x);
    }
  }

  /** The same over the whole input, in terms of the scan's predicates. */
  lemma MapRngPieces(self: Range, m: seq<RangeMap>, g: Guard)
    requires Ordered(m) && self.size > 0
    ensures MapRngSpec(self, m, g).Some?
    ensures var out, hi := MapRngSpec(self, m, g).value, self.start + self.size;
      Covers(Image(m), self.start, hi, out) && Images(Image(m), self.start, hi, out)
      && SumSizes(out) == self.size && (g == Corrected ==> AllNonEmpty(out))
  {
    var s := ScanEntriesInv(self, m, |m|, g);
    var rest := if s.cr.size > 0 then [s.cr] else [];
    if s.cr.size == 0 {
      assert s.res + rest == s.res;
    }
    assert MapRngSpec(self, m, g) == Some(s.res + rest);
    RestFixed(m, s.cr);
    FinishScan(Image(m), self.start, s.cr, s.res);
    assert s.cr.start + s.cr.size == self.start + self.size;
    SumSizesAppend(s.res, rest);
    if g == Corrected {
      NonEmptyAppend(s.res, rest);
    }
  }

  /** Values that no entry meets are left in place. */
  lemma RestFixed(m: seq<RangeMap>, cr: Range)
    requires Unseen(m, |m|, cr)
    ensures forall x :: cr.start <= x < cr.start + cr.size ==> Image(m)(x) == x
  {
    forall x | cr.start <= x < cr.start + cr.size ensures Image(m)(x) == x {
      ApplyMapOutside(m, x);
    }
  }

  lemma NonEmptyAppend(a: seq<Range>, b: seq<Range>)
    requires AllNonEmpty(a) && AllNonEmpty(b)
    ensures AllNonEmpty(a + b)
  {
    forall j | 0 <= j < |a + b| ensures (a + b)[j].size > 0 {
      if j >= |a| {
        assert (a + b)[j] == b[j - |a|];
      }
    }
  }

  /** Pushing the rest, when not empty, completes the pieces: values the
      map leaves in place are covered by the rest itself. */
  lemma FinishScan(f: int -> int, lo: int, cr: Range, res: seq<Range>)
    requires lo <= cr.start
    requires Covers(f, lo, cr.start, res) && Images(f, lo, cr.start, res)
    requires forall x :: cr.start <= x < cr.start + cr.size ==> f(x) == x
    ensures var out := res + (if cr.size > 0 then [cr] else []);
      Covers(f, lo, cr.start + cr.size, out) && Images(f, lo, cr.start + cr.size, out)
  {
    var out := res + (if cr.size > 0 then [cr] else []);
    forall x | lo <= x < cr.start + cr.size ensures InAny(out, f(x)) {
      if x >= cr.start {
        assert Contains(out[|res|], f(x));
      } else {
        InAnyAppend(res, if cr.size > 0 then [cr] else [], f(x));
      }
    }
    forall j, y | 0 <= j < |out| && Contains(out[j], y)
      ensures exists x :: lo <= x < cr.start + cr.size && f(x) == y
    {
      if j < |res| {
        assert out[j] == res[j];
        var x :| lo <= x < cr.start && f(x) == y;
      } else {
        assert f(y) == y;
      }
    }
  }

  // The guard in map_rng

  /** Two entries side by side, `a..a+n` to `t1` and `a+n..a+2n` to
      `t2`, over the input `a..a+2n` (for instance 0..5 to 100, 5..10 to 200
      over 0..10). */
  predicate Adjacent(self: Range, m: seq<RangeMap>, a: nat, n: nat, t1: nat, t2: nat)
  {
    n > 0 && self == Range(a, n + n) && |m| == 2
    && m[0] == RangeMap(Range(a, n), Range(t1, n)) && m[1] == RangeMap(Range(a + n, n), Range(t2, n))
  }

  /** On adjacent entries the guard as written pushes an empty piece at
      `a+n` (the part before the second entry, which is empty, because the
      test compares with the start of the whole input); the corrected guard
      pushes only the two mapped pieces. */
  lemma MapRngPushesEmptyPiece(self: Range, m: seq<RangeMap>, a: nat, n: nat, t1: nat, t2: nat)
    requires Adjacent(self, m, a, n, t1, t2)
    ensures MapRngSpec(self, m, AsWritten) == Some([Range(t1, n), Range(a + n, 0), Range(t2, n)])
    ensures MapRngSpec(self, m, Corrected) == Some([Range(t1, n), Range(t2, n)])
  {
    AdjacentSecondStep(self, m, AsWritten, a, n, t1, t2);
    AdjacentSecondStep(self, m, Corrected, a, n, t1, t2);
  }

  /** The first entry maps the lower half. */
  lemma AdjacentFirstStep(self: Range, m: seq<RangeMap>, g: Guard, a: nat, n: nat, t1: nat, t2: nat)
    requires Adjacent(self, m, a, n, t1, t2)
    ensures ScanEntries(self, m, 1, g) == Some(Scan([Range(t1, n)], Range(a + n, n)))
  {
    var i := Range(a, n);
    assert Intersect(self, m[0].from) == Overlap(i);
    assert Gap(g, self, self, i) == [];
    ScanStep(self, m, 1, g, Scan([], self), i, Range(t1, n));
    assert [] + Gap(g, self, self, i) + [Range(t1, n)] == [Range(t1, n)];
  }

  /** The second entry maps the upper half; as written, the empty part
      before it is pushed too, since it starts away from `a`. */
  lemma AdjacentSecondStep(self: Range, m: seq<RangeMap>, g: Guard, a: nat, n: nat, t1: nat, t2: nat)
    requires Adjacent(self, m, a, n, t1, t2)
    ensures ScanEntries(self, m, 2, g) ==
      Some(Scan(if g == AsWritten then [Range(t1, n), Range(a + n, 0), Range(t2, n)] else [Range(t1, n), Range(t2, n)],
                Range(a + n + n, 0)))
  {
    var cr := Range(a + n, n);
    AdjacentFirstStep(self, m, g, a, n, t1, t2);
    assert Intersect(cr, m[1].from) == Overlap(cr);
    assert Gap(g, self, cr, cr) == if g == AsWritten then [Range(a + n, 0)] else [];
    ScanStep(self, m, 2, g, Scan([Range(t1, n)], cr), cr, Range(t2, n));
    if g == AsWritten {
      assert [Range(t1, n)] + Gap(g, self, cr, cr) + [Range(t2, n)] == [Range(t1, n), Range(a + n, 0), Range(t2, n)];
    } else {
      assert [Range(t1, n)] + Gap(g, self, cr, cr) + [Range(t2, n)] == [Range(t1, n), Range(t2, n)];
    }
  }

  lemma ScanStep(self: Range, m: seq<RangeMap>, k: nat, g: Guard, s: Scan, i: Range, mapped: Range)
    requires 0 < k <= |m| && ScanEntries(self, m, k - 1, g) == Some(s)
    requires Intersect(s.cr, m[k - 1].from) == Overlap(i) && MapRange(m[k - 1], i) == Some(mapped)
    ensures s.cr.start <= i.start && i.start + i.size <= s.cr.start + s.cr.size
    ensures ScanEntries(self, m, k, g) == Some(Scan(s.res + Gap(g, self, s.cr, i) + [mapped], Rest(s.cr, i)))
  {
  }


  // solve: every seed range through every map, then the smallest start

  /** One stage of `solve`: each range through `map_rng`, the pieces
      concatenated in order (`map` then `flatten`). */
  function MapAll(cur: seq<Range>, m: seq<RangeMap>, g: Guard): Option<seq<Range>>
  {
    if |cur| == 0 then Some([])
    else
      match (MapAll(cur[..|cur| - 1], m, g), MapRngSpec(cur[|cur| - 1], m, g))
      case (Some(a), Some(b)) => Some(a + b)
      case _ => None
  }

  /** The ranges after the first maps, in order. */
  function ThroughMaps(seeds: seq<Range>, maps: seq<seq<RangeMap>>, g: Guard): Option<seq<Range>>
  {
    if |maps| == 0 then Some(seeds)
    else
      match ThroughMaps(seeds, maps[..|maps| - 1], g)
      case None => None
      case Some(cur) => MapAll(cur, maps[|maps| - 1], g)
  }

  function Starts(rs: seq<Range>): (r: seq<int>)
    ensures |r| == |rs| && forall j :: 0 <= j < |rs| ==> r[j] == rs[j].start
  {
    seq(|rs|, j requires 0 <= j < |rs| => rs[j].start as int)
  }

  /** What `solve` returns: the smallest start after the last map; `None`
      for a panic, including `min` of no ranges. */
  function SolveSpec(seeds: seq<Range>, maps: seq<seq<RangeMap>>, g: Guard): Option<int>
  {
    match ThroughMaps(seeds, maps, g)
    case None => None
    case Some(cur) => Min(Starts(cur))
  }

  /** Where the maps send one value, first map first. */
  function ApplyAll(maps: seq<seq<RangeMap>>, x: int): int
  {
    if |maps| == 0 then x else ApplyMap(maps[|maps| - 1], ApplyAll(maps[..|maps| - 1], x))
  }

  /** The `map`/`flatten` of one stage, range by range. */
  method MapStage(cur: seq<Range>, m: seq<RangeMap>, g: Guard) returns (r: Option<seq<Range>>)
    ensures r == MapAll(cur, m, g)
  {
    var out: seq<Range> := [];
    var j := 0;
    while j < |cur|
      invariant j <= |cur|
      invariant MapAll(cur[..j], m, g) == Some(out)
    {
      var pieces := MapRng(cur[j], m, g);
      MapAllStep(cur, m, g, j, out, pieces);
      if pieces.None? {
        return None;
      }
      out := out + pieces.value;
      j := j + 1;
    }
    assert cur[..j] == cur;
    r := Some(out);
  }

  /** One more range of the stage: its pieces are appended, or its panic
      is the stage's. */
  lemma MapAllStep(cur: seq<Range>, m: seq<RangeMap>, g: Guard, j: nat, out: seq<Range>, pieces: Option<seq<Range>>)
    requires j < |cur| && MapAll(cur[..j], m, g) == Some(out) && pieces == MapRngSpec(cur[j], m, g)
    ensures pieces.Some? ==> MapAll(cur[..j + 1], m, g) == Some(out + pieces.value)
    ensures pieces.None? ==> MapAll(cur, m, g).None?
  {
    assert cur[..j + 1][..j] == cur[..j];
    if pieces.None? {
      MapAllStaysNone(cur, m, g, j + 1);
    }
  }

  lemma {:induction false} MapAllStaysNone(cur: seq<Range>, m: seq<RangeMap>, g: Guard, j: nat)
    requires j <= |cur| && MapAll(cur[..j], m, g).None?
    ensures MapAll(cur, m, g).None?
    decreases |cur| - j
  {
    if j < |cur| {
      assert cur[..j + 1][..j] == cur[..j];
      MapAllStaysNone(cur, m, g, j + 1);
    } else {
      assert cur[..j] == cur;
    }
  }

  /** `solve`: the ranges go through the maps one map at a time. */
  method Solve(seeds: seq<Range>, maps: seq<seq<RangeMap>>, g: Guard) returns (r: Option<int>)
    ensures r == SolveSpec(seeds, maps, g)
  {
    var cur := seeds;
    var i := 0;
    while i < |maps|
      invariant i <= |maps|
      invariant ThroughMaps(seeds, maps[..i], g) == Some(cur)
    {
      var next := MapStage(cur, maps[i], g);
      assert maps[..i + 1][..i] == maps[..i];
      if next.None? {
        ThroughMapsStaysNone(seeds, maps, g, i + 1);
        return None;
      }
      cur := next.value;
      i := i + 1;
    }
    assert maps[..i] == maps;
    r := Min(Starts(cur));
  }

  lemma {:induction false} ThroughMapsStaysNone(seeds: seq<Range>, maps: seq<seq<RangeMap>>, g: Guard, i: nat)
    requires i <= |maps| && ThroughMaps(seeds, maps[..i], g).None?
    ensures ThroughMaps(seeds, maps, g).None?
    decreases |maps| - i
  {
    if i < |maps| {
      assert maps[..i + 1][..i] == maps[..i];
      ThroughMapsStaysNone(seeds, maps, g, i + 1);
    } else {
      assert maps[..i] == maps;
    }
  }

  /** The image under `m` of every value of `cur` lies in a range of `out`. */
  ghost predicate CoversAll(cur: seq<Range>, f: int -> int, out: seq<Range>)
  {
    forall x :: InAny(cur, x) ==> InAny(out, f(x))
  }

  /** Every value of `out` is the image of a value of `cur`. */
  ghost predicate ImagesOf(cur: seq<Range>, f: int -> int, out: seq<Range>)
  {
    forall j, y :: 0 <= j < |out| && Contains(out[j], y) ==> exists x :: InAny(cur, x) && f(x) == y
  }

  /** One stage, with an ordered map and no empty range: no panic, the
      output holds exactly the images of the input values, and with the
      corrected guard no output range is empty. */
  lemma {:induction false} MapAllPoints(cur: seq<Range>, m: seq<RangeMap>, g: Guard)
    requires Ordered(m) && AllNonEmpty(cur)
    ensures MapAll(cur, m, g).Some?
    ensures CoversAll(cur, x => ApplyMap(m, x), MapAll(cur, m, g).value)
    ensures ImagesOf(cur, x => ApplyMap(m, x), MapAll(cur, m, g).value)
    ensures g == Corrected ==> AllNonEmpty(MapAll(cur, m, g).value)
    decreases |cur|
  {
    if |cur| > 0 {
      var init, last := cur[..|cur| - 1], cur[|cur| - 1];
      MapAllPoints(init, m, g);
      MapRngPoints(last, m, g);
      var a, b := MapAll(init, m, g).value, MapRngSpec(last, m, g).value;
      assert MapAll(cur, m, g) == Some(a + b);
      CombineStage(init, last, x => ApplyMap(m, x), a, b);
      assert init + [last] == cur;
      if g == Corrected {
        forall j | 0 <= j < |a + b| ensures (a + b)[j].size > 0 {
          if j < |a| { assert (a + b)[j] == a[j]; } else { assert (a + b)[j] == b[j - |a|]; }
        }
      }
    }
  }

  /** The covering and image facts of the ranges before the last one and of
      the last one combine. */
  lemma CombineStage(init: seq<Range>, last: Range, f: int -> int, a: seq<Range>, b: seq<Range>)
    requires CoversAll(init, f, a) && ImagesOf(init, f, a)
    requires forall x :: Contains(last, x) ==> InAny(b, f(x))
    requires forall j, y :: 0 <= j < |b| && Contains(b[j], y) ==> exists x :: Contains(last, x) && f(x) == y
    ensures CoversAll(init + [last], f, a + b) && ImagesOf(init + [last], f, a + b)
  {
    var cur := init + [last];
    forall x | InAny(cur, x) ensures InAny(a + b, f(x)) {
      var j :| 0 <= j < |cur| && Contains(cur[j], x);
      if j < |init| {
        assert cur[j] == init[j];
        InAnyAppend(a, b, f(x));
      } else {
        InAnyAppend(a, b, f(x));
      }
    }
    forall j, y | 0 <= j < |a + b| && Contains((a + b)[j], y)
      ensures exists x :: InAny(cur, x) && f(x) == y
    {
      if j < |a| {
        assert (a + b)[j] == a[j];
        var x :| InAny(init, x) && f(x) == y;
        var i :| 0 <= i < |init| && Contains(init[i], x);
        assert cur[i] == init[i];
      } else {
        assert (a + b)[j] == b[j - |a|];
        var x :| Contains(last, x) && f(x) == y;
        assert cur[|init|] == last;
      }
    }
  }

  /** All maps, with the corrected guard: the final ranges hold exactly the
      images of the seed values under all maps, none of them empty. */
  lemma {:induction false} ThroughMapsPoints(seeds: seq<Range>, maps: seq<seq<RangeMap>>)
    requires AllNonEmpty(seeds) && forall i :: 0 <= i < |maps| ==> Ordered(maps[i])
    ensures ThroughMaps(seeds, maps, Corrected).Some?
    ensures CoversAll(seeds, x => ApplyAll(maps, x), ThroughMaps(seeds, maps, Corrected).value)
    ensures ImagesOf(seeds, x => ApplyAll(maps, x), ThroughMaps(seeds, maps, Corrected).value)
    ensures AllNonEmpty(ThroughMaps(seeds, maps, Corrected).value)
    decreases |maps|
  {
    if |maps| == 0 {
      forall x | InAny(seeds, x) ensures InAny(seeds, ApplyAll(maps, x)) { }
      forall j, y | 0 <= j < |seeds| && Contains(seeds[j], y)
        ensures exists x :: InAny(seeds, x) && ApplyAll(maps, x) == y
      {
        assert InAny(seeds, y);
      }
    } else {
      var init := maps[..|maps| - 1];
      var m := maps[|maps| - 1];
      ThroughMapsPoints(seeds, init);
      var cur := ThroughMaps(seeds, init, Corrected).value;
      MapAllPoints(cur, m, Corrected);
      var out := MapAll(cur, m, Corrected).value;
      ComposeStage(seeds, x => ApplyAll(init, x), cur, x => ApplyMap(m, x), out, x => ApplyAll(maps, x));
    }
  }

  /** Two stages compose: images of images are images of the composition. */
  lemma ComposeStage(seeds: seq<Range>, f: int -> int, cur: seq<Range>, h: int -> int, out: seq<Range>, fh: int -> int)
    requires forall x :: fh(x) == h(f(x))
    requires CoversAll(seeds, f, cur) && ImagesOf(seeds, f, cur)
    requires CoversAll(cur, h, out) && ImagesOf(cur, h, out)
    ensures CoversAll(seeds, fh, out) && ImagesOf(seeds, fh, out)
  {
    forall x | InAny(seeds, x) ensures InAny(out, fh(x)) {
      assert InAny(cur, f(x));
    }
    forall j, y | 0 <= j < |out| && Contains(out[j], y)
      ensures exists x :: InAny(seeds, x) && fh(x) == y
    {
      var v :| InAny(cur, v) && h(v) == y;
      var i :| 0 <= i < |cur| && Contains(cur[i], v);
      var x :| InAny(seeds, x) && f(x) == v;
      assert fh(x) == y;
    }
  }

  /** With ordered maps, non-empty seed ranges and the corrected guard,
      `solve` reports the smallest location: the image of some seed value,
      and no seed value has a smaller image. */
  lemma SolveIsSmallestImage(seeds: seq<Range>, maps: seq<seq<RangeMap>>)
    requires |seeds| > 0 && AllNonEmpty(seeds)
    requires forall i :: 0 <= i < |maps| ==> Ordered(maps[i])
    ensures SolveSpec(seeds, maps, Corrected).Some?
    ensures exists x :: InAny(seeds, x) && ApplyAll(maps, x) == SolveSpec(seeds, maps, Corrected).value
    ensures forall x :: InAny(seeds, x) ==> SolveSpec(seeds, maps, Corrected).value <= ApplyAll(maps, x)
  {
    ThroughMapsPoints(seeds, maps);
    var out := ThroughMaps(seeds, maps, Corrected).value;
    assert Contains(seeds[0], seeds[0].start);
    SmallestStart(seeds, x => ApplyAll(maps, x), out, seeds[0].start);
  }

  /** When `out` holds exactly the images of the non-empty `seeds` and no
      range of it is empty, its smallest start is the smallest image. */
  lemma SmallestStart(seeds: seq<Range>, f: int -> int, out: seq<Range>, x0: int)
    requires InAny(seeds, x0)
    requires CoversAll(seeds, f, out) && ImagesOf(seeds, f, out) && AllNonEmpty(out)
    ensures Min(Starts(out)).Some?
    ensures exists x :: InAny(seeds, x) && f(x) == Min(Starts(out)).value
    ensures forall x :: InAny(seeds, x) ==> Min(Starts(out)).value <= f(x)
  {
    assert InAny(out, f(x0));
    var r := Min(Starts(out)).value;
    var j :| 0 <= j < |out| && Starts(out)[j] == r;
    assert Contains(out[j], r);
    var x1 :| InAny(seeds, x1) && f(x1) == r;
    forall x | InAny(seeds, x) ensures r <= f(x) {
      assert InAny(out, f(x));
      var i :| 0 <= i < |out| && Contains(out[i], f(x));
      assert Starts(out)[i] == out[i].start;
    }
  }

  /** With the guard as written, the empty piece's start becomes the answer:
      every value of the input lands at `t1` or above, yet `solve` reports
      `a+n`; with the corrected guard it reports `t1`. */
  lemma SolveReportsEmptyPiece(self: Range, m: seq<RangeMap>, a: nat, n: nat, t1: nat, t2: nat)
    requires Adjacent(self, m, a, n, t1, t2) && a + n < t1 <= t2
    ensures SolveSpec([self], [m], AsWritten) == Some(a + n)
    ensures SolveSpec([self], [m], Corrected) == Some(t1)
    ensures forall x :: Contains(self, x) ==> ApplyAll([m], x) >= t1
  {
    AdjacentSolveAsWritten(self, m, a, n, t1, t2);
    AdjacentSolveCorrected(self, m, a, n, t1, t2);
    AdjacentImages(self, m, a, n, t1, t2);
  }

  lemma AdjacentSolveAsWritten(self: Range, m: seq<RangeMap>, a: nat, n: nat, t1: nat, t2: nat)
    requires Adjacent(self, m, a, n, t1, t2) && a + n < t1 <= t2
    ensures SolveSpec([self], [m], AsWritten) == Some(a + n)
  {
    AdjacentStage(self, m, AsWritten, a, n, t1, t2);
    assert Starts([Range(t1, n), Range(a + n, 0), Range(t2, n)]) == [t1, a + n, t2];
  }

  lemma AdjacentSolveCorrected(self: Range, m: seq<RangeMap>, a: nat, n: nat, t1: nat, t2: nat)
    requires Adjacent(self, m, a, n, t1, t2) && t1 <= t2
    ensures SolveSpec([self], [m], Corrected) == Some(t1)
  {
    AdjacentStage(self, m, Corrected, a, n, t1, t2);
    assert Starts([Range(t1, n), Range(t2, n)]) == [t1, t2];
  }

  lemma AdjacentStage(self: Range, m: seq<RangeMap>, g: Guard, a: nat, n: nat, t1: nat, t2: nat)
    requires Adjacent(self, m, a, n, t1, t2)
    ensures ThroughMaps([self], [m], g) ==
      Some(if g == AsWritten then [Range(t1, n), Range(a + n, 0), Range(t2, n)] else [Range(t1, n), Range(t2, n)])
  {
    MapRngPushesEmptyPiece(self, m, a, n, t1, t2);
    var maps := [m];
    assert maps[..0] == [];
    assert [self][..0] == [];
    assert MapAll([], m, g) == Some([]);
    assert [] + [Range(t1, n), Range(a + n, 0), Range(t2, n)] == [Range(t1, n), Range(a + n, 0), Range(t2, n)];
    assert [] + [Range(t1, n), Range(t2, n)] == [Range(t1, n), Range(t2, n)];
  }

  lemma AdjacentImages(self: Range, m: seq<RangeMap>, a: nat, n: nat, t1: nat, t2: nat)
    requires Adjacent(self, m, a, n, t1, t2) && t1 <= t2
    ensures forall x :: Contains(self, x) ==> ApplyAll([m], x) >= t1
  {
    var maps := [m];
    assert maps[..0] == [];
    forall x | Contains(self, x) ensures ApplyAll(maps, x) >= t1 {
      assert ApplyAll(maps, x) == ApplyMap(m, x);
      if x < a + n {
        assert ApplyMap(m, x) == Shift(m[0], x);
      } else {
        assert m[1..][0] == m[1] && Contains(m[1].from, x);
        assert ApplyMap(m, x) == ApplyMap(m[1..], x) == Shift(m[1], x);
      }
    }
  }

  // Almanac::new, solve1, solve2

  /** The parsed input: the maps in order and the seed numbers. */
  datatype Almanac = Almanac(maps: seq<seq<RangeMap>>, rawSeeds: seq<nat>)

  /** The accumulators of `Almanac::new`: the maps pushed so far, the seed
      numbers, and the entries of the block being read. */
  datatype Builder = Builder(maps: seq<seq<RangeMap>>, rawSeeds: seq<nat>, ranges: seq<RangeMap>)

  function FromStart(rm: RangeMap): int
  {
    rm.from.start
  }

  /** The numbers of a `split(' ')` that must all parse as `u64`. */
  function Numbers(l: string): Option<seq<nat>>
  {
    ParseAllUnsigned(Split(l, " "), U64_MAX)
  }

  /** One line of `Almanac::new`. A blank line closes the block: its entries,
      sorted by `from.start`, become a map (an empty block pushes nothing).
      "seeds: ..." sets the seed numbers, a "... map:" header is skipped,
      any other line is an entry; a number that does not parse or an entry
      with fewer than three numbers panics. */
  function BuildStep(b: Builder, l: string): Option<Builder>
  {
    if |l| == 0 then
      Some(if |b.ranges| > 0 then Builder(b.maps + [SortByKey(b.ranges, FromStart)], b.rawSeeds, []) else b)
    else if StartsWith(l, "seeds:") then
      match Numbers(Last(Split(l, ": ")))
      case None => None
      case Some(v) => Some(b.(rawSeeds := v))
    else if EndsWith(l, "map:") then Some(b)
    else
      match Numbers(l)
      case None => None
      case Some(v) =>
        match NewRangeMap(v)
        case None => None
        case Some(rm) => Some(b.(ranges := b.ranges + [rm]))
  }

  function Build(lines: seq<string>): Option<Builder>
  {
    if |lines| == 0 then Some(Builder([], [], []))
    else
      match Build(lines[..|lines| - 1])
      case None => None
      case Some(b) => BuildStep(b, lines[|lines| - 1])
  }

  /** What `Almanac::new` returns: after the last line the current block is
      pushed as the last map, unsorted and even when empty. */
  function AlmanacSpec(lines: seq<string>): Option<Almanac>
  {
    match Build(lines)
    case None => None
    case Some(b) => Some(Almanac(b.maps + [b.ranges], b.rawSeeds))
  }

  /** `Almanac::new`: one pass over the lines, reassigning the accumulators. */
  method NewAlmanac(lines: seq<string>) returns (r: Option<Almanac>)
    ensures r == AlmanacSpec(lines)
  {
    var maps: seq<seq<RangeMap>> := [];
    var rawSeeds: seq<nat> := [];
    var ranges: seq<RangeMap> := [];
    var k := 0;
    while k < |lines|
      invariant 0 <= k <= |lines|
      invariant Build(lines[..k]) == Some(Builder(maps, rawSeeds, ranges))
    {
      assert lines[..k + 1][..k] == lines[..k];
      var next := ReadLine(Builder(maps, rawSeeds, ranges), lines[k]);
      if next.None? {
        BuildStaysNone(lines, k + 1);
        return None;
      }
      maps, rawSeeds, ranges := next.value.maps, next.value.rawSeeds, next.value.ranges;
      k := k + 1;
    }
    assert lines[..k] == lines;
    r := Some(Almanac(maps + [ranges], rawSeeds));
  }

  /** The body of the line loop: a blank line closes the pending block as
      a sorted map, the seeds line sets the seeds, a map header is skipped
      and any other line adds an entry to the pending block. */
  method ReadLine(b: Builder, l: string) returns (r: Option<Builder>)
    ensures r == BuildStep(b, l)
  {
    var maps, rawSeeds, ranges := b.maps, b.rawSeeds, b.ranges;
    if |l| == 0 {
      if |ranges| > 0 {
        var copy := SortByKey(ranges, FromStart);
        maps := maps + [copy];
        ranges := [];
      }
    } else if StartsWith(l, "seeds:") {
      var v := Numbers(Last(Split(l, ": ")));
      if v.None? {
        return None;
      }
      rawSeeds := v.value;
    } else if !EndsWith(l, "map:") {
      var v := Numbers(l);
      if v.None? {
        return None;
      }
      var rm := NewRangeMap(v.value);
      if rm.None? {
        return None;
      }
      ranges := ranges + [rm.value];
    }
    r := Some(Builder(maps, rawSeeds, ranges));
  }

  lemma {:induction false} BuildStaysNone(lines: seq<string>, k: nat)
    requires k <= |lines| && Build(lines[..k]).None?
    ensures Build(lines).None?
    decreases |lines| - k
  {
    if k < |lines| {
      assert lines[..k + 1][..k] == lines[..k];
      BuildStaysNone(lines, k + 1);
    } else {
      assert lines[..k] == lines;
    }
  }

  /** Every map pushed at a blank line is sorted by `from.start`, not empty,
      and holds exactly the entries of its block. */
  predicate ClosedMapsSorted(b: Builder)
  {
    forall j :: 0 <= j < |b.maps| ==> SortedByKey(b.maps[j], FromStart) && |b.maps[j]| > 0
  }

  lemma BuildStepKeepsSorted(b: Builder, l: string)
    requires ClosedMapsSorted(b) && BuildStep(b, l).Some?
    ensures ClosedMapsSorted(BuildStep(b, l).value)
    ensures |l| == 0 && |b.ranges| > 0 ==>
      BuildStep(b, l).value.maps == b.maps + [SortByKey(b.ranges, FromStart)]
      && multiset(Last(BuildStep(b, l).value.maps)) == multiset(b.ranges)
    ensures |l| == 0 ==> BuildStep(b, l).value.ranges == []
  {
  }

  lemma {:induction false} BuildSorted(lines: seq<string>)
    requires Build(lines).Some?
    ensures ClosedMapsSorted(Build(lines).value)
    decreases |lines|
  {
    if |lines| > 0 {
      BuildSorted(lines[..|lines| - 1]);
      BuildStepKeepsSorted(Build(lines[..|lines| - 1]).value, lines[|lines| - 1]);
    }
  }

  /** Every map of the almanac but the last is sorted by `from.start`; when
      the input ends with a blank line, the last map is empty. */
  lemma AlmanacMapsSorted(lines: seq<string>)
    requires AlmanacSpec(lines).Some?
    ensures var a := AlmanacSpec(lines).value;
      |a.maps| > 0
      && (forall j :: 0 <= j < |a.maps| - 1 ==> SortedByKey(a.maps[j], FromStart))
      && (|lines| > 0 && |lines[|lines| - 1]| == 0 ==> a.maps[|a.maps| - 1] == [])
  {
    BuildSorted(lines);
    var b := Build(lines).value;
    assert AlmanacSpec(lines).value == Almanac(b.maps + [b.ranges], b.rawSeeds);
    if |lines| > 0 && |lines[|lines| - 1]| == 0 {
      BlankClosesBlock(lines);
    }
  }

  /** After a blank line no block is open. */
  lemma BlankClosesBlock(lines: seq<string>)
    requires |lines| > 0 && |lines[|lines| - 1]| == 0 && Build(lines).Some?
    ensures Build(lines).value.ranges == []
  {
    var prev := Build(lines[..|lines| - 1]);
    assert prev.Some? && Build(lines) == BuildStep(prev.value, lines[|lines| - 1]);
  }

  /** Sorted entries whose ranges are non-empty and share no value form an
      ordered map. */
  lemma SortedDisjointOrdered(m: seq<RangeMap>)
    requires SortedByKey(m, FromStart)
    requires forall j :: 0 <= j < |m| ==> m[j].from.size > 0
    requires forall i, j, x :: 0 <= i < j < |m| && Contains(m[i].from, x) ==> !Contains(m[j].from, x)
    ensures Ordered(m)
  {
    forall i, j | 0 <= i < j < |m| ensures m[i].from.start + m[i].from.size <= m[j].from.start {
      assert FromStart(m[i]) <= FromStart(m[j]);
      if m[j].from.start < m[i].from.start + m[i].from.size {
        assert Contains(m[i].from, m[j].from.start);
      }
    }
  }

  /** A map without entries leaves a range whole (and drops an empty one). */
  lemma MapRngEmptyMap(self: Range, g: Guard)
    ensures MapRngSpec(self, [], g) == Some(if self.size > 0 then [self] else [])
  {
    assert ScanEntries(self, [], 0, g) == Some(Scan([], self));
    assert [] + [self] == [self];
  }

  /** `solve1`: every seed number is a range of size one. */
  function Seeds1(raw: seq<nat>): (r: seq<Range>)
    ensures |r| == |raw| && forall j :: 0 <= j < |raw| ==> r[j] == Range(raw[j], 1)
  {
    seq(|raw|, j requires 0 <= j < |raw| => Range(raw[j], 1))
  }

  /** `solve2`: the seed numbers in pairs (start, size); an odd count leaves a
      chunk of one number, whose `v[1]` panics. */
  function Seeds2(raw: seq<nat>): (r: Option<seq<Range>>)
    ensures r.Some? <==> |raw| % 2 == 0
    ensures r.Some? ==> |r.value| == |raw| / 2
    ensures r.Some? ==> forall j :: 0 <= j < |raw| / 2 ==> r.value[j] == Range(raw[2 * j], raw[2 * j + 1])
  {
    if |raw| % 2 != 0 then None
    else Some(seq(|raw| / 2, j requires 0 <= j < |raw| / 2 => Range(raw[2 * j], raw[2 * j + 1])))
  }

  method Solve1(a: Almanac) returns (r: Option<int>)
    ensures r == SolveSpec(Seeds1(a.rawSeeds), a.maps, Corrected)
  {
    r := Solve(Seeds1(a.rawSeeds), a.maps, Corrected);
  }

  method Solve2(a: Almanac) returns (r: Option<int>)
    ensures Seeds2(a.rawSeeds).None? ==> r.None?
    ensures Seeds2(a.rawSeeds).Some? ==> r == SolveSpec(Seeds2(a.rawSeeds).value, a.maps, Corrected)
  {
    var seeds := Seeds2(a.rawSeeds);
    if seeds.None? {
      return None;
    }
    r := Solve(seeds.value, a.maps, Corrected);
  }

  /** `solve1` on ordered maps is the smallest location of any seed number. */
  lemma Solve1IsLowestLocation(raw: seq<nat>, maps: seq<seq<RangeMap>>)
    requires |raw| > 0 && forall i :: 0 <= i < |maps| ==> Ordered(maps[i])
    ensures SolveSpec(Seeds1(raw), maps, Corrected).Some?
    ensures exists j :: 0 <= j < |raw| && ApplyAll(maps, raw[j]) == SolveSpec(Seeds1(raw), maps, Corrected).value
    ensures forall j :: 0 <= j < |raw| ==> SolveSpec(Seeds1(raw), maps, Corrected).value <= ApplyAll(maps, raw[j])
  {
    var seeds := Seeds1(raw);
    SolveIsSmallestImage(seeds, maps);
    var v := SolveSpec(seeds, maps, Corrected).value;
    var x :| InAny(seeds, x) && ApplyAll(maps, x) == v;
    var j :| 0 <= j < |seeds| && Contains(seeds[j], x);
    assert x == raw[j];
    forall j | 0 <= j < |raw| ensures v <= ApplyAll(maps, raw[j]) {
      assert Contains(seeds[j], raw[j]);
    }
  }
}
