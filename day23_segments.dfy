/** Day 23 (src/day23.rs), the segments part 2 is built on: `find_path`
    searches depth first for a way from one key tile to another that steps
    only onto plain tiles (or onto the target), and answers the tiles the
    way passes between its two ends; `collect_paths` asks this for every
    pair of key tiles and files a segment it finds under both ends. The
    first tile of a way is never recorded among its tiles, even when the
    way comes back over it. */
module Day23Segments {
  import opened RustStd
  import opened Day23

  /** `LocPath`: the tiles passed so far (never the first one), the first
      tile and the tile stood on. */
  datatype LocPath = LocPath(points: set<Pos>, first: Pos, last: Pos)

  /** `LocPath::new`: standing on the first tile, nothing passed. */
  function NewLocPath(start: Pos): LocPath
  {
    LocPath({}, start, start)
  }

  /** The path `add_new` pushes: the tile it stood on is now passed,
      unless it is the first one, and it stands on `next`. */
  function LocExtend(lp: LocPath, next: Pos): LocPath
  {
    LocPath(if lp.last != lp.first then lp.points + {lp.last} else lp.points, lp.first, next)
  }

  /** `LocPath::add_new`: pushes the extended path onto the caller's stack
      unless `next` has been passed already. */
  method LocAddNew(lp: LocPath, next: Pos, q: seq<LocPath>) returns (q': seq<LocPath>)
    ensures next in lp.points ==> q' == q
    ensures next !in lp.points ==> q' == q + [LocExtend(lp, next)]
  {
    q' := q;
    if next !in lp.points {
      var newPath := lp;
      if lp.last != lp.first {
        newPath := newPath.(points := newPath.points + {lp.last});
      }
      newPath := newPath.(last := next);
      q' := q' + [newPath];
    }
  }

  /** The first tile is never recorded: extending keeps it out, and adds
      exactly the tile left behind when that is another one. */
  lemma LocExtendSkipsFirst(lp: LocPath, next: Pos)
    requires lp.first !in lp.points
    ensures lp.first !in LocExtend(lp, next).points
    ensures LocExtend(lp, next).points == lp.points + ({lp.last} - {lp.first})
    ensures LocExtend(lp, next).first == lp.first && LocExtend(lp, next).last == next
  {
  }

  /** A step of `find_path`: onto a neighbour on the map that is plain or
      is the target `p2`. */
  predicate Step(m: seq<seq<char>>, p2: Pos, a: Pos, b: Pos)
    requires Grid(m)
  {
    Inside(m, b) && Adjacent(a, b) && (Cell(m, b) == '.' || b == p2)
  }

  /** A way from `p1` made of steps, not continued past `p2`. It may pass
      `p1` again, which the source does not exclude. */
  predicate Trail(m: seq<seq<char>>, p1: Pos, p2: Pos, w: seq<Pos>)
    requires Grid(m)
  {
    |w| > 0 && w[0] == p1 &&
    forall i :: 0 <= i < |w| - 1 ==> w[i] != p2 && Step(m, p2, w[i], w[i + 1])
  }

  /** A trail that arrives at `p2`. */
  predicate Reaches(m: seq<seq<char>>, p1: Pos, p2: Pos, w: seq<Pos>)
    requires Grid(m)
  {
    Trail(m, p1, p2, w) && w[|w| - 1] == p2
  }

  /** The tiles strictly inside `w`, leaving out `p1`. */
  function Between(w: seq<Pos>, p1: Pos): set<Pos>
  {
    set i: nat | 1 <= i < |w| - 1 && w[i] != p1 :: w[i]
  }

  /** `lp` records trail `w`. */
  predicate Tracks(m: seq<seq<char>>, p1: Pos, p2: Pos, lp: LocPath, w: seq<Pos>)
    requires Grid(m)
  {
    Trail(m, p1, p2, w) && lp.first == p1 && lp.last == w[|w| - 1] && lp.points == Between(w, p1)
  }

  /** Neither end is among the tiles a trail passes. */
  lemma BetweenAvoidsEnds(m: seq<seq<char>>, p1: Pos, p2: Pos, w: seq<Pos>)
    requires Grid(m) && Trail(m, p1, p2, w)
    ensures p1 !in Between(w, p1) && p2 !in Between(w, p1)
  {
  }

  lemma ExtendTracks(m: seq<seq<char>>, p1: Pos, p2: Pos, lp: LocPath, w: seq<Pos>, b: Pos)
    requires Grid(m) && Tracks(m, p1, p2, lp, w) && lp.last != p2 && Step(m, p2, lp.last, b)
    ensures Tracks(m, p1, p2, LocExtend(lp, b), w + [b])
  {
    var v := w + [b];
    assert forall i :: 0 <= i < |w| ==> v[i] == w[i];
    assert Between(v, p1) == Between(w, p1) + ({lp.last} - {p1}) by {
      forall t | t in Between(v, p1)
        ensures t in Between(w, p1) + ({lp.last} - {p1})
      {
        var i: nat :| 1 <= i < |v| - 1 && v[i] != p1 && v[i] == t;
        if i < |w| - 1 {
          assert t in Between(w, p1);
        }
      }
      if lp.last != p1 {
        assert |w| >= 2;
        assert v[|w| - 1] == lp.last;
      }
    }
  }

  /** `find_path` from `p1` to `p2`. The answer, when not empty, is the set
      of tiles a way from `p1` to `p2` passes between its ends; it is empty
      when the stack runs dry, so whenever `p2` cannot be reached. `None`
      when `fuel` paths have been taken from the stack without an answer. */
  method FindPath(m: seq<seq<char>>, p1: Pos, p2: Pos, fuel: nat) returns (r: Option<set<Pos>>, ghost w: seq<Pos>)
    requires Grid(m)
    ensures r.Some? && r.value != {} ==> Reaches(m, p1, p2, w) && r.value == Between(w, p1)
    ensures r.Some? ==> p1 !in r.value && p2 !in r.value
  {
    var q := [NewLocPath(p1)];
    ghost var ws := [[p1]];
    var left := fuel;
    while q != []
      invariant |ws| == |q| && forall i :: 0 <= i < |q| ==> Tracks(m, p1, p2, q[i], ws[i])
      decreases left
    {
      if left == 0 {
        return None, [];
      }
      left := left - 1;
      var lp := q[|q| - 1];
      ghost var lw := ws[|ws| - 1];
      q, ws := q[..|q| - 1], ws[..|ws| - 1];
      if lp.last == p2 {
        BetweenAvoidsEnds(m, p1, p2, lw);
        return Some(lp.points), lw;
      }
      var d := 0;
      while d < 4
        invariant d <= 4
        invariant |ws| == |q| && forall i :: 0 <= i < |q| ==> Tracks(m, p1, p2, q[i], ws[i])
      {
        var nb := Neighbour(m, lp.last, d);
        if nb.Some? && (m[nb.value.y][nb.value.x] == '.' || nb.value == p2) {
          if nb.value !in lp.points {
            ExtendTracks(m, p1, p2, lp, lw, nb.value);
            ws := ws + [lw + [nb.value]];
          }
          q := LocAddNew(lp, nb.value, q);
        }
        d := d + 1;
      }
    }
    return Some({}), [];
  }

  /** `get_mut(a)` then `insert(b, s)`, or a new inner map when `a` has
      none yet. */
  function Put(res: map<Pos, map<Pos, set<Pos>>>, a: Pos, b: Pos, s: set<Pos>): map<Pos, map<Pos, set<Pos>>>
  {
    if a in res then res[a := res[a][b := s]] else res[a := map[b := s]]
  }

  /** A segment is filed under both of its ends, with the same tiles. */
  predicate Symmetric(res: map<Pos, map<Pos, set<Pos>>>)
  {
    forall a, b :: a in res && b in res[a] ==> b in res && a in res[b] && res[b][a] == res[a][b]
  }

  /** `s` holds the tiles some way from `a` to `b` passes. */
  ghost predicate Joined(m: seq<seq<char>>, a: Pos, b: Pos, s: set<Pos>)
    requires Grid(m)
  {
    exists w :: Reaches(m, a, b, w) && s == Between(w, a)
  }

  /** Every segment joins two key tiles, in one direction or the other,
      and passes at least one tile. */
  ghost predicate Segments(m: seq<seq<char>>, keys: seq<Pos>, res: map<Pos, map<Pos, set<Pos>>>)
    requires Grid(m)
  {
    forall a, b :: a in res && b in res[a] ==> Segment(m, keys, a, b, res[a][b])
  }

  ghost predicate Segment(m: seq<seq<char>>, keys: seq<Pos>, a: Pos, b: Pos, s: set<Pos>)
    requires Grid(m)
  {
    a in keys && b in keys && s != {} && (Joined(m, a, b, s) || Joined(m, b, a, s))
  }

  /** Filing a segment under both ends keeps the table symmetric. */
  lemma PutBothSymmetric(res: map<Pos, map<Pos, set<Pos>>>, a: Pos, b: Pos, s: set<Pos>)
    requires Symmetric(res)
    ensures Symmetric(Put(Put(res, a, b, s), b, a, s))
  {
    var res1 := Put(res, a, b, s);
    var res2 := Put(res1, b, a, s);
    forall u, v | u in res2 && v in res2[u]
      ensures v in res2 && u in res2[v] && res2[v][u] == res2[u][v]
    {
      if (u == a && v == b) || (u == b && v == a) {
      } else if u == b {
        assert v in res1[u];
      } else if u == a {
        assert v in res[u];
      } else {
        assert res2[u] == res[u];
      }
    }
  }

  lemma PutBothSegments(m: seq<seq<char>>, keys: seq<Pos>, res: map<Pos, map<Pos, set<Pos>>>, a: Pos, b: Pos, s: set<Pos>, w: seq<Pos>)
    requires Grid(m) && Segments(m, keys, res)
    requires a in keys && b in keys && s != {} && Reaches(m, a, b, w) && s == Between(w, a)
    ensures Segments(m, keys, Put(Put(res, a, b, s), b, a, s))
  {
    var res1 := Put(res, a, b, s);
    var res2 := Put(res1, b, a, s);
    assert Joined(m, a, b, s);
    forall u, v | u in res2 && v in res2[u]
      ensures Segment(m, keys, u, v, res2[u][v])
    {
      if (u == a && v == b) || (u == b && v == a) {
        assert res2[u][v] == s;
      } else {
        assert v in res[u] && res2[u][v] == res[u][v];
      }
    }
  }

  /** No key tile is listed twice. */
  predicate Distinct(keys: seq<Pos>)
  {
    forall a, b :: 0 <= a < b < |keys| ==> keys[a] != keys[b]
  }

  /** Pair `(a, b)` comes before pair `(i, j)` in the order of the two
      loops of `collect_paths`. */
  predicate Before(a: nat, b: nat, i: nat, j: nat)
  {
    a < i || (a == i && b < j)
  }

  /** Every pair of key tiles before `(i, j)` has its answer logged. */
  ghost predicate Answered(keys: seq<Pos>, answers: map<(nat, nat), set<Pos>>, i: nat, j: nat)
  {
    forall a: nat, b: nat :: a < b < |keys| && Before(a, b, i, j) ==> (a, b) in answers
  }

  /** Every logged answer is for a pair `a < b` of key tiles, and a
      non-empty one is the tiles some way between them passes. */
  ghost predicate Found(m: seq<seq<char>>, keys: seq<Pos>, answers: map<(nat, nat), set<Pos>>)
    requires Grid(m)
  {
    forall p :: p in answers ==>
      p.0 < p.1 < |keys| && (answers[p] != {} ==> Joined(m, keys[p.0], keys[p.1], answers[p]))
  }

  /** Pair `(a, b)`'s non-empty answer is filed under both ends. */
  ghost predicate FiledPair(keys: seq<Pos>, res: map<Pos, map<Pos, set<Pos>>>, answers: map<(nat, nat), set<Pos>>,
                            a: nat, b: nat)
    requires a < b < |keys| && (a, b) in answers
  {
    answers[(a, b)] != {} ==>
      keys[a] in res && keys[b] in res[keys[a]] && res[keys[a]][keys[b]] == answers[(a, b)] &&
      keys[b] in res && keys[a] in res[keys[b]] && res[keys[b]][keys[a]] == answers[(a, b)]
  }

  /** Every pair before `(i, j)` with a non-empty answer is filed. */
  ghost predicate Filed(keys: seq<Pos>, res: map<Pos, map<Pos, set<Pos>>>, answers: map<(nat, nat), set<Pos>>,
                        i: nat, j: nat)
  {
    forall a: nat, b: nat :: a < b < |keys| && Before(a, b, i, j) && (a, b) in answers ==>
      FiledPair(keys, res, answers, a, b)
  }

  /** Filing entries `(u, v)` leaves the others as they were. */
  lemma PutKeeps(res: map<Pos, map<Pos, set<Pos>>>, u: Pos, v: Pos, s: set<Pos>, a: Pos, b: Pos)
    requires a in res && b in res[a] && (a, b) != (u, v)
    ensures a in Put(res, u, v, s) && b in Put(res, u, v, s)[a] && Put(res, u, v, s)[a][b] == res[a][b]
  {
  }

  /** Filing the answer of pair `(i, j)` under both ends keeps the earlier
      pairs filed, when the key tiles are distinct. */
  lemma FiledStep(keys: seq<Pos>, res: map<Pos, map<Pos, set<Pos>>>, answers: map<(nat, nat), set<Pos>>,
                  i: nat, j: nat, s: set<Pos>)
    requires i < j < |keys| && Distinct(keys) && Filed(keys, res, answers, i, j)
    ensures var answers' := answers[(i, j) := s];
      var res' := if s != {} then Put(Put(res, keys[i], keys[j], s), keys[j], keys[i], s) else res;
      Filed(keys, res', answers', i, j + 1)
  {
    var answers' := answers[(i, j) := s];
    var res' := if s != {} then Put(Put(res, keys[i], keys[j], s), keys[j], keys[i], s) else res;
    forall a: nat, b: nat | a < b < |keys| && Before(a, b, i, j + 1) && (a, b) in answers'
      ensures FiledPair(keys, res', answers', a, b)
    {
      if (a, b) != (i, j) && answers'[(a, b)] != {} {
        assert FiledPair(keys, res, answers, a, b);
        if s != {} {
          assert keys[a] != keys[i] || keys[b] != keys[j];
          PutKeeps(res, keys[i], keys[j], s, keys[a], keys[b]);
          PutKeeps(Put(res, keys[i], keys[j], s), keys[j], keys[i], s, keys[a], keys[b]);
          PutKeeps(res, keys[i], keys[j], s, keys[b], keys[a]);
          PutKeeps(Put(res, keys[i], keys[j], s), keys[j], keys[i], s, keys[b], keys[a]);
        }
      }
    }
  }

  /** `collect_paths`: for every pair of key tiles `i < j` with a non-empty
      segment, the segment filed under both ends. The table is symmetric
      and holds only segments between key tiles. `None` where the source
      panics (an empty list of key tiles makes `len() - 1` underflow) and
      where a search runs out of `fuel`. `answers` logs the answer of
      `find_path` for every pair `(i, j)`; when the key tiles are distinct,
      every non-empty one is in the table. */
  method CollectPaths(keys: seq<Pos>, m: seq<seq<char>>, fuel: nat)
    returns (r: Option<map<Pos, map<Pos, set<Pos>>>>, ghost answers: map<(nat, nat), set<Pos>>)
    requires Grid(m)
    ensures r.Some? ==> Symmetric(r.value) && Segments(m, keys, r.value)
    ensures Found(m, keys, answers)
    ensures r.Some? ==> Answered(keys, answers, |keys|, 0)
    ensures r.Some? && Distinct(keys) ==> Filed(keys, r.value, answers, |keys|, 0)
  {
    answers := map[];
    if |keys| == 0 {
      return None, answers;
    }
    var res: map<Pos, map<Pos, set<Pos>>> := map[];
    var i := 0;
    while i < |keys| - 1
      invariant i <= |keys| - 1
      invariant Symmetric(res) && Segments(m, keys, res)
      invariant Found(m, keys, answers) && Answered(keys, answers, i, 0)
      invariant Distinct(keys) ==> Filed(keys, res, answers, i, 0)
    {
      var p1 := keys[i];
      var j := i + 1;
      while j < |keys|
        invariant i < j <= |keys|
        invariant Symmetric(res) && Segments(m, keys, res)
        invariant Found(m, keys, answers) && Answered(keys, answers, i, j)
        invariant Distinct(keys) ==> Filed(keys, res, answers, i, j)
      {
        var p2 := keys[j];
        var path, w := FindPath(m, p1, p2, fuel);
        if path.None? {
          return None, answers;
        }
        if Distinct(keys) {
          FiledStep(keys, res, answers, i, j, path.value);
        }
        if path.value != {} {
          assert Joined(m, p1, p2, path.value);
          PutBothSymmetric(res, p1, p2, path.value);
          PutBothSegments(m, keys, res, p1, p2, path.value, w);
          res := Put(res, p1, p2, path.value);
          res := Put(res, p2, p1, path.value);
        }
        answers := answers[(i, j) := path.value];
        j := j + 1;
      }
      i := i + 1;
    }
    return Some(res), answers;
  }
}
