/** Cube games (src/day02.rs). A line "Game 7: 3 blue, 4 red; 1 red, 2 green"
    is a game id and a list of cube sets; a cube set holds the red, green and
    blue counts at indices 0, 1 and 2. */
module Day02 {
  import opened RustStd

  const RED: nat := 0
  const GREEN: nat := 1
  const BLUE: nat := 2

  datatype CubeSet = CubeSet(v: seq<nat>)
  datatype Game = Game(id: nat, sets: seq<CubeSet>)

  /** The colour index of a colour name; any other name is `unreachable!()`. */
  function ColorId(color: string): (r: Option<nat>)
    ensures r.Some? ==> r.value < 3
  {
    if color == "red" then Some(RED)
    else if color == "green" then Some(GREEN)
    else if color == "blue" then Some(BLUE)
    else None
  }

  function ColorName(id: nat): string
    requires id < 3
  {
    if id == RED then "red" else if id == GREEN then "green" else "blue"
  }

  /** One "count colour" piece: the words split on ' '; word 0 is the count,
      word 1 the colour (a missing word or an unparsable count panics). */
  function ParsePiece(piece: string): (r: Option<(nat, nat)>)
    ensures r.Some? ==> r.value.0 < 3
  {
    var desc := Split(piece, " ");
    if |desc| < 2 then None
    else
      match (ParseUnsigned(desc[0], U64_MAX), ColorId(desc[1]))
      case (Some(count), Some(id)) => Some((id, count))
      case _ => None
  }

  /** The count of the last piece that names colour `c` (a later piece
      overwrites an earlier one), or 0 when no piece names it. */
  function LastCount(pieces: seq<string>, c: nat): nat
  {
    if |pieces| == 0 then 0
    else
      match ParsePiece(pieces[|pieces| - 1])
      case Some((id, count)) => if id == c then count else LastCount(pieces[..|pieces| - 1], c)
      case None => LastCount(pieces[..|pieces| - 1], c)
  }

  predicate AllPiecesParse(pieces: seq<string>)
  {
    forall i :: 0 <= i < |pieces| ==> ParsePiece(pieces[i]).Some?
  }

  /** What `CubeSet::new` computes: the counts per colour, or a panic when
      a piece is malformed. */
  function CubeSetOf(s: string): (r: Option<CubeSet>)
    ensures r.Some? ==> |r.value.v| == 3
  {
    var pieces := Split(s, ", ");
    if !AllPiecesParse(pieces) then None
    else Some(CubeSet([LastCount(pieces, RED), LastCount(pieces, GREEN), LastCount(pieces, BLUE)]))
  }

  /** `CubeSet::new`: starts from three zero counts and, piece by piece,
      stores each count at its colour's index. */
  method NewCubeSet(s: string) returns (r: Option<CubeSet>)
    ensures r == CubeSetOf(s)
  {
    var pieces := Split(s, ", ");
    var v: seq<nat> := [0, 0, 0];
    var i := 0;
    while i < |pieces|
      invariant 0 <= i <= |pieces|
      invariant AllPiecesParse(pieces[..i])
      invariant v == [LastCount(pieces[..i], RED), LastCount(pieces[..i], GREEN), LastCount(pieces[..i], BLUE)]
    {
      var piece := ParsePiece(pieces[i]);
      if piece.None? {
        assert !ParsePiece(pieces[i]).Some?;
        return None;
      }
      LastCountStep(pieces, i);
      v := v[piece.value.0 := piece.value.1];
      i := i + 1;
    }
    assert pieces[..i] == pieces;
    r := Some(CubeSet(v));
  }

  /** One more piece: it overwrites its own colour's count only. */
  lemma LastCountStep(pieces: seq<string>, i: nat)
    requires i < |pieces| && AllPiecesParse(pieces[..i]) && ParsePiece(pieces[i]).Some?
    ensures AllPiecesParse(pieces[..i + 1])
    ensures forall c ::
      LastCount(pieces[..i + 1], c) == (if ParsePiece(pieces[i]).value.0 == c then ParsePiece(pieces[i]).value.1 else LastCount(pieces[..i], c))
  {
    var ps := pieces[..i + 1];
    assert ps[..|ps| - 1] == pieces[..i];
    assert ps[|ps| - 1] == pieces[i];
    forall c ensures LastCount(ps, c) == (if ParsePiece(pieces[i]).value.0 == c then ParsePiece(pieces[i]).value.1 else LastCount(pieces[..i], c)) {
      LastCountLast(ps, c);
    }
  }

  lemma LastCountLast(ps: seq<string>, c: nat)
    requires |ps| > 0 && ParsePiece(ps[|ps| - 1]).Some?
    ensures LastCount(ps, c) ==
      (if ParsePiece(ps[|ps| - 1]).value.0 == c then ParsePiece(ps[|ps| - 1]).value.1 else LastCount(ps[..|ps| - 1], c))
  {
  }


  /** A colour's count is the count of the last piece naming it, or 0. */
  lemma {:induction false} LastCountSpec(pieces: seq<string>, c: nat, k: nat)
    requires k < |pieces|
    requires ParsePiece(pieces[k]).Some? && ParsePiece(pieces[k]).value.0 == c
    requires forall j :: k < j < |pieces| && ParsePiece(pieces[j]).Some? ==> ParsePiece(pieces[j]).value.0 != c
    ensures LastCount(pieces, c) == ParsePiece(pieces[k]).value.1
    decreases |pieces|
  {
    if k < |pieces| - 1 {
      var init := pieces[..|pieces| - 1];
      assert forall j :: 0 <= j < |init| ==> init[j] == pieces[j];
      LastCountSpec(init, c, k);
    }
  }

  lemma {:induction false} LastCountUnmentioned(pieces: seq<string>, c: nat)
    requires forall j :: 0 <= j < |pieces| && ParsePiece(pieces[j]).Some? ==> ParsePiece(pieces[j]).value.0 != c
    ensures LastCount(pieces, c) == 0
    decreases |pieces|
  {
    if |pieces| > 0 {
      var init := pieces[..|pieces| - 1];
      assert forall j :: 0 <= j < |init| ==> init[j] == pieces[j];
      LastCountUnmentioned(init, c);
    }
  }

  /** A well-formed piece "n colour" parses to that colour and count. */
  lemma ParsePieceRoundTrip(n: nat, c: nat)
    requires n <= U64_MAX && c < 3
    ensures ParsePiece(NatToString(n) + " " + ColorName(c)) == Some((c, n))
  {
    var num, name := NatToString(n), ColorName(c);
    assert ' ' !in num by {
      forall i | 0 <= i < |num| ensures num[i] != ' ' { assert IsDigit(num[i]); }
    }
    ColorNameWord(c);
    SplitCons(num, " ", name);
    SplitSingle(name, " ");
    assert Split(num + " " + name, " ") == [num, name];
    ParseNatToString(n, U64_MAX);
  }

  /** A colour's name is one word, and names that colour. */
  lemma ColorNameWord(c: nat)
    requires c < 3
    ensures ' ' !in ColorName(c) && ColorId(ColorName(c)) == Some(c)
  {
  }

  /** `Game::new`: the id is the last ' '-separated word before ": ", and
      the cube sets are the "; "-separated parts after it. */
  function GameNew(line: string): (r: Option<Game>)
    ensures r.Some? ==> |r.value.sets| > 0
    ensures r.Some? ==> forall i :: 0 <= i < |r.value.sets| ==> |r.value.sets[i].v| == 3
  {
    var parts := Split(line, ": ");
    var setTexts := Split(Last(parts), "; ");
    match ParseUnsigned(Last(Split(parts[0], " ")), U64_MAX)
    case None => None
    case Some(id) =>
      if exists i :: 0 <= i < |setTexts| && CubeSetOf(setTexts[i]).None? then None
      else Some(Game(id, seq(|setTexts|, i requires 0 <= i < |setTexts| => CubeSetOf(setTexts[i]).value)))
  }

  /** The text of a game: "Game <id>: " and its cube-set texts joined by "; ". */
  function GameText(id: nat, ts: seq<string>): string
  {
    "Game " + NatToString(id) + ": " + Join(ts, "; ")
  }

  /** A game line parses back to its id and to the cube set of each
      "; "-separated text, when those texts parse and hold neither ':' nor ';'. */
  lemma GameNewRoundTrip(id: nat, ts: seq<string>)
    requires id <= U64_MAX && |ts| > 0
    requires forall i :: 0 <= i < |ts| ==> CubeSetOf(ts[i]).Some? && ':' !in ts[i] && ';' !in ts[i]
    ensures GameNew(GameText(id, ts)) == Some(Game(id, seq(|ts|, i requires 0 <= i < |ts| => CubeSetOf(ts[i]).value)))
  {
    var parts := Split(GameText(id, ts), ": ");
    GameTextParts(id, ts);
    ParseNatToString(id, U64_MAX);
    SplitJoin(ts, "; ");
    assert Split(Last(parts), "; ") == ts;
  }

  /** The ": " split of a game's text is its head and its joined sets; the
      head's last word is the id. */
  lemma GameTextParts(id: nat, ts: seq<string>)
    requires forall i :: 0 <= i < |ts| ==> ':' !in ts[i]
    ensures Split(GameText(id, ts), ": ") == ["Game " + NatToString(id), Join(ts, "; ")]
    ensures Last(Split("Game " + NatToString(id), " ")) == NatToString(id)
  {
    var num, body := NatToString(id), Join(ts, "; ");
    var head := "Game " + num;
    IdWord(num);
    assert ':' !in head;
    JoinAvoids(ts, "; ", ':');
    assert GameText(id, ts) == head + ": " + body;
    SplitCons(head, ": ", body);
    SplitSingle(body, ": ");
  }

  /** "Game <digits>" splits on ' ' into "Game" and the digits. */
  lemma IdWord(num: string)
    requires AllDigits(num)
    ensures ':' !in num && Split("Game " + num, " ") == ["Game", num]
  {
    assert ' ' !in num && ':' !in num by {
      forall i | 0 <= i < |num| ensures num[i] != ' ' && num[i] != ':' { assert IsDigit(num[i]); }
    }
    assert "Game " + num == "Game" + " " + num;
    SplitCons("Game", " ", num);
    SplitSingle(num, " ");
  }

  /** A game as `Game::new` produces it: at least one set, three counts each. */
  predicate WellFormed(g: Game)
  {
    |g.sets| > 0 && forall i :: 0 <= i < |g.sets| ==> |g.sets[i].v| == 3
  }

  function Column(g: Game, id: nat): seq<int>
    requires WellFormed(g) && id < 3
  {
    seq(|g.sets|, i requires 0 <= i < |g.sets| => g.sets[i].v[id] as int)
  }

  /** `max_per_game`: the largest count of colour `id` over the game's sets;
      it is at least every set's count and equal to one of them. */
  function MaxPerGame(g: Game, id: nat): (m: nat)
    requires WellFormed(g) && id < 3
    ensures forall i :: 0 <= i < |g.sets| ==> g.sets[i].v[id] <= m
    ensures exists i :: 0 <= i < |g.sets| && g.sets[i].v[id] == m
  {
    var col := Column(g, id);
    assert forall i :: 0 <= i < |g.sets| ==> col[i] == g.sets[i].v[id];
    var m := Max(col).value;
    assert m in col;
    m
  }

  /** `is_game_possible`: the id when no colour's maximum exceeds the
      limit; the limit's `v[id]` panics when it has fewer than three counts. */
  function IsGamePossible(g: Game, limit: CubeSet): (r: nat)
    requires WellFormed(g) && |limit.v| >= 3
    ensures r == 0 || r == g.id
    ensures r == g.id <==>
      (g.id == 0 || forall i, id :: 0 <= i < |g.sets| && 0 <= id < 3 ==> g.sets[i].v[id] <= limit.v[id])
  {
    MaximaWithin(g, limit);
    if forall id :: 0 <= id < 3 ==> MaxPerGame(g, id) <= limit.v[id] then g.id else 0
  }

  /** The maxima are within the limit exactly when every count is. */
  lemma MaximaWithin(g: Game, limit: CubeSet)
    requires WellFormed(g) && |limit.v| >= 3
    ensures (forall id :: 0 <= id < 3 ==> MaxPerGame(g, id) <= limit.v[id]) <==>
      (forall i, id :: 0 <= i < |g.sets| && 0 <= id < 3 ==> g.sets[i].v[id] <= limit.v[id])
  {
    if forall i, id :: 0 <= i < |g.sets| && 0 <= id < 3 ==> g.sets[i].v[id] <= limit.v[id] {
      forall id | 0 <= id < 3 ensures MaxPerGame(g, id) <= limit.v[id] {
        var i :| 0 <= i < |g.sets| && g.sets[i].v[id] == MaxPerGame(g, id);
      }
    }
  }

  /** `get_power_set`: the product of the three maxima; the cube set
      argument is ignored. The power is zero exactly when some colour never
      shows in any set. */
  function GetPowerSet(g: Game, ignored: CubeSet): (r: int)
    requires WellFormed(g)
    ensures r >= 0
    ensures r == 0 <==> Absent(g, RED) || Absent(g, GREEN) || Absent(g, BLUE)
  {
    var r, gr, b := MaxPerGame(g, RED) as int, MaxPerGame(g, GREEN) as int, MaxPerGame(g, BLUE) as int;
    MaxZero(g, RED);
    MaxZero(g, GREEN);
    MaxZero(g, BLUE);
    ProductZero(r, gr, b);
    r * gr * b
  }

  /** No set of the game shows colour `id`. */
  predicate Absent(g: Game, id: nat)
    requires WellFormed(g) && id < 3
  {
    forall i :: 0 <= i < |g.sets| ==> g.sets[i].v[id] == 0
  }

  /** A colour's maximum is zero exactly when every set has none of it. */
  lemma MaxZero(g: Game, id: nat)
    requires WellFormed(g) && id < 3
    ensures MaxPerGame(g, id) == 0 <==> Absent(g, id)
  {
    var i :| 0 <= i < |g.sets| && g.sets[i].v[id] == MaxPerGame(g, id);
  }

  lemma ProductZero(a: nat, b: nat, c: nat)
    ensures a * b * c >= 0
    ensures a * b * c == 0 <==> a == 0 || b == 0 || c == 0
  {
    if a > 0 && b > 0 && c > 0 {
      assert a * b >= 1;
      assert a * b * c >= 1;
    }
  }

  /** The maxima form the smallest cube set that makes the game possible:
      with them as the limit the game is possible, and lowering any one
      colour below its maximum makes it impossible. */
  lemma PowerSetIsMinimal(g: Game, limit: CubeSet)
    requires WellFormed(g) && g.id > 0 && |limit.v| >= 3
    ensures IsGamePossible(g, CubeSet([MaxPerGame(g, RED), MaxPerGame(g, GREEN), MaxPerGame(g, BLUE)])) == g.id
    ensures (exists id :: 0 <= id < 3 && limit.v[id] < MaxPerGame(g, id)) ==> IsGamePossible(g, limit) == 0
  {
  }

  /** The power ignores its argument. */
  lemma PowerSetIgnoresArgument(g: Game, a: CubeSet, b: CubeSet)
    requires WellFormed(g)
    ensures GetPowerSet(g, a) == GetPowerSet(g, b)
  {
  }

  /** `solve`: the sum of `f(game, s)` over the games. */
  function Solve(games: seq<Game>, s: CubeSet, f: (Game, CubeSet) --> int): (r: int)
    requires forall i :: 0 <= i < |games| ==> f.requires(games[i], s)
    ensures (forall i :: 0 <= i < |games| ==> f(games[i], s) >= 0) ==>
      r >= 0 && forall i :: 0 <= i < |games| ==> f(games[i], s) <= r
  {
    if |games| == 0 then 0
    else
      var init := games[..|games| - 1];
      assert forall i :: 0 <= i < |init| ==> init[i] == games[i];
      Solve(init, s, f) + f(games[|games| - 1], s)
  }

  /** Solving two lists of games one after the other adds their results. */
  lemma {:induction false} SolveAppend(a: seq<Game>, b: seq<Game>, s: CubeSet, f: (Game, CubeSet) --> int)
    requires forall i :: 0 <= i < |a| ==> f.requires(a[i], s)
    requires forall i :: 0 <= i < |b| ==> f.requires(b[i], s)
    ensures forall i :: 0 <= i < |a + b| ==> f.requires((a + b)[i], s)
    ensures Solve(a + b, s, f) == Solve(a, s, f) + Solve(b, s, f)
    decreases |b|
  {
    if |b| == 0 {
      assert a + b == a;
    } else {
      assert (a + b)[..|a + b| - 1] == a + b[..|b| - 1];
      SolveAppend(a, b[..|b| - 1], s, f);
    }
  }
}
