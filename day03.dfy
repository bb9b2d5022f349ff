/** Part numbers (src/day03.rs). The scan finds maximal runs of decimal digits
    row by row and records, for every symbol cell in a run's neighbourhood,
    the number under that symbol. The result maps each symbol to the numbers
    adjacent to it, in scan order. */
module Day03 {
  import opened RustStd

  datatype Number = Number(x: nat, y: nat, value: nat)
  datatype Symbol = Symbol(x: int, y: int, c: char)
  type Event = (Symbol, Number)
  type Symbols = map<Symbol, seq<Number>>

  /** A symbol is any character that is neither '.' nor a decimal digit. */
  predicate IsSymbolChar(c: char)
  {
    c != '.' && !IsDigit(c)
  }

  /** The first column at or after `x` that does not hold a digit. */
  function RunEnd(line: string, x: nat): (e: nat)
    requires x <= |line|
    ensures x <= e <= |line|
    ensures forall i :: x <= i < e ==> IsDigit(line[i])
    ensures e == |line| || !IsDigit(line[e])
    decreases |line| - x
  {
    if x < |line| && IsDigit(line[x]) then RunEnd(line, x + 1) else x
  }

  /** Column `s` starts a maximal run of digits. */
  predicate IsRunStart(line: string, s: nat)
  {
    s < |line| && IsDigit(line[s]) && (s == 0 || !IsDigit(line[s - 1]))
  }

  /** The run's text parsed as a `u64` (`expect` panics on overflow). */
  function RunValue(line: string, s: nat): Option<nat>
    requires s < |line|
  {
    ParseUnsigned(line[s..RunEnd(line, s + 1)], U64_MAX)
  }

  /** `g` is a symbol cell of the grid inside rows ty0..ty1 and columns tx0..tx1. */
  predicate InWindow(lines: seq<string>, g: Symbol, ty0: int, ty1: int, tx0: int, tx1: int)
  {
    ty0 <= g.y <= ty1 && 0 <= g.y < |lines| && tx0 <= g.x <= tx1 && 0 <= g.x < |lines[g.y]|
    && g.c == lines[g.y][g.x] && IsSymbolChar(g.c)
  }

  /** `e` is a pair the scan records: the number is a maximal digit run of
      row `n.y` starting at column `n.x` with its parsed value, and the symbol
      lies in rows y-1..y+1 and columns x-1..end of the run. */
  predicate IsPartEvent(lines: seq<string>, e: Event)
  {
    var n := e.1;
    n.y < |lines| && IsRunStart(lines[n.y], n.x) && RunValue(lines[n.y], n.x) == Some(n.value)
    && InWindow(lines, e.0, n.y as int - 1, n.y as int + 1, n.x as int - 1, RunEnd(lines[n.y], n.x + 1))
  }

  // The scan's pushes, in the order the loops make them.

  function RowEvents(lines: seq<string>, n: Number, ty: nat, tx: int, last: int): seq<Event>
    requires ty < |lines|
    decreases last + 1 - tx
  {
    if tx > last then []
    else
      var rest := RowEvents(lines, n, ty, tx + 1, last);
      if 0 <= tx < |lines[ty]| && IsSymbolChar(lines[ty][tx])
      then [(Symbol(tx, ty, lines[ty][tx]), n)] + rest
      else rest
  }

  /** Rows `ty..lastRow`; a row below zero is skipped, a row past the grid
      ends the loop. */
  function NeighEvents(lines: seq<string>, n: Number, ty: int, lastRow: int, tx0: int, last: int): seq<Event>
    decreases lastRow + 1 - ty
  {
    if ty > lastRow || ty >= |lines| then []
    else if ty < 0 then NeighEvents(lines, n, ty + 1, lastRow, tx0, last)
    else RowEvents(lines, n, ty, tx0, last) + NeighEvents(lines, n, ty + 1, lastRow, tx0, last)
  }

  /** The pushes of row `y` from column `x` on; after a run ending at `cur`
      the scan resumes at `cur + 1`. */
  function EventsFrom(lines: seq<string>, y: nat, x: nat): seq<Event>
    requires y < |lines| && x <= |lines[y]| + 1
    decreases |lines[y]| + 1 - x
  {
    var line := lines[y];
    if x >= |line| then []
    else if !IsDigit(line[x]) then EventsFrom(lines, y, x + 1)
    else
      var cur := RunEnd(line, x + 1);
      var rest := EventsFrom(lines, y, cur + 1);
      match RunValue(line, x)
      case None => rest
      case Some(v) => NeighEvents(lines, Number(x, y, v), y as int - 1, y as int + 1, x as int - 1, cur) + rest
  }

  function EventsLines(lines: seq<string>, y: nat): seq<Event>
    decreases |lines| - y
  {
    if y >= |lines| then [] else EventsFrom(lines, y, 0) + EventsLines(lines, y + 1)
  }

  /** Every run of row `y` from column `x` on parses as a `u64`. */
  predicate FitsFrom(lines: seq<string>, y: nat, x: nat)
    requires y < |lines| && x <= |lines[y]| + 1
    decreases |lines[y]| + 1 - x
  {
    var line := lines[y];
    if x >= |line| then true
    else if !IsDigit(line[x]) then FitsFrom(lines, y, x + 1)
    else RunValue(line, x).Some? && FitsFrom(lines, y, RunEnd(line, x + 1) + 1)
  }

  predicate FitsLines(lines: seq<string>, y: nat)
    decreases |lines| - y
  {
    y >= |lines| || (FitsFrom(lines, y, 0) && FitsLines(lines, y + 1))
  }

  // Grouping pushes into the map.

  function Lookup(gs: Symbols, g: Symbol): seq<Number>
  {
    if g in gs then gs[g] else []
  }

  /** The numbers pushed for symbol `g`, in order. */
  function Filter(ev: seq<Event>, g: Symbol): seq<Number>
    decreases |ev|
  {
    if |ev| == 0 then [] else (if ev[0].0 == g then [ev[0].1] else []) + Filter(ev[1..], g)
  }

  /** One push: append to the symbol's list, creating it when absent. */
  function Insert(gs: Symbols, e: Event): Symbols
  {
    if e.0 in gs then gs[e.0 := gs[e.0] + [e.1]] else gs[e.0 := [e.1]]
  }

  function AddEvents(gs: Symbols, ev: seq<Event>): Symbols
    decreases |ev|
  {
    if |ev| == 0 then gs else AddEvents(Insert(gs, ev[0]), ev[1..])
  }

  lemma AddEventsCons(gs: Symbols, e: Event, rest: seq<Event>)
    ensures AddEvents(gs, [e] + rest) == AddEvents(Insert(gs, e), rest)
  {
    assert ([e] + rest)[0] == e;
    assert ([e] + rest)[1..] == rest;
  }

  lemma {:induction false} AddEventsAppend(gs: Symbols, a: seq<Event>, b: seq<Event>)
    ensures AddEvents(gs, a + b) == AddEvents(AddEvents(gs, a), b)
    decreases |a|
  {
    if |a| > 0 {
      assert (a + b)[0] == a[0];
      assert (a + b)[1..] == a[1..] + b;
      AddEventsAppend(Insert(gs, a[0]), a[1..], b);
    } else {
      assert a + b == b;
    }
  }

  /** The innermost loop of `get_symbols`: columns x-1..cur of row `ty`. */
  method PushRow(gs0: Symbols, lines: seq<string>, n: Number, ty: nat, x: nat, cur: nat) returns (gs: Symbols)
    requires ty < |lines| && x < cur
    ensures gs == AddEvents(gs0, RowEvents(lines, n, ty, x as int - 1, cur))
  {
    gs := gs0;
    var l := lines[ty];
    var tx: int := x as int - 1;
    while tx <= cur
      invariant x as int - 1 <= tx <= cur + 1
      invariant AddEvents(gs, RowEvents(lines, n, ty, tx, cur)) == AddEvents(gs0, RowEvents(lines, n, ty, x as int - 1, cur))
    {
      if 0 <= tx < |l| {
        var cc := l[tx];
        if IsSymbolChar(cc) {
          var g := Symbol(tx, ty, cc);
          AddEventsCons(gs, (g, n), RowEvents(lines, n, ty, tx + 1, cur));
          if g in gs {
            gs := gs[g := gs[g] + [n]];
          } else {
            gs := gs[g := [n]];
          }
        }
      }
      tx := tx + 1;
    }
  }

  /** The loop over rows y-1..y+1 of `get_symbols`, clipped to the grid. */
  method PushNeighbours(gs0: Symbols, lines: seq<string>, n: Number, y: nat, x: nat, cur: nat) returns (gs: Symbols)
    requires x < cur
    ensures gs == AddEvents(gs0, NeighEvents(lines, n, y as int - 1, y as int + 1, x as int - 1, cur))
  {
    gs := gs0;
    var ty: int := y as int - 1;
    while ty <= y as int + 1
      invariant y as int - 1 <= ty <= y as int + 2
      invariant AddEvents(gs, NeighEvents(lines, n, ty, y as int + 1, x as int - 1, cur))
        == AddEvents(gs0, NeighEvents(lines, n, y as int - 1, y as int + 1, x as int - 1, cur))
    {
      if ty < 0 {
        ty := ty + 1;
        continue;
      }
      if ty >= |lines| {
        break;
      }
      AddEventsAppend(gs, RowEvents(lines, n, ty, x as int - 1, cur), NeighEvents(lines, n, ty + 1, y as int + 1, x as int - 1, cur));
      gs := PushRow(gs, lines, n, ty, x, cur);
      ty := ty + 1;
    }
  }

  /** The inner loop of `get_symbols`: the column after the digits from
      `start` on. */
  method DigitRun(line: string, start: nat) returns (cur: nat)
    requires start <= |line|
    ensures cur == RunEnd(line, start)
  {
    cur := start;
    while cur < |line| && IsDigit(line[cur])
      invariant start <= cur <= |line|
      invariant RunEnd(line, cur) == RunEnd(line, start)
    {
      cur := cur + 1;
    }
  }

  /** A digit run starting at `x` fits when its value does and the rest of
      the row after it fits. */
  lemma RunFits(lines: seq<string>, y: nat, x: nat, cur: nat)
    requires y < |lines| && x < |lines[y]| && IsDigit(lines[y][x]) && cur == RunEnd(lines[y], x + 1)
    ensures FitsFrom(lines, y, x) == (RunValue(lines[y], x).Some? && FitsFrom(lines, y, cur + 1))
  {
  }

  /** A digit run starting at `x` with value `v` pushes its neighbour events,
      then the scan goes on after it. */
  lemma RunEvents(lines: seq<string>, y: nat, x: nat, cur: nat, v: nat)
    requires y < |lines| && x < |lines[y]| && IsDigit(lines[y][x]) && cur == RunEnd(lines[y], x + 1)
    requires RunValue(lines[y], x) == Some(v)
    ensures EventsFrom(lines, y, x) ==
      NeighEvents(lines, Number(x, y, v), y as int - 1, y as int + 1, x as int - 1, cur) + EventsFrom(lines, y, cur + 1)
  {
    var line := lines[y];
    assert x < |line| && IsDigit(line[x]);
  }

  /** One digit run of `get_symbols` starting at `x`: its number pushed
      for every neighbouring symbol; `None` when it does not parse. */
  method ScanRun(gs: Symbols, lines: seq<string>, y: nat, x: nat) returns (r: Option<Symbols>, next: nat)
    requires y < |lines| && x < |lines[y]| && IsDigit(lines[y][x])
    ensures next == RunEnd(lines[y], x + 1) + 1
    ensures r.None? ==> !FitsFrom(lines, y, x)
    ensures r.Some? ==> FitsFrom(lines, y, x) == FitsFrom(lines, y, next)
    ensures r.Some? ==> AddEvents(r.value, EventsFrom(lines, y, next)) == AddEvents(gs, EventsFrom(lines, y, x))
  {
    var line := lines[y];
    var cur := DigitRun(line, x + 1);
    next := cur + 1;
    var value := ParseUnsigned(line[x..cur], U64_MAX);
    assert value == RunValue(line, x);
    RunFits(lines, y, x, cur);
    if value.None? {
      return None, next;
    }
    var n := Number(x, y, value.value);
    RunEvents(lines, y, x, cur, value.value);
    AddEventsAppend(gs, NeighEvents(lines, n, y as int - 1, y as int + 1, x as int - 1, cur), EventsFrom(lines, y, next));
    var pushed := PushNeighbours(gs, lines, n, y, x, cur);
    return Some(pushed), next;
  }

  /** The scan of one row of `get_symbols`: digit runs left to right, the
      column after a run skipped. */
  method ScanLine(gs0: Symbols, lines: seq<string>, y: nat) returns (r: Option<Symbols>)
    requires y < |lines|
    ensures r.Some? <==> FitsFrom(lines, y, 0)
    ensures r.Some? ==> r.value == AddEvents(gs0, EventsFrom(lines, y, 0))
  {
    var gs := gs0;
    var line := lines[y];
    var x: nat := 0;
    while x < |line|
      invariant x <= |line| + 1
      invariant FitsFrom(lines, y, 0) == FitsFrom(lines, y, x)
      invariant AddEvents(gs, EventsFrom(lines, y, x)) == AddEvents(gs0, EventsFrom(lines, y, 0))
      decreases |line| + 1 - x
    {
      if IsDigit(line[x]) {
        var pushed, next := ScanRun(gs, lines, y, x);
        if pushed.None? {
          return None;
        }
        gs := pushed.value;
        x := next;
      } else {
        x := x + 1;
      }
    }
    r := Some(gs);
  }

  /** `get_symbols`, with a panic (an unparsable run) as `None`. The map is
      exactly the grouping of the pushes. */
  method GetSymbols(lines: seq<string>) returns (r: Option<Symbols>)
    ensures r.Some? <==> FitsLines(lines, 0)
    ensures r.Some? ==> r.value == AddEvents(map[], EventsLines(lines, 0))
  {
    var gs: Symbols := map[];
    var y: nat := 0;
    while y < |lines|
      invariant y <= |lines|
      invariant FitsLines(lines, 0) == FitsLines(lines, y)
      invariant AddEvents(gs, EventsLines(lines, y)) == AddEvents(map[], EventsLines(lines, 0))
    {
      AddEventsAppend(gs, EventsFrom(lines, y, 0), EventsLines(lines, y + 1));
      var row := ScanLine(gs, lines, y);
      if row.None? {
        return None;
      }
      gs := row.value;
      y := y + 1;
    }
    r := Some(gs);
  }

  // What the map holds.

  lemma {:induction false} RowEventsMem(lines: seq<string>, n: Number, ty: nat, tx: int, last: int)
    requires ty < |lines|
    ensures forall e :: e in RowEvents(lines, n, ty, tx, last) <==> e.1 == n && InWindow(lines, e.0, ty, ty, tx, last)
    decreases last + 1 - tx
  {
    if tx <= last {
      RowEventsMem(lines, n, ty, tx + 1, last);
    }
  }

  lemma {:induction false} NeighEventsMem(lines: seq<string>, n: Number, ty: int, lastRow: int, tx0: int, last: int)
    ensures forall e :: e in NeighEvents(lines, n, ty, lastRow, tx0, last) <==>
      e.1 == n && InWindow(lines, e.0, ty, lastRow, tx0, last)
    decreases lastRow + 1 - ty
  {
    if ty <= lastRow && ty < |lines| {
      NeighEventsMem(lines, n, ty + 1, lastRow, tx0, last);
      if ty >= 0 {
        RowEventsMem(lines, n, ty, tx0, last);
      }
    }
  }

  /** Within a run, no column after its start starts a run. */
  lemma InsideRun(line: string, x: nat, s: nat)
    requires x < |line| && IsDigit(line[x]) && x < s <= RunEnd(line, x + 1)
    ensures !IsRunStart(line, s)
  {
  }

  lemma {:induction false} EventsFromMem(lines: seq<string>, y: nat, x: nat)
    requires y < |lines| && x <= |lines[y]| + 1
    requires x == 0 || x > |lines[y]| || !IsDigit(lines[y][x - 1])
    ensures forall e :: e in EventsFrom(lines, y, x) <==> IsPartEvent(lines, e) && e.1.y == y && e.1.x >= x
    decreases |lines[y]| + 1 - x
  {
    var line := lines[y];
    if x >= |line| {
    } else if !IsDigit(line[x]) {
      EventsFromMem(lines, y, x + 1);
    } else {
      EventsFromMem(lines, y, RunEnd(line, x + 1) + 1);
      RunEventsMem(lines, y, x);
    }
  }

  /** The events of a run starting at `x`, followed by those after it. */
  lemma RunEventsMem(lines: seq<string>, y: nat, x: nat)
    requires y < |lines| && x < |lines[y]| && IsDigit(lines[y][x])
    requires x == 0 || !IsDigit(lines[y][x - 1])
    requires forall e :: e in EventsFrom(lines, y, RunEnd(lines[y], x + 1) + 1) <==>
      IsPartEvent(lines, e) && e.1.y == y && e.1.x >= RunEnd(lines[y], x + 1) + 1
    ensures forall e :: e in EventsFrom(lines, y, x) <==> IsPartEvent(lines, e) && e.1.y == y && e.1.x >= x
  {
    var line := lines[y];
    var cur := RunEnd(line, x + 1);
    var rest := EventsFrom(lines, y, cur + 1);
    RunsSkipped(lines, y, x);
    match RunValue(line, x)
    case None =>
      assert EventsFrom(lines, y, x) == rest;
      forall e | IsPartEvent(lines, e) && e.1.y == y && e.1.x >= x ensures e.1.x >= cur + 1 {
      }
    case Some(v) =>
      var n := Number(x, y, v);
      var near := NeighEvents(lines, n, y as int - 1, y as int + 1, x as int - 1, cur);
      NeighEventsMem(lines, n, y as int - 1, y as int + 1, x as int - 1, cur);
      assert EventsFrom(lines, y, x) == near + rest;
      assert IsRunStart(line, x);
      forall e ensures e in near + rest <==> IsPartEvent(lines, e) && e.1.y == y && e.1.x >= x {
        RunEventOne(lines, y, x, v, e);
        assert e in near <==> e.1 == n && InWindow(lines, e.0, y as int - 1, y as int + 1, x as int - 1, cur);
      }
  }

  /** The events of the number at `x` are the part events of row `y` whose
      number starts at `x`. */
  lemma RunEventOne(lines: seq<string>, y: nat, x: nat, v: nat, e: Event)
    requires y < |lines| && x < |lines[y]| && IsRunStart(lines[y], x) && RunValue(lines[y], x) == Some(v)
    ensures e.1 == Number(x, y, v) && InWindow(lines, e.0, y as int - 1, y as int + 1, x as int - 1, RunEnd(lines[y], x + 1))
      <==> IsPartEvent(lines, e) && e.1.y == y && e.1.x == x
  {
  }

  /** After the run starting at `x`, the next number of the row starts past
      its end; a number at `x` itself has the run's value. */
  lemma RunsSkipped(lines: seq<string>, y: nat, x: nat)
    requires y < |lines| && x < |lines[y]| && IsDigit(lines[y][x])
    ensures forall e :: IsPartEvent(lines, e) && e.1.y == y && x < e.1.x ==> e.1.x > RunEnd(lines[y], x + 1)
    ensures forall e :: IsPartEvent(lines, e) && e.1.y == y && x == e.1.x ==> Some(e.1.value) == RunValue(lines[y], x)
  {
    forall e | IsPartEvent(lines, e) && e.1.y == y && x < e.1.x
      ensures e.1.x > RunEnd(lines[y], x + 1)
    {
      if e.1.x <= RunEnd(lines[y], x + 1) {
        InsideRun(lines[y], x, e.1.x);
      }
    }
  }

  lemma {:induction false} EventsLinesMem(lines: seq<string>, y: nat)
    ensures forall e :: e in EventsLines(lines, y) <==> IsPartEvent(lines, e) && e.1.y >= y
    decreases |lines| - y
  {
    if y < |lines| {
      EventsFromMem(lines, y, 0);
      EventsLinesMem(lines, y + 1);
    }
  }

  lemma {:induction false} FilterMem(ev: seq<Event>, g: Symbol)
    ensures forall n :: n in Filter(ev, g) <==> (g, n) in ev
    decreases |ev|
  {
    if |ev| > 0 {
      FilterMem(ev[1..], g);
      assert forall e :: e in ev <==> e == ev[0] || e in ev[1..];
    }
  }

  /** The map built from the pushes holds, for each symbol, exactly the
      numbers pushed for it, in push order. */
  lemma AddEventsLookup(gs: Symbols, ev: seq<Event>)
    ensures forall g :: Lookup(AddEvents(gs, ev), g) == Lookup(gs, g) + Filter(ev, g)
    ensures forall g :: g in AddEvents(gs, ev) <==> g in gs || |Filter(ev, g)| > 0
  {
    forall g
      ensures Lookup(AddEvents(gs, ev), g) == Lookup(gs, g) + Filter(ev, g)
      ensures g in AddEvents(gs, ev) <==> g in gs || |Filter(ev, g)| > 0
    {
      AddEventsLookupAt(gs, ev, g);
    }
  }

  /** The same for one symbol `g`. */
  lemma {:induction false} AddEventsLookupAt(gs: Symbols, ev: seq<Event>, g: Symbol)
    ensures Lookup(AddEvents(gs, ev), g) == Lookup(gs, g) + Filter(ev, g)
    ensures g in AddEvents(gs, ev) <==> g in gs || |Filter(ev, g)| > 0
    decreases |ev|
  {
    if |ev| > 0 {
      var gs1 := Insert(gs, ev[0]);
      var here := if ev[0].0 == g then [ev[0].1] else [];
      AddEventsLookupAt(gs1, ev[1..], g);
      InsertLookup(gs, ev[0], g);
      assert AddEvents(gs, ev) == AddEvents(gs1, ev[1..]);
      assert Filter(ev, g) == here + Filter(ev[1..], g);
      assert Lookup(AddEvents(gs, ev), g) == (Lookup(gs, g) + here) + Filter(ev[1..], g);
    }
  }

  /** One push adds its number to its own symbol's list only. */
  lemma InsertLookup(gs: Symbols, e: Event, g: Symbol)
    ensures Lookup(Insert(gs, e), g) == Lookup(gs, g) + (if e.0 == g then [e.1] else [])
    ensures g in Insert(gs, e) <==> g in gs || e.0 == g
  {
  }

  predicate NoDup<T(==)>(s: seq<T>)
  {
    forall i, j :: 0 <= i < j < |s| ==> s[i] != s[j]
  }

  lemma NoDupConcat<T>(a: seq<T>, b: seq<T>)
    requires NoDup(a) && NoDup(b)
    requires forall x :: x in a ==> x !in b
    ensures NoDup(a + b)
  {
    forall i, j | 0 <= i < j < |a + b| ensures (a + b)[i] != (a + b)[j] {
      if j < |a| {
        assert (a + b)[i] == a[i] && (a + b)[j] == a[j];
      } else if i < |a| {
        assert (a + b)[i] == a[i] && (a + b)[j] == b[j - |a|];
        assert a[i] in a && b[j - |a|] in b;
      } else {
        assert (a + b)[i] == b[i - |a|] && (a + b)[j] == b[j - |a|];
      }
    }
  }

  lemma {:induction false} RowEventsNoDup(lines: seq<string>, n: Number, ty: nat, tx: int, last: int)
    requires ty < |lines|
    ensures NoDup(RowEvents(lines, n, ty, tx, last))
    decreases last + 1 - tx
  {
    if tx <= last {
      RowEventsNoDup(lines, n, ty, tx + 1, last);
      RowEventsMem(lines, n, ty, tx + 1, last);
      if 0 <= tx < |lines[ty]| && IsSymbolChar(lines[ty][tx]) {
        NoDupConcat([(Symbol(tx, ty, lines[ty][tx]), n)], RowEvents(lines, n, ty, tx + 1, last));
      }
    }
  }

  lemma {:induction false} NeighEventsNoDup(lines: seq<string>, n: Number, ty: int, lastRow: int, tx0: int, last: int)
    ensures NoDup(NeighEvents(lines, n, ty, lastRow, tx0, last))
    decreases lastRow + 1 - ty
  {
    if ty <= lastRow && ty < |lines| {
      NeighEventsNoDup(lines, n, ty + 1, lastRow, tx0, last);
      if ty >= 0 {
        RowEventsNoDup(lines, n, ty, tx0, last);
        RowEventsMem(lines, n, ty, tx0, last);
        NeighEventsMem(lines, n, ty + 1, lastRow, tx0, last);
        NoDupConcat(RowEvents(lines, n, ty, tx0, last), NeighEvents(lines, n, ty + 1, lastRow, tx0, last));
      }
    }
  }

  lemma {:induction false} EventsFromNoDup(lines: seq<string>, y: nat, x: nat)
    requires y < |lines| && x <= |lines[y]| + 1
    requires x == 0 || x > |lines[y]| || !IsDigit(lines[y][x - 1])
    ensures NoDup(EventsFrom(lines, y, x))
    decreases |lines[y]| + 1 - x
  {
    var line := lines[y];
    if x >= |line| {
    } else if !IsDigit(line[x]) {
      EventsFromNoDup(lines, y, x + 1);
      assert EventsFrom(lines, y, x) == EventsFrom(lines, y, x + 1);
    } else {
      var cur := RunEnd(line, x + 1);
      EventsFromNoDup(lines, y, cur + 1);
      match RunValue(line, x)
      case None =>
        assert EventsFrom(lines, y, x) == EventsFrom(lines, y, cur + 1);
      case Some(v) =>
        var n := Number(x, y, v);
        RunNoDup(lines, y, x, cur, n);
        assert EventsFrom(lines, y, x) ==
          NeighEvents(lines, n, y as int - 1, y as int + 1, x as int - 1, cur) + EventsFrom(lines, y, cur + 1);
    }
  }

  /** The events of the number at `x` are not among those after its run. */
  lemma RunNoDup(lines: seq<string>, y: nat, x: nat, cur: nat, n: Number)
    requires y < |lines| && x < |lines[y]| && IsDigit(lines[y][x]) && cur == RunEnd(lines[y], x + 1) && n.x == x
    requires NoDup(EventsFrom(lines, y, cur + 1))
    ensures NoDup(NeighEvents(lines, n, y as int - 1, y as int + 1, x as int - 1, cur) + EventsFrom(lines, y, cur + 1))
  {
    var near := NeighEvents(lines, n, y as int - 1, y as int + 1, x as int - 1, cur);
    var rest := EventsFrom(lines, y, cur + 1);
    NeighEventsNoDup(lines, n, y as int - 1, y as int + 1, x as int - 1, cur);
    NeighEventsMem(lines, n, y as int - 1, y as int + 1, x as int - 1, cur);
    EventsFromMem(lines, y, cur + 1);
    forall e | e in near ensures e !in rest {
      assert e.1.x == x < cur + 1;
    }
    NoDupConcat(near, rest);
  }

  lemma {:induction false} EventsLinesNoDup(lines: seq<string>, y: nat)
    ensures NoDup(EventsLines(lines, y))
    decreases |lines| - y
  {
    if y < |lines| {
      EventsFromNoDup(lines, y, 0);
      EventsLinesNoDup(lines, y + 1);
      EventsFromMem(lines, y, 0);
      EventsLinesMem(lines, y + 1);
      NoDupConcat(EventsFrom(lines, y, 0), EventsLines(lines, y + 1));
    }
  }

  lemma {:induction false} FilterNoDup(ev: seq<Event>, g: Symbol)
    requires NoDup(ev)
    ensures NoDup(Filter(ev, g))
    decreases |ev|
  {
    if |ev| > 0 {
      assert NoDup(ev[1..]) by {
        forall i, j | 0 <= i < j < |ev[1..]| ensures ev[1..][i] != ev[1..][j] {
          assert ev[1..][i] == ev[i + 1] && ev[1..][j] == ev[j + 1];
        }
      }
      FilterNoDup(ev[1..], g);
      FilterMem(ev[1..], g);
      if ev[0].0 == g {
        assert ev[0] !in ev[1..] by {
          forall k | 0 <= k < |ev[1..]| ensures ev[1..][k] != ev[0] { assert ev[1..][k] == ev[k + 1]; }
        }
        NoDupConcat([ev[0].1], Filter(ev[1..], g));
      }
    }
  }

  /** The map the scan builds lists, for every symbol, exactly the numbers in
      its neighbourhood, each once; a symbol is a key exactly when some
      number touches it. */
  lemma SymbolsSpec(lines: seq<string>)
    ensures forall g, n :: n in Lookup(AddEvents(map[], EventsLines(lines, 0)), g) <==> IsPartEvent(lines, (g, n))
    ensures forall g :: NoDup(Lookup(AddEvents(map[], EventsLines(lines, 0)), g))
    ensures forall g :: g in AddEvents(map[], EventsLines(lines, 0)) ==> |AddEvents(map[], EventsLines(lines, 0))[g]| > 0
  {
    var ev := EventsLines(lines, 0);
    AddEventsLookup(map[], ev);
    EventsLinesMem(lines, 0);
    EventsLinesNoDup(lines, 0);
    forall g ensures NoDup(Lookup(AddEvents(map[], ev), g)) {
      FilterNoDup(ev, g);
      assert Lookup(AddEvents(map[], ev), g) == Filter(ev, g);
    }
    forall g, n ensures n in Lookup(AddEvents(map[], ev), g) <==> IsPartEvent(lines, (g, n)) {
      FilterMem(ev, g);
      assert Lookup(AddEvents(map[], ev), g) == Filter(ev, g);
    }
  }

  // solve1 and solve2

  /** The numbers in the map's values; `solve1` collects them into a
      `HashSet`, so a number touching several symbols counts once. */
  function PartNumbers(gs: Symbols): (r: set<Number>)
    ensures forall g, n :: g in gs && n in gs[g] ==> n in r
    ensures forall n :: n in r ==> exists g :: g in gs && n in gs[g]
  {
    set g, n | g in gs && n in gs[g] :: n
  }

  ghost function SumValues(s: set<Number>): nat
    decreases |s|
  {
    if s == {} then 0 else var n :| n in s; n.value + SumValues(s - {n})
  }

  /** `solve1`: the sum of the distinct part numbers. */
  ghost function Solve1(gs: Symbols): nat
  {
    SumValues(PartNumbers(gs))
  }

  /** A number is a part number of the scan exactly when it is a maximal
      digit run next to some symbol. */
  lemma PartNumbersSpec(lines: seq<string>, n: Number)
    ensures n in PartNumbers(AddEvents(map[], EventsLines(lines, 0))) <==> exists g :: IsPartEvent(lines, (g, n))
  {
    var gs := AddEvents(map[], EventsLines(lines, 0));
    SymbolsSpec(lines);
    if exists g :: IsPartEvent(lines, (g, n)) {
      var g :| IsPartEvent(lines, (g, n));
      assert n in Lookup(gs, g);
    }
    if n in PartNumbers(gs) {
      var g :| g in gs && n in gs[g];
      assert n in Lookup(gs, g);
    }
  }

  /** The contribution of one symbol to `solve2`: the product of its two
      numbers when it has exactly two. */
  function GearRatio(ns: seq<Number>): (r: nat)
    ensures r > 0 <==> |ns| == 2 && ns[0].value > 0 && ns[1].value > 0
  {
    if |ns| == 2 then
      ProductPositive(ns[0].value, ns[1].value);
      ns[0].value * ns[1].value
    else 0
  }

  lemma ProductPositive(a: nat, b: nat)
    ensures a * b > 0 <==> a > 0 && b > 0
  {
    if a > 0 && b > 0 {
      assert a * b >= b;
    }
  }

  ghost function SumGears(gs: Symbols, keys: set<Symbol>): nat
    requires keys <= gs.Keys
    decreases |keys|
  {
    if keys == {} then 0 else var g :| g in keys; GearRatio(gs[g]) + SumGears(gs, keys - {g})
  }

  /** `solve2`: the sum of the gear ratios over all symbols. */
  ghost function Solve2(gs: Symbols): nat
  {
    SumGears(gs, gs.Keys)
  }

  /** A symbol contributes a gear ratio exactly when two different numbers,
      and no others, touch it; the ratio is their product. */
  lemma GearSpec(lines: seq<string>, g: Symbol)
    requires g in AddEvents(map[], EventsLines(lines, 0))
    ensures var ns := AddEvents(map[], EventsLines(lines, 0))[g];
      |ns| == 2 ==>
        (ns[0] != ns[1] && IsPartEvent(lines, (g, ns[0])) && IsPartEvent(lines, (g, ns[1]))
         && (forall n :: IsPartEvent(lines, (g, n)) ==> n == ns[0] || n == ns[1])
         && GearRatio(ns) == ns[0].value * ns[1].value)
  {
    var gs := AddEvents(map[], EventsLines(lines, 0));
    var ns := gs[g];
    SymbolsSpec(lines);
    assert Lookup(gs, g) == ns;
    GearOf(lines, g, ns);
  }

  lemma GearOf(lines: seq<string>, g: Symbol, ns: seq<Number>)
    requires forall n :: n in ns <==> IsPartEvent(lines, (g, n))
    requires NoDup(ns)
    ensures |ns| == 2 ==>
        (ns[0] != ns[1] && IsPartEvent(lines, (g, ns[0])) && IsPartEvent(lines, (g, ns[1]))
         && (forall n :: IsPartEvent(lines, (g, n)) ==> n == ns[0] || n == ns[1]))
  {
    if |ns| == 2 {
      assert ns[0] in ns && ns[1] in ns;
    }
  }

}
