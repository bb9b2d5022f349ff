/** Pulse Propagation (src/day20.rs). Modules send LOW and HIGH pulses to
    their destinations: a flip-flop toggles on LOW, a conjunction remembers
    the last pulse from each input and sends LOW once all of them are HIGH,
    the broadcaster forwards what it gets, and a module named only as a
    destination absorbs everything. Pressing the button sends LOW to the
    broadcaster, and the pulses are delivered in the order they are sent.
    This module holds the values and the specification of one press; the
    map of modules that the presses update is the class in
    `Day20Modules`. */
module Day20 {
  import opened RustStd

  const BROADCASTER: string := "broadcaster"

  /** `ModuleType`; `Sink` is the source's `NONE`, a module that only
      receives. */
  datatype ModuleType = FlipFlop | Conjunction | Broadcast | Sink

  datatype ModuleState = On | Off

  /** `Signal`; `NoSignal` is the source's `NONE`. */
  datatype Signal = Low | High | NoSignal

  /** `ModuleState::flip`. */
  function Flip(s: ModuleState): (r: ModuleState)
    ensures r != s
  {
    match s
    case On => Off
    case Off => On
  }

  /** Flipping twice gives the state back. */
  lemma FlipInvolution(s: ModuleState)
    ensures Flip(Flip(s)) == s
  {
  }

  /** `Module`: its type, the flip-flop state, the last pulse it took in
      and the one it sends on, and a conjunction's memory of the last pulse
      from each input. */
  datatype Module = Module(typ: ModuleType, state: ModuleState, input: Signal, output: Signal,
                           mem: map<string, Signal>)

  /** A module as `Module::new` and `Module::default` make it. */
  function Fresh(typ: ModuleType): Module
  {
    Module(typ, Off, NoSignal, NoSignal, map[])
  }

  // ---------------------------------------------------------------------
  // Module::new

  /** The type and the name in the part before " -> ": "broadcaster", or
      '%' or '&' followed by the name; an empty part panics on `unwrap` and
      another first character on `unreachable!`, both `None` here. */
  function TypeAndName(from: string): (r: Option<(ModuleType, string)>)
  {
    if from == BROADCASTER then Some((Broadcast, from))
    else if |from| == 0 then None
    else if from[0] == '%' then Some((FlipFlop, from[1..]))
    else if from[0] == '&' then Some((Conjunction, from[1..]))
    else None
  }

  /** `Module::new`: the name, a fresh module and its destinations; a line
      without " -> " panics on the second `unwrap`, here `None`. */
  function NewModule(s: string): (r: Option<(string, Module, seq<string>)>)
    ensures r.Some? ==> r.value.1 == Fresh(r.value.1.typ) && r.value.1.typ != Sink
    ensures r.Some? ==> |r.value.2| >= 1
  {
    var parts := Split(s, " -> ");
    match TypeAndName(parts[0])
    case None => None
    case Some((typ, name)) =>
      if |parts| < 2 then None else Some((name, Fresh(typ), Split(parts[1], ", ")))
  }

  /** A module name of the puzzle: lower-case letters. */
  predicate IsName(s: string)
  {
    |s| > 0 && forall i :: 0 <= i < |s| ==> 'a' <= s[i] <= 'z'
  }

  function Sigil(typ: ModuleType): string
  {
    match typ
    case FlipFlop => "%"
    case Conjunction => "&"
    case _ => ""
  }

  /** The line that declares a module. */
  function ModuleLine(name: string, typ: ModuleType, to: seq<string>): string
  {
    Sigil(typ) + name + " -> " + Join(to, ", ")
  }

  /** The part before " -> " gives the type and the name back, and holds
      no space. */
  lemma HeadOfLine(name: string, typ: ModuleType)
    requires typ != Sink && (typ == Broadcast ==> name == BROADCASTER) && IsName(name)
    ensures TypeAndName(Sigil(typ) + name) == Some((typ, name))
    ensures ' ' !in Sigil(typ) + name
  {
    var head := Sigil(typ) + name;
    forall i | 0 <= i < |head| ensures head[i] != ' ' {
      if i >= |Sigil(typ)| {
        assert head[i] == name[i - |Sigil(typ)|];
      }
    }
    if typ != Broadcast {
      assert head[0] != 'b';
      assert head[1..] == name;
    }
  }

  /** A declaring line splits at " -> " into its two sides. */
  lemma SplitLine(head: string, to: seq<string>)
    requires ' ' !in head && forall i :: 0 <= i < |to| ==> IsName(to[i])
    ensures Split(head + " -> " + Join(to, ", "), " -> ") == [head, Join(to, ", ")]
  {
    var tail := Join(to, ", ");
    forall i | 0 <= i < |to| ensures '>' !in to[i] {
      assert IsName(to[i]);
    }
    JoinAvoids(to, ", ", '>');
    SplitCons(head, " -> ", tail);
    NoSepCharAt(tail, " -> ", 2);
  }

  /** `Module::new` reads back the name, the type and the destinations of
      every line that declares a module. */
  lemma NewModuleLine(name: string, typ: ModuleType, to: seq<string>)
    requires typ != Sink && (typ == Broadcast ==> name == BROADCASTER) && IsName(name)
    requires |to| > 0 && forall i :: 0 <= i < |to| ==> IsName(to[i])
    ensures NewModule(ModuleLine(name, typ, to)) == Some((name, Fresh(typ), to))
  {
    HeadOfLine(name, typ);
    SplitLine(Sigil(typ) + name, to);
    forall i | 0 <= i < |to| ensures ',' !in to[i] {
      assert IsName(to[i]);
    }
    SplitJoin(to, ", ");
  }

  // ---------------------------------------------------------------------
  // Module::reset and Module::processed

  /** `Module::reset`: no pulse in or out, flip-flops off, every memory
      LOW. */
  function Reset(md: Module): (r: Module)
    ensures r.typ == md.typ && r.mem.Keys == md.mem.Keys
    ensures forall k :: k in r.mem ==> r.mem[k] == Low
  {
    md.(input := NoSignal, output := NoSignal, state := Off, mem := map k | k in md.mem :: Low)
  }

  /** A reset module depends only on its type and the inputs it remembers:
      what earlier pulses left in it is gone. */
  lemma ResetForgets(a: Module, b: Module)
    requires a.typ == b.typ && a.mem.Keys == b.mem.Keys
    ensures Reset(a) == Reset(b)
  {
    assert Reset(a).mem == Reset(b).mem;
  }

  predicate AllHigh(mem: map<string, Signal>)
  {
    forall k :: k in mem ==> mem[k] == High
  }

  /** `Module::processed`: the module after taking in `input` from `from`,
      and whether the pulse stops there (`true`) or the module sends its
      output on. A conjunction that does not remember `from` panics on
      `unwrap`, here `None`. */
  function Process(md: Module, input: Signal, from: string): (r: Option<(Module, bool)>)
    ensures r.None? <==> md.typ == Conjunction && from !in md.mem
    ensures r.Some? ==> r.value.0.typ == md.typ && r.value.0.mem.Keys == md.mem.Keys
  {
    match md.typ
    case Sink => Some((md.(input := input, output := NoSignal), true))
    case Broadcast => Some((md.(input := input, output := input), false))
    case FlipFlop =>
      if input != Low then Some((md, true))
      else
        var st := Flip(md.state);
        Some((md.(input := input, state := st, output := if st == On then High else Low), false))
    case Conjunction =>
      if from !in md.mem then None
      else
        var mem := md.mem[from := input];
        Some((md.(input := input, mem := mem, output := if AllHigh(mem) then Low else High), false))
  }

  /** A flip-flop ignores HIGH and no pulse: nothing changes and nothing is
      sent. */
  lemma FlipFlopIgnores(md: Module, input: Signal, from: string)
    requires md.typ == FlipFlop && input != Low
    ensures Process(md, input, from) == Some((md, true))
  {
  }

  /** On LOW a flip-flop toggles and sends HIGH exactly when it was off
      before; two LOW pulses leave its state as it was. */
  lemma FlipFlopToggles(md: Module, from: string)
    requires md.typ == FlipFlop
    ensures var r := Process(md, Low, from);
      r.Some? && !r.value.1 && r.value.0.state == Flip(md.state) &&
      (r.value.0.output == High <==> md.state == Off) &&
      r.value.0.output != NoSignal
    ensures var r := Process(md, Low, from);
      r.Some? && Process(r.value.0, Low, from).Some? && Process(r.value.0, Low, from).value.0.state == md.state
  {
    FlipInvolution(md.state);
  }

  /** A conjunction overwrites the memory of the sender only, and sends LOW
      exactly when every input it remembers last sent HIGH. */
  lemma ConjunctionRemembers(md: Module, input: Signal, from: string)
    requires md.typ == Conjunction && from in md.mem
    ensures var r := Process(md, input, from);
      r.Some? && !r.value.1 && r.value.0.mem[from] == input &&
      (forall k :: k in md.mem && k != from ==> r.value.0.mem[k] == md.mem[k]) &&
      (r.value.0.output == Low <==> AllHigh(r.value.0.mem)) &&
      r.value.0.output != NoSignal
  {
  }

  /** The broadcaster sends on what it took in; a sink sends nothing. */
  lemma BroadcastAndSink(md: Module, input: Signal, from: string)
    ensures md.typ == Broadcast ==> Process(md, input, from) == Some((md.(input := input, output := input), false))
    ensures md.typ == Sink ==> Process(md, input, from).Some? && Process(md, input, from).value.1 &&
                               Process(md, input, from).value.0.output == NoSignal
  {
  }

  // ---------------------------------------------------------------------
  // The modules as a whole

  /** `Childs`: the destinations of every module, in order. */
  type Childs = map<string, seq<string>>

  /** The same modules, each with the type and the remembered inputs it
      had: what pulses never change. */
  predicate SameShape(a: map<string, Module>, b: map<string, Module>)
  {
    a.Keys == b.Keys && forall k :: k in a ==> b[k].typ == a[k].typ && b[k].mem.Keys == a[k].mem.Keys
  }

  lemma SameShapeTrans(a: map<string, Module>, b: map<string, Module>, c: map<string, Module>)
    requires SameShape(a, b) && SameShape(b, c)
    ensures SameShape(a, c)
  {
  }

  /** What `Modules::new` sets up: every module has a destination list,
      every destination is a module, and every conjunction remembers each
      module that sends to it. */
  predicate Wired(m: map<string, Module>, childs: Childs)
  {
    m.Keys == childs.Keys &&
    (forall n, i :: n in childs && 0 <= i < |childs[n]| ==> childs[n][i] in m) &&
    (forall n, i :: n in childs && 0 <= i < |childs[n]| && m[childs[n][i]].typ == Conjunction ==>
       n in m[childs[n][i]].mem)
  }

  /** Pulses do not undo the wiring. */
  lemma WiredShape(a: map<string, Module>, b: map<string, Module>, childs: Childs)
    requires Wired(a, childs) && SameShape(a, b)
    ensures Wired(b, childs)
  {
    forall n, i | n in childs && 0 <= i < |childs[n]| && b[childs[n][i]].typ == Conjunction
      ensures n in b[childs[n][i]].mem
    {
      assert childs[n][i] in a;
    }
  }

  /** `Modules::reset`: every module reset. */
  function ResetAll(m: map<string, Module>): (r: map<string, Module>)
    ensures SameShape(m, r)
  {
    map k | k in m :: Reset(m[k])
  }

  /** After a reset the modules depend only on their shape, so whatever
      earlier presses did is forgotten. */
  lemma ResetAllForgets(a: map<string, Module>, b: map<string, Module>)
    requires SameShape(a, b)
    ensures ResetAll(a) == ResetAll(b)
  {
    forall k | k in a ensures ResetAll(a)[k] == ResetAll(b)[k] {
      ResetForgets(a[k], b[k]);
    }
  }

  // ---------------------------------------------------------------------
  // Modules::new

  /** The modules and destination lists the lines declare, a later line
      replacing an earlier one of the same name (`HashMap::insert`); a line
      `Module::new` cannot read panics, here `None`. */
  function Declare(lines: seq<string>): (r: Option<(map<string, Module>, Childs)>)
    ensures r.Some? ==> r.value.0.Keys == r.value.1.Keys
    decreases |lines|
  {
    if |lines| == 0 then Some((map[], map[]))
    else
      match Declare(lines[..|lines| - 1])
      case None => None
      case Some((m, childs)) =>
        match NewModule(lines[|lines| - 1])
        case None => None
        case Some((name, md, to)) => Some((m[name := md], childs[name := to]))
  }

  /** Every name that some module sends to. */
  function Destinations(childs: Childs): set<string>
  {
    set n, i | n in childs && 0 <= i < |childs[n]| :: childs[n][i]
  }

  /** The modules that send to `c`. */
  function Inputs(childs: Childs, c: string): set<string>
  {
    set n | n in childs && c in childs[n]
  }

  /** A destination nobody declares becomes a `Module::default` (a sink)
      without destinations. */
  function WithSinks(m: map<string, Module>, childs: Childs): (r: (map<string, Module>, Childs))
  {
    (map k | k in m.Keys + Destinations(childs) :: if k in m then m[k] else Fresh(Sink),
     map k | k in childs.Keys + Destinations(childs) :: if k in childs then childs[k] else [])
  }

  /** `md` remembering a LOW from each of `ins`, as `HashMap::extend` does. */
  function Remember(md: Module, ins: set<string>): Module
  {
    md.(mem := md.mem + map i | i in ins :: Low)
  }

  /** `prepare_conj`: every conjunction remembers a LOW from each module
      that sends to it. */
  function WithInputs(m: map<string, Module>, childs: Childs): (r: map<string, Module>)
    ensures SameShape(m, r) <==> forall k :: k in m && m[k].typ == Conjunction ==> Inputs(childs, k) <= m[k].mem.Keys
  {
    map k | k in m :: if m[k].typ == Conjunction then Remember(m[k], Inputs(childs, k)) else m[k]
  }

  /** The whole of `Modules::new`: the modules and the destination lists. */
  function Setup(lines: seq<string>): Option<(map<string, Module>, Childs)>
  {
    match Declare(lines)
    case None => None
    case Some((m0, c0)) =>
      var (m, childs) := WithSinks(m0, c0);
      Some((WithInputs(m, childs), childs))
  }

  /** Every declared module starts off, silent and with an empty memory. */
  lemma {:induction false} DeclareFresh(lines: seq<string>)
    requires Declare(lines).Some?
    ensures forall k :: k in Declare(lines).value.0 ==>
      var md := Declare(lines).value.0[k]; md == Fresh(md.typ) && md.typ != Sink
    decreases |lines|
  {
    if |lines| > 0 {
      DeclareFresh(lines[..|lines| - 1]);
    }
  }

  /** A line that cannot be read makes the whole declaration panic. */
  lemma {:induction false} DeclarePrefixNone(lines: seq<string>, j: nat)
    requires j <= |lines| && Declare(lines[..j]).None?
    ensures Declare(lines).None?
    decreases |lines|
  {
    if j < |lines| {
      assert lines[..|lines| - 1][..j] == lines[..j];
      DeclarePrefixNone(lines[..|lines| - 1], j);
    } else {
      assert lines[..j] == lines;
    }
  }

  /** After adding the sinks every destination is a module. */
  lemma SinksClose(m0: map<string, Module>, c0: Childs)
    requires m0.Keys == c0.Keys
    ensures var (m, childs) := WithSinks(m0, c0);
      m.Keys == childs.Keys && forall n, i :: n in childs && 0 <= i < |childs[n]| ==> childs[n][i] in m
  {
    var (m, childs) := WithSinks(m0, c0);
    forall n, i | n in childs && 0 <= i < |childs[n]| ensures childs[n][i] in m {
      if n in c0 {
        assert childs[n][i] in Destinations(c0);
      }
    }
  }

  /** Remembering the inputs of modules that start with an empty memory
      wires them: each conjunction remembers exactly its inputs, all LOW. */
  lemma InputsWire(m: map<string, Module>, childs: Childs)
    requires m.Keys == childs.Keys && forall n, i :: n in childs && 0 <= i < |childs[n]| ==> childs[n][i] in m
    requires forall k :: k in m ==> m[k].mem == map[]
    ensures var w := WithInputs(m, childs);
      Wired(w, childs) &&
      forall c :: c in w && w[c].typ == Conjunction ==>
        w[c].mem.Keys == Inputs(childs, c) && forall i :: i in w[c].mem ==> w[c].mem[i] == Low
  {
    var w := WithInputs(m, childs);
    forall n, i | n in childs && 0 <= i < |childs[n]| && w[childs[n][i]].typ == Conjunction
      ensures n in w[childs[n][i]].mem
    {
      assert n in Inputs(childs, childs[n][i]);
    }
  }

  /** `Modules::new` leaves the modules wired: every destination is a
      module, and each conjunction remembers exactly the modules that send
      to it, all LOW. */
  lemma SetupWired(lines: seq<string>)
    requires Setup(lines).Some?
    ensures var (m, childs) := Setup(lines).value;
      Wired(m, childs) &&
      forall c :: c in m && m[c].typ == Conjunction ==>
        m[c].mem.Keys == Inputs(childs, c) && forall i :: i in m[c].mem ==> m[c].mem[i] == Low
  {
    DeclareFresh(lines);
    var (m0, c0) := Declare(lines).value;
    SinksClose(m0, c0);
    var (m1, childs) := WithSinks(m0, c0);
    InputsWire(m1, childs);
  }

  // ---------------------------------------------------------------------
  // One press of the button

  /** A pulse as `press_button` counts it: sender, the sender's output when
      it left the queue, and the destination. */
  datatype Pulse = Pulse(from: string, sig: Signal, to: string)

  /** The state of `press_button`'s loop: the modules, the queue, the two
      counters and the pulses delivered so far. */
  datatype Run = Run(m: map<string, Module>, q: seq<string>, nlow: nat, nhigh: nat, pulses: seq<Pulse>)

  /** How many of the pulses carry `s`. */
  function Carrying(ps: seq<Pulse>, s: Signal): (n: nat)
    ensures n <= |ps|
  {
    if |ps| == 0 then 0
    else Carrying(ps[..|ps| - 1], s) + (if ps[|ps| - 1].sig == s then 1 else 0)
  }

  /** One pulse of the inner loop: count the sender's output `out`, then
      let `Modules::processed` deliver the sender's current output; a
      destination that does not absorb it joins the queue. An unknown
      module panics on `unwrap`, here `None`, and so does `out` being no
      pulse (`unreachable!`). */
  function Hop(r: Run, from: string, to: string, out: Signal): (res: Option<Run>)
    ensures res.Some? ==> res.value.m.Keys == r.m.Keys
  {
    if out == NoSignal || from !in r.m || to !in r.m then None
    else
      match Process(r.m[to], r.m[from].output, from)
      case None => None
      case Some((md, absorbed)) =>
        Some(Run(r.m[to := md], if absorbed then r.q else r.q + [to],
                 if out == Low then r.nlow + 1 else r.nlow,
                 if out == High then r.nhigh + 1 else r.nhigh,
                 r.pulses + [Pulse(from, out, to)]))
  }

  /** The `for to in childs[from]` loop, over the destinations in order. */
  function Fanout(r: Run, from: string, tos: seq<string>, out: Signal): (res: Option<Run>)
    ensures res.Some? ==> res.value.m.Keys == r.m.Keys
    decreases |tos|
  {
    if |tos| == 0 then Some(r)
    else
      match Fanout(r, from, tos[..|tos| - 1], out)
      case None => None
      case Some(r1) => Hop(r1, from, tos[|tos| - 1], out)
  }

  /** A hop whose delivery succeeds. */
  lemma HopOf(r: Run, from: string, to: string, out: Signal, md: Module, absorbed: bool)
    requires out != NoSignal && from in r.m && to in r.m
    requires Process(r.m[to], r.m[from].output, from) == Some((md, absorbed))
    ensures Hop(r, from, to, out) ==
      Some(Run(r.m[to := md], if absorbed then r.q else r.q + [to],
               if out == Low then r.nlow + 1 else r.nlow, if out == High then r.nhigh + 1 else r.nhigh,
               r.pulses + [Pulse(from, out, to)]))
  {
  }

  /** The fan-out to one more destination is one more hop. */
  lemma FanoutSnoc(r: Run, from: string, tos: seq<string>, i: nat, out: Signal, ri: Run)
    requires i < |tos| && Fanout(r, from, tos[..i], out) == Some(ri)
    ensures Fanout(r, from, tos[..i + 1], out) == Hop(ri, from, tos[i], out)
  {
    assert tos[..i + 1][..i] == tos[..i];
  }

  /** A pulse that panics makes the whole fan-out panic. */
  lemma {:induction false} FanoutPrefixNone(r: Run, from: string, tos: seq<string>, j: nat, out: Signal)
    requires j <= |tos| && Fanout(r, from, tos[..j], out).None?
    ensures Fanout(r, from, tos, out).None?
    decreases |tos|
  {
    if j < |tos| {
      assert tos[..|tos| - 1][..j] == tos[..j];
      FanoutPrefixNone(r, from, tos[..|tos| - 1], j, out);
    } else {
      assert tos[..j] == tos;
    }
  }

  /** One turn of the `while !q.is_empty()` loop: the run after it, and
      whether the front module `from` was `name` sending `desired` (which
      ends the press before anything is delivered). A module with no output
      is skipped; otherwise its pulses go out and its input is cleared. */
  function Pop(r: Run, childs: Childs, name: string, desired: Signal): (res: Option<(Run, bool)>)
    requires |r.q| > 0
  {
    var from := r.q[0];
    var r1 := r.(q := r.q[1..]);
    if from !in r.m then None
    else
      var out := r.m[from].output;
      if out == NoSignal then Some((r1, false))
      else if from == name && out == desired then Some((r1, true))
      else if from !in childs then None
      else
        match Fanout(r1, from, childs[from], out)
        case None => None
        case Some(r2) => Some((r2.(m := r2.m[from := r2.m[from].(input := NoSignal)]), false))
  }

  /** How a press ends: the queue empties or `name` sends `desired`
      (`Done`), the loop runs for more than `fuel` turns, or it panics. */
  datatype Outcome = Done(run: Run, found: bool) | OutOfFuel | Panic

  /** The queue loop of `press_button`, for at most `fuel` turns. */
  function PressLoop(r: Run, childs: Childs, name: string, desired: Signal, fuel: nat): (o: Outcome)
    decreases fuel
  {
    if |r.q| == 0 then Done(r, false)
    else if fuel == 0 then OutOfFuel
    else
      var p := Pop(r, childs, name, desired);
      if p.None? then Panic
      else if p.value.1 then Done(p.value.0, true)
      else PressLoop(p.value.0, childs, name, desired, fuel - 1)
  }

  /** `press_button`: LOW to `start`, counted as one low pulse, then the
      queue loop from `start`. */
  function Press(m: map<string, Module>, childs: Childs, start: string, name: string, desired: Signal,
                 fuel: nat): (o: Outcome)
  {
    if start !in m then Panic
    else
      match Process(m[start], Low, start)
      case None => Panic
      case Some((md, _)) => PressLoop(Run(m[start := md], [start], 1, 0, []), childs, name, desired, fuel)
  }

  // ---------------------------------------------------------------------
  // Pulses keep the shape

  lemma HopShape(r: Run, from: string, to: string, out: Signal)
    requires Hop(r, from, to, out).Some?
    ensures SameShape(r.m, Hop(r, from, to, out).value.m)
  {
  }

  lemma {:induction false} FanoutShape(r: Run, from: string, tos: seq<string>, out: Signal)
    requires Fanout(r, from, tos, out).Some?
    ensures SameShape(r.m, Fanout(r, from, tos, out).value.m)
    decreases |tos|
  {
    if |tos| > 0 {
      var r1 := Fanout(r, from, tos[..|tos| - 1], out).value;
      FanoutShape(r, from, tos[..|tos| - 1], out);
      HopShape(r1, from, tos[|tos| - 1], out);
      SameShapeTrans(r.m, r1.m, Fanout(r, from, tos, out).value.m);
    }
  }

  lemma PopShape(r: Run, childs: Childs, name: string, desired: Signal)
    requires |r.q| > 0 && Pop(r, childs, name, desired).Some?
    ensures SameShape(r.m, Pop(r, childs, name, desired).value.0.m)
  {
    var from := r.q[0];
    var r1 := r.(q := r.q[1..]);
    var out := r.m[from].output;
    if out != NoSignal && !(from == name && out == desired) {
      FanoutShape(r1, from, childs[from], out);
    }
  }

  lemma {:induction false} PressLoopShape(r: Run, childs: Childs, name: string, desired: Signal, fuel: nat)
    requires PressLoop(r, childs, name, desired, fuel).Done?
    ensures SameShape(r.m, PressLoop(r, childs, name, desired, fuel).run.m)
    decreases fuel
  {
    if |r.q| > 0 {
      PopShape(r, childs, name, desired);
      var p := Pop(r, childs, name, desired).value;
      if !p.1 {
        PressLoopShape(p.0, childs, name, desired, fuel - 1);
        SameShapeTrans(r.m, p.0.m, PressLoop(r, childs, name, desired, fuel).run.m);
      }
    }
  }

  /** A press changes no module's type and no conjunction's set of
      inputs: only states, pulses and memories. */
  lemma PressShape(m: map<string, Module>, childs: Childs, start: string, name: string, desired: Signal,
                   fuel: nat)
    requires Press(m, childs, start, name, desired, fuel).Done?
    ensures SameShape(m, Press(m, childs, start, name, desired, fuel).run.m)
  {
    var md := Process(m[start], Low, start).value.0;
    var r := Run(m[start := md], [start], 1, 0, []);
    PressLoopShape(r, childs, name, desired, fuel);
    SameShapeTrans(m, r.m, Press(m, childs, start, name, desired, fuel).run.m);
  }

  // ---------------------------------------------------------------------
  // What a press counts

  /** The counters tell the pulses apart: one LOW for the button plus one
      per LOW pulse, one per HIGH pulse, and no pulse carries nothing. */
  ghost predicate Tally(r: Run)
  {
    r.nlow == 1 + Carrying(r.pulses, Low) && r.nhigh == Carrying(r.pulses, High) &&
    forall i :: 0 <= i < |r.pulses| ==> r.pulses[i].sig != NoSignal
  }

  lemma HopTally(r: Run, from: string, to: string, out: Signal)
    requires Tally(r) && Hop(r, from, to, out).Some?
    ensures Tally(Hop(r, from, to, out).value)
  {
    var ps := Hop(r, from, to, out).value.pulses;
    assert ps[..|ps| - 1] == r.pulses;
  }

  lemma {:induction false} FanoutTally(r: Run, from: string, tos: seq<string>, out: Signal)
    requires Tally(r) && Fanout(r, from, tos, out).Some?
    ensures Tally(Fanout(r, from, tos, out).value)
    decreases |tos|
  {
    if |tos| > 0 {
      FanoutTally(r, from, tos[..|tos| - 1], out);
      HopTally(Fanout(r, from, tos[..|tos| - 1], out).value, from, tos[|tos| - 1], out);
    }
  }

  lemma {:induction false} PressLoopTally(r: Run, childs: Childs, name: string, desired: Signal, fuel: nat)
    requires Tally(r) && PressLoop(r, childs, name, desired, fuel).Done?
    ensures Tally(PressLoop(r, childs, name, desired, fuel).run)
    decreases fuel
  {
    if |r.q| > 0 {
      var from := r.q[0];
      var r1 := r.(q := r.q[1..]);
      var out := r.m[from].output;
      if out != NoSignal && !(from == name && out == desired) {
        FanoutTally(r1, from, childs[from], out);
      }
      var p := Pop(r, childs, name, desired).value;
      if !p.1 {
        PressLoopTally(p.0, childs, name, desired, fuel - 1);
      }
    }
  }

  /** In every press that ends, `nlow` is one more than the LOW pulses
      delivered and `nhigh` the HIGH ones: each pulse is counted exactly
      once, by the signal it carries. */
  lemma PressTally(m: map<string, Module>, childs: Childs, start: string, name: string, desired: Signal,
                   fuel: nat)
    requires Press(m, childs, start, name, desired, fuel).Done?
    ensures var run := Press(m, childs, start, name, desired, fuel).run;
      run.nlow == 1 + Carrying(run.pulses, Low) && run.nhigh == Carrying(run.pulses, High) &&
      run.nlow + run.nhigh == 1 + |run.pulses|
  {
    var md := Process(m[start], Low, start).value.0;
    PressLoopTally(Run(m[start := md], [start], 1, 0, []), childs, name, desired, fuel);
    CarryingSplit(Press(m, childs, start, name, desired, fuel).run.pulses);
  }

  /** Pulses carrying something carry LOW or HIGH. */
  lemma {:induction false} CarryingSplit(ps: seq<Pulse>)
    requires forall i :: 0 <= i < |ps| ==> ps[i].sig != NoSignal
    ensures Carrying(ps, Low) + Carrying(ps, High) == |ps|
    decreases |ps|
  {
    if |ps| > 0 {
      CarryingSplit(ps[..|ps| - 1]);
    }
  }

  // ---------------------------------------------------------------------
  // A wired press never panics

  /** Every queued module is a module. */
  predicate Queued(r: Run)
  {
    forall i :: 0 <= i < |r.q| ==> r.q[i] in r.m
  }

  lemma HopSafe(r: Run, childs: Childs, from: string, j: nat, out: Signal)
    requires Wired(r.m, childs) && Queued(r) && from in childs && j < |childs[from]| && out != NoSignal
    ensures Hop(r, from, childs[from][j], out).Some? && Queued(Hop(r, from, childs[from][j], out).value)
  {
    var to := childs[from][j];
    assert to in r.m;
    assert r.m[to].typ == Conjunction ==> from in r.m[to].mem;
  }

  lemma {:induction false} FanoutSafe(r: Run, childs: Childs, from: string, k: nat, out: Signal)
    requires Wired(r.m, childs) && Queued(r) && from in childs && k <= |childs[from]| && out != NoSignal
    ensures Fanout(r, from, childs[from][..k], out).Some? && Queued(Fanout(r, from, childs[from][..k], out).value)
    decreases k
  {
    var tos := childs[from][..k];
    if k > 0 {
      assert tos[..k - 1] == childs[from][..k - 1];
      FanoutSafe(r, childs, from, k - 1, out);
      var r1 := Fanout(r, from, tos[..k - 1], out).value;
      FanoutShape(r, from, tos[..k - 1], out);
      WiredShape(r.m, r1.m, childs);
      HopSafe(r1, childs, from, k - 1, out);
    }
  }

  lemma PopSafe(r: Run, childs: Childs, name: string, desired: Signal)
    requires Wired(r.m, childs) && Queued(r) && |r.q| > 0
    ensures Pop(r, childs, name, desired).Some? && Queued(Pop(r, childs, name, desired).value.0)
  {
    var from := r.q[0];
    var r1 := r.(q := r.q[1..]);
    var out := r.m[from].output;
    if out != NoSignal && !(from == name && out == desired) {
      FanoutSafe(r1, childs, from, |childs[from]|, out);
      assert childs[from][..|childs[from]|] == childs[from];
    }
  }

  lemma {:induction false} PressLoopSafe(r: Run, childs: Childs, name: string, desired: Signal, fuel: nat)
    requires Wired(r.m, childs) && Queued(r)
    ensures PressLoop(r, childs, name, desired, fuel) != Panic
    decreases fuel
  {
    if |r.q| > 0 && fuel > 0 {
      PopSafe(r, childs, name, desired);
      var p := Pop(r, childs, name, desired).value;
      if !p.1 {
        PopShape(r, childs, name, desired);
        WiredShape(r.m, p.0.m, childs);
        PressLoopSafe(p.0, childs, name, desired, fuel - 1);
        assert PressLoop(r, childs, name, desired, fuel) == PressLoop(p.0, childs, name, desired, fuel - 1);
      }
    }
  }

  /** On modules that `Modules::new` wired, a press from a module that is
      not a conjunction (the broadcaster) never panics: it ends, or it
      outlasts the fuel. */
  lemma PressSafe(m: map<string, Module>, childs: Childs, start: string, name: string, desired: Signal,
                  fuel: nat)
    requires Wired(m, childs) && start in m && m[start].typ != Conjunction
    ensures Press(m, childs, start, name, desired, fuel) != Panic
  {
    var md := Process(m[start], Low, start).value.0;
    var m1 := m[start := md];
    assert SameShape(m, m1);
    WiredShape(m, m1, childs);
    PressLoopSafe(Run(m1, [start], 1, 0, []), childs, name, desired, fuel);
  }

  /** Looking for no pulse never stops a press early: a module without
      output is skipped before the comparison. `solve1` relies on this. */
  lemma {:induction false} PressLoopNeverFinds(r: Run, childs: Childs, name: string, fuel: nat)
    ensures var o := PressLoop(r, childs, name, NoSignal, fuel);
      !(o.Done? && o.found)
    decreases fuel
  {
    if |r.q| > 0 && fuel > 0 {
      var p := Pop(r, childs, name, NoSignal);
      if p.Some? && !p.value.1 {
        PressLoopNeverFinds(p.value.0, childs, name, fuel - 1);
      }
    }
  }

  lemma PressNeverFinds(m: map<string, Module>, childs: Childs, start: string, name: string, fuel: nat)
    ensures var o := Press(m, childs, start, name, NoSignal, fuel);
      !(o.Done? && o.found)
  {
    if start in m && Process(m[start], Low, start).Some? {
      var md := Process(m[start], Low, start).value.0;
      PressLoopNeverFinds(Run(m[start := md], [start], 1, 0, []), childs, name, fuel);
    }
  }

  // ---------------------------------------------------------------------
  // Many presses: solve1 and count_presses

  /** The first `k` presses of `solve1` (looking for nothing): the modules
      after them and the summed low and high counts; `None` when one of
      them panics or outlasts the fuel. */
  function Totals(m: map<string, Module>, childs: Childs, start: string, k: nat, fuel: nat)
    : (r: Option<(map<string, Module>, nat, nat)>)
    decreases k
  {
    if k == 0 then Some((m, 0, 0))
    else
      match Totals(m, childs, start, k - 1, fuel)
      case None => None
      case Some((mk, low, high)) =>
        match Press(mk, childs, start, "", NoSignal, fuel)
        case Done(run, _) => Some((run.m, low + run.nlow, high + run.nhigh))
        case _ => None
  }

  /** Once a press fails, every longer run of presses fails. */
  lemma {:induction false} TotalsNoneLater(m: map<string, Module>, childs: Childs, start: string, k: nat, j: nat,
                                           fuel: nat)
    requires k <= j && Totals(m, childs, start, k, fuel).None?
    ensures Totals(m, childs, start, j, fuel).None?
    decreases j
  {
    if k < j {
      TotalsNoneLater(m, childs, start, k, j - 1, fuel);
    }
  }

  /** One more press of `solve1`. */
  lemma TotalsStep(m: map<string, Module>, childs: Childs, start: string, k: nat, fuel: nat,
                   mk: map<string, Module>, low: nat, high: nat)
    requires Totals(m, childs, start, k, fuel) == Some((mk, low, high))
    ensures var o := Press(mk, childs, start, "", NoSignal, fuel);
      Totals(m, childs, start, k + 1, fuel) ==
        if o.Done? then Some((o.run.m, low + o.run.nlow, high + o.run.nhigh)) else None
  {
  }

  /** Every press sends at least its one button pulse LOW, so `k` presses
      count at least `k` low pulses, and every pulse counted is low or
      high. */
  lemma {:induction false} TotalsLow(m: map<string, Module>, childs: Childs, start: string, k: nat, fuel: nat)
    requires Totals(m, childs, start, k, fuel).Some?
    ensures Totals(m, childs, start, k, fuel).value.1 >= k
    decreases k
  {
    if k > 0 {
      TotalsLow(m, childs, start, k - 1, fuel);
      var mk := Totals(m, childs, start, k - 1, fuel).value.0;
      PressTally(mk, childs, start, "", NoSignal, fuel);
    }
  }

  /** `count_presses` from press `n` on, for at most `limit` presses: the
      number of the first press in which `name` sends `desired`. A press
      that panics or outlasts the fuel, or running out of presses, gives
      `None`. */
  function FirstHit(m: map<string, Module>, childs: Childs, start: string, name: string, desired: Signal,
                    n: nat, limit: nat, fuel: nat): (r: Option<nat>)
    ensures r.Some? ==> n <= r.value < n + limit
    decreases limit
  {
    if limit == 0 then None
    else
      match Press(m, childs, start, name, desired, fuel)
      case Done(run, found) =>
        if found then Some(n) else FirstHit(run.m, childs, start, name, desired, n + 1, limit - 1, fuel)
      case _ => None
  }

  /** The modules after `k` presses in none of which `name` sent
      `desired`; `None` if one of them did, panicked or outlasted the
      fuel. */
  function After(m: map<string, Module>, childs: Childs, start: string, name: string, desired: Signal,
                 k: nat, fuel: nat): Option<map<string, Module>>
    decreases k
  {
    if k == 0 then Some(m)
    else
      match Press(m, childs, start, name, desired, fuel)
      case Done(run, found) =>
        if found then None else After(run.m, childs, start, name, desired, k - 1, fuel)
      case _ => None
  }

  /** The press `count_presses` returns is the first in which `name` sends
      `desired`: every press before it ends without, and it does. */
  lemma {:induction false} FirstHitIsFirst(m: map<string, Module>, childs: Childs, start: string, name: string,
                                           desired: Signal, n: nat, limit: nat, fuel: nat)
    requires FirstHit(m, childs, start, name, desired, n, limit, fuel).Some?
    ensures var j := FirstHit(m, childs, start, name, desired, n, limit, fuel).value - n;
      After(m, childs, start, name, desired, j, fuel).Some? &&
      var o := Press(After(m, childs, start, name, desired, j, fuel).value, childs, start, name, desired, fuel);
      o.Done? && o.found
    decreases limit
  {
    var o := Press(m, childs, start, name, desired, fuel);
    if !o.found {
      FirstHitIsFirst(o.run.m, childs, start, name, desired, n + 1, limit - 1, fuel);
    }
  }

  /** Conversely, when the first press to see `name` send `desired` is
      within the limit, `count_presses` finds it. */
  lemma {:induction false} FirstHitFinds(m: map<string, Module>, childs: Childs, start: string, name: string,
                                         desired: Signal, n: nat, limit: nat, fuel: nat, j: nat)
    requires j < limit && After(m, childs, start, name, desired, j, fuel).Some?
    requires var o := Press(After(m, childs, start, name, desired, j, fuel).value, childs, start, name, desired, fuel);
      o.Done? && o.found
    ensures FirstHit(m, childs, start, name, desired, n, limit, fuel) == Some(n + j)
    decreases j
  {
    if j > 0 {
      var o := Press(m, childs, start, name, desired, fuel);
      FirstHitFinds(o.run.m, childs, start, name, desired, n + 1, limit - 1, fuel, j - 1);
    }
  }

  // ---------------------------------------------------------------------
  // get_main_conjunctions

  /** `s` reaches `t` in `k` steps along destinations, passing only
      modules that are not conjunctions, where `get_main_conjunctions`
      stops. */
  ghost predicate Via(m: map<string, Module>, childs: Childs, s: string, t: string, k: nat)
    decreases k
  {
    if k == 0 then s == t
    else
      s in m && m[s].typ != Conjunction && s in childs &&
      exists i :: 0 <= i < |childs[s]| && Via(m, childs, childs[s][i], t, k - 1)
  }

  /** `start` reaches `t` through modules that are not conjunctions. */
  ghost predicate Reached(m: map<string, Module>, childs: Childs, start: string, t: string)
  {
    exists k :: Via(m, childs, start, t, k)
  }

  /** A conjunction that `start` reaches through modules that are not
      conjunctions. */
  ghost predicate IsMain(m: map<string, Module>, childs: Childs, start: string, c: string)
  {
    c in m && m[c].typ == Conjunction && Reached(m, childs, start, c)
  }

  /** A path can be continued from a module that is not a conjunction. */
  lemma {:induction false} ViaSnoc(m: map<string, Module>, childs: Childs, s: string, t: string, k: nat, i: nat)
    requires Via(m, childs, s, t, k) && t in m && m[t].typ != Conjunction && t in childs && i < |childs[t]|
    ensures Via(m, childs, s, childs[t][i], k + 1)
    decreases k
  {
    if k == 0 {
      assert Via(m, childs, childs[t][i], childs[t][i], 0);
    } else {
      var j :| 0 <= j < |childs[s]| && Via(m, childs, childs[s][j], t, k - 1);
      ViaSnoc(m, childs, childs[s][j], t, k - 1, i);
    }
  }

  /** One more press that does not see `name` send `desired` extends the
      presses `After` counts. */
  lemma {:induction false} AfterStep(m: map<string, Module>, childs: Childs, start: string, name: string,
                                     desired: Signal, k: nat, fuel: nat)
    requires After(m, childs, start, name, desired, k, fuel).Some?
    requires var o := Press(After(m, childs, start, name, desired, k, fuel).value, childs, start, name, desired, fuel);
      o.Done? && !o.found
    ensures After(m, childs, start, name, desired, k + 1, fuel) ==
      Some(Press(After(m, childs, start, name, desired, k, fuel).value, childs, start, name, desired, fuel).run.m)
    decreases k
  {
    if k > 0 {
      var o := Press(m, childs, start, name, desired, fuel);
      AfterStep(o.run.m, childs, start, name, desired, k - 1, fuel);
    }
  }

  /** One turn of `count_presses`' loop: press `n` either sees `name`
      send `desired`, and is the one counted, or extends the presses that
      did not. */
  lemma CountStep(m0: map<string, Module>, childs: Childs, start: string, name: string, desired: Signal,
                  n: nat, left: nat, fuel: nat, mb: map<string, Module>)
    requires n >= 1 && left >= 1 && After(m0, childs, start, name, desired, n - 1, fuel) == Some(mb)
    requires Press(mb, childs, start, name, desired, fuel).Done?
    ensures var o := Press(mb, childs, start, name, desired, fuel);
      SameShape(mb, o.run.m) &&
      (o.found ==> FirstHit(mb, childs, start, name, desired, n, left, fuel) == Some(n)) &&
      (!o.found ==>
         After(m0, childs, start, name, desired, n, fuel) == Some(o.run.m) &&
         FirstHit(mb, childs, start, name, desired, n, left, fuel) ==
           FirstHit(o.run.m, childs, start, name, desired, n + 1, left - 1, fuel))
  {
    PressShape(mb, childs, start, name, desired, fuel);
    if !Press(mb, childs, start, name, desired, fuel).found {
      AfterStep(m0, childs, start, name, desired, n - 1, fuel);
    }
  }
}
