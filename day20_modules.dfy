/** Day 20, the imperative part: `Modules`, whose map of modules the
    presses update in place, with `new`, `prepare_conj`, `press_button`,
    `processed`, `reset`, `count_presses` and `get_main_conjunctions`, and
    the two solvers over it. Each method is proved against the functions of
    module `Day20`. */
module Day20Modules {
  import opened RustStd
  import opened Day20
  import Day08

  /** What `prepare_conj`'s first loop has gathered: every conjunction
      `c` lists the modules of `done` that send to it, and `name` once
      `c` is among `part`, the destinations of `name` seen so far. */
  ghost predicate Collected(m: map<string, Module>, childs: Childs, conj: map<string, seq<string>>,
                            done: set<string>, name: string, part: seq<string>)
  {
    (forall c :: c in conj ==> c in m && m[c].typ == Conjunction) &&
    forall c, x :: c in m && m[c].typ == Conjunction ==>
      ((c in conj && x in conj[c]) <==> (x in done && x in childs && c in childs[x]) || (x == name && c in part))
  }

  /** Some module on the stack still leads to `c`. */
  ghost predicate Pending(m: map<string, Module>, childs: Childs, stack: seq<string>, c: string)
  {
    exists j, k :: 0 <= j < |stack| && Via(m, childs, stack[j], c, k)
  }

  /** A path to a conjunction stops at its first conjunction, which is
      therefore its end; from any other module it goes on through one of
      its destinations. */
  lemma ViaStep(m: map<string, Module>, childs: Childs, s: string, c: string, k: nat)
    requires Via(m, childs, s, c, k) && c in m && m[c].typ == Conjunction && s in m
    ensures m[s].typ == Conjunction ==> s == c
    ensures m[s].typ != Conjunction ==>
      s in childs && exists i, k' :: 0 <= i < |childs[s]| && Via(m, childs, childs[s][i], c, k')
  {
    if k > 0 {
      var i :| 0 <= i < |childs[s]| && Via(m, childs, childs[s][i], c, k - 1);
    }
  }

  /** What `get_main_conjunctions`' stack search returns from `stack`
      with `results` found so far and `fuel` pops left: it pops the top
      name, keeps a conjunction and pushes the destinations of any other
      module. A name that is not a module, or a module other than a
      conjunction without a destination list, panics; the fuel running out
      stands for a search that does not end. */
  function MainSearch(m: map<string, Module>, childs: Childs, stack: seq<string>, results: set<string>, fuel: nat)
    : (r: Option<set<string>>)
    ensures r.Some? ==> results <= r.value
    decreases fuel
  {
    if |stack| == 0 then Some(results)
    else if fuel == 0 then None
    else
      var cur := stack[|stack| - 1];
      if cur !in m then None
      else if m[cur].typ == Conjunction then MainSearch(m, childs, stack[..|stack| - 1], results + {cur}, fuel - 1)
      else if cur !in childs then None
      else MainSearch(m, childs, stack[..|stack| - 1] + childs[cur], results, fuel - 1)
  }

  /** More fuel does not change a search that came back: a `None` that
      more fuel turns into a result was the fuel running out. */
  lemma {:induction false} MainSearchMoreFuel(m: map<string, Module>, childs: Childs, stack: seq<string>,
                                              results: set<string>, fuel: nat, more: nat)
    requires fuel <= more && MainSearch(m, childs, stack, results, fuel).Some?
    ensures MainSearch(m, childs, stack, results, more) == MainSearch(m, childs, stack, results, fuel)
    decreases fuel
  {
    if |stack| > 0 {
      var cur := stack[|stack| - 1];
      if m[cur].typ == Conjunction {
        MainSearchMoreFuel(m, childs, stack[..|stack| - 1], results + {cur}, fuel - 1, more - 1);
      } else {
        MainSearchMoreFuel(m, childs, stack[..|stack| - 1] + childs[cur], results, fuel - 1, more - 1);
      }
    }
  }

  /** The invariant of `get_main_conjunctions`' loop: what it has found
      are main conjunctions, the stack holds modules reached through
      modules that are not conjunctions, and every main conjunction not yet
      found is reached from the stack. */
  ghost predicate Searching(m: map<string, Module>, childs: Childs, start: string, stack: seq<string>,
                            results: set<string>)
  {
    (forall c :: c in results ==> IsMain(m, childs, start, c)) &&
    (forall j :: 0 <= j < |stack| ==> Reached(m, childs, start, stack[j])) &&
    (forall c :: IsMain(m, childs, start, c) ==> c in results || Pending(m, childs, stack, c))
  }

  lemma StackStart(m: map<string, Module>, childs: Childs, start: string)
    ensures Searching(m, childs, start, [start], {})
  {
    assert Via(m, childs, start, [start][0], 0);
    forall c | IsMain(m, childs, start, c) ensures Pending(m, childs, [start], c) {
      var k :| Via(m, childs, start, c, k);
      assert Via(m, childs, [start][0], c, k);
    }
  }

  /** A conjunction on top of the stack is a main one; popping it loses
      no other. */
  lemma PopConjunction(m: map<string, Module>, childs: Childs, start: string, stack: seq<string>,
                       results: set<string>)
    requires Searching(m, childs, start, stack, results) && |stack| > 0
    requires stack[|stack| - 1] in m && m[stack[|stack| - 1]].typ == Conjunction
    ensures Searching(m, childs, start, stack[..|stack| - 1], results + {stack[|stack| - 1]})
  {
    var cur := stack[|stack| - 1];
    var below := stack[..|stack| - 1];
    forall j | 0 <= j < |below| ensures Reached(m, childs, start, below[j]) {
      assert below[j] == stack[j];
    }
    forall c | IsMain(m, childs, start, c) && c !in results + {cur}
      ensures Pending(m, childs, below, c)
    {
      assert Pending(m, childs, stack, c);
      var j, k :| 0 <= j < |stack| && Via(m, childs, stack[j], c, k);
      if j == |stack| - 1 {
        ViaStep(m, childs, cur, c, k);
        assert false;
      }
      assert Via(m, childs, below[j], c, k);
    }
  }

  /** Any other module on top of the stack is replaced by its
      destinations, which then lead to whatever it led to. */
  lemma PopOther(m: map<string, Module>, childs: Childs, start: string, stack: seq<string>,
                 results: set<string>)
    requires Searching(m, childs, start, stack, results) && |stack| > 0
    requires stack[|stack| - 1] in m && m[stack[|stack| - 1]].typ != Conjunction && stack[|stack| - 1] in childs
    ensures Searching(m, childs, start, stack[..|stack| - 1] + childs[stack[|stack| - 1]], results)
  {
    var cur := stack[|stack| - 1];
    var below := stack[..|stack| - 1];
    var next := below + childs[cur];
    var kc :| Via(m, childs, start, stack[|stack| - 1], kc);
    forall j | 0 <= j < |next| ensures Reached(m, childs, start, next[j]) {
      if j >= |below| {
        ViaSnoc(m, childs, start, cur, kc, j - |below|);
        assert next[j] == childs[cur][j - |below|];
      } else {
        assert next[j] == stack[j];
      }
    }
    forall c | IsMain(m, childs, start, c) && c !in results
      ensures Pending(m, childs, next, c)
    {
      assert Pending(m, childs, stack, c);
      var j, k :| 0 <= j < |stack| && Via(m, childs, stack[j], c, k);
      if j == |stack| - 1 {
        ViaStep(m, childs, cur, c, k);
        var i, k' :| 0 <= i < |childs[cur]| && Via(m, childs, childs[cur][i], c, k');
        assert Via(m, childs, next[|below| + i], c, k');
      } else {
        assert Via(m, childs, next[j], c, k);
      }
    }
  }

  /** The maps `new` builds by adding the sinks one at a time are those of
      `WithSinks`. */
  lemma SinksOf(m0: map<string, Module>, c0: Childs, m: map<string, Module>, childs: Childs)
    requires m0.Keys == c0.Keys
    requires m.Keys == m0.Keys + Destinations(c0) && childs.Keys == m.Keys
    requires forall k :: k in m ==> m[k] == if k in m0 then m0[k] else Fresh(Sink)
    requires forall k :: k in childs ==> childs[k] == if k in c0 then c0[k] else []
    ensures (m, childs) == WithSinks(m0, c0)
  {
    var (ws, wc) := WithSinks(m0, c0);
    assert m == ws;
    assert childs == wc;
  }

  /** The `for_each` over the lines in `Modules::new`: each line's module
      and destinations, inserted by name. */
  method DeclareAll(lines: seq<string>) returns (r: Option<(map<string, Module>, Childs)>)
    ensures r == Declare(lines)
  {
    var m: map<string, Module> := map[];
    var childs: Childs := map[];
    var i := 0;
    while i < |lines|
      invariant 0 <= i <= |lines|
      invariant Declare(lines[..i]) == Some((m, childs))
    {
      assert lines[..i + 1][..i] == lines[..i];
      var p := NewModule(lines[i]);
      if p.None? {
        DeclarePrefixNone(lines, i + 1);
        return None;
      }
      var (name, md, to) := p.value;
      m := m[name := md];
      childs := childs[name := to];
      i := i + 1;
    }
    assert lines[..|lines|] == lines;
    return Some((m, childs));
  }

  /** The sinks added so far: those of `all` not in `rest`. */
  ghost predicate Sinking(m0: map<string, Module>, c0: Childs, all: set<string>, rest: set<string>,
                          m: map<string, Module>, childs: Childs)
  {
    rest <= all && m.Keys == m0.Keys + (all - rest) && childs.Keys == m.Keys &&
    (forall k :: k in m ==> m[k] == if k in m0 then m0[k] else Fresh(Sink)) &&
    (forall k :: k in childs ==> childs[k] == if k in c0 then c0[k] else [])
  }

  lemma SinkOne(m0: map<string, Module>, c0: Childs, all: set<string>, rest: set<string>,
                m: map<string, Module>, childs: Childs, name: string)
    requires m0.Keys == c0.Keys && Sinking(m0, c0, all, rest, m, childs) && name in rest
    ensures name !in m ==> Sinking(m0, c0, all, rest - {name}, m[name := Fresh(Sink)], childs[name := []])
    ensures name in m ==> Sinking(m0, c0, all, rest - {name}, m, childs)
  {
  }

  /** The second `for_each` of `Modules::new`: a `Module::default` and no
      destinations for every destination not declared. */
  method AddSinks(m0: map<string, Module>, c0: Childs) returns (m: map<string, Module>, childs: Childs)
    requires m0.Keys == c0.Keys
    ensures (m, childs) == WithSinks(m0, c0)
  {
    m, childs := m0, c0;
    var all := Destinations(c0);
    var rest := all;
    while rest != {}
      invariant Sinking(m0, c0, all, rest, m, childs)
      decreases rest
    {
      var name :| name in rest;
      SinkOne(m0, c0, all, rest, m, childs, name);
      if name !in m {
        m := m[name := Fresh(Sink)];
        childs := childs[name := []];
      }
      rest := rest - {name};
    }
    SinksOf(m0, c0, m, childs);
  }

  /** The destinations of `name` that `prepare_conj` has gone through. */
  method GatherFrom(m: map<string, Module>, childs: Childs, conj0: map<string, seq<string>>, ghost done: set<string>,
                    name: string) returns (conj: map<string, seq<string>>)
    requires name in childs && forall i :: 0 <= i < |childs[name]| ==> childs[name][i] in m
    requires Collected(m, childs, conj0, done, name, [])
    ensures Collected(m, childs, conj, done, name, childs[name])
  {
    conj := conj0;
    var to := childs[name];
    var j := 0;
    while j < |to|
      invariant 0 <= j <= |to|
      invariant Collected(m, childs, conj, done, name, to[..j])
    {
      assert to[..j + 1] == to[..j] + [to[j]];
      var t := to[j];
      if m[t].typ == Conjunction {
        if t !in conj {
          conj := conj[t := []];
        }
        conj := conj[t := conj[t] + [name]];
      }
      j := j + 1;
    }
    assert to[..|to|] == to;
  }

  /** Once all of `name`'s destinations are gathered, `name` is done. */
  lemma CollectedOne(m: map<string, Module>, childs: Childs, conj: map<string, seq<string>>, done: set<string>,
                     name: string)
    requires name in childs && Collected(m, childs, conj, done, name, childs[name])
    ensures Collected(m, childs, conj, done + {name}, "", [])
  {
  }

  /** The first loop of `prepare_conj`: for every conjunction, the
      modules that send to it. */
  method Gather(m: map<string, Module>, childs: Childs) returns (conj: map<string, seq<string>>)
    requires forall n, i :: n in childs && 0 <= i < |childs[n]| ==> childs[n][i] in m
    ensures Collected(m, childs, conj, childs.Keys, "", [])
  {
    conj := map[];
    var names := childs.Keys;
    while names != {}
      invariant names <= childs.Keys
      invariant Collected(m, childs, conj, childs.Keys - names, "", [])
      decreases names
    {
      var name :| name in names;
      conj := GatherFrom(m, childs, conj, childs.Keys - names, name);
      CollectedOne(m, childs, conj, childs.Keys - names, name);
      assert childs.Keys - names + {name} == childs.Keys - (names - {name});
      names := names - {name};
    }
  }

  /** Extending by the gathered list of `c` is remembering its inputs. */
  lemma RememberAll(m: map<string, Module>, childs: Childs, conj: map<string, seq<string>>, c: string)
    requires Collected(m, childs, conj, childs.Keys, "", []) && c in conj
    ensures m[c].(mem := m[c].mem + map i | i in conj[c] :: Low) == Remember(m[c], Inputs(childs, c))
  {
    assert (map i | i in conj[c] :: Low) == (map i | i in Inputs(childs, c) :: Low);
  }

  /** A conjunction nothing was gathered for has no inputs to remember. */
  lemma NoInputs(m0: map<string, Module>, childs: Childs, conj: map<string, seq<string>>, k: string)
    requires Collected(m0, childs, conj, childs.Keys, "", [])
    requires k in m0 && m0[k].typ == Conjunction && k !in conj
    ensures Remember(m0[k], Inputs(childs, k)) == m0[k]
  {
    assert Inputs(childs, k) == {};
    assert m0[k].mem + (map i | i in Inputs(childs, k) :: Low) == m0[k].mem;
  }

  /** After the second loop every conjunction remembers its inputs. */
  lemma InputsOf(m0: map<string, Module>, childs: Childs, conj: map<string, seq<string>>, m: map<string, Module>)
    requires Collected(m0, childs, conj, childs.Keys, "", [])
    requires m.Keys == m0.Keys
    requires forall k :: k in m ==> m[k] == if k in conj then Remember(m0[k], Inputs(childs, k)) else m0[k]
    ensures m == WithInputs(m0, childs)
  {
    var w := WithInputs(m0, childs);
    forall k | k in m
      ensures m[k] == w[k]
    {
      if m0[k].typ == Conjunction && k !in conj {
        NoInputs(m0, childs, conj, k);
      }
    }
  }

  // ---------------------------------------------------------------------
  // What the methods promise, behind the key `Open`: the callers pass
  // these on without the solver expanding the presses inside them.

  /** The result of `press_button` number `n` on `m`, and the modules
      after it, are those of `Press`: `None` exactly when the press does not
      end, and otherwise `n`, whether `name` sent `desired`, the low and high
      counts and the modules the press ends with. */
  ghost predicate Pressing(m: map<string, Module>, childs: Childs, start: string, name: string, desired: Signal,
                           fuel: nat, n: nat, r: Option<(nat, bool, (nat, nat))>, m2: map<string, Module>)
  {
    var o := Press(m, childs, start, name, desired, fuel);
    (r.Some? <==> o.Done?) && (o.Done? ==> r == Some((n, o.found, (o.run.nlow, o.run.nhigh))) && m2 == o.run.m)
  }

  ghost predicate Pressed(m: map<string, Module>, childs: Childs, start: string, name: string, desired: Signal,
                          fuel: nat, n: nat, r: Option<(nat, bool, (nat, nat))>, m2: map<string, Module>)
  {
    forall k: nat :: Open(k) ==> Pressing(m, childs, start, name, desired, fuel, n, r, m2)
  }

  lemma PressedIs(m: map<string, Module>, childs: Childs, start: string, name: string, desired: Signal,
                  fuel: nat, n: nat, r: Option<(nat, bool, (nat, nat))>, m2: map<string, Module>)
    requires Pressed(m, childs, start, name, desired, fuel, n, r, m2)
    ensures Pressing(m, childs, start, name, desired, fuel, n, r, m2)
  {
    assert Open(0);
  }

  /** The pulse of `from` has reached the first `i` of `tos`, starting
      from the run `r`; the run is now `rh`. */
  ghost predicate Fanned(r: Run, from: string, tos: seq<string>, out: Signal, i: nat, rh: Run)
  {
    i <= |tos| && forall k: nat :: Open(k) ==> Fanout(r, from, tos[..i], out) == Some(rh)
  }

  /** The whole fan-out from `r` succeeds exactly when `ok`, ending in `rf`. */
  ghost predicate Delivered(r: Run, from: string, tos: seq<string>, out: Signal, ok: bool, rf: Run)
  {
    forall k: nat :: Open(k) ==>
      var f := Fanout(r, from, tos, out);
      (ok <==> f.Some?) && (ok ==> f.value == rf)
  }

  lemma FannedStart(r: Run, from: string, tos: seq<string>, out: Signal)
    ensures Fanned(r, from, tos, out, 0, r)
  {
    assert tos[..0] == [];
  }

  lemma FannedStep(r: Run, from: string, tos: seq<string>, out: Signal, i: nat, rh: Run, md: Module, absorbed: bool,
                   rn: Run)
    requires Fanned(r, from, tos, out, i, rh) && i < |tos|
    requires out != NoSignal && from in rh.m && tos[i] in rh.m
    requires Process(rh.m[tos[i]], rh.m[from].output, from) == Some((md, absorbed))
    requires rn.m == rh.m[tos[i] := md] && rn.q == (if absorbed then rh.q else rh.q + [tos[i]])
    requires rn.nlow == (if out == Low then rh.nlow + 1 else rh.nlow)
    requires rn.nhigh == (if out == High then rh.nhigh + 1 else rh.nhigh)
    requires rn.pulses == rh.pulses + [Pulse(from, out, tos[i])]
    ensures Fanned(r, from, tos, out, i + 1, rn)
  {
    assert Open(0);
    FanoutSnoc(r, from, tos, i, out, rh);
    HopOf(rh, from, tos[i], out, md, absorbed);
  }

  lemma FannedPanics(r: Run, from: string, tos: seq<string>, out: Signal, i: nat, rh: Run, rf: Run)
    requires Fanned(r, from, tos, out, i, rh) && i < |tos|
    requires from !in rh.m || tos[i] !in rh.m || Process(rh.m[tos[i]], rh.m[from].output, from).None?
    ensures Delivered(r, from, tos, out, false, rf)
  {
    assert Open(0);
    FanoutSnoc(r, from, tos, i, out, rh);
    FanoutPrefixNone(r, from, tos, i + 1, out);
  }

  lemma FannedEnd(r: Run, from: string, tos: seq<string>, out: Signal, rh: Run)
    requires Fanned(r, from, tos, out, |tos|, rh)
    ensures Delivered(r, from, tos, out, true, rh)
  {
    assert Open(0);
    assert tos[..|tos|] == tos;
  }

  /** The press from `m0` comes to what the queue loop from `r` comes to
      in `f` more turns. */
  ghost predicate Looping(m0: map<string, Module>, childs: Childs, start: string, name: string, desired: Signal,
                          fuel: nat, r: Run, f: nat)
  {
    forall k: nat :: Open(k) ==>
      Press(m0, childs, start, name, desired, fuel) == PressLoop(r, childs, name, desired, f)
  }

  lemma PressStarts(m0: map<string, Module>, childs: Childs, start: string, name: string, desired: Signal,
                    fuel: nat, md: Module, b: bool)
    requires start in m0 && Process(m0[start], Low, start) == Some((md, b))
    ensures Looping(m0, childs, start, name, desired, fuel, Run(m0[start := md], [start], 1, 0, []), fuel)
  {
  }

  lemma PressPanics(m0: map<string, Module>, childs: Childs, start: string, name: string, desired: Signal,
                    fuel: nat, n: nat, m2: map<string, Module>)
    requires start !in m0 || Process(m0[start], Low, start).None?
    ensures Pressed(m0, childs, start, name, desired, fuel, n, None, m2)
  {
  }

  /** A queue loop that ends (empty queue) or cannot go on (out of fuel, a
      front module that does not exist, one with pulses but no destination
      list, or a delivery that panics). */
  lemma LoopEnds(m0: map<string, Module>, childs: Childs, start: string, name: string, desired: Signal,
                 fuel: nat, n: nat, r: Run, f: nat)
    requires Looping(m0, childs, start, name, desired, fuel, r, f)
    requires |r.q| == 0
    ensures Pressed(m0, childs, start, name, desired, fuel, n, Some((n, false, (r.nlow, r.nhigh))), r.m)
  {
    assert Open(0);
  }

  lemma LoopStops(m0: map<string, Module>, childs: Childs, start: string, name: string, desired: Signal,
                  fuel: nat, n: nat, r: Run, f: nat, m2: map<string, Module>)
    requires Looping(m0, childs, start, name, desired, fuel, r, f)
    requires |r.q| > 0
    requires f == 0 || r.q[0] !in r.m ||
      (r.m[r.q[0]].output != NoSignal && !(r.q[0] == name && r.m[r.q[0]].output == desired) && r.q[0] !in childs)
    ensures Pressed(m0, childs, start, name, desired, fuel, n, None, m2)
  {
    assert Open(0);
  }

  lemma LoopSkips(m0: map<string, Module>, childs: Childs, start: string, name: string, desired: Signal,
                  fuel: nat, r: Run, f: nat, rn: Run)
    requires Looping(m0, childs, start, name, desired, fuel, r, f)
    requires |r.q| > 0 && f > 0 && r.q[0] in r.m && r.m[r.q[0]].output == NoSignal
    requires rn.m == r.m && rn.q == r.q[1..] && rn.nlow == r.nlow && rn.nhigh == r.nhigh && rn.pulses == r.pulses
    ensures Looping(m0, childs, start, name, desired, fuel, rn, f - 1)
  {
    assert Open(0);
    assert rn == r.(q := r.q[1..]);
  }

  lemma LoopFinds(m0: map<string, Module>, childs: Childs, start: string, name: string, desired: Signal,
                  fuel: nat, n: nat, r: Run, f: nat)
    requires Looping(m0, childs, start, name, desired, fuel, r, f)
    requires |r.q| > 0 && f > 0 && r.q[0] == name && name in r.m && r.m[name].output == desired
    requires desired != NoSignal
    ensures Pressed(m0, childs, start, name, desired, fuel, n, Some((n, true, (r.nlow, r.nhigh))), r.m)
  {
    assert Open(0);
  }

  lemma LoopDeliveryPanics(m0: map<string, Module>, childs: Childs, start: string, name: string, desired: Signal,
                           fuel: nat, n: nat, r: Run, f: nat, ok: bool, rf: Run)
    requires Looping(m0, childs, start, name, desired, fuel, r, f)
    requires |r.q| > 0 && f > 0 && r.q[0] in r.m && r.q[0] in childs
    requires r.m[r.q[0]].output != NoSignal && !(r.q[0] == name && r.m[r.q[0]].output == desired)
    requires Delivered(r.(q := r.q[1..]), r.q[0], childs[r.q[0]], r.m[r.q[0]].output, ok, rf)
    requires !ok
    ensures Pressed(m0, childs, start, name, desired, fuel, n, None, rf.m)
  {
    assert Open(0);
  }

  lemma LoopDelivers(m0: map<string, Module>, childs: Childs, start: string, name: string, desired: Signal,
                     fuel: nat, r: Run, f: nat, rf: Run, rn: Run)
    requires Looping(m0, childs, start, name, desired, fuel, r, f)
    requires |r.q| > 0 && f > 0 && r.q[0] in r.m && r.q[0] in childs
    requires r.m[r.q[0]].output != NoSignal && !(r.q[0] == name && r.m[r.q[0]].output == desired)
    requires Delivered(r.(q := r.q[1..]), r.q[0], childs[r.q[0]], r.m[r.q[0]].output, true, rf)
    requires r.q[0] in rf.m && rn.m == rf.m[r.q[0] := rf.m[r.q[0]].(input := NoSignal)]
    requires rn.q == rf.q && rn.nlow == rf.nlow && rn.nhigh == rf.nhigh && rn.pulses == rf.pulses
    ensures Looping(m0, childs, start, name, desired, fuel, rn, f - 1)
  {
    assert Open(0);
    assert rn == rf.(m := rf.m[r.q[0] := rf.m[r.q[0]].(input := NoSignal)]);
  }

  /** The first `i` presses of `solve1` from `m0` end in `m` with the
      counts `low` and `high`. */
  ghost predicate Tallied(m0: map<string, Module>, childs: Childs, start: string, i: nat, fuel: nat,
                          m: map<string, Module>, low: nat, high: nat)
  {
    forall k: nat :: Open(k) ==> Totals(m0, childs, start, i, fuel) == Some((m, low, high))
  }

  lemma TallyStep(m0: map<string, Module>, childs: Childs, start: string, i: nat, fuel: nat,
                  m: map<string, Module>, low: nat, high: nat, r: Option<(nat, bool, (nat, nat))>,
                  m2: map<string, Module>, total: nat)
    requires Tallied(m0, childs, start, i, fuel, m, low, high) && i < total
    requires Pressed(m, childs, start, "", NoSignal, fuel, i, r, m2)
    ensures r.None? ==> Totals(m0, childs, start, total, fuel).None?
    ensures r.Some? ==> Tallied(m0, childs, start, i + 1, fuel, m2, low + r.value.2.0, high + r.value.2.1)
  {
    PressedIs(m, childs, start, "", NoSignal, fuel, i, r, m2);
    TalliedIs(m0, childs, start, i, fuel, m, low, high);
    TotalsStep(m0, childs, start, i, fuel, m, low, high);
    if r.None? {
      TotalsNoneLater(m0, childs, start, i + 1, total, fuel);
    } else {
      assert Totals(m0, childs, start, i + 1, fuel) == Some((m2, low + r.value.2.0, high + r.value.2.1));
    }
  }

  lemma TalliedIs(m0: map<string, Module>, childs: Childs, start: string, i: nat, fuel: nat,
                  m: map<string, Module>, low: nat, high: nat)
    requires Tallied(m0, childs, start, i, fuel, m, low, high)
    ensures Totals(m0, childs, start, i, fuel) == Some((m, low, high))
  {
    assert Open(0);
  }

  /** What `count_presses` on `m` gives: `r` is the first press of the
      reset modules in which `name` sends `desired`, within `limit`
      presses; when there is one, the modules `m2` it leaves are those of
      that press after all the presses before it, and have `m`'s shape. */
  ghost predicate Counting(m: map<string, Module>, childs: Childs, start: string, name: string, desired: Signal,
                           limit: nat, fuel: nat, r: Option<nat>, m2: map<string, Module>)
  {
    var m0 := ResetAll(m);
    r == FirstHit(m0, childs, start, name, desired, 1, limit, fuel) &&
    (r.Some? ==>
       SameShape(m, m2) &&
       var before := After(m0, childs, start, name, desired, r.value - 1, fuel);
       before.Some? && Press(before.value, childs, start, name, desired, fuel).Done? &&
       m2 == Press(before.value, childs, start, name, desired, fuel).run.m)
  }

  ghost predicate Counted(m: map<string, Module>, childs: Childs, start: string, name: string, desired: Signal,
                          limit: nat, fuel: nat, r: Option<nat>, m2: map<string, Module>)
  {
    forall k: nat :: Open(k) ==> Counting(m, childs, start, name, desired, limit, fuel, r, m2)
  }

  lemma CountedFrom(m: map<string, Module>, childs: Childs, start: string, name: string, desired: Signal,
                    limit: nat, fuel: nat, r: Option<nat>, m2: map<string, Module>)
    requires Counting(m, childs, start, name, desired, limit, fuel, r, m2)
    ensures Counted(m, childs, start, name, desired, limit, fuel, r, m2)
  {
  }

  lemma CountedIs(m: map<string, Module>, childs: Childs, start: string, name: string, desired: Signal,
                  limit: nat, fuel: nat, r: Option<nat>, m2: map<string, Module>)
    requires Counted(m, childs, start, name, desired, limit, fuel, r, m2)
    ensures Counting(m, childs, start, name, desired, limit, fuel, r, m2)
  {
    assert Open(0);
  }

  /** `count_presses`' loop before press `n`: from the reset `m`, the
      presses before `n` did not see `name` send `desired` and end in
      `cur`, and the first that does is the first from `cur` on. */
  ghost predicate Hunting(m: map<string, Module>, childs: Childs, start: string, name: string, desired: Signal,
                          limit: nat, fuel: nat, n: nat, cur: map<string, Module>)
  {
    1 <= n <= limit + 1 &&
    forall k: nat :: Open(k) ==>
      After(ResetAll(m), childs, start, name, desired, n - 1, fuel) == Some(cur) &&
      FirstHit(cur, childs, start, name, desired, n, limit + 1 - n, fuel) ==
        FirstHit(ResetAll(m), childs, start, name, desired, 1, limit, fuel) &&
      SameShape(m, cur)
  }

  lemma HuntStart(m: map<string, Module>, childs: Childs, start: string, name: string, desired: Signal,
                  limit: nat, fuel: nat)
    ensures Hunting(m, childs, start, name, desired, limit, fuel, 1, ResetAll(m))
  {
  }

  lemma HuntStep(m: map<string, Module>, childs: Childs, start: string, name: string, desired: Signal,
                 limit: nat, fuel: nat, n: nat, cur: map<string, Module>, r: Option<(nat, bool, (nat, nat))>,
                 m2: map<string, Module>)
    requires Hunting(m, childs, start, name, desired, limit, fuel, n, cur) && n <= limit
    requires Pressed(cur, childs, start, name, desired, fuel, n, r, m2)
    ensures r.None? ==> Counted(m, childs, start, name, desired, limit, fuel, None, m2)
    ensures r.Some? && !r.value.1 ==> Hunting(m, childs, start, name, desired, limit, fuel, n + 1, m2)
  {
    assert Open(0);
    if r.Some? {
      CountStep(ResetAll(m), childs, start, name, desired, n, limit + 1 - n, fuel, cur);
      SameShapeTrans(m, cur, m2);
    }
  }

  /** The press in which `name` sends `desired` is the one counted. */
  lemma HuntHits(m: map<string, Module>, childs: Childs, start: string, name: string, desired: Signal,
                 limit: nat, fuel: nat, n: nat, cur: map<string, Module>, r: Option<(nat, bool, (nat, nat))>,
                 m2: map<string, Module>)
    requires Hunting(m, childs, start, name, desired, limit, fuel, n, cur) && n <= limit
    requires Pressed(cur, childs, start, name, desired, fuel, n, r, m2)
    requires r.Some? && r.value.1
    ensures Counted(m, childs, start, name, desired, limit, fuel, Some(n), m2)
  {
    assert Open(0);
    var m0 := ResetAll(m);
    CountStep(m0, childs, start, name, desired, n, limit + 1 - n, fuel, cur);
    SameShapeTrans(m, cur, m2);
    CountedFrom(m, childs, start, name, desired, limit, fuel, Some(n), m2);
  }

  lemma HuntEnd(m: map<string, Module>, childs: Childs, start: string, name: string, desired: Signal,
                limit: nat, fuel: nat, cur: map<string, Module>)
    requires Hunting(m, childs, start, name, desired, limit, fuel, limit + 1, cur)
    ensures Counted(m, childs, start, name, desired, limit, fuel, None, cur)
  {
    assert Open(0);
  }

  /** `FirstHit` of the reset `m` for a main conjunction `c`, LOW. */
  ghost predicate HitAt(m: map<string, Module>, childs: Childs, start: string, c: string, limit: nat, fuel: nat,
                        h: nat)
  {
    forall k: nat :: Open(k) ==> FirstHit(ResetAll(m), childs, start, c, Low, 1, limit, fuel) == Some(h)
  }

  /** A count from modules of the same shape is the count from `m`. */
  lemma CountedHit(m: map<string, Module>, childs: Childs, start: string, c: string, limit: nat, fuel: nat,
                   cur: map<string, Module>, h: nat, m2: map<string, Module>)
    requires SameShape(m, cur) && Counted(cur, childs, start, c, Low, limit, fuel, Some(h), m2)
    ensures HitAt(m, childs, start, c, limit, fuel, h) && h >= 1 && SameShape(m, m2)
  {
    assert Open(0);
    ResetAllForgets(m, cur);
    SameShapeTrans(m, cur, m2);
  }

  /** A search that ran out of presses from modules of the same shape ran
      out from `m`. */
  lemma CountedMiss(m: map<string, Module>, childs: Childs, start: string, c: string, limit: nat, fuel: nat,
                    cur: map<string, Module>, m2: map<string, Module>)
    requires SameShape(m, cur) && Counted(cur, childs, start, c, Low, limit, fuel, None, m2)
    ensures FirstHit(ResetAll(m), childs, start, c, Low, 1, limit, fuel).None?
  {
    assert Open(0);
    ResetAllForgets(m, cur);
  }

  lemma HitAtIs(m: map<string, Module>, childs: Childs, start: string, c: string, limit: nat, fuel: nat, h: nat)
    requires HitAt(m, childs, start, c, limit, fuel, h)
    ensures FirstHit(ResetAll(m), childs, start, c, Low, 1, limit, fuel) == Some(h)
  {
    assert Open(0);
  }

  class Modules {
    /** Every module by name. */
    var m: map<string, Module>

    constructor (m0: map<string, Module>)
      ensures m == m0
    {
      m := m0;
    }

    /** `Modules::new`: declare the modules line by line, add a sink for
        every undeclared destination, then let the conjunctions remember
        their inputs. Returns the modules, the destination lists and the
        name of the start module. */
    static method New(lines: seq<string>) returns (r: Option<(Modules, Childs, string)>)
      ensures r.None? <==> Declare(lines).None?
      ensures r.Some? ==> fresh(r.value.0) && Setup(lines) == Some((r.value.0.m, r.value.1))
      ensures r.Some? ==> r.value.2 == BROADCASTER
    {
      var d := DeclareAll(lines);
      if d.None? {
        return None;
      }
      var m, childs := AddSinks(d.value.0, d.value.1);
      SinksClose(d.value.0, d.value.1);
      var modules := new Modules(m);
      modules.PrepareConj(childs);
      return Some((modules, childs, BROADCASTER));
    }

    /** `prepare_conj`: gather the senders of every conjunction, then
        extend its memory with a LOW from each. A destination that is not a
        module would panic on `unwrap`; `new` never passes one. */
    method PrepareConj(childs: Childs)
      requires forall n, i :: n in childs && 0 <= i < |childs[n]| ==> childs[n][i] in m
      modifies this
      ensures m == WithInputs(old(m), childs)
    {
      var conj := Gather(m, childs);
      ghost var m0 := m;
      var cs := conj.Keys;
      while cs != {}
        invariant cs <= conj.Keys && m.Keys == m0.Keys
        invariant forall k :: k in m ==> m[k] == if k in conj && k !in cs then Remember(m0[k], Inputs(childs, k)) else m0[k]
        decreases cs
      {
        var c :| c in cs;
        RememberAll(m0, childs, conj, c);
        m := m[c := m[c].(mem := m[c].mem + map i | i in conj[c] :: Low)];
        cs := cs - {c};
      }
      InputsOf(m0, childs, conj, m);
    }

    /** `Modules::processed`: deliver the current output of `from` to
        `to`; whether `to` absorbed it. A name that is not a module panics,
        and so does a conjunction that does not remember `from`. */
    method Processed(from: string, to: string) returns (r: Option<bool>)
      modifies this
      ensures r.None? <==>
        from !in old(m) || to !in old(m) || Process(old(m)[to], old(m)[from].output, from).None?
      ensures r.Some? ==> from in old(m) && to in old(m) && to in m
      ensures r.Some? ==> Process(old(m)[to], old(m)[from].output, from) == Some((m[to], r.value))
      ensures r.Some? ==> m == old(m)[to := m[to]]
      ensures r.None? ==> m == old(m)
    {
      if from !in m || to !in m {
        return None;
      }
      var p := Process(m[to], m[from].output, from);
      if p.None? {
        return None;
      }
      m := m[to := p.value.0];
      return Some(p.value.1);
    }

    /** `press_button`: one press, numbered `n`, at most `fuel` turns of
        the queue loop. Returns `n`, whether `name` sent `desired`, and the
        low and high pulses counted; `None` when the press panics or
        outlasts the fuel. */
    method PressButton(childs: Childs, start: string, n: nat, name: string, desired: Signal, fuel: nat)
      returns (r: Option<(nat, bool, (nat, nat))>)
      modifies this
      ensures Pressed(old(m), childs, start, name, desired, fuel, n, r, m)
    {
      ghost var m0 := m;
      if start !in m {
        PressPanics(m0, childs, start, name, desired, fuel, n, m);
        return None;
      }
      var p := Process(m[start], Low, start);
      if p.None? {
        PressPanics(m0, childs, start, name, desired, fuel, n, m);
        return None;
      }
      PressStarts(m0, childs, start, name, desired, fuel, p.value.0, p.value.1);
      m := m[start := p.value.0];
      var q := [start];
      var nlow: nat, nhigh: nat := 1, 0;
      ghost var pulses: seq<Pulse> := [];
      var left := fuel;
      while |q| > 0
        invariant Looping(m0, childs, start, name, desired, fuel, Run(m, q, nlow, nhigh, pulses), left)
        decreases left
      {
        ghost var rb := Run(m, q, nlow, nhigh, pulses);
        if left == 0 {
          LoopStops(m0, childs, start, name, desired, fuel, n, rb, left, m);
          return None;
        }
        var from := q[0];
        if from !in m {
          LoopStops(m0, childs, start, name, desired, fuel, n, rb, left, m);
          return None;
        }
        var output := m[from].output;
        if output == NoSignal {
          q := q[1..];
          LoopSkips(m0, childs, start, name, desired, fuel, rb, left, Run(m, q, nlow, nhigh, pulses));
          left := left - 1;
          continue;
        }
        if from == name && output == desired {
          LoopFinds(m0, childs, start, name, desired, fuel, n, rb, left);
          return Some((n, true, (nlow, nhigh)));
        }
        var stop;
        stop, q, nlow, nhigh, pulses := Forward(m0, childs, start, name, desired, fuel, n, left, q, nlow, nhigh, pulses);
        if stop {
          return None;
        }
        left := left - 1;
      }
      LoopEnds(m0, childs, start, name, desired, fuel, n, Run(m, q, nlow, nhigh, pulses), left);
      return Some((n, false, (nlow, nhigh)));
    }

    /** The rest of one turn of the queue loop of `press_button`, for a
        front module with a pulse that is not the one looked for: send the
        pulse to every destination and clear the module's input. `stop`
        when the module has no destination list or a delivery panics. */
    method Forward(ghost m0: map<string, Module>, childs: Childs, start: string, name: string, desired: Signal,
                   fuel: nat, n: nat, left: nat, q0: seq<string>, nlow0: nat, nhigh0: nat, ghost pulses0: seq<Pulse>)
      returns (stop: bool, q: seq<string>, nlow: nat, nhigh: nat, ghost pulses: seq<Pulse>)
      requires Looping(m0, childs, start, name, desired, fuel, Run(m, q0, nlow0, nhigh0, pulses0), left)
      requires |q0| > 0 && left > 0 && q0[0] in m && m[q0[0]].output != NoSignal
      requires !(q0[0] == name && m[q0[0]].output == desired)
      modifies this
      ensures stop ==> Pressed(m0, childs, start, name, desired, fuel, n, None, m)
      ensures !stop ==> Looping(m0, childs, start, name, desired, fuel, Run(m, q, nlow, nhigh, pulses), left - 1)
    {
      ghost var rb := Run(m, q0, nlow0, nhigh0, pulses0);
      q, nlow, nhigh, pulses := q0, nlow0, nhigh0, pulses0;
      var from := q0[0];
      if from !in childs {
        LoopStops(m0, childs, start, name, desired, fuel, n, rb, left, m);
        return true, q, nlow, nhigh, pulses;
      }
      var ok;
      ok, q, nlow, nhigh, pulses := Deliver(from, childs[from], m[from].output, q0[1..], nlow0, nhigh0, pulses0);
      ghost var rf := Run(m, q, nlow, nhigh, pulses);
      if !ok {
        LoopDeliveryPanics(m0, childs, start, name, desired, fuel, n, rb, left, ok, rf);
        return true, q, nlow, nhigh, pulses;
      }
      m := m[from := m[from].(input := NoSignal)];
      LoopDelivers(m0, childs, start, name, desired, fuel, rb, left, rf, Run(m, q, nlow, nhigh, pulses));
      stop := false;
    }

    /** The `for to in childs[from]` loop of `press_button`: count the
        output of `from` once per destination and deliver it; whether no
        delivery panicked, and the queue and counters after. */
    method Deliver(from: string, tos: seq<string>, output: Signal, q0: seq<string>, nlow0: nat, nhigh0: nat,
                   ghost pulses0: seq<Pulse>)
      returns (ok: bool, q: seq<string>, nlow: nat, nhigh: nat, ghost pulses: seq<Pulse>)
      requires output != NoSignal
      modifies this
      ensures m.Keys == old(m).Keys
      ensures Delivered(Run(old(m), q0, nlow0, nhigh0, pulses0), from, tos, output, ok, Run(m, q, nlow, nhigh, pulses))
    {
      ghost var r1 := Run(m, q0, nlow0, nhigh0, pulses0);
      q, nlow, nhigh, pulses := q0, nlow0, nhigh0, pulses0;
      FannedStart(r1, from, tos, output);
      var i := 0;
      while i < |tos|
        invariant 0 <= i <= |tos|
        invariant m.Keys == old(m).Keys
        invariant Fanned(r1, from, tos, output, i, Run(m, q, nlow, nhigh, pulses))
      {
        ghost var rh := Run(m, q, nlow, nhigh, pulses);
        var to := tos[i];
        if output == Low {
          nlow := nlow + 1;
        } else {
          nhigh := nhigh + 1;
        }
        var absorbed := Processed(from, to);
        if absorbed.None? {
          FannedPanics(r1, from, tos, output, i, rh, Run(m, q, nlow, nhigh, pulses));
          return false, q, nlow, nhigh, pulses;
        }
        if !absorbed.value {
          q := q + [to];
        }
        pulses := pulses + [Pulse(from, output, to)];
        FannedStep(r1, from, tos, output, i, rh, m[to], absorbed.value, Run(m, q, nlow, nhigh, pulses));
        i := i + 1;
      }
      FannedEnd(r1, from, tos, output, Run(m, q, nlow, nhigh, pulses));
      return true, q, nlow, nhigh, pulses;
    }

    /** `Modules::reset`: every module back to its initial state. */
    method Reset()
      modifies this
      ensures m == ResetAll(old(m))
    {
      ghost var m0 := m;
      var ks := m.Keys;
      while ks != {}
        invariant ks <= m0.Keys && m.Keys == m0.Keys
        invariant forall k :: k in m ==> m[k] == if k in ks then m0[k] else Day20.Reset(m0[k])
        decreases ks
      {
        var k :| k in ks;
        m := m[k := Day20.Reset(m[k])];
        ks := ks - {k};
      }
    }

    /** `count_presses`: reset, then press until `name` sends `desired`,
        for at most `limit` presses; the number of that press. The modules
        are left as that press leaves them. */
    method CountPresses(childs: Childs, start: string, name: string, desired: Signal, limit: nat, fuel: nat)
      returns (r: Option<nat>)
      modifies this
      ensures Counted(old(m), childs, start, name, desired, limit, fuel, r, m)
    {
      ghost var mo := m;
      Reset();
      HuntStart(mo, childs, start, name, desired, limit, fuel);
      var n := 1;
      while n <= limit
        invariant Hunting(mo, childs, start, name, desired, limit, fuel, n, m)
        decreases limit + 1 - n
      {
        ghost var cur := m;
        var res := PressButton(childs, start, n, name, desired, fuel);
        HuntStep(mo, childs, start, name, desired, limit, fuel, n, cur, res, m);
        if res.None? {
          return None;
        }
        if res.value.1 {
          HuntHits(mo, childs, start, name, desired, limit, fuel, n, cur, res, m);
          return Some(n);
        }
        n := n + 1;
      }
      HuntEnd(mo, childs, start, name, desired, limit, fuel, m);
      return None;
    }

    /** `get_main_conjunctions`: the conjunctions reached from `start`
        without passing another conjunction, by a stack that never marks
        what it has seen; a name that is not a module panics, and a cycle
        through other modules exhausts the fuel. */
    method MainConjunctions(childs: Childs, start: string, fuel: nat) returns (r: Option<set<string>>)
      ensures r == MainSearch(m, childs, [start], {}, fuel)
      ensures r.Some? ==> forall c :: c in r.value <==> IsMain(m, childs, start, c)
    {
      var results: set<string> := {};
      var stack := [start];
      var pops := 0;
      StackStart(m, childs, start);
      while |stack| > 0
        invariant pops <= fuel
        invariant MainSearch(m, childs, stack, results, fuel - pops) == MainSearch(m, childs, [start], {}, fuel)
        invariant Searching(m, childs, start, stack, results)
        decreases fuel - pops
      {
        if pops == fuel {
          return None;
        }
        var cur := stack[|stack| - 1];
        pops := pops + 1;
        if cur !in m {
          return None;
        }
        if m[cur].typ == Conjunction {
          PopConjunction(m, childs, start, stack, results);
          results := results + {cur};
          stack := stack[..|stack| - 1];
        } else {
          if cur !in childs {
            return None;
          }
          PopOther(m, childs, start, stack, results);
          stack := stack[..|stack| - 1] + childs[cur];
        }
      }
      return Some(results);
    }
  }

  lemma ProductNat(a: nat, b: nat)
    ensures a * b >= 0
  {
  }

  /** The lcm of the counts of all main conjunctions is a multiple of
      each of their first presses. */
  lemma LcmCovers(m: map<string, Module>, childs: Childs, start: string, limit: nat, fuel: nat,
                  mains: set<string>, names: seq<string>, counts: seq<nat>)
    requires forall c :: c in mains <==> IsMain(m, childs, start, c)
    requires |names| == |counts| && forall c :: c in mains ==> c in names
    requires forall j :: 0 <= j < |names| ==>
      names[j] in mains && counts[j] >= 1 && HitAt(m, childs, start, names[j], limit, fuel, counts[j])
    requires Day08.LcmAll(counts).Some?
    ensures exists c :: IsMain(m, childs, start, c)
    ensures forall c :: IsMain(m, childs, start, c) ==>
      (var h := FirstHit(ResetAll(m), childs, start, c, Low, 1, limit, fuel);
       h.Some? && Day08.Divides(h.value, Day08.LcmAll(counts).value))
  {
    var l := Day08.LcmAll(counts).value;
    assert names[0] in mains;
    Day08.LcmAllMultipleOfEach(counts);
    forall c | IsMain(m, childs, start, c)
      ensures var h := FirstHit(ResetAll(m), childs, start, c, Low, 1, limit, fuel);
        h.Some? && Day08.Divides(h.value, l)
    {
      var j :| 0 <= j < |names| && names[j] == c;
      HitAtIs(m, childs, start, c, limit, fuel, counts[j]);
    }
  }

  /** How many times `solve1` presses the button. */
  const PRESSES: nat := 1000

  /** `solve1`: `PRESSES` presses looking for nothing, the product of the
      low and the high pulses they count. */
  method Solve1(modules: Modules, childs: Childs, start: string, fuel: nat) returns (r: Option<nat>)
    modifies modules
    ensures var t := Totals(old(modules.m), childs, start, PRESSES, fuel);
      (r.Some? <==> t.Some?) && (t.Some? ==> r.value == t.value.1 * t.value.2 && modules.m == t.value.0)
  {
    ghost var m0 := modules.m;
    var low: nat, high: nat := 0, 0;
    var i := 0;
    while i < PRESSES
      invariant 0 <= i <= PRESSES
      invariant Tallied(m0, childs, start, i, fuel, modules.m, low, high)
    {
      ghost var cur := modules.m;
      var res := modules.PressButton(childs, start, i, "", NoSignal, fuel);
      TallyStep(m0, childs, start, i, fuel, cur, low, high, res, modules.m, PRESSES);
      if res.None? {
        return None;
      }
      low, high := low + res.value.2.0, high + res.value.2.1;
      i := i + 1;
    }
    TalliedIs(m0, childs, start, PRESSES, fuel, modules.m, low, high);
    var product := low * high;
    ProductNat(low, high);
    return Some(product);
  }

  /** The loop of `solve2`: the press count of every conjunction of
      `mains`, each from a reset; `None` when one of them is never found. */
  method CountMains(modules: Modules, childs: Childs, start: string, mains: set<string>, limit: nat, fuel: nat)
    returns (counts: Option<seq<nat>>, ghost names: seq<string>)
    modifies modules
    ensures counts.Some? ==> |names| == |counts.value| && forall c :: c in mains ==> c in names
    ensures counts.Some? ==> forall j :: 0 <= j < |names| ==>
      names[j] in mains && counts.value[j] >= 1 && HitAt(old(modules.m), childs, start, names[j], limit, fuel, counts.value[j])
    ensures counts.None? ==> exists c :: c in mains && FirstHit(ResetAll(old(modules.m)), childs, start, c, Low, 1, limit, fuel).None?
  {
    ghost var m0 := modules.m;
    var rest := mains;
    var cs: seq<nat> := [];
    names := [];
    while rest != {}
      invariant rest <= mains && |names| == |cs|
      invariant forall c :: c in mains && c !in rest ==> c in names
      invariant forall j :: 0 <= j < |names| ==>
        names[j] in mains && cs[j] >= 1 && HitAt(m0, childs, start, names[j], limit, fuel, cs[j])
      invariant SameShape(m0, modules.m)
      decreases rest
    {
      var c :| c in rest;
      ghost var cur := modules.m;
      var h := modules.CountPresses(childs, start, c, Low, limit, fuel);
      if h.None? {
        CountedMiss(m0, childs, start, c, limit, fuel, cur, modules.m);
        return None, names;
      }
      CountedHit(m0, childs, start, c, limit, fuel, cur, h.value, modules.m);
      cs := cs + [h.value];
      names := names + [c];
      rest := rest - {c};
    }
    return Some(cs), names;
  }

  /** `n` is a multiple of the first press of every main conjunction. */
  ghost predicate Covers(m: map<string, Module>, childs: Childs, start: string, limit: nat, fuel: nat, n: nat)
  {
    forall c :: IsMain(m, childs, start, c) ==>
      (var h := FirstHit(ResetAll(m), childs, start, c, Low, 1, limit, fuel);
       h.Some? && Day08.Divides(h.value, n))
  }

  /** `solve2`: the lcm of the press counts of the main conjunctions, each
      counted from a reset, for at most `limit` presses each. The set is
      taken in an unspecified order, which the lcm does not depend on; no
      main conjunction at all panics on `unwrap`. `searched` says whether
      the search for the main conjunctions came back (it panics on a
      destination that is not a module and runs out of fuel on a cycle). */
  method Solve2(modules: Modules, childs: Childs, start: string, limit: nat, fuel: nat)
    returns (r: Option<nat>, ghost searched: bool)
    modifies modules
    ensures searched <==> MainSearch(old(modules.m), childs, [start], {}, fuel).Some?
    ensures !searched ==> r.None?
    ensures searched ==>
      (r.None? <==> (forall c :: !IsMain(old(modules.m), childs, start, c)) ||
                    exists c :: IsMain(old(modules.m), childs, start, c) &&
                      FirstHit(ResetAll(old(modules.m)), childs, start, c, Low, 1, limit, fuel).None?)
    ensures r.Some? ==> exists c :: IsMain(old(modules.m), childs, start, c)
    ensures r.Some? ==> r.value >= 1 && Covers(old(modules.m), childs, start, limit, fuel, r.value)
    ensures r.Some? ==> forall n: nat :: Covers(old(modules.m), childs, start, limit, fuel, n) ==> Day08.Divides(r.value, n)
  {
    ghost var m0 := modules.m;
    var mains := modules.MainConjunctions(childs, start, fuel);
    if mains.None? {
      return None, false;
    }
    var counts, names := CountMains(modules, childs, start, mains.value, limit, fuel);
    if counts.None? {
      return None, true;
    }
    var cs := counts.value;
    if |cs| == 0 {
      return None, true;
    }
    // every count is at least 1, so the fold never meets a zero
    Day08.LcmAllLeast(cs, 0);
    r := Day08.LcmAll(cs);
    searched := true;
    LcmCovers(m0, childs, start, limit, fuel, mains.value, names, cs);
    forall n: nat | Covers(m0, childs, start, limit, fuel, n) ensures Day08.Divides(r.value, n) {
      forall j | 0 <= j < |cs| ensures Day08.Divides(cs[j], n) {
        HitAtIs(m0, childs, start, names[j], limit, fuel, cs[j]);
      }
      Day08.LcmAllLeast(cs, n);
    }
  }
}
