/** Day 15, Lens Library: the HASH algorithm over the comma-separated
    initialization sequence, and the HASHMAP procedure that files labelled
    lenses into 256 boxes and scores them by focusing power. */
module Day15 {
  import opened RustStd

  const HASH_MOD: nat := 256
  const HASH_P: nat := 17

  // ---------------------------------------------------------------------
  // HASH

  /** One step of the fold: add the character code, times 17, mod 256. */
  function HashStep(acc: nat, c: char): (r: nat)
    ensures r < HASH_MOD
  {
    ((acc + c as int) * HASH_P) % HASH_MOD
  }

  /** The fold over the characters, left to right. */
  function Fold(acc: nat, s: string): (r: nat)
    ensures r < HASH_MOD || (|s| == 0 && r == acc)
    decreases |s|
  {
    if |s| == 0 then acc else Fold(HashStep(acc, s[0]), s[1..])
  }

  /** `hash`. */
  function Hash(s: string): (r: nat)
    ensures r < HASH_MOD
  {
    Fold(0, s)
  }

  lemma {:induction false} FoldSnoc(acc: nat, s: string, c: char)
    ensures Fold(acc, s + [c]) == HashStep(Fold(acc, s), c)
    decreases |s|
  {
    if |s| == 0 {
      assert (s + [c])[1..] == [];
    } else {
      assert (s + [c])[1..] == s[1..] + [c];
      FoldSnoc(HashStep(acc, s[0]), s[1..], c);
    }
  }

  /** HASH of the empty string is 0, and appending a character takes one
      more step of the fold on the running value. */
  lemma HashSnoc(s: string, c: char)
    ensures Hash([]) == 0
    ensures Hash(s + [c]) == ((Hash(s) + c as int) * 17) % 256
  {
    FoldSnoc(0, s, c);
  }

  /** `solve1`: the sum of the HASH of every step. */
  function Solve1(data: string): (r: int)
    ensures 0 <= r <= 255 * |Split(data, ",")|
  {
    var steps := Split(data, ",");
    var hashes := seq(|steps|, i requires 0 <= i < |steps| => Hash(steps[i]));
    SumNonNegative(hashes);
    SumAtMost(hashes, 255);
    Sum(hashes)
  }

  // ---------------------------------------------------------------------
  // Steps of the initialization sequence

  datatype Lens = Lens(name: string, focal: nat)

  /** A step: `op` is '=' (insert or replace, with focal length `val`) or
      '-' (remove). */
  datatype Op = Op(name: string, op: char, val: nat)

  predicate IsOp(o: Op)
  {
    o.op == '-' || o.op == '='
  }

  /** `Op::new`: a trailing digit makes an `=` step whose label stops two
      characters before the end; anything else makes a `-` step whose label
      stops one character before the end. `None` where the source panics:
      an empty step (the `unwrap` of the last character) or a lone digit
      (the length subtraction underflows). */
  function OpOf(s: string): (r: Option<Op>)
    ensures r.None? <==> |s| == 0 || (|s| < 2 && IsDigit(s[|s| - 1]))
    ensures r.Some? ==> IsOp(r.value)
    ensures r.Some? && IsDigit(s[|s| - 1]) ==>
      r.value.op == '=' && r.value.val == DigitValue(s[|s| - 1])
      && s == r.value.name + [s[|s| - 2], s[|s| - 1]]
    ensures r.Some? && !IsDigit(s[|s| - 1]) ==>
      r.value.op == '-' && r.value.val == 0 && s == r.value.name + [s[|s| - 1]]
  {
    if |s| == 0 then None
    else
      var last := s[|s| - 1];
      if IsDigit(last) then
        if |s| < 2 then None
        else Some(Op(s[..|s| - 2], '=', DigitValue(last)))
      else Some(Op(s[..|s| - 1], '-', 0))
  }

  /** How a step is written: `label=digit` or `label-`. */
  function OpText(o: Op): string
    requires IsOp(o) && o.val < 10
  {
    if o.op == '=' then o.name + "=" + [('0' as int + o.val) as char]
    else o.name + "-"
  }

  /** Parsing what a step writes gives back the step (a `-` step carries 0). */
  lemma OpRoundTrip(o: Op)
    requires (o.op == '-' && o.val == 0) || (o.op == '=' && o.val < 10)
    ensures OpOf(OpText(o)) == Some(o)
  {
    var s := OpText(o);
    if o.op == '=' {
      assert s[..|s| - 2] == o.name;
    } else {
      assert s[..|s| - 1] == o.name;
    }
  }

  /** `Op::lens`. */
  function LensOf(o: Op): (l: Lens)
    ensures l.name == o.name && l.focal == o.val
  {
    Lens(o.name, o.val)
  }

  // ---------------------------------------------------------------------
  // One box

  function Names(b: seq<Lens>): (r: seq<string>)
    ensures |r| == |b| && forall i :: 0 <= i < |b| ==> r[i] == b[i].name
  {
    seq(|b|, i requires 0 <= i < |b| => b[i].name)
  }

  /** No two lenses of a box share a label. */
  predicate UniqueNames(b: seq<Lens>)
  {
    forall i, j :: 0 <= i < j < |b| ==> b[i].name != b[j].name
  }

  /** The update one step makes to the box its label hashes to. */
  function ApplyOp(b: seq<Lens>, o: Op): seq<Lens>
    requires IsOp(o)
  {
    var pos := Position(Names(b), o.name);
    if o.op == '-' then
      if pos.Some? then b[..pos.value] + b[pos.value + 1..] else b
    else
      if pos.Some? then b[pos.value := b[pos.value].(focal := o.val)]
      else b + [LensOf(o)]
  }

  /** The lenses with any other label, in their order: what a removal
      should leave. */
  function Without(b: seq<Lens>, name: string): seq<Lens>
  {
    if |b| == 0 then []
    else (if b[0].name == name then [] else [b[0]]) + Without(b[1..], name)
  }

  lemma {:induction false} WithoutMembers(b: seq<Lens>, name: string)
    ensures forall l :: l in Without(b, name) <==> l in b && l.name != name
    decreases |b|
  {
    if |b| > 0 {
      WithoutMembers(b[1..], name);
      assert b == [b[0]] + b[1..];
    }
  }

  lemma {:induction false} WithoutAbsent(b: seq<Lens>, name: string)
    requires name !in Names(b)
    ensures Without(b, name) == b
    decreases |b|
  {
    if |b| > 0 {
      assert Names(b)[0] == b[0].name;
      assert forall i :: 0 <= i < |b| - 1 ==> Names(b[1..])[i] == Names(b)[i + 1];
      WithoutAbsent(b[1..], name);
    }
  }

  /** Cutting out the only lens labelled `name` leaves the others in order. */
  lemma {:induction false} CutOnly(b: seq<Lens>, name: string, p: nat)
    requires p < |b| && b[p].name == name
    requires forall j :: 0 <= j < |b| && j != p ==> b[j].name != name
    ensures b[..p] + b[p + 1..] == Without(b, name)
    decreases p
  {
    var t := b[1..];
    if p == 0 {
      assert b[..0] + b[1..] == t;
      forall i | 0 <= i < |t| ensures Names(t)[i] != name {
        assert t[i] == b[i + 1];
      }
      WithoutAbsent(t, name);
    } else {
      assert b[0].name != name;
      forall j | 0 <= j < |t| && j != p - 1 ensures t[j].name != name {
        assert t[j] == b[j + 1];
      }
      CutOnly(t, name, p - 1);
      assert Without(b, name) == [b[0]] + Without(t, name);
      assert b[..p] + b[p + 1..] == [b[0]] + (t[..p - 1] + t[p..]);
    }
  }

  /** Removing takes out the one lens with that label and keeps the order
      of the rest. */
  lemma RemoveKeepsOrder(b: seq<Lens>, o: Op)
    requires o.op == '-' && UniqueNames(b)
    ensures ApplyOp(b, o) == Without(b, o.name)
  {
    var pos := Position(Names(b), o.name);
    if pos.None? {
      WithoutAbsent(b, o.name);
    } else {
      CutOnly(b, o.name, pos.value);
    }
  }

  /** A box read as a map from labels to focal lengths: after a step, the
      step's label holds its focal length (`=`) or nothing (`-`), and every
      other lens is as it was. */
  lemma ApplyContents(b: seq<Lens>, o: Op)
    requires IsOp(o) && UniqueNames(b)
    ensures forall l :: l in ApplyOp(b, o) <==>
      if l.name == o.name then o.op == '=' && l.focal == o.val else l in b
  {
    var r := ApplyOp(b, o);
    var pos := Position(Names(b), o.name);
    forall l ensures l in r <==> if l.name == o.name then o.op == '=' && l.focal == o.val else l in b {
      if o.op == '-' {
        RemoveKeepsOrder(b, o);
        WithoutMembers(b, o.name);
        if pos.Some? {
          assert b[pos.value].name == o.name;
        }
      } else if pos.Some? {
        var p := pos.value;
        assert r[p] == Lens(o.name, o.val);
        if l in r {
          var k :| 0 <= k < |r| && r[k] == l;
          if l.name == o.name {
            assert k == p;
          } else {
            assert k != p && b[k] == l;
          }
        }
        if l in b && l.name != o.name {
          var k :| 0 <= k < |b| && b[k] == l;
          assert r[k] == l;
        }
      } else {
        assert Names(r) == Names(b) + [o.name];
      }
    }
  }

  /** Replacing keeps the lens in its slot; inserting a new label puts it
      at the back. */
  lemma AssignPlace(b: seq<Lens>, o: Op)
    requires o.op == '='
    ensures o.name in Names(b) ==>
      |ApplyOp(b, o)| == |b| && Names(ApplyOp(b, o)) == Names(b)
    ensures o.name !in Names(b) ==> ApplyOp(b, o) == b + [Lens(o.name, o.val)]
  {
  }

  lemma ApplyKeepsUnique(b: seq<Lens>, o: Op)
    requires IsOp(o) && UniqueNames(b)
    ensures UniqueNames(ApplyOp(b, o))
  {
    var r := ApplyOp(b, o);
    var pos := Position(Names(b), o.name);
    if o.op == '-' && pos.Some? {
      var p := pos.value;
      forall i, j | 0 <= i < j < |r| ensures r[i].name != r[j].name {
        var i' := if i < p then i else i + 1;
        var j' := if j < p then j else j + 1;
        assert r[i] == b[i'] && r[j] == b[j'];
      }
    } else if o.op == '=' && pos.None? {
      forall i, j | 0 <= i < j < |r| ensures r[i].name != r[j].name {
        if j == |b| {
          assert Names(b)[i] == r[i].name;
        }
      }
    }
  }

  // ---------------------------------------------------------------------
  // All boxes

  /** The 256 boxes after the steps `ops`, each step changing only the box
      its label hashes to. */
  function Run(ops: seq<Op>): (r: seq<seq<Lens>>)
    requires forall k :: 0 <= k < |ops| ==> IsOp(ops[k])
    ensures |r| == HASH_MOD
    decreases |ops|
  {
    if |ops| == 0 then seq(HASH_MOD, _ => [])
    else
      var prev := Run(ops[..|ops| - 1]);
      var o := ops[|ops| - 1];
      var h := Hash(o.name);
      prev[h := ApplyOp(prev[h], o)]
  }

  /** Every box holds at most one lens per label, and only lenses whose
      label hashes to that box. */
  predicate WellFiled(boxes: seq<seq<Lens>>)
  {
    forall j :: 0 <= j < |boxes| ==>
      UniqueNames(boxes[j]) && forall l :: l in boxes[j] ==> Hash(l.name) == j
  }

  lemma {:induction false} RunWellFiled(ops: seq<Op>)
    requires forall k :: 0 <= k < |ops| ==> IsOp(ops[k])
    ensures WellFiled(Run(ops))
    decreases |ops|
  {
    if |ops| > 0 {
      var front := ops[..|ops| - 1];
      RunWellFiled(front);
      var prev := Run(front);
      var o := ops[|ops| - 1];
      var h := Hash(o.name);
      ApplyKeepsUnique(prev[h], o);
      ApplyContents(prev[h], o);
    }
  }

  /** Each lens's share of its box's power: slot number times focal length. */
  function Slots(b: seq<Lens>): (s: seq<int>)
    ensures |s| == |b|
    ensures forall lid :: 0 <= lid < |b| ==> s[lid] == (lid + 1) * b[lid].focal && s[lid] >= 0
  {
    seq(|b|, lid requires 0 <= lid < |b| => (lid + 1) * b[lid].focal)
  }

  /** Focusing power of one box: the lenses' shares, summed. It is never
      negative and is at least each lens's share. */
  function BoxPower(b: seq<Lens>): (r: int)
    ensures r >= 0
    ensures forall lid :: 0 <= lid < |b| ==> Slots(b)[lid] <= r
  {
    SumNonNegative(Slots(b));
    SumBoundsEach(Slots(b));
    Sum(Slots(b))
  }

  /** Each box's share of the total: box number times box power. */
  function Shares(boxes: seq<seq<Lens>>): (s: seq<int>)
    ensures |s| == |boxes|
    ensures forall bid :: 0 <= bid < |boxes| ==> s[bid] == (1 + bid) * BoxPower(boxes[bid]) && s[bid] >= 0
  {
    seq(|boxes|, bid requires 0 <= bid < |boxes| => (1 + bid) * BoxPower(boxes[bid]))
  }

  /** Focusing power of all boxes: the boxes' shares, summed. It is never
      negative and is at least each box's share. */
  function Power(boxes: seq<seq<Lens>>): (r: int)
    ensures r >= 0
    ensures forall bid :: 0 <= bid < |boxes| ==> Shares(boxes)[bid] <= r
  {
    SumNonNegative(Shares(boxes));
    SumBoundsEach(Shares(boxes));
    Sum(Shares(boxes))
  }

  /** A lens pushed at the back counts with the new slot number. */
  lemma BoxPowerSnoc(b: seq<Lens>, l: Lens)
    ensures BoxPower(b + [l]) == BoxPower(b) + (|b| + 1) * l.focal
  {
    var c := b + [l];
    assert Slots(c)[..|c| - 1] == Slots(b);
  }

  /** Empty boxes have no power. */
  lemma PowerEmpty()
    ensures Power(Run([])) == 0
  {
    var z := Shares(Run([]));
    forall bid | 0 <= bid < HASH_MOD ensures z[bid] == 0 {
      assert Run([])[bid] == [];
    }
    SumZero(z);
  }

  lemma {:induction false} SumZero(s: seq<int>)
    requires forall i :: 0 <= i < |s| ==> s[i] == 0
    ensures Sum(s) == 0
    decreases |s|
  {
    if |s| > 0 {
      SumZero(s[..|s| - 1]);
    }
  }

  // ---------------------------------------------------------------------
  // The in-place procedure

  /** One step applied to the box array. */
  method Apply(boxes: array<seq<Lens>>, o: Op)
    requires boxes.Length == HASH_MOD && IsOp(o)
    modifies boxes
    ensures boxes[..] == old(boxes[..])[Hash(o.name) := ApplyOp(old(boxes[Hash(o.name)]), o)]
  {
    var h := Hash(o.name);
    var b := boxes[h];
    var pos := Position(Names(b), o.name);
    if o.op == '-' {
      if pos.Some? {
        b := b[..pos.value] + b[pos.value + 1..];
      }
    } else {
      if pos.Some? {
        b := b[pos.value := b[pos.value].(focal := o.val)];
      } else {
        b := b + [LensOf(o)];
      }
    }
    boxes[h] := b;
  }

  lemma ParsedOneMore(steps: seq<string>, i: nat, ops: seq<Op>)
    requires i < |steps| && CollectAll(steps[..i], OpOf) == Some(ops)
    requires OpOf(steps[i]).Some?
    ensures CollectAll(steps[..i + 1], OpOf) == Some(ops + [OpOf(steps[i]).value])
  {
    CollectAllSnoc(steps[..i], steps[i], OpOf);
    assert steps[..i + 1] == steps[..i] + [steps[i]];
  }

  lemma RunSnoc(ops: seq<Op>, o: Op)
    requires forall k :: 0 <= k < |ops| ==> IsOp(ops[k])
    requires IsOp(o)
    ensures forall k :: 0 <= k < |ops + [o]| ==> IsOp((ops + [o])[k])
    ensures Run(ops + [o]) == Run(ops)[Hash(o.name) := ApplyOp(Run(ops)[Hash(o.name)], o)]
  {
    assert (ops + [o])[..|ops|] == ops;
  }

  /** `solve2`: the focusing power after all steps, or `None` where a step
      does not parse (a panic). */
  method Solve2(data: string) returns (r: Option<int>)
    ensures CollectAll(Split(data, ","), OpOf).None? ==> r.None?
    ensures CollectAll(Split(data, ","), OpOf).Some? ==> r == Some(Power(Run(CollectAll(Split(data, ","), OpOf).value)))
  {
    var boxes := new seq<Lens>[HASH_MOD](_ => []);
    var steps := Split(data, ",");
    ghost var ops: seq<Op> := [];
    var i := 0;
    while i < |steps|
      invariant 0 <= i <= |steps| && boxes.Length == HASH_MOD
      invariant CollectAll(steps[..i], OpOf) == Some(ops)
      invariant forall k :: 0 <= k < |ops| ==> IsOp(ops[k])
      invariant boxes[..] == Run(ops)
    {
      var o := OpOf(steps[i]);
      if o.None? {
        return None;
      }
      Apply(boxes, o.value);
      ParsedOneMore(steps, i, ops);
      RunSnoc(ops, o.value);
      ops := ops + [o.value];
      i := i + 1;
    }
    assert steps[..i] == steps;
    r := Some(Power(boxes[..]));
  }
}
