/** Day 19, Aplenty: each machine part carries four ratings (x, m, a, s).
    Named workflows hold lists of rules; a rule compares one rating with a
    constant and names the workflow (or "A" accept, "R" reject) to go to.
    Part one routes every listed part from workflow "in" and sums the
    ratings of the accepted ones; part two routes whole boxes of ratings
    at once, splitting a box at every comparison, and adds up the volumes
    of the boxes that reach "A". */
module Day19 {
  import opened RustStd

  // ---------------------------------------------------------------------
  // Ranges of ratings

  /** `Range`: the ratings `l..=r`. */
  datatype Range = Range(l: int, r: int)

  predicate Holds(g: Range, u: int)
  {
    g.l <= u <= g.r
  }

  /** `Range::new`: `None` for an empty range. */
  function NewRange(l: int, r: int): (o: Option<Range>)
    ensures o.Some? <==> l <= r
    ensures o.Some? ==> forall u :: Holds(o.value, u) <==> l <= u <= r
  {
    if l <= r then Some(Range(l, r)) else None
  }

  /** `Range::len`. */
  function Len(g: Range): int
  {
    g.r - g.l + 1
  }

  /** The ratings `l..=r` as a set. */
  function Ratings(l: int, r: int): (s: set<int>)
    ensures forall u :: u in s <==> l <= u <= r
    decreases r - l
  {
    if l > r then {} else Ratings(l, r - 1) + {r}
  }

  /** The length of a range is the number of ratings it holds. */
  lemma {:induction false} LenCounts(g: Range)
    requires g.l <= g.r
    ensures |Ratings(g.l, g.r)| == Len(g)
    decreases g.r - g.l
  {
    var s := Ratings(g.l, g.r - 1);
    if g.l < g.r {
      LenCounts(Range(g.l, g.r - 1));
    } else {
      assert s == {};
    }
    assert g.r !in s;
    assert Ratings(g.l, g.r) == s + {g.r};
  }

  function OptLen(o: Option<Range>): int
  {
    if o.None? then 0 else Len(o.value)
  }

  /** The test a rule makes on a rating `u`: `>` and `<` compare it with
      `v`; any other operator (the fallback's '\0') always passes. */
  predicate Passes(op: char, u: int, v: int)
  {
    if op == '>' then u > v else if op == '<' then u < v else true
  }

  // ---------------------------------------------------------------------
  // Rules

  /** `Rule`: the category it tests, the operator, the constant and the
      destination. */
  datatype Rule = Rule(c: char, op: char, v: int, to: string)

  /** `Rule::new`: "c<op>v:to" for a comparison; a text without ':' is the
      unconditional fallback to that text, testing category 'x' with the
      operator '\0'. A head shorter than two characters or a constant that
      is not a `u64` panics, here `None`. */
  function NewRule(s: string): (r: Option<Rule>)
    ensures ':' !in s ==> r == Some(Rule('x', '\0', 0, s))
    ensures r.Some? && ':' in s ==> 0 <= r.value.v <= U64_MAX
  {
    if Contains(s, ':') then
      SplitAtChar(s, ':');
      var parts := Split(s, ":");
      var head := parts[0];
      if |head| < 2 then None
      else
        match ParseUnsigned(head[2..], U64_MAX)
        case None => None
        case Some(v) => Some(Rule(head[0], head[1], v, parts[1]))
    else Some(Rule('x', '\0', 0, s))
  }

  /** The text of a comparison rule. */
  function RuleText(rule: Rule): string
    requires rule.v >= 0
  {
    [rule.c, rule.op] + NatToString(rule.v) + ":" + rule.to
  }

  /** The text of a comparison rule whose parts hold no ':' splits into the
      head and the destination. */
  lemma SplitRuleText(rule: Rule)
    requires rule.c != ':' && rule.op != ':' && ':' !in rule.to && rule.v >= 0
    ensures Split(RuleText(rule), ":") == [[rule.c, rule.op] + NatToString(rule.v), rule.to]
  {
    var num := NatToString(rule.v);
    var head := [rule.c, rule.op] + num;
    assert ':' !in num by {
      assert forall i :: 0 <= i < |num| ==> IsDigit(num[i]);
    }
    assert ':' !in head;
    SplitSingle(rule.to, ":");
    SplitCons(head, ":", rule.to);
  }

  /** `Rule::new` reads back the text of a comparison rule whose category,
      operator and destination hold no ':'. */
  lemma NewRuleText(rule: Rule)
    requires rule.c != ':' && rule.op != ':' && ':' !in rule.to
    requires 0 <= rule.v <= U64_MAX
    ensures NewRule(RuleText(rule)) == Some(rule)
  {
    var head := [rule.c, rule.op] + NatToString(rule.v);
    var text := RuleText(rule);
    assert text[|head|] == ':';
    SplitRuleText(rule);
    assert head[2..] == NatToString(rule.v);
    ParseNatToString(rule.v, U64_MAX);
  }

  // ---------------------------------------------------------------------
  // Splitting a range at a rule

  /** `Range::split` as written: the part that passes the rule and the part
      that fails it. The bounds are not clipped to the range, so a constant
      outside the range widens a piece beyond it. `v + 1` and `v - 1` are
      `u64` arithmetic, which must not overflow. */
  function SplitRangeAsWritten(g: Range, rule: Rule): (p: (Option<Range>, Option<Range>))
    requires rule.op == '>' ==> rule.v + 1 <= U64_MAX
    requires rule.op == '<' ==> rule.v >= 1
    ensures rule.op != '>' && rule.op != '<' ==> p.1.None?
  {
    if rule.op == '>' then (NewRange(rule.v + 1, g.r), NewRange(g.l, rule.v))
    else if rule.op == '<' then (NewRange(g.l, rule.v - 1), NewRange(rule.v, g.r))
    else (NewRange(g.l, g.r), None)
  }

  /** `Range::split` with both pieces clipped to the range: the passing part
      holds exactly the ratings of the range that pass the rule, and the
      failing part exactly those that fail it. */
  function SplitRange(g: Range, rule: Rule): (p: (Option<Range>, Option<Range>))
    ensures forall u :: Holds(g, u) && Passes(rule.op, u, rule.v) <==> p.0.Some? && Holds(p.0.value, u)
    ensures forall u :: Holds(g, u) && !Passes(rule.op, u, rule.v) <==> p.1.Some? && Holds(p.1.value, u)
  {
    if rule.op == '>' then
      (NewRange(if rule.v + 1 > g.l then rule.v + 1 else g.l, g.r),
       NewRange(g.l, if rule.v < g.r then rule.v else g.r))
    else if rule.op == '<' then
      (NewRange(g.l, if rule.v - 1 < g.r then rule.v - 1 else g.r),
       NewRange(if rule.v > g.l then rule.v else g.l, g.r))
    else (NewRange(g.l, g.r), None)
  }

  /** The two pieces of a range share its length. */
  lemma SplitRangeLengths(g: Range, rule: Rule)
    requires g.l <= g.r
    ensures OptLen(SplitRange(g, rule).0) + OptLen(SplitRange(g, rule).1) == Len(g)
  {
  }

  /** When the constant lies in the range, or just outside it on the side
      where one piece is empty, the code as written gives the clipped pieces. */
  lemma SplitRangeAgrees(g: Range, rule: Rule)
    requires rule.op == '>' ==> rule.v + 1 <= U64_MAX && g.l - 1 <= rule.v <= g.r
    requires rule.op == '<' ==> rule.v >= 1 && g.l <= rule.v <= g.r + 1
    ensures SplitRangeAsWritten(g, rule) == SplitRange(g, rule)
  {
  }

  /** As written, a `>` constant below the range gives a passing piece that
      starts below the range and is longer than the whole range. */
  lemma SplitRangeAsWrittenWidens(g: Range, rule: Rule)
    requires g.l <= g.r && rule.op == '>' && 0 <= rule.v && rule.v + 1 < g.l <= U64_MAX
    ensures SplitRangeAsWritten(g, rule).0 == Some(Range(rule.v + 1, g.r))
    ensures !Holds(g, rule.v + 1)
    ensures OptLen(SplitRangeAsWritten(g, rule).0) + OptLen(SplitRangeAsWritten(g, rule).1) > Len(g)
  {
  }

  // ---------------------------------------------------------------------
  // Parts and boxes

  /** A part: its rating in each category (`Xmas::d`). */
  type Part = map<char, int>

  /** A box of parts: a range per category (`XmasRanges`). */
  type Box = map<char, Range>

  /** Part `u` lies in box `b`: same categories, every rating in range. */
  predicate InBox(u: Part, b: Box)
  {
    u.Keys == b.Keys && forall k :: k in b ==> Holds(b[k], u[k])
  }

  /** `Rule::apply`: the destination if the part passes the rule, `None` if
      it fails. The rating is looked up (and unwrapped) even for the
      fallback, so a part without the rule's category panics, here the
      outer `None`. */
  function Apply(rule: Rule, u: Part): (r: Option<Option<string>>)
    ensures r.None? <==> rule.c !in u
    ensures r.Some? ==> (r.value == Some(rule.to) <==> Passes(rule.op, u[rule.c], rule.v))
    ensures r.Some? ==> (r.value.None? <==> !Passes(rule.op, u[rule.c], rule.v))
  {
    if rule.c !in u then None
    else if Passes(rule.op, u[rule.c], rule.v) then Some(Some(rule.to))
    else Some(None)
  }

  /** One piece of a box split: the box with the rule's category narrowed
      to the piece, or `None` if the piece is empty (`collect_ranges`). */
  function Narrow(pr: Box, c: char, piece: Option<Range>): Option<Box>
  {
    if piece.None? then None else Some(pr[c := piece.value])
  }

  /** `Rule::split_ranges` on top of the clipped split `SplitRange` (the
      corrected form; `SplitRangesAsWritten` is the code as written): the
      fallback passes the whole box and leaves no tail; a comparison narrows
      only the rule's category, into the part that passes and the part that
      fails. A category the box lacks leaves both halves the whole box. */
  function SplitRanges(rule: Rule, pr: Box): (p: (Option<Box>, Option<Box>))
  {
    if rule.op == '\0' then (Some(pr), None)
    else if rule.c !in pr then (Some(pr), Some(pr))
    else
      var pieces := SplitRange(pr[rule.c], rule);
      (Narrow(pr, rule.c, pieces.0), Narrow(pr, rule.c, pieces.1))
  }

  /** Both halves keep the categories of the box, and the ranges of every
      category but the compared one; a rule without a test sends the whole box
      on and leaves nothing. */
  lemma SplitRangesKeys(rule: Rule, pr: Box)
    ensures var p := SplitRanges(rule, pr);
      (rule.op == '\0' ==> p == (Some(pr), None)) &&
      (p.0.Some? ==> p.0.value.Keys == pr.Keys) &&
      (p.1.Some? ==> p.1.value.Keys == pr.Keys) &&
      (p.0.Some? ==> forall k :: k in pr && k != rule.c ==> p.0.value[k] == pr[k]) &&
      (p.1.Some? ==> forall k :: k in pr && k != rule.c ==> p.1.value[k] == pr[k])
  {
  }

  /** A part of the box lands in the passing half exactly when it passes the
      rule, and in the failing half exactly when it fails it. */
  lemma SplitRangesParts(rule: Rule, pr: Box, u: Part)
    requires rule.c in pr && InBox(u, pr)
    ensures var p := SplitRanges(rule, pr);
      (p.0.Some? && InBox(u, p.0.value)) <==> Passes(rule.op, u[rule.c], rule.v)
    ensures var p := SplitRanges(rule, pr);
      (p.1.Some? && InBox(u, p.1.value)) <==> !Passes(rule.op, u[rule.c], rule.v)
  {
    var c := rule.c;
    if rule.op != '\0' {
      var pieces := SplitRange(pr[c], rule);
      assert Holds(pr[c], u[c]);
      if pieces.0.Some? && Holds(pieces.0.value, u[c]) {
        assert InBox(u, pr[c := pieces.0.value]);
      }
      if pieces.1.Some? && Holds(pieces.1.value, u[c]) {
        assert InBox(u, pr[c := pieces.1.value]);
      }
    }
  }

  /** Both halves lie inside the box. */
  lemma SplitRangesInside(rule: Rule, pr: Box, u: Part)
    ensures var p := SplitRanges(rule, pr);
      p.0.Some? && InBox(u, p.0.value) ==> InBox(u, pr)
    ensures var p := SplitRanges(rule, pr);
      p.1.Some? && InBox(u, p.1.value) ==> InBox(u, pr)
  {
    var c := rule.c;
    if rule.op != '\0' && c in pr {
      var pieces := SplitRange(pr[c], rule);
      if pieces.0.Some? && InBox(u, pr[c := pieces.0.value]) {
        assert Holds(pieces.0.value, u[c]);
      }
      if pieces.1.Some? && InBox(u, pr[c := pieces.1.value]) {
        assert Holds(pieces.1.value, u[c]);
      }
    }
  }

  /** The rule's constant can be stepped past in `u64` without wrapping, as
      `Range::split` does with `v + 1` and `v - 1`. */
  predicate NoWrap(rule: Rule)
  {
    (rule.op == '>' ==> rule.v + 1 <= U64_MAX) && (rule.op == '<' ==> rule.v >= 1)
  }

  /** `Rule::split_ranges` as written, on top of the unclipped
      `Range::split`. Where that split agrees with the clipped one, so do
      the two halves. */
  function SplitRangesAsWritten(rule: Rule, pr: Box): (p: (Option<Box>, Option<Box>))
    requires NoWrap(rule)
    ensures rule.op == '\0' ==> p == (Some(pr), None)
    ensures rule.c in pr && SplitRangeAsWritten(pr[rule.c], rule) == SplitRange(pr[rule.c], rule) ==>
      p == SplitRanges(rule, pr)
  {
    if rule.op == '\0' then (Some(pr), None)
    else if rule.c !in pr then (Some(pr), Some(pr))
    else
      var pieces := SplitRangeAsWritten(pr[rule.c], rule);
      (Narrow(pr, rule.c, pieces.0), Narrow(pr, rule.c, pieces.1))
  }

  // ---------------------------------------------------------------------
  // Routing one part, and a whole box, through a workflow

  /** The destination of the first rule the part passes, `None` inside if
      it passes none; a rule whose category the part lacks panics, here the
      outer `None`. */
  function Route(rules: seq<Rule>, u: Part): Option<Option<string>>
  {
    if |rules| == 0 then Some(None)
    else
      match Apply(rules[0], u)
      case None => None
      case Some(Some(to)) => Some(Some(to))
      case Some(None) => Route(rules[1..], u)
  }

  /** The inner loop of `solve1`: try the rules in order and stop at the
      first that sends the part on. */
  method FirstMatch(rules: seq<Rule>, u: Part) returns (r: Option<Option<string>>)
    ensures r == Route(rules, u)
  {
    var i := 0;
    while i < |rules|
      invariant 0 <= i <= |rules|
      invariant Route(rules, u) == Route(rules[i..], u)
    {
      assert rules[i..][1..] == rules[i + 1..];
      var next := Apply(rules[i], u);
      if next.None? {
        return None;
      }
      if next.value.Some? {
        return next;
      }
      i := i + 1;
    }
    return Some(None);
  }

  /** Every rule of the list tests a category among `keys`. */
  predicate KnownCategories(rules: seq<Rule>, keys: set<char>)
  {
    forall i :: 0 <= i < |rules| ==> rules[i].c in keys
  }

  /** The boxes `apply_rules` sends on, with their destinations: each rule
      sends on the part of the box that passes it and hands the rest to the
      next rule; it stops once nothing is left. */
  function Routed(ranges: Box, rules: seq<Rule>): seq<(string, Box)>
    decreases |rules|
  {
    if |rules| == 0 then []
    else
      var p := SplitRanges(rules[0], ranges);
      var head := if p.0.Some? then [(rules[0].to, p.0.value)] else [];
      if p.1.Some? then head + Routed(p.1.value, rules[1..]) else head
  }

  /** The box a rule sends on directly, as a list of at most one. */
  function Sent(rule: Rule, ranges: Box): seq<(string, Box)>
  {
    var p := SplitRanges(rule, ranges);
    if p.0.Some? then [(rule.to, p.0.value)] else []
  }

  /** Every rule of the list can be split without wrapping. */
  predicate RulesNoWrap(rules: seq<Rule>)
  {
    forall i :: 0 <= i < |rules| ==> NoWrap(rules[i])
  }

  /** `apply_rules` as written, splitting with `SplitRangesAsWritten`. */
  function RoutedAsWritten(ranges: Box, rules: seq<Rule>): seq<(string, Box)>
    requires RulesNoWrap(rules)
    decreases |rules|
  {
    if |rules| == 0 then []
    else
      var p := SplitRangesAsWritten(rules[0], ranges);
      var head := if p.0.Some? then [(rules[0].to, p.0.value)] else [];
      if p.1.Some? then head + RoutedAsWritten(p.1.value, rules[1..]) else head
  }

  /** `Routed` unfolded once. */
  lemma RoutedUnfold(ranges: Box, rules: seq<Rule>)
    requires |rules| > 0
    ensures var p := SplitRanges(rules[0], ranges);
      Routed(ranges, rules) ==
        Sent(rules[0], ranges) + (if p.1.Some? then Routed(p.1.value, rules[1..]) else [])
  {
    var p := SplitRanges(rules[0], ranges);
    if p.1.None? {
      assert Sent(rules[0], ranges) + [] == Sent(rules[0], ranges);
    }
  }

  /** The rules after the first test categories of the failing half too. */
  lemma KnownRest(rules: seq<Rule>, keys: set<char>)
    requires |rules| > 0 && KnownCategories(rules, keys)
    ensures KnownCategories(rules[1..], keys)
  {
    forall j | 0 <= j < |rules[1..]| ensures rules[1..][j].c in keys {
      assert rules[1..][j] == rules[j + 1];
    }
  }

  /** `apply_rules`, splitting with the clipped `SplitRanges` (the
      corrected form; `RoutedAsWritten` is the code as written). */
  method ApplyRules(ranges: Box, rules: seq<Rule>) returns (res: seq<(string, Box)>)
    ensures res == Routed(ranges, rules)
  {
    res := [];
    var cur := ranges;
    var i := 0;
    while i < |rules|
      invariant 0 <= i <= |rules|
      invariant res + Routed(cur, rules[i..]) == Routed(ranges, rules)
    {
      RoutedUnfold(cur, rules[i..]);
      assert rules[i..][1..] == rules[i + 1..];
      var p := SplitRanges(rules[i], cur);
      res := res + Sent(rules[i], cur);
      if p.1.Some? {
        cur := p.1.value;
      } else {
        assert res == res + [];
        return;
      }
      i := i + 1;
    }
    assert res + [] == res;
  }

  /** A part in one of the boxes `apply_rules` sends on lies in the box it
      started from, and the rules route it to that box's destination. */
  lemma {:induction false} RoutedBoxRoute(ranges: Box, rules: seq<Rule>, u: Part, i: nat)
    requires KnownCategories(rules, ranges.Keys)
    requires i < |Routed(ranges, rules)| && InBox(u, Routed(ranges, rules)[i].1)
    ensures Routed(ranges, rules)[i].1.Keys == ranges.Keys
    ensures InBox(u, ranges)
    ensures Route(rules, u) == Some(Some(Routed(ranges, rules)[i].0))
    decreases |rules|
  {
    var rule := rules[0];
    var p := SplitRanges(rule, ranges);
    var head := Sent(rule, ranges);
    RoutedUnfold(ranges, rules);
    SplitRangesInside(rule, ranges, u);
    if i >= |head| {
      assert p.1.Some?;
      var rest := Routed(p.1.value, rules[1..]);
      assert Routed(ranges, rules)[i] == rest[i - |head|];
      KnownRest(rules, ranges.Keys);
      assert p.1.value.Keys == ranges.Keys;
      RoutedBoxRoute(p.1.value, rules[1..], u, i - |head|);
    }
    SplitRangesParts(rule, ranges, u);
  }

  /** A part of the box that the rules route somewhere lies in one of the
      boxes `apply_rules` sends on, with that destination. */
  lemma {:induction false} RoutedCovers(ranges: Box, rules: seq<Rule>, u: Part, n: string)
    requires KnownCategories(rules, ranges.Keys) && InBox(u, ranges)
    requires Route(rules, u) == Some(Some(n))
    ensures exists i :: 0 <= i < |Routed(ranges, rules)| &&
                        Routed(ranges, rules)[i].0 == n && InBox(u, Routed(ranges, rules)[i].1)
    decreases |rules|, 1
  {
    SplitRangesParts(rules[0], ranges, u);
    if Passes(rules[0].op, u[rules[0].c], rules[0].v) {
      RoutedUnfold(ranges, rules);
      assert Routed(ranges, rules)[0] == Sent(rules[0], ranges)[0];
    } else {
      CoversLater(ranges, rules, u, n);
    }
  }

  /** The case of `RoutedCovers` where the part fails the first rule. */
  lemma {:induction false} CoversLater(ranges: Box, rules: seq<Rule>, u: Part, n: string)
    requires KnownCategories(rules, ranges.Keys) && InBox(u, ranges) && |rules| > 0
    requires Route(rules, u) == Some(Some(n)) && !Passes(rules[0].op, u[rules[0].c], rules[0].v)
    ensures exists i :: 0 <= i < |Routed(ranges, rules)| &&
                        Routed(ranges, rules)[i].0 == n && InBox(u, Routed(ranges, rules)[i].1)
    decreases |rules|, 0
  {
    var rule := rules[0];
    var p := SplitRanges(rule, ranges);
    var head := Sent(rule, ranges);
    SplitRangesParts(rule, ranges, u);
    RoutedUnfold(ranges, rules);
    var rest := Routed(p.1.value, rules[1..]);
    KnownRest(rules, ranges.Keys);
    RoutedCovers(p.1.value, rules[1..], u, n);
    var k :| 0 <= k < |rest| && rest[k].0 == n && InBox(u, rest[k].1);
    assert Routed(ranges, rules)[|head| + k] == rest[k];
  }

  /** No part of a box sent on by a later rule lies in the box the first
      rule sends on. */
  lemma RestAvoidsSent(ranges: Box, rules: seq<Rule>, u: Part, i: nat, j: nat)
    requires |rules| > 0 && KnownCategories(rules, ranges.Keys)
    requires i < |Sent(rules[0], ranges)| <= j < |Routed(ranges, rules)|
    requires InBox(u, Routed(ranges, rules)[j].1)
    ensures !InBox(u, Routed(ranges, rules)[i].1)
  {
    var p := SplitRanges(rules[0], ranges);
    var head := Sent(rules[0], ranges);
    RoutedUnfold(ranges, rules);
    var rest := Routed(p.1.value, rules[1..]);
    assert Routed(ranges, rules)[j] == rest[j - |head|];
    assert Routed(ranges, rules)[i] == head[0];
    KnownRest(rules, ranges.Keys);
    RoutedBoxRoute(p.1.value, rules[1..], u, j - |head|);
    SplitRangesInside(rules[0], ranges, u);
    SplitRangesParts(rules[0], ranges, u);
  }

  /** The boxes sent on by the rules after the first do not overlap. */
  lemma {:induction false} RestDisjoint(ranges: Box, rules: seq<Rule>, u: Part, i: nat, j: nat)
    requires |rules| > 0 && KnownCategories(rules, ranges.Keys)
    requires |Sent(rules[0], ranges)| <= i < |Routed(ranges, rules)|
    requires |Sent(rules[0], ranges)| <= j < |Routed(ranges, rules)|
    requires InBox(u, Routed(ranges, rules)[i].1) && InBox(u, Routed(ranges, rules)[j].1)
    ensures i == j
    decreases |rules|, 0
  {
    var p := SplitRanges(rules[0], ranges);
    var head := Sent(rules[0], ranges);
    RoutedUnfold(ranges, rules);
    var rest := Routed(p.1.value, rules[1..]);
    assert Routed(ranges, rules)[i] == rest[i - |head|];
    assert Routed(ranges, rules)[j] == rest[j - |head|];
    KnownRest(rules, ranges.Keys);
    RoutedDisjoint(p.1.value, rules[1..], u, i - |head|, j - |head|);
  }

  /** The boxes `apply_rules` sends on do not overlap. */
  lemma {:induction false} RoutedDisjoint(ranges: Box, rules: seq<Rule>, u: Part, i: nat, j: nat)
    requires KnownCategories(rules, ranges.Keys)
    requires i < |Routed(ranges, rules)| && j < |Routed(ranges, rules)|
    requires InBox(u, Routed(ranges, rules)[i].1) && InBox(u, Routed(ranges, rules)[j].1)
    ensures i == j
    decreases |rules|, 1
  {
    var head := Sent(rules[0], ranges);
    if i >= |head| && j >= |head| {
      RestDisjoint(ranges, rules, u, i, j);
    } else if i < |head| && j >= |head| {
      RestAvoidsSent(ranges, rules, u, i, j);
    } else if j < |head| && i >= |head| {
      RestAvoidsSent(ranges, rules, u, j, i);
    }
  }

  // ---------------------------------------------------------------------
  // Part one: routing each part from "in"

  type Workflows = map<string, seq<Rule>>

  /** The outcome of routing a part from workflow `cur` with at most `fuel`
      more workflow steps: accepted, rejected, or `None` for a panic (an
      unknown workflow or category) or when the fuel runs out. A part that
      passes no rule of its workflow stays there, as the loop of `solve1`
      does, and burns the fuel. */
  function Eval(wf: Workflows, u: Part, cur: string, fuel: nat): Option<bool>
    decreases fuel
  {
    if cur == "A" then Some(true)
    else if cur == "R" then Some(false)
    else if fuel == 0 || cur !in wf then None
    else
      match Route(wf[cur], u)
      case None => None
      case Some(None) => Eval(wf, u, cur, fuel - 1)
      case Some(Some(next)) => Eval(wf, u, next, fuel - 1)
  }

  /** An outcome reached with some fuel stays the same with more. */
  lemma {:induction false} EvalMore(wf: Workflows, u: Part, cur: string, fuel: nat, more: nat)
    requires fuel <= more && Eval(wf, u, cur, fuel).Some?
    ensures Eval(wf, u, cur, more) == Eval(wf, u, cur, fuel)
    decreases fuel
  {
    if cur != "A" && cur != "R" {
      match Route(wf[cur], u)
      case None =>
      case Some(None) => EvalMore(wf, u, cur, fuel - 1, more - 1);
      case Some(Some(next)) => EvalMore(wf, u, next, fuel - 1, more - 1);
    }
  }

  /** A part that passes no rule of its workflow is never accepted or
      rejected. */
  lemma {:induction false} StuckNeverEnds(wf: Workflows, u: Part, cur: string, fuel: nat)
    requires cur != "A" && cur != "R" && cur in wf && Route(wf[cur], u) == Some(None)
    ensures Eval(wf, u, cur, fuel).None?
    decreases fuel
  {
    if fuel > 0 {
      StuckNeverEnds(wf, u, cur, fuel - 1);
    }
  }

  /** The loop of `solve1` for one part, with at most `fuel` workflow
      steps. */
  method Run(wf: Workflows, u: Part, fuel: nat) returns (r: Option<bool>)
    ensures r == Eval(wf, u, "in", fuel)
  {
    var cur := "in";
    var left := fuel;
    while true
      invariant cur != "A" && cur != "R"
      invariant Eval(wf, u, cur, left) == Eval(wf, u, "in", fuel)
      decreases left
    {
      if left == 0 || cur !in wf {
        return None;
      }
      var next := FirstMatch(wf[cur], u);
      if next.None? {
        return None;
      }
      if next.value.Some? {
        cur := next.value.value;
      }
      left := left - 1;
      if cur == "A" || cur == "R" {
        return Some(cur == "A");
      }
    }
  }

  /** The sum of the ratings of a part (`d.values().sum()`), adding the
      categories in any order. */
  ghost function RatingSum(u: Part): int
    decreases |u|
  {
    if u == map[] then 0
    else
      var k :| k in u;
      u[k] + RatingSum(u - {k})
  }

  /** The sum does not depend on which category is taken first. */
  lemma {:induction false} RatingSumRemove(u: Part, k: char)
    requires k in u
    ensures RatingSum(u) == u[k] + RatingSum(u - {k})
    decreases |u|
  {
    var j :| j in u && RatingSum(u) == u[j] + RatingSum(u - {j});
    if j != k {
      RatingSumRemove(u - {j}, k);
      RatingSumRemove(u - {k}, j);
      assert u - {j} - {k} == u - {k} - {j};
    }
  }

  /** `d.values().sum()`. */
  method SumRatings(u: Part) returns (s: int)
    ensures s == RatingSum(u)
  {
    s := 0;
    var rest := u;
    while rest != map[]
      invariant s + RatingSum(rest) == RatingSum(u)
      decreases |rest|
    {
      var k :| k in rest;
      RatingSumRemove(rest, k);
      s := s + rest[k];
      rest := rest - {k};
    }
  }

  /** The total rating of the accepted parts, `None` if some part panics or
      runs out of fuel. */
  ghost function AcceptedRatings(wf: Workflows, items: seq<Part>, fuel: nat): Option<int>
  {
    if |items| == 0 then Some(0)
    else
      match Eval(wf, items[0], "in", fuel)
      case None => None
      case Some(accepted) =>
        Plus(if accepted then RatingSum(items[0]) else 0, AcceptedRatings(wf, items[1..], fuel))
  }

  function Plus(a: int, b: Option<int>): Option<int>
  {
    if b.None? then None else Some(a + b.value)
  }

  /** `solve1`. */
  method Solve1(wf: Workflows, items: seq<Part>, fuel: nat) returns (r: Option<int>)
    ensures r == AcceptedRatings(wf, items, fuel)
  {
    var s := 0;
    for i := 0 to |items|
      invariant AcceptedRatings(wf, items, fuel) == Plus(s, AcceptedRatings(wf, items[i..], fuel))
    {
      assert items[i..][1..] == items[i + 1..];
      var accepted := Run(wf, items[i], fuel);
      if accepted.None? {
        return None;
      }
      if accepted.value {
        var t := SumRatings(items[i]);
        s := s + t;
      }
    }
    return Some(s);
  }

  // ---------------------------------------------------------------------
  // Part two: routing boxes from "in"

  const CATEGORIES: set<char> := {'x', 'm', 'a', 's'}

  /** The box `solve2` starts from: every rating in `min..=max`. */
  function StartBox(min: int, max: int): (b: Box)
    ensures b.Keys == CATEGORIES
  {
    map['x' := Range(min, max), 'm' := Range(min, max), 'a' := Range(min, max), 's' := Range(min, max)]
  }

  /** The product of the lengths of a box's ranges: the number of parts it
      holds (see `LenCounts`). */
  function Volume(b: Box): int
    requires b.Keys == CATEGORIES
  {
    Len(b['x']) * Len(b['m']) * Len(b['a']) * Len(b['s'])
  }

  predicate AllKeyed(boxes: seq<Box>)
  {
    forall i :: 0 <= i < |boxes| ==> boxes[i].Keys == CATEGORIES
  }

  function VolumeSum(boxes: seq<Box>): int
    requires AllKeyed(boxes)
  {
    if |boxes| == 0 then 0 else VolumeSum(boxes[..|boxes| - 1]) + Volume(boxes[|boxes| - 1])
  }

  /** Every rule of every workflow tests one of the four categories. */
  predicate KnownWorkflows(wf: Workflows)
  {
    forall n :: n in wf ==> KnownCategories(wf[n], CATEGORIES)
  }

  /** The boxes `apply_rules` sends on have the categories of the box it
      started from. */
  lemma {:induction false} RoutedKeys(ranges: Box, rules: seq<Rule>)
    ensures forall i :: 0 <= i < |Routed(ranges, rules)| ==> Routed(ranges, rules)[i].1.Keys == ranges.Keys
    decreases |rules|
  {
    if |rules| > 0 {
      var p := SplitRanges(rules[0], ranges);
      RoutedUnfold(ranges, rules);
      if p.1.Some? {
        RoutedKeys(p.1.value, rules[1..]);
      }
    }
  }

  // The state of the `solve2` loop: the pool of boxes with their
  // workflows, the number of workflow steps behind each pool box (ghost),
  // and the boxes accepted so far (ghost).

  /** Parts of a box at workflow `n`, `d` steps from "in", have so far
      been routed exactly as a part on its own would be. */
  ghost predicate Tracked(wf: Workflows, u: Part, n: string, d: nat)
  {
    forall f: nat :: Eval(wf, u, "in", f + d) == Eval(wf, u, n, f)
  }

  lemma TrackedAt(wf: Workflows, u: Part, n: string, d: nat, f: nat)
    requires Tracked(wf, u, n, d)
    ensures Eval(wf, u, "in", f + d) == Eval(wf, u, n, f)
  {
  }

  predicate PoolKeyed(pool: seq<(string, Box)>)
  {
    forall i :: 0 <= i < |pool| ==> pool[i].1.Keys == CATEGORIES
  }

  ghost predicate PoolTracked(wf: Workflows, start: Box, pool: seq<(string, Box)>, depth: seq<nat>, pops: nat)
  {
    |depth| == |pool| &&
    (forall i :: 0 <= i < |pool| ==> depth[i] <= pops) &&
    forall i, u :: 0 <= i < |pool| && InBox(u, pool[i].1) ==>
      InBox(u, start) && Tracked(wf, u, pool[i].0, depth[i])
  }

  /** Every part of an accepted box is a part of the start box that is
      accepted on its own. */
  ghost predicate AccSound(wf: Workflows, start: Box, accepted: seq<Box>, fuel: nat)
  {
    forall i, u :: 0 <= i < |accepted| && InBox(u, accepted[i]) ==>
      InBox(u, start) && Eval(wf, u, "in", fuel) == Some(true)
  }

  ghost predicate PoolDisjoint(pool: seq<(string, Box)>)
  {
    forall i, j, u :: 0 <= i < |pool| && 0 <= j < |pool| && InBox(u, pool[i].1) && InBox(u, pool[j].1) ==> i == j
  }

  ghost predicate Disjoint(boxes: seq<Box>)
  {
    forall i, j, u :: 0 <= i < |boxes| && 0 <= j < |boxes| && InBox(u, boxes[i]) && InBox(u, boxes[j]) ==> i == j
  }

  ghost predicate Apart(pool: seq<(string, Box)>, accepted: seq<Box>)
  {
    forall i, j, u :: 0 <= i < |pool| && 0 <= j < |accepted| && InBox(u, pool[i].1) ==> !InBox(u, accepted[j])
  }

  ghost predicate InPool(pool: seq<(string, Box)>, u: Part)
  {
    exists i :: 0 <= i < |pool| && InBox(u, pool[i].1)
  }

  ghost predicate InSome(boxes: seq<Box>, u: Part)
  {
    exists i :: 0 <= i < |boxes| && InBox(u, boxes[i])
  }

  /** A part of the start box that is accepted on its own. */
  ghost predicate Wanted(wf: Workflows, start: Box, u: Part, fuel: nat)
  {
    InBox(u, start) && Eval(wf, u, "in", fuel) == Some(true)
  }

  /** Every wanted part is in an accepted box or still in the pool. */
  ghost predicate Complete(wf: Workflows, start: Box, pool: seq<(string, Box)>, accepted: seq<Box>, fuel: nat)
  {
    forall u :: Wanted(wf, start, u, fuel) ==> InSome(accepted, u) || InPool(pool, u)
  }

  /** The invariant of the `solve2` loop about the parts of the boxes. */
  ghost predicate Invariant(wf: Workflows, start: Box, pool: seq<(string, Box)>, depth: seq<nat>,
                            accepted: seq<Box>, pops: nat, fuel: nat)
  {
    PoolTracked(wf, start, pool, depth, pops) && AccSound(wf, start, accepted, fuel) &&
    PoolDisjoint(pool) && Disjoint(accepted) && Apart(pool, accepted) &&
    Complete(wf, start, pool, accepted, fuel)
  }

  /** `Invariant` behind the key `Open` (see `RustStd.Open`): the methods
      that carry `Good` from one step of the loop to the next never see its
      quantifiers. */
  ghost predicate Good(wf: Workflows, start: Box, pool: seq<(string, Box)>, depth: seq<nat>,
                       accepted: seq<Box>, pops: nat, fuel: nat)
  {
    forall k: nat :: Open(k) ==> Invariant(wf, start, pool, depth, accepted, pops, fuel)
  }

  lemma Opened(wf: Workflows, start: Box, pool: seq<(string, Box)>, depth: seq<nat>,
               accepted: seq<Box>, pops: nat, fuel: nat)
    requires Good(wf, start, pool, depth, accepted, pops, fuel)
    ensures Invariant(wf, start, pool, depth, accepted, pops, fuel)
  {
    assert Open(0);
  }

  /** What the loop invariant gives when `solve2` stops. */
  lemma GoodEnd(wf: Workflows, start: Box, pool: seq<(string, Box)>, depth: seq<nat>,
                accepted: seq<Box>, pops: nat, fuel: nat)
    requires Good(wf, start, pool, depth, accepted, pops, fuel)
    ensures Disjoint(accepted) && AccSound(wf, start, accepted, fuel)
    ensures pool == [] ==> forall u :: Wanted(wf, start, u, fuel) ==> InSome(accepted, u)
  {
    Opened(wf, start, pool, depth, accepted, pops, fuel);
    if pool == [] {
      forall u | Wanted(wf, start, u, fuel) ensures InSome(accepted, u) {
        assert !InPool(pool, u);
      }
    }
  }

  // Removing the last pool box

  lemma DropTracked(wf: Workflows, start: Box, pool: seq<(string, Box)>, depth: seq<nat>, pops: nat)
    requires |pool| > 0 && PoolTracked(wf, start, pool, depth, pops)
    ensures PoolTracked(wf, start, pool[..|pool| - 1], depth[..|pool| - 1], pops + 1)
  {
    var k := |pool| - 1;
    forall i, u | 0 <= i < k && InBox(u, pool[..k][i].1)
      ensures InBox(u, start) && Tracked(wf, u, pool[..k][i].0, depth[..k][i])
    {
      assert pool[..k][i] == pool[i];
    }
  }

  lemma DropDisjoint(pool: seq<(string, Box)>, accepted: seq<Box>)
    requires |pool| > 0 && PoolDisjoint(pool) && Apart(pool, accepted)
    ensures PoolDisjoint(pool[..|pool| - 1]) && Apart(pool[..|pool| - 1], accepted)
  {
    var k := |pool| - 1;
    forall i, j, u | 0 <= i < k && 0 <= j < k && InBox(u, pool[..k][i].1) && InBox(u, pool[..k][j].1)
      ensures i == j
    {
      assert pool[..k][i] == pool[i] && pool[..k][j] == pool[j];
    }
    forall i, j, u | 0 <= i < k && 0 <= j < |accepted| && InBox(u, pool[..k][i].1)
      ensures !InBox(u, accepted[j])
    {
      assert pool[..k][i] == pool[i];
    }
  }

  /** The last pool box has no part in common with the others or with the
      accepted boxes. */
  lemma LastApart(pool: seq<(string, Box)>, accepted: seq<Box>, u: Part)
    requires |pool| > 0 && PoolDisjoint(pool) && Apart(pool, accepted)
    requires InBox(u, pool[|pool| - 1].1)
    ensures !InPool(pool[..|pool| - 1], u) && !InSome(accepted, u)
  {
    var k := |pool| - 1;
    forall i | 0 <= i < k ensures !InBox(u, pool[..k][i].1) {
      assert pool[..k][i] == pool[i];
    }
  }

  /** A wanted part is in an accepted box, in the rest of the pool, or in
      the last pool box. */
  lemma DropComplete(wf: Workflows, start: Box, pool: seq<(string, Box)>, accepted: seq<Box>, fuel: nat, u: Part)
    requires |pool| > 0 && Complete(wf, start, pool, accepted, fuel) && Wanted(wf, start, u, fuel)
    ensures InSome(accepted, u) || InPool(pool[..|pool| - 1], u) || InBox(u, pool[|pool| - 1].1)
  {
    var k := |pool| - 1;
    if !InSome(accepted, u) {
      var i :| 0 <= i < |pool| && InBox(u, pool[i].1);
      if i < k {
        assert pool[..k][i] == pool[i];
      }
    }
  }

  /** A part of the last pool box is wanted exactly when the rest of its
      route, from the box's workflow, accepts it. */
  lemma LastWanted(wf: Workflows, start: Box, pool: seq<(string, Box)>, depth: seq<nat>, pops: nat,
                   fuel: nat, u: Part)
    requires |pool| > 0 && PoolTracked(wf, start, pool, depth, pops) && pops < fuel
    requires InBox(u, pool[|pool| - 1].1)
    ensures InBox(u, start)
    ensures Wanted(wf, start, u, fuel) ==> Eval(wf, u, pool[|pool| - 1].0, fuel) == Some(true)
    ensures Eval(wf, u, pool[|pool| - 1].0, 0) == Some(true) ==> Wanted(wf, start, u, fuel)
  {
    var k := |pool| - 1;
    var d := depth[k];
    assert 0 <= k < |pool| && InBox(u, pool[k].1);
    assert InBox(u, start) && Tracked(wf, u, pool[k].0, depth[k]);
    if Wanted(wf, start, u, fuel) {
      EvalMore(wf, u, "in", fuel, fuel + d);
      assert Eval(wf, u, "in", fuel + d) == Eval(wf, u, pool[k].0, fuel);
    }
    if Eval(wf, u, pool[k].0, 0) == Some(true) {
      TrackedAt(wf, u, pool[k].0, d, 0);
      EvalMore(wf, u, "in", d, fuel);
    }
  }

  // The three things `solve2` does with the last pool box

  /** A box at "A" is added to the accepted boxes. */
  lemma AcceptStep(wf: Workflows, start: Box, pool: seq<(string, Box)>, depth: seq<nat>,
                   accepted: seq<Box>, pops: nat, fuel: nat)
    requires |pool| > 0 && pool[|pool| - 1].0 == "A" && pops < fuel && |depth| == |pool|
    requires Good(wf, start, pool, depth, accepted, pops, fuel)
    ensures Good(wf, start, pool[..|pool| - 1], depth[..|pool| - 1], accepted + [pool[|pool| - 1].1], pops + 1, fuel)
  {
    Opened(wf, start, pool, depth, accepted, pops, fuel);
    var k := |pool| - 1;
    var b := pool[k].1;
    var acc := accepted + [b];
    DropTracked(wf, start, pool, depth, pops);
    DropDisjoint(pool, accepted);
    forall i, u | 0 <= i < |acc| && InBox(u, acc[i])
      ensures InBox(u, start) && Eval(wf, u, "in", fuel) == Some(true)
    {
      if i == |accepted| {
        LastWanted(wf, start, pool, depth, pops, fuel, u);
      } else {
        assert acc[i] == accepted[i];
      }
    }
    assert forall j :: 0 <= j < |accepted| ==> acc[j] == accepted[j];
    assert acc[|accepted|] == b;
    forall i, j, u | 0 <= i < |acc| && 0 <= j < |acc| && InBox(u, acc[i]) && InBox(u, acc[j])
      ensures i == j
    {
    }
    forall i, j, u | 0 <= i < k && 0 <= j < |acc| && InBox(u, pool[..k][i].1)
      ensures !InBox(u, acc[j])
    {
      assert pool[..k][i] == pool[i];
      if j == |accepted| {
        assert InBox(u, pool[i].1);
      } else {
        assert acc[j] == accepted[j];
      }
    }
    forall u | Wanted(wf, start, u, fuel)
      ensures InSome(acc, u) || InPool(pool[..k], u)
    {
      DropComplete(wf, start, pool, accepted, fuel, u);
      if InSome(accepted, u) {
        var i :| 0 <= i < |accepted| && InBox(u, accepted[i]);
        assert acc[i] == accepted[i];
      } else if InBox(u, b) {
        assert acc[|accepted|] == b;
      }
    }
  }

  /** A box at "R" is dropped: none of its parts are wanted. */
  lemma RejectStep(wf: Workflows, start: Box, pool: seq<(string, Box)>, depth: seq<nat>,
                   accepted: seq<Box>, pops: nat, fuel: nat)
    requires |pool| > 0 && pool[|pool| - 1].0 == "R" && pops < fuel && |depth| == |pool|
    requires Good(wf, start, pool, depth, accepted, pops, fuel)
    ensures Good(wf, start, pool[..|pool| - 1], depth[..|pool| - 1], accepted, pops + 1, fuel)
  {
    Opened(wf, start, pool, depth, accepted, pops, fuel);
    var k := |pool| - 1;
    DropTracked(wf, start, pool, depth, pops);
    DropDisjoint(pool, accepted);
    forall u | Wanted(wf, start, u, fuel)
      ensures InSome(accepted, u) || InPool(pool[..k], u)
    {
      DropComplete(wf, start, pool, accepted, fuel, u);
      if InBox(u, pool[k].1) {
        LastWanted(wf, start, pool, depth, pops, fuel, u);
      }
    }
  }

  /** One more workflow step keeps a routed part tracked. */
  lemma OutTracked(wf: Workflows, u: Part, n: string, d: nat, next: string)
    requires Tracked(wf, u, n, d) && n != "A" && n != "R" && n in wf
    requires Route(wf[n], u) == Some(Some(next))
    ensures Tracked(wf, u, next, d + 1)
  {
    forall f: nat ensures Eval(wf, u, "in", f + (d + 1)) == Eval(wf, u, next, f) {
      TrackedAt(wf, u, n, d, f + 1);
      assert f + 1 + d == f + (d + 1);
    }
  }

  /** The depth of each box `apply_rules` sends on. */
  function Deeper(m: nat, d: nat): (r: seq<nat>)
    ensures |r| == m && forall i :: 0 <= i < m ==> r[i] == d
  {
    seq(m, _ => d)
  }

  /** The precondition of expanding the last pool box through its workflow. */
  ghost predicate Expandable(wf: Workflows, pool: seq<(string, Box)>, out: seq<(string, Box)>)
  {
    |pool| > 0 && PoolKeyed(pool) && KnownWorkflows(wf) &&
    pool[|pool| - 1].0 != "A" && pool[|pool| - 1].0 != "R" && pool[|pool| - 1].0 in wf &&
    out == Routed(pool[|pool| - 1].1, wf[pool[|pool| - 1].0])
  }

  lemma ExpandTracked(wf: Workflows, start: Box, pool: seq<(string, Box)>, depth: seq<nat>,
                      pops: nat, out: seq<(string, Box)>)
    requires Expandable(wf, pool, out) && PoolTracked(wf, start, pool, depth, pops)
    ensures var k := |pool| - 1;
      PoolTracked(wf, start, pool[..k] + out, depth[..k] + Deeper(|out|, depth[k] + 1), pops + 1)
  {
    var k := |pool| - 1;
    var d := depth[k];
    var np := pool[..k] + out;
    var nd := depth[..k] + Deeper(|out|, d + 1);
    assert |nd| == |np|;
    forall i | 0 <= i < |np| ensures nd[i] <= pops + 1 {
      if i < k {
        assert nd[i] == depth[i];
      } else {
        assert nd[i] == d + 1;
      }
    }
    forall i, u | 0 <= i < |np| && InBox(u, np[i].1)
      ensures InBox(u, start) && Tracked(wf, u, np[i].0, nd[i])
    {
      if i < k {
        assert np[i] == pool[i] && nd[i] == depth[i];
      } else {
        var j := i - k;
        assert np[i] == out[j] && nd[i] == d + 1;
        RoutedTracked(wf, start, pool, depth, pops, out, j, u);
      }
    }
    assert PoolTracked(wf, start, np, nd, pops + 1);
  }

  /** A part of a box the last pool box is routed to is tracked one step
      deeper, at that box's workflow. */
  lemma RoutedTracked(wf: Workflows, start: Box, pool: seq<(string, Box)>, depth: seq<nat>,
                      pops: nat, out: seq<(string, Box)>, j: nat, u: Part)
    requires Expandable(wf, pool, out) && PoolTracked(wf, start, pool, depth, pops)
    requires j < |out| && InBox(u, out[j].1)
    ensures InBox(u, start) && Tracked(wf, u, out[j].0, depth[|pool| - 1] + 1)
  {
    var k := |pool| - 1;
    var n := pool[k].0;
    RoutedBoxRoute(pool[k].1, wf[n], u, j);
    assert 0 <= k < |pool| && InBox(u, pool[k].1);
    assert InBox(u, start) && Tracked(wf, u, n, depth[k]);
    OutTracked(wf, u, n, depth[k], out[j].0);
  }

  /** A part of a box of the new pool lies in the box it replaced. */
  lemma ExpandInside(wf: Workflows, pool: seq<(string, Box)>, out: seq<(string, Box)>, i: nat, u: Part)
    requires Expandable(wf, pool, out)
    requires i < |pool| - 1 + |out| && InBox(u, (pool[..|pool| - 1] + out)[i].1)
    ensures i < |pool| - 1 ==> InBox(u, pool[i].1)
    ensures i >= |pool| - 1 ==> InBox(u, pool[|pool| - 1].1)
  {
    var k := |pool| - 1;
    if i < k {
      assert (pool[..k] + out)[i] == pool[i];
    } else {
      assert (pool[..k] + out)[i] == out[i - k];
      RoutedBoxRoute(pool[k].1, wf[pool[k].0], u, i - k);
    }
  }

  lemma ExpandDisjoint(wf: Workflows, start: Box, pool: seq<(string, Box)>, accepted: seq<Box>,
                       out: seq<(string, Box)>)
    requires Expandable(wf, pool, out) && PoolDisjoint(pool) && Apart(pool, accepted)
    ensures var k := |pool| - 1;
      PoolDisjoint(pool[..k] + out) && Apart(pool[..k] + out, accepted)
  {
    ExpandPoolDisjoint(wf, pool, out);
    ExpandApart(wf, pool, accepted, out);
  }

  lemma ExpandPoolDisjoint(wf: Workflows, pool: seq<(string, Box)>, out: seq<(string, Box)>)
    requires Expandable(wf, pool, out) && PoolDisjoint(pool)
    ensures PoolDisjoint(pool[..|pool| - 1] + out)
  {
    var k := |pool| - 1;
    var np := pool[..k] + out;
    forall i, j, u | 0 <= i < |np| && 0 <= j < |np| && InBox(u, np[i].1) && InBox(u, np[j].1)
      ensures i == j
    {
      ExpandInside(wf, pool, out, i, u);
      ExpandInside(wf, pool, out, j, u);
      if i >= k && j >= k {
        assert np[i] == out[i - k] && np[j] == out[j - k];
        RoutedDisjoint(pool[k].1, wf[pool[k].0], u, i - k, j - k);
      }
    }
  }

  lemma ExpandApart(wf: Workflows, pool: seq<(string, Box)>, accepted: seq<Box>, out: seq<(string, Box)>)
    requires Expandable(wf, pool, out) && Apart(pool, accepted)
    ensures Apart(pool[..|pool| - 1] + out, accepted)
  {
    var np := pool[..|pool| - 1] + out;
    forall i, j, u | 0 <= i < |np| && 0 <= j < |accepted| && InBox(u, np[i].1)
      ensures !InBox(u, accepted[j])
    {
      ExpandInside(wf, pool, out, i, u);
    }
  }

  lemma ExpandComplete(wf: Workflows, start: Box, pool: seq<(string, Box)>, depth: seq<nat>,
                       accepted: seq<Box>, pops: nat, fuel: nat, out: seq<(string, Box)>)
    requires Expandable(wf, pool, out) && pops < fuel
    requires PoolTracked(wf, start, pool, depth, pops) && Complete(wf, start, pool, accepted, fuel)
    ensures Complete(wf, start, pool[..|pool| - 1] + out, accepted, fuel)
  {
    forall u | Wanted(wf, start, u, fuel)
      ensures InSome(accepted, u) || InPool(pool[..|pool| - 1] + out, u)
    {
      DropComplete(wf, start, pool, accepted, fuel, u);
      if !InSome(accepted, u) {
        ExpandKeeps(wf, start, pool, depth, pops, fuel, out, u);
      }
    }
  }

  /** A wanted part still in the pool stays in it when the last box is
      expanded. */
  lemma ExpandKeeps(wf: Workflows, start: Box, pool: seq<(string, Box)>, depth: seq<nat>,
                    pops: nat, fuel: nat, out: seq<(string, Box)>, u: Part)
    requires Expandable(wf, pool, out) && pops < fuel && PoolTracked(wf, start, pool, depth, pops)
    requires Wanted(wf, start, u, fuel) && (InPool(pool[..|pool| - 1], u) || InBox(u, pool[|pool| - 1].1))
    ensures InPool(pool[..|pool| - 1] + out, u)
  {
    var k := |pool| - 1;
    var np := pool[..k] + out;
    if InPool(pool[..k], u) {
      var i :| 0 <= i < k && InBox(u, pool[..k][i].1);
      assert np[i] == pool[..k][i];
    } else {
      LastWanted(wf, start, pool, depth, pops, fuel, u);
      ExpandLast(wf, pool, out, u, fuel);
    }
  }

  /** A wanted part of the expanded box is in one of the boxes it sends on. */
  lemma ExpandLast(wf: Workflows, pool: seq<(string, Box)>, out: seq<(string, Box)>, u: Part, fuel: nat)
    requires Expandable(wf, pool, out) && InBox(u, pool[|pool| - 1].1)
    requires Eval(wf, u, pool[|pool| - 1].0, fuel) == Some(true)
    ensures InPool(pool[..|pool| - 1] + out, u)
  {
    var k := |pool| - 1;
    ExpandRoutes(wf, pool[k].0, pool[k].1, u, fuel, out);
    var j :| 0 <= j < |out| && InBox(u, out[j].1);
    assert (pool[..k] + out)[k + j] == out[j];
  }

  /** A part that its workflow leads on to acceptance lies in one of the
      boxes `apply_rules` sends on. */
  lemma ExpandRoutes(wf: Workflows, n: string, b: Box, u: Part, fuel: nat, out: seq<(string, Box)>)
    requires n != "A" && n != "R" && n in wf && KnownCategories(wf[n], b.Keys) && InBox(u, b)
    requires Eval(wf, u, n, fuel) == Some(true) && out == Routed(b, wf[n])
    ensures exists j :: 0 <= j < |out| && InBox(u, out[j].1)
  {
    match Route(wf[n], u)
    case None =>
      assert false;
    case Some(None) =>
      StuckNeverEnds(wf, u, n, fuel);
      assert false;
    case Some(Some(next)) =>
      RoutedCovers(b, wf[n], u, next);
  }

  /** A box at another workflow is routed through it by `apply_rules`, and
      the boxes it sends on join the pool one step further from "in". */
  lemma ExpandStep(wf: Workflows, start: Box, pool: seq<(string, Box)>, depth: seq<nat>,
                   accepted: seq<Box>, pops: nat, fuel: nat, out: seq<(string, Box)>)
    requires Expandable(wf, pool, out) && pops < fuel && |depth| == |pool|
    requires Good(wf, start, pool, depth, accepted, pops, fuel)
    ensures var k := |pool| - 1;
      Good(wf, start, pool[..k] + out, depth[..k] + Deeper(|out|, depth[k] + 1), accepted, pops + 1, fuel)
  {
    Opened(wf, start, pool, depth, accepted, pops, fuel);
    ExpandTracked(wf, start, pool, depth, pops, out);
    ExpandDisjoint(wf, start, pool, accepted, out);
    ExpandComplete(wf, start, pool, depth, accepted, pops, fuel, out);
  }

  /** The loop starts from the start box at "in", zero steps from "in". */
  lemma InitGood(wf: Workflows, start: Box, fuel: nat)
    ensures Good(wf, start, [("in", start)], [0], [], 0, fuel)
  {
    var pool := [("in", start)];
    forall i, u | 0 <= i < 1 && InBox(u, pool[i].1)
      ensures InBox(u, start) && Tracked(wf, u, pool[i].0, 0)
    {
      forall f: nat ensures Eval(wf, u, "in", f + 0) == Eval(wf, u, "in", f) {
        assert f + 0 == f;
      }
    }
    forall u | Wanted(wf, start, u, fuel) ensures InPool(pool, u) {
      assert InBox(u, pool[0].1);
    }
  }

  lemma KeyedExpand(pool: seq<(string, Box)>, out: seq<(string, Box)>, ranges: Box, rules: seq<Rule>)
    requires |pool| > 0 && PoolKeyed(pool) && ranges == pool[|pool| - 1].1 && out == Routed(ranges, rules)
    ensures PoolKeyed(pool[..|pool| - 1] + out)
  {
    var k := |pool| - 1;
    RoutedKeys(ranges, rules);
    forall i | 0 <= i < k + |out| ensures (pool[..k] + out)[i].1.Keys == CATEGORIES {
      if i < k {
        assert (pool[..k] + out)[i] == pool[i];
      } else {
        assert (pool[..k] + out)[i] == out[i - k];
      }
    }
  }

  /** The answer of the `solve2` loop run on `pool` with at most `fuel` more
      boxes taken: the last box is popped first; a box at "A" adds its
      volume, one at "R" is dropped, one at another workflow is replaced by
      the boxes `apply_rules` sends on. `None` when the fuel runs out or a
      workflow is unknown. */
  function Total(wf: Workflows, pool: seq<(string, Box)>, fuel: nat): Option<int>
    requires PoolKeyed(pool)
    decreases fuel
  {
    if pool == [] then Some(0)
    else if fuel == 0 then None
    else
      var k := |pool| - 1;
      var name := pool[k].0;
      if name == "A" then Plus(Volume(pool[k].1), Total(wf, pool[..k], fuel - 1))
      else if name == "R" then Total(wf, pool[..k], fuel - 1)
      else if name !in wf then None
      else
        KeyedExpand(pool, Routed(pool[k].1, wf[name]), pool[k].1, wf[name]);
        Total(wf, pool[..k] + Routed(pool[k].1, wf[name]), fuel - 1)
  }

  /** `Total` for a box at "A", with `pops` of `fuel` boxes taken: its
      volume is added to the rest. */
  lemma TotalAccept(wf: Workflows, pool: seq<(string, Box)>, fuel: nat, pops: nat, res: int)
    requires PoolKeyed(pool) && |pool| > 0 && pool[|pool| - 1].0 == "A" && pops < fuel
    ensures PoolKeyed(pool[..|pool| - 1])
    ensures Plus(res, Total(wf, pool, fuel - pops)) ==
      Plus(res + Volume(pool[|pool| - 1].1), Total(wf, pool[..|pool| - 1], fuel - (pops + 1)))
  {
  }

  /** `Total` for a box at "R": it is dropped. */
  lemma TotalReject(wf: Workflows, pool: seq<(string, Box)>, fuel: nat, pops: nat)
    requires PoolKeyed(pool) && |pool| > 0 && pool[|pool| - 1].0 == "R" && pops < fuel
    ensures PoolKeyed(pool[..|pool| - 1])
    ensures Total(wf, pool, fuel - pops) == Total(wf, pool[..|pool| - 1], fuel - (pops + 1))
  {
  }

  /** `Total` for a box at another workflow: it is routed. */
  lemma TotalRoute(wf: Workflows, pool: seq<(string, Box)>, fuel: nat, pops: nat)
    requires PoolKeyed(pool) && |pool| > 0 && pops < fuel
    requires pool[|pool| - 1].0 != "A" && pool[|pool| - 1].0 != "R" && pool[|pool| - 1].0 in wf
    ensures PoolKeyed(pool[..|pool| - 1] + Routed(pool[|pool| - 1].1, wf[pool[|pool| - 1].0]))
    ensures Total(wf, pool, fuel - pops) ==
      Total(wf, pool[..|pool| - 1] + Routed(pool[|pool| - 1].1, wf[pool[|pool| - 1].0]), fuel - (pops + 1))
  {
    var k := |pool| - 1;
    KeyedExpand(pool, Routed(pool[k].1, wf[pool[k].0]), pool[k].1, wf[pool[k].0]);
  }

  /** `Total` panics: out of fuel, or an unknown workflow. */
  lemma TotalStuck(wf: Workflows, pool: seq<(string, Box)>, f: nat)
    requires PoolKeyed(pool) && |pool| > 0
    requires f == 0 || (pool[|pool| - 1].0 != "A" && pool[|pool| - 1].0 != "R" && pool[|pool| - 1].0 !in wf)
    ensures Total(wf, pool, f) == None
  {
  }

  /** Every workflow's rules can be split without wrapping. */
  predicate WorkflowsNoWrap(wf: Workflows)
  {
    forall n :: n in wf ==> RulesNoWrap(wf[n])
  }

  /** The boxes `apply_rules` as written sends on keep the categories. */
  lemma {:induction false} RoutedAsWrittenKeys(ranges: Box, rules: seq<Rule>)
    requires RulesNoWrap(rules)
    ensures forall i :: 0 <= i < |RoutedAsWritten(ranges, rules)| ==>
      RoutedAsWritten(ranges, rules)[i].1.Keys == ranges.Keys
    decreases |rules|
  {
    if |rules| > 0 {
      var p := SplitRangesAsWritten(rules[0], ranges);
      assert forall j :: 0 <= j < |rules[1..]| ==> rules[1..][j] == rules[j + 1];
      if p.1.Some? {
        RoutedAsWrittenKeys(p.1.value, rules[1..]);
      }
    }
  }

  lemma KeyedExpandAsWritten(pool: seq<(string, Box)>, ranges: Box, rules: seq<Rule>)
    requires |pool| > 0 && PoolKeyed(pool) && ranges == pool[|pool| - 1].1 && RulesNoWrap(rules)
    ensures PoolKeyed(pool[..|pool| - 1] + RoutedAsWritten(ranges, rules))
  {
    var k := |pool| - 1;
    var out := RoutedAsWritten(ranges, rules);
    RoutedAsWrittenKeys(ranges, rules);
    forall i | 0 <= i < k + |out| ensures (pool[..k] + out)[i].1.Keys == CATEGORIES {
      if i < k {
        assert (pool[..k] + out)[i] == pool[i];
      } else {
        assert (pool[..k] + out)[i] == out[i - k];
      }
    }
  }

  /** `solve2` as written: `Total` with the unclipped split. */
  function TotalAsWritten(wf: Workflows, pool: seq<(string, Box)>, fuel: nat): Option<int>
    requires PoolKeyed(pool) && WorkflowsNoWrap(wf)
    decreases fuel
  {
    if pool == [] then Some(0)
    else if fuel == 0 then None
    else
      var k := |pool| - 1;
      var name := pool[k].0;
      if name == "A" then Plus(Volume(pool[k].1), TotalAsWritten(wf, pool[..k], fuel - 1))
      else if name == "R" then TotalAsWritten(wf, pool[..k], fuel - 1)
      else if name !in wf then None
      else
        KeyedExpandAsWritten(pool, pool[k].1, wf[name]);
        TotalAsWritten(wf, pool[..k] + RoutedAsWritten(pool[k].1, wf[name]), fuel - 1)
  }

  /** The rules of a workflow that shows the unclipped split at work:
      after `x>10:R` the box holds `x` in `1..=10`, and `x>20:R` passes
      nothing but, as written, hands on the tail `x` in `1..=20`, so the
      fallback accepts twice the parts it should. */
  function OverRules(): seq<Rule>
  {
    [Rule('x', '>', 10, "R"), Rule('x', '>', 20, "R"), Rule('x', '\0', 0, "A")]
  }

  lemma OverRoutedClipped(rules: seq<Rule>, start: Box)
    requires rules == OverRules() && start == StartBox(1, 20)
    ensures Routed(start, rules) == [("R", start['x' := Range(11, 20)]), ("A", start['x' := Range(1, 10)])]
  {
    var low := start['x' := Range(1, 10)];
    var high := start['x' := Range(11, 20)];
    assert SplitRanges(rules[0], start) == (Some(high), Some(low));
    assert low['x' := Range(1, 10)] == low;
    assert SplitRanges(rules[1], low) == (None, Some(low));
    assert SplitRanges(rules[2], low) == (Some(low), None);
  }

  lemma OverRoutedAsWritten(rules: seq<Rule>, start: Box)
    requires rules == OverRules() && start == StartBox(1, 20)
    ensures RulesNoWrap(rules)
    ensures RoutedAsWritten(start, rules) == [("R", start['x' := Range(11, 20)]), ("A", start)]
  {
    var low := start['x' := Range(1, 10)];
    var high := start['x' := Range(11, 20)];
    assert SplitRangesAsWritten(rules[0], start) == (Some(high), Some(low));
    assert low['x' := Range(1, 20)] == start;
    assert SplitRangesAsWritten(rules[1], low) == (None, Some(start));
    assert SplitRangesAsWritten(rules[2], start) == (Some(start), None);
  }

  /** `solve2` on the workflow "in" of `OverRules` and ratings `1..=20`:
      as written it counts all 20^4 parts, though the parts with `x > 10`
      are rejected by the first rule; the clipped split counts the 10 * 20^3
      parts with `x <= 10`. */
  lemma Solve2AsWrittenOverCounts(wf: Workflows, start: Box)
    requires wf == map["in" := OverRules()] && start == StartBox(1, 20)
    ensures WorkflowsNoWrap(wf)
    ensures TotalAsWritten(wf, [("in", start)], 3) == Some(160000)
    ensures Total(wf, [("in", start)], 3) == Some(80000)
  {
    var low := start['x' := Range(1, 10)];
    var high := start['x' := Range(11, 20)];
    OverRoutedClipped(wf["in"], start);
    OverRoutedAsWritten(wf["in"], start);
    var clipped := [("R", high), ("A", low)];
    var written := [("R", high), ("A", start)];
    assert [("in", start)][..0] + clipped == clipped;
    assert [("in", start)][..0] + written == written;
    assert clipped[..1] == [("R", high)] && written[..1] == [("R", high)];
    assert [("R", high)][..0] == [];
    assert Volume(low) == 80000;
    assert Volume(start) == 160000;
  }

  /** What the `solve2` loop keeps true. */
  ghost predicate Solve2Inv(wf: Workflows, start: Box, pool: seq<(string, Box)>, depth: seq<nat>,
                            accepted: seq<Box>, res: int, pops: nat, fuel: nat)
  {
    pops <= fuel && |depth| == |pool| && PoolKeyed(pool) && AllKeyed(accepted) &&
    res == VolumeSum(accepted) &&
    (KnownWorkflows(wf) ==> Good(wf, start, pool, depth, accepted, pops, fuel))
  }

  /** The arm of the `solve2` loop for a box at "A": add its volume. */
  method CountAccepted(ghost wf: Workflows, ghost start: Box, pool: seq<(string, Box)>, res: int,
                       ghost depth: seq<nat>, ghost accepted: seq<Box>, pops: nat, ghost fuel: nat)
    returns (pool': seq<(string, Box)>, res': int, ghost depth': seq<nat>, ghost accepted': seq<Box>)
    requires |pool| > 0 && pool[|pool| - 1].0 == "A" && pops < fuel
    requires Solve2Inv(wf, start, pool, depth, accepted, res, pops, fuel)
    ensures pool' == pool[..|pool| - 1] && res' == res + Volume(pool[|pool| - 1].1)
    ensures Solve2Inv(wf, start, pool', depth', accepted', res', pops + 1, fuel)
  {
    var k := |pool| - 1;
    var pr := pool[k].1;
    if KnownWorkflows(wf) {
      AcceptStep(wf, start, pool, depth, accepted, pops, fuel);
    }
    assert (accepted + [pr])[..|accepted|] == accepted;
    res' := res + Volume(pr);
    accepted' := accepted + [pr];
    pool' := pool[..k];
    depth' := depth[..k];
  }

  /** The arm of the `solve2` loop for a box at "R": drop it. */
  method DropRejected(ghost wf: Workflows, ghost start: Box, pool: seq<(string, Box)>, res: int,
                      ghost depth: seq<nat>, ghost accepted: seq<Box>, pops: nat, ghost fuel: nat)
    returns (pool': seq<(string, Box)>, ghost depth': seq<nat>)
    requires |pool| > 0 && pool[|pool| - 1].0 == "R" && pops < fuel
    requires Solve2Inv(wf, start, pool, depth, accepted, res, pops, fuel)
    ensures pool' == pool[..|pool| - 1]
    ensures Solve2Inv(wf, start, pool', depth', accepted, res, pops + 1, fuel)
  {
    var k := |pool| - 1;
    if KnownWorkflows(wf) {
      RejectStep(wf, start, pool, depth, accepted, pops, fuel);
    }
    pool' := pool[..k];
    depth' := depth[..k];
  }

  /** The arm of the `solve2` loop for a box at another workflow: replace
      it by the boxes `apply_rules` sends on. */
  method RouteBox(wf: Workflows, ghost start: Box, pool: seq<(string, Box)>, res: int,
                  ghost depth: seq<nat>, ghost accepted: seq<Box>, pops: nat, ghost fuel: nat)
    returns (pool': seq<(string, Box)>, ghost depth': seq<nat>)
    requires |pool| > 0 && pool[|pool| - 1].0 != "A" && pool[|pool| - 1].0 != "R"
    requires pool[|pool| - 1].0 in wf && pops < fuel
    requires Solve2Inv(wf, start, pool, depth, accepted, res, pops, fuel)
    ensures pool' == pool[..|pool| - 1] + Routed(pool[|pool| - 1].1, wf[pool[|pool| - 1].0])
    ensures Solve2Inv(wf, start, pool', depth', accepted, res, pops + 1, fuel)
  {
    var k := |pool| - 1;
    var name := pool[k].0;
    var pr := pool[k].1;
    var out := ApplyRules(pr, wf[name]);
    KeyedExpand(pool, out, pr, wf[name]);
    if KnownWorkflows(wf) {
      ExpandStep(wf, start, pool, depth, accepted, pops, fuel, out);
    }
    pool' := pool[..k] + out;
    depth' := depth[..k] + Deeper(|out|, depth[k] + 1);
  }

  /** `solve2` with the clipped split (the corrected form;
      `TotalAsWritten` is the code as written), with at most `fuel` boxes
      taken from the pool. It is `Total` of the start pool, and returns
      the total volume of the boxes that reach "A" (ghost `accepted`).
      When every rule tests one of the four categories, those boxes do not
      overlap, hold only parts of the start box that the workflows accept
      on their own, and, when the pool empties within the fuel, hold every
      such part. A box at an unknown workflow panics, here `None`. */
  method Solve2(wf: Workflows, min: int, max: int, fuel: nat) returns (r: Option<int>, ghost accepted: seq<Box>)
    ensures AllKeyed(accepted)
    ensures r.Some? ==> r.value == VolumeSum(accepted)
    ensures KnownWorkflows(wf) ==> Disjoint(accepted)
    ensures KnownWorkflows(wf) ==> AccSound(wf, StartBox(min, max), accepted, fuel)
    ensures KnownWorkflows(wf) && r.Some? ==>
      forall u :: Wanted(wf, StartBox(min, max), u, fuel) ==> InSome(accepted, u)
    ensures r == Total(wf, [("in", StartBox(min, max))], fuel)
  {
    var start := StartBox(min, max);
    var pool: seq<(string, Box)> := [("in", start)];
    ghost var depth: seq<nat> := [0];
    var pops: nat := 0;
    accepted := [];
    var res := 0;
    InitGood(wf, start, fuel);
    while pool != []
      invariant Solve2Inv(wf, start, pool, depth, accepted, res, pops, fuel)
      invariant Plus(res, Total(wf, pool, fuel - pops)) == Total(wf, [("in", start)], fuel)
      decreases fuel - pops
    {
      if pops == fuel {
        if KnownWorkflows(wf) { GoodEnd(wf, start, pool, depth, accepted, pops, fuel); }
        TotalStuck(wf, pool, fuel - pops);
        r := None;
        return;
      }
      var name := pool[|pool| - 1].0;
      if name == "A" {
        TotalAccept(wf, pool, fuel, pops, res);
        pool, res, depth, accepted := CountAccepted(wf, start, pool, res, depth, accepted, pops, fuel);
      } else if name == "R" {
        TotalReject(wf, pool, fuel, pops);
        pool, depth := DropRejected(wf, start, pool, res, depth, accepted, pops, fuel);
      } else {
        if name !in wf {
          if KnownWorkflows(wf) { GoodEnd(wf, start, pool, depth, accepted, pops, fuel); }
          TotalStuck(wf, pool, fuel - pops);
          r := None;
          return;
        }
        TotalRoute(wf, pool, fuel, pops);
        pool, depth := RouteBox(wf, start, pool, res, depth, accepted, pops, fuel);
      }
      pops := pops + 1;
    }
    if KnownWorkflows(wf) { GoodEnd(wf, start, pool, depth, accepted, pops, fuel); }
    r := Some(res);
  }
}
