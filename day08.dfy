/** Haunted Wasteland (src/day08.rs). The input is an instruction string of
    'L'/'R' and a network of nodes "AAA = (BBB, CCC)"; following the
    instructions cyclically from a start node, `count` reports how many
    steps it takes to reach an end node. Part 2 combines the counts of all
    start nodes with `lcm`. */
module Day08 {
  import opened RustStd

  /** A node with its left and right successors. */
  datatype Node = Node(name: string, l: string, r: string)

  /** `Node::new`: "N = (L, R)". A missing " = ", a missing parenthesis or a
      missing ", " panics. */
  function NodeOf(s: string): (r: Option<Node>)
    ensures r.Some? ==> |Split(s, " = ")| >= 2
  {
    var parts := Split(s, " = ");
    if |parts| < 2 then None
    else
      match StripPrefix(parts[1], '(')
      case None => None
      case Some(inner) =>
        match StripSuffix(inner, ')')
        case None => None
        case Some(pair) =>
          var choices := Split(pair, ", ");
          if |choices| < 2 then None else Some(Node(parts[0], choices[0], choices[1]))
  }

  /** A well-formed line parses back into its three names. */
  lemma NodeRoundTrip(name: string, l: string, r: string)
    requires ' ' !in name && '=' !in l && '=' !in r && ',' !in l && ',' !in r
    ensures NodeOf(name + " = (" + l + ", " + r + ")") == Some(Node(name, l, r))
  {
    var pair := l + ", " + r;
    var rest := "(" + pair + ")";
    assert name + " = (" + l + ", " + r + ")" == name + " = " + rest;
    PairHasNoEquals(l, r, pair, rest);
    SplitCons(name, " = ", rest);
    NoSepCharAt(rest, " = ", 1);
    Parenthesised(pair, rest);
    PairSplit(l, r, pair);
  }

  lemma PairHasNoEquals(l: string, r: string, pair: string, rest: string)
    requires '=' !in l && '=' !in r && pair == l + ", " + r && rest == "(" + pair + ")"
    ensures '=' !in rest
  {
    forall i | 0 <= i < |rest| ensures rest[i] != '=' {
      if 1 <= i < 1 + |l| { assert rest[i] == l[i - 1]; }
      else if 3 + |l| <= i < 3 + |l| + |r| { assert rest[i] == r[i - 3 - |l|]; }
    }
  }

  lemma Parenthesised(pair: string, rest: string)
    requires rest == "(" + pair + ")"
    ensures StripPrefix(rest, '(') == Some(pair + ")")
    ensures StripSuffix(pair + ")", ')') == Some(pair)
  {
    assert rest[1..] == pair + ")";
    assert (pair + ")")[..|pair|] == pair;
  }

  lemma PairSplit(l: string, r: string, pair: string)
    requires ',' !in l && ',' !in r && pair == l + ", " + r
    ensures Split(pair, ", ") == [l, r]
  {
    SplitCons(l, ", ", r);
    NoSepCharAt(r, ", ", 0);
  }

  /** The node map of `parse_input`: every line after the first is a node,
      keyed by its name; a later line with the same name replaces an earlier
      one, as `collect` into a `HashMap` does. */
  function NodesOf(lines: seq<string>): (r: Option<map<string, Node>>)
    ensures r.Some? <==> forall i :: 0 <= i < |lines| ==> NodeOf(lines[i]).Some?
    ensures r.Some? ==> forall i :: 0 <= i < |lines| ==> NodeOf(lines[i]).value.name in r.value
  {
    match CollectAll(lines, NodeOf)
    case None => None
    case Some(ns) => Some(NodeMap(ns))
  }

  /** The nodes keyed by name, later ones replacing earlier ones. */
  function NodeMap(ns: seq<Node>): (m: map<string, Node>)
    ensures forall k :: k in m ==> m[k].name == k
    ensures forall i :: 0 <= i < |ns| ==> ns[i].name in m
    ensures forall k :: k in m ==> m[k] in ns
    decreases |ns|
  {
    if |ns| == 0 then map[]
    else
      var last := ns[|ns| - 1];
      var m := NodeMap(ns[..|ns| - 1]);
      assert forall i :: 0 <= i < |ns| - 1 ==> ns[i] == ns[..|ns| - 1][i];
      m[last.name := last]
  }

  /** `parse_input`: the first line is the instruction string (an empty input
      panics on the index), the rest are nodes. */
  function ParseInput(lines: seq<string>): (r: Option<(string, map<string, Node>)>)
    ensures r.Some? ==> |lines| >= 1 && r.value.0 == lines[0]
    ensures r.Some? <==> |lines| >= 1 && NodesOf(lines[1..]).Some?
  {
    if |lines| == 0 then None
    else
      match NodesOf(lines[1..])
      case None => None
      case Some(m) => Some((lines[0], m))
  }

  // ---------------------------------------------------------------------
  // Walking the network

  /** One step: 'L' goes left, every other instruction goes right. */
  function Next(node: Node, s: char): string
  {
    if s == 'L' then node.l else node.r
  }

  /** The node reached after `k` steps from `start`, step `j` using
      instruction `path[j mod |path|]`; `None` once a node is missing from
      the map (the source panics on that `unwrap`). */
  function Walk(path: string, nodes: map<string, Node>, start: string, k: nat): Option<string>
    requires |path| > 0
  {
    if k == 0 then Some(start)
    else
      match Walk(path, nodes, start, k - 1)
      case None => None
      case Some(c) => if c in nodes then Some(Next(nodes[c], path[(k - 1) % |path|])) else None
  }

  /** None of the first `k - 1` steps (after the start) reached an end node
      or a missing node. */
  predicate NoEndBefore(path: string, nodes: map<string, Node>, start: string, isEnd: string -> bool, k: nat)
    requires |path| > 0
  {
    forall j :: 1 <= j < k ==> Walk(path, nodes, start, j).Some? && !isEnd(Walk(path, nodes, start, j).value)
  }

  /** `n` is the step count `count` reports: the first step that lands on an
      end node. */
  predicate IsCount(path: string, nodes: map<string, Node>, start: string, isEnd: string -> bool, n: nat)
    requires |path| > 0
  {
    n >= 1 && Walk(path, nodes, start, n).Some? && isEnd(Walk(path, nodes, start, n).value)
    && NoEndBefore(path, nodes, start, isEnd, n)
  }

  /** Step `k` needs a node the map does not hold, before any end was met. */
  predicate PanicsAt(path: string, nodes: map<string, Node>, start: string, isEnd: string -> bool, k: nat)
    requires |path| > 0
  {
    k >= 1 && Walk(path, nodes, start, k).None? && NoEndBefore(path, nodes, start, isEnd, k)
  }

  /** The loop of `count` stops at step `k`, by an end node or a panic. */
  predicate Stops(path: string, nodes: map<string, Node>, start: string, isEnd: string -> bool, k: nat)
    requires |path| > 0
  {
    k >= 1 && (Walk(path, nodes, start, k).None? || isEnd(Walk(path, nodes, start, k).value))
  }

  /** The count is determined: at most one step is the first end, and a walk
      that reaches an end never panics first. */
  lemma CountUnique(path: string, nodes: map<string, Node>, start: string, isEnd: string -> bool, n: nat, m: nat)
    requires |path| > 0
    requires IsCount(path, nodes, start, isEnd, n)
    ensures IsCount(path, nodes, start, isEnd, m) ==> n == m
    ensures !PanicsAt(path, nodes, start, isEnd, m)
  {
    if 1 <= m < n {
      assert Walk(path, nodes, start, m).Some? && !isEnd(Walk(path, nodes, start, m).value);
    } else if m > n {
      assert Walk(path, nodes, start, n).Some? && isEnd(Walk(path, nodes, start, n).value);
    }
  }

  /** `count`: walks the instructions cyclically, counting steps, and stops
      after the first step that lands on an end node; the start node itself
      is never compared with the end. An empty instruction string ends the loop at once
      with 0. The loop runs for ever when no end is reachable, so the
      caller must know that it stops. */
  method CountSteps(path: string, nodes: map<string, Node>, start: string, isEnd: string -> bool) returns (r: Option<nat>)
    requires |path| == 0 || exists k: nat :: Stops(path, nodes, start, isEnd, k)
    ensures |path| == 0 ==> r == Some(0)
    ensures |path| > 0 && r.Some? ==> IsCount(path, nodes, start, isEnd, r.value)
    ensures |path| > 0 && r.None? ==> exists k :: PanicsAt(path, nodes, start, isEnd, k)
  {
    if |path| == 0 {
      return Some(0);
    }
    ghost var K: nat :| Stops(path, nodes, start, isEnd, K);
    var cur := start;
    var n: nat := 0;
    var i := 0;
    while true
      invariant 0 <= i < |path| && i == n % |path|
      invariant Walk(path, nodes, start, n) == Some(cur)
      invariant NoEndBefore(path, nodes, start, isEnd, n + 1)
      invariant n < K
      decreases K - n
    {
      if cur !in nodes {
        assert PanicsAt(path, nodes, start, isEnd, n + 1);
        return None;
      }
      WalkStep(path, nodes, start, n, cur, i);
      var node := nodes[cur];
      cur := Next(node, path[i]);
      ModNext(n, i, |path|);
      n := n + 1;
      i := if i + 1 == |path| then 0 else i + 1;
      if isEnd(cur) {
        return Some(n);
      }
      NoEndExtend(path, nodes, start, isEnd, n);
    }
  }

  lemma WalkStep(path: string, nodes: map<string, Node>, start: string, n: nat, cur: string, i: nat)
    requires |path| > 0 && Walk(path, nodes, start, n) == Some(cur) && cur in nodes && i == n % |path|
    ensures Walk(path, nodes, start, n + 1) == Some(Next(nodes[cur], path[i]))
  {
  }

  lemma ModNext(n: nat, i: nat, len: nat)
    requires i < len && i == n % len
    ensures (if i + 1 == len then 0 else i + 1) == (n + 1) % len
  {
    var q := n / len;
    if i + 1 == len {
      DivModUnique(n + 1, len, q + 1, 0);
    } else {
      DivModUnique(n + 1, len, q, i + 1);
    }
  }

  lemma NoEndExtend(path: string, nodes: map<string, Node>, start: string, isEnd: string -> bool, n: nat)
    requires |path| > 0 && NoEndBefore(path, nodes, start, isEnd, n)
    requires Walk(path, nodes, start, n).Some? && !isEnd(Walk(path, nodes, start, n).value)
    ensures NoEndBefore(path, nodes, start, isEnd, n + 1)
  {
  }

  function IsZZZ(n: string): bool
  {
    n == "ZZZ"
  }

  function EndsWithZ(n: string): bool
  {
    EndsWith(n, "Z")
  }

  /** `solve1`: the steps from "AAA" to "ZZZ"; an empty path takes none. */
  method Solve1(path: string, nodes: map<string, Node>) returns (r: Option<nat>)
    requires |path| == 0 || exists k: nat :: Stops(path, nodes, "AAA", IsZZZ, k)
    ensures |path| == 0 ==> r == Some(0)
    ensures |path| > 0 && r.Some? ==> IsCount(path, nodes, "AAA", IsZZZ, r.value) && Walk(path, nodes, "AAA", r.value) == Some("ZZZ")
    ensures |path| > 0 && r.None? ==> exists k :: PanicsAt(path, nodes, "AAA", IsZZZ, k)
  {
    r := CountSteps(path, nodes, "AAA", IsZZZ);
  }

  // ---------------------------------------------------------------------
  // gcd and lcm

  predicate Divides(d: nat, n: nat)
  {
    d > 0 && n % d == 0
  }

  lemma DividesIntro(d: nat, n: nat, k: nat)
    requires d > 0 && n == d * k
    ensures Divides(d, n)
  {
    DivModUnique(n, d, k, 0);
  }

  /** A common divisor of `b` and `r` divides `b * q + r`. */
  lemma DividesCombination(g: nat, b: nat, r: nat, q: nat, a: nat)
    requires Divides(g, b) && Divides(g, r) && a == b * q + r
    ensures Divides(g, a)
  {
    var m, n := b / g, r / g;
    assert b == g * m && r == g * n;
    assert a == g * (m * q + n) by {
      calc {
        a;
        b * q + r;
        (g * m) * q + g * n;
        g * (m * q + n);
      }
    }
    DividesIntro(g, a, m * q + n);
  }

  /** A common divisor of `a` and `b` divides `a - b * q` when that is not
      negative. */
  lemma DividesDifference(d: nat, a: nat, b: nat, q: nat, r: nat)
    requires Divides(d, a) && Divides(d, b) && r == a - b * q
    ensures Divides(d, r)
  {
    var x, y := a / d, b / d;
    assert a == d * x && b == d * y;
    assert r == d * (x - y * q) by {
      calc {
        r;
        a - b * q;
        d * x - (d * y) * q;
        d * (x - y * q);
      }
    }
    if x - y * q < 0 {
      MulAtLeast(d, x - y * q);
    }
    DividesIntro(d, r, x - y * q);
  }

  /** Euclid's algorithm on `a >= b > 0`, as the loop of `gcd` runs it. */
  function Euclid(a: nat, b: nat): (g: nat)
    requires b > 0
    ensures 1 <= g <= b
    decreases b
  {
    if a % b == 0 then b else Euclid(b, a % b)
  }

  lemma {:induction false} EuclidDivides(a: nat, b: nat)
    requires b > 0
    ensures Divides(Euclid(a, b), a) && Divides(Euclid(a, b), b)
    decreases b
  {
    if a % b == 0 {
      DividesIntro(b, b, 1);
      DividesIntro(b, a, a / b);
    } else {
      EuclidDivides(b, a % b);
      DividesCombination(Euclid(a, b), b, a % b, a / b, a);
    }
  }

  lemma {:induction false} EuclidGreatest(a: nat, b: nat, d: nat)
    requires b > 0 && Divides(d, a) && Divides(d, b)
    ensures Divides(d, Euclid(a, b))
    decreases b
  {
    if a % b != 0 {
      DividesDifference(d, a, b, a / b, a % b);
      EuclidGreatest(b, a % b, d);
    }
  }


  /** `gcd` as a value: Euclid on (max, min); a zero argument makes the first
      `%` divide by zero, which panics. */
  function GcdOf(x: nat, y: nat): (r: Option<nat>)
    ensures r.None? <==> x == 0 || y == 0
  {
    if MinNat(x, y) == 0 then None else Some(Euclid(MaxNat(x, y), MinNat(x, y)))
  }

  /** The max/min normalisation makes `gcd` symmetric, and gcd(x, x) = x. */
  lemma GcdSymmetric(x: nat, y: nat)
    ensures GcdOf(x, y) == GcdOf(y, x)
    ensures x > 0 ==> GcdOf(x, x) == Some(x)
  {
  }

  /** The result of `gcd` is the greatest common divisor: it divides both
      arguments and every common divisor divides it. */
  lemma GcdIsGreatestCommonDivisor(x: nat, y: nat, d: nat)
    requires GcdOf(x, y).Some?
    ensures Divides(GcdOf(x, y).value, x) && Divides(GcdOf(x, y).value, y)
    ensures Divides(d, x) && Divides(d, y) ==> Divides(d, GcdOf(x, y).value)
  {
    EuclidDivides(MaxNat(x, y), MinNat(x, y));
    if Divides(d, x) && Divides(d, y) {
      EuclidGreatest(MaxNat(x, y), MinNat(x, y), d);
    }
  }

  /** `gcd`: the loop reassigning `(n1, n2) = (n2, n1 % n2)`. */
  method Gcd(x: nat, y: nat) returns (r: Option<nat>)
    ensures r == GcdOf(x, y)
  {
    var n1: nat := if x >= y then x else y;
    var n2: nat := if x >= y then y else x;
    if n2 == 0 {
      return None;
    }
    while true
      invariant n2 > 0 && Euclid(n1, n2) == GcdOf(x, y).value
      decreases n2
    {
      var rem := n1 % n2;
      if rem == 0 {
        return Some(n2);
      }
      n1, n2 := n2, rem;
    }
  }

  /** `lcm(x, y) = x * y / gcd(x, y)`. */
  function Lcm(x: nat, y: nat): (r: Option<nat>)
    ensures r.None? <==> x == 0 || y == 0
  {
    match GcdOf(x, y)
    case None => None
    case Some(g) => Some(x * y / g)
  }

  lemma DividesElim(d: nat, n: nat)
    requires Divides(d, n)
    ensures n == d * (n / d)
  {
  }

  lemma LcmArith(x: nat, y: nat, g: nat, a: nat, b: nat, l: nat)
    requires g > 0 && x == g * a && y == g * b && l == x * y / g
    ensures x > 0 ==> Divides(x, l)
    ensures y > 0 ==> Divides(y, l)
  {
    MulAssoc(g, a, y);
    DivModUnique(x * y, g, a * y, 0);
    MulAssoc(a, g, b);
    assert a * y == x * b;
    if x > 0 { DividesIntro(x, l, b); }
    if y > 0 { DividesIntro(y, l, a); }
  }

  /** The result of `lcm` is a common multiple of both arguments. */
  lemma LcmIsCommonMultiple(x: nat, y: nat)
    requires Lcm(x, y).Some?
    ensures Divides(x, Lcm(x, y).value) && Divides(y, Lcm(x, y).value)
  {
    var g := GcdOf(x, y).value;
    GcdIsGreatestCommonDivisor(x, y, g);
    DividesElim(g, x);
    DividesElim(g, y);
    LcmArith(x, y, g, x / g, y / g, Lcm(x, y).value);
  }

  lemma DividesTransitive(a: nat, b: nat, c: nat)
    requires Divides(a, b) && Divides(b, c)
    ensures Divides(a, c)
  {
    var p, q := b / a, c / b;
    assert b == a * p && c == b * q;
    assert c == a * (p * q) by {
      calc {
        c;
        (a * p) * q;
        a * (p * q);
      }
    }
    DividesIntro(a, c, p * q);
  }

  /** `reduce(lcm)` over the counts; no counts at all panics on `unwrap`. */
  function LcmAll(ns: seq<nat>): (r: Option<nat>)
    ensures |ns| == 0 ==> r.None?
    decreases |ns|
  {
    if |ns| == 0 then None
    else if |ns| == 1 then Some(ns[0])
    else
      match LcmAll(ns[..|ns| - 1])
      case None => None
      case Some(acc) => Lcm(acc, ns[|ns| - 1])
  }

  /** The reduced lcm is a multiple of every count. */
  lemma {:induction false} LcmAllMultiple(ns: seq<nat>)
    requires LcmAll(ns).Some? && |ns| >= 2
    ensures forall i :: 0 <= i < |ns| ==> Divides(ns[i], LcmAll(ns).value)
    decreases |ns|
  {
    var init := ns[..|ns| - 1];
    var acc := LcmAll(init).value;
    var l := LcmAll(ns).value;
    LcmIsCommonMultiple(acc, ns[|ns| - 1]);
    if |init| >= 2 {
      LcmAllMultiple(init);
    }
    forall i | 0 <= i < |ns| ensures Divides(ns[i], l) {
      if i < |ns| - 1 {
        assert ns[i] == init[i];
        if |init| >= 2 {
          DividesTransitive(ns[i], acc, l);
        }
      }
    }
  }

  /** The same for any number of counts, one included, when none is 0. */
  lemma LcmAllMultipleOfEach(ns: seq<nat>)
    requires LcmAll(ns).Some? && forall i :: 0 <= i < |ns| ==> ns[i] >= 1
    ensures forall i :: 0 <= i < |ns| ==> Divides(ns[i], LcmAll(ns).value)
  {
    if |ns| >= 2 {
      LcmAllMultiple(ns);
    } else {
      DividesIntro(ns[0], ns[0], 1);
    }
  }

  /** Scaling a division identity a == b*q + r by k. */
  lemma ScaleDivision(a: nat, b: nat, k: nat, q: int, r: int)
    requires a == b * q + r
    ensures k * a == (k * b) * q + k * r
  {
    calc {
      k * a;
      k * (b * q + r);
      k * (b * q) + k * r;
      (k * b) * q + k * r;
    }
  }

  /** Scaling keeps a remainder below its (scaled) divisor. */
  lemma ScaleBelow(b: nat, k: nat, r: nat)
    requires r < b && k > 0
    ensures 0 <= k * r < k * b
  {
    assert k * b - k * r == k * (b - r);
    MulAtLeast(k, b - r);
  }

  /** Scaling both operands scales the Euclidean quotient's remainder. */
  lemma ModScale(a: nat, b: nat, k: nat)
    requires b > 0 && k > 0
    ensures k * b > 0 && (k * a) % (k * b) == k * (a % b)
  {
    var q, r := a / b, a % b;
    MulAtLeast(k, b);
    ScaleDivision(a, b, k, q, r);
    ScaleBelow(b, k, r);
    DivModUnique(k * a, k * b, q, k * r);
  }

  /** Euclid's algorithm commutes with scaling: gcd(k*a, k*b) = k * gcd(a, b). */
  lemma {:induction false} EuclidScale(a: nat, b: nat, k: nat)
    requires b > 0 && k > 0
    ensures k * b > 0 && Euclid(k * a, k * b) == k * Euclid(a, b)
    decreases b
  {
    ModScale(a, b, k);
    if a % b != 0 {
      MulAtLeast(k, a % b);
      EuclidScale(b, a % b, k);
    }
  }

  lemma GcdScale(x: nat, y: nat, k: nat)
    requires x > 0 && y > 0 && k > 0
    ensures GcdOf(k * x, k * y) == Some(k * GcdOf(x, y).value)
  {
    assert k * x - k * y == k * (x - y);
    if x >= y {
      if x > y { MulAtLeast(k, x - y); }
      MulAtLeast(k, y);
      EuclidScale(x, y, k);
    } else {
      MulAtLeast(k, x - y);
      MulAtLeast(k, x);
      EuclidScale(y, x, k);
    }
  }

  lemma MulAssoc(a: int, b: int, c: int)
    ensures (a * b) * c == a * (b * c)
  {
  }

  /** For positive arguments `gcd(x, y) * lcm(x, y) == x * y`. */
  lemma LcmTimesGcd(x: nat, y: nat)
    requires x > 0 && y > 0
    ensures Lcm(x, y).Some? && Lcm(x, y).value >= 1
    ensures GcdOf(x, y).value * Lcm(x, y).value == x * y
  {
    var g := GcdOf(x, y).value;
    GcdIsGreatestCommonDivisor(x, y, g);
    var a := x / g;
    assert x == g * a;
    MulAssoc(g, a, y);
    DivModUnique(x * y, g, a * y, 0);
    MulAtLeast(y, a);
  }

  /** A common multiple `m` of `x` and `y` makes `x * y` divide both `m * x`
      and `m * y`. */
  lemma ScaledMultiples(x: nat, y: nat, m: nat)
    requires x > 0 && y > 0 && Divides(x, m) && Divides(y, m)
    ensures Divides(x * y, m * x) && Divides(x * y, m * y)
  {
    var p, q := m / x, m / y;
    assert m == x * p && m == y * q;
    MulAtLeast(x, y);
    assert m * x == (x * y) * q by {
      calc {
        m * x;
        (y * q) * x;
        (x * y) * q;
      }
    }
    assert m * y == (x * y) * p by {
      calc {
        m * y;
        (x * p) * y;
        (x * y) * p;
      }
    }
    DividesIntro(x * y, m * x, q);
    DividesIntro(x * y, m * y, p);
  }

  /** Cancelling the gcd: `g * l | m * g` gives `l | m`. */
  lemma CancelFactor(g: nat, l: nat, m: nat)
    requires g > 0 && l > 0 && Divides(g * l, m * g)
    ensures Divides(l, m)
  {
    var t := (m * g) / (g * l);
    assert m * g == (g * l) * t;
    assert g * (m - l * t) == 0 by {
      calc {
        g * (m - l * t);
        m * g - (g * l) * t;
        0;
      }
    }
    MulAtLeast(g, m - l * t);
    DividesIntro(l, m, t);
  }

  /** The result of `lcm` is the least common multiple: it divides every
      common multiple of two positive arguments. */
  lemma LcmLeast(x: nat, y: nat, m: nat)
    requires x > 0 && y > 0 && Divides(x, m) && Divides(y, m)
    ensures Lcm(x, y).Some? && Lcm(x, y).value >= 1 && Divides(Lcm(x, y).value, m)
  {
    LcmTimesGcd(x, y);
    var g, l := GcdOf(x, y).value, Lcm(x, y).value;
    if m > 0 {
      GcdCancels(x, y, m, g, l);
    } else {
      DividesIntro(l, m, 0);
    }
  }

  /** `x * y` divides `gcd(m * x, m * y) == m * g`, and `x * y == g * l`,
      so `l` divides `m`. */
  lemma GcdCancels(x: nat, y: nat, m: nat, g: nat, l: nat)
    requires x > 0 && y > 0 && m > 0 && Divides(x, m) && Divides(y, m)
    requires GcdOf(x, y) == Some(g) && l > 0 && g * l == x * y
    ensures Divides(l, m)
  {
    var p := x * y;
    ScaledMultiples(x, y, m);
    GcdScale(x, y, m);
    GcdIsGreatestCommonDivisor(m * x, m * y, p);
    assert Divides(p, m * g);
    CancelFactor(g, l, m);
  }

  /** `reduce(lcm)` over positive counts is positive and divides every common
      multiple of them: it is their least common multiple. */
  lemma {:induction false} LcmAllLeast(ns: seq<nat>, m: nat)
    requires |ns| >= 1 && forall i :: 0 <= i < |ns| ==> ns[i] >= 1
    requires forall i :: 0 <= i < |ns| ==> Divides(ns[i], m)
    ensures LcmAll(ns).Some? && LcmAll(ns).value >= 1 && Divides(LcmAll(ns).value, m)
    decreases |ns|
  {
    if |ns| >= 2 {
      var init := ns[..|ns| - 1];
      assert forall i :: 0 <= i < |init| ==> init[i] == ns[i];
      LcmAllLeast(init, m);
      LcmLeast(LcmAll(init).value, ns[|ns| - 1], m);
    }
  }

  /** `reduce(lcm)` over zero counts: a single zero is the result, and the
      first `lcm(0, 0)` panics, as `gcd(0, 0)` takes a remainder by zero. */
  lemma {:induction false} LcmAllZeros(ns: seq<nat>)
    requires |ns| >= 1 && forall i :: 0 <= i < |ns| ==> ns[i] == 0
    ensures LcmAll(ns) == if |ns| == 1 then Some(0) else None
    decreases |ns|
  {
    if |ns| >= 2 {
      var init := ns[..|ns| - 1];
      LcmAllZeros(init);
    }
  }

  /** The walk from `start` stops, at a node ending in 'Z' or by a panic. */
  ghost predicate ReachesZ(path: string, nodes: map<string, Node>, start: string)
    requires |path| > 0
  {
    exists k: nat :: Stops(path, nodes, start, EndsWithZ, k)
  }

  /** The counts of `solve2`, one per start node, in order; `None` when a
      walk panics. An empty path gives a zero count for every start. */
  method AllCounts(path: string, nodes: map<string, Node>, starts: seq<string>) returns (r: Option<seq<nat>>)
    requires |path| > 0 ==> forall i :: 0 <= i < |starts| ==> ReachesZ(path, nodes, starts[i])
    ensures r.Some? ==> |r.value| == |starts|
    ensures |path| == 0 ==> r.Some? && forall i :: 0 <= i < |starts| ==> r.value[i] == 0
    ensures |path| > 0 && r.Some? ==> forall i :: 0 <= i < |starts| ==> IsCount(path, nodes, starts[i], EndsWithZ, r.value[i])
    ensures |path| > 0 ==> (r.None? <==> exists i, k :: 0 <= i < |starts| && PanicsAt(path, nodes, starts[i], EndsWithZ, k))
  {
    var counts: seq<nat> := [];
    var i := 0;
    while i < |starts|
      invariant 0 <= i <= |starts| && |counts| == i
      invariant |path| == 0 ==> forall j :: 0 <= j < i ==> counts[j] == 0
      invariant |path| > 0 ==> forall j :: 0 <= j < i ==> IsCount(path, nodes, starts[j], EndsWithZ, counts[j])
    {
      var c := CountSteps(path, nodes, starts[i], EndsWithZ);
      if c.None? {
        return None;
      }
      counts := counts + [c.value];
      i := i + 1;
    }
    if |path| > 0 {
      forall j, k | 0 <= j < |starts| ensures !PanicsAt(path, nodes, starts[j], EndsWithZ, k) {
        CountUnique(path, nodes, starts[j], EndsWithZ, counts[j], k);
      }
    }
    return Some(counts);
  }

  /** `m` is a multiple of the count of every start node. */
  ghost predicate CommonMultiple(path: string, nodes: map<string, Node>, starts: seq<string>, m: nat)
    requires |path| > 0
  {
    forall i :: 0 <= i < |starts| ==> exists n :: IsCount(path, nodes, starts[i], EndsWithZ, n) && Divides(n, m)
  }

  /** `solve2`: the lcm of the counts from every node ending in 'A' to a node
      ending in 'Z'. The start nodes come in the map's iteration order,
      which the lcm does not depend on. An empty path gives every start a
      zero count: one start gives 0, and more panic in `gcd(0, 0)`. */
  method Solve2(path: string, nodes: map<string, Node>, starts: seq<string>) returns (r: Option<nat>)
    requires forall s :: s in starts <==> s in nodes && EndsWith(s, "A")
    requires |path| > 0 ==> forall i :: 0 <= i < |starts| ==> ReachesZ(path, nodes, starts[i])
    ensures |path| == 0 ==> r == (if |starts| == 1 then Some(0) else None)
    ensures |path| > 0 ==>
      (r.None? <==> |starts| == 0 || exists i, k :: 0 <= i < |starts| && PanicsAt(path, nodes, starts[i], EndsWithZ, k))
    ensures |path| > 0 && r.Some? ==> r.value >= 1 && CommonMultiple(path, nodes, starts, r.value)
    ensures |path| > 0 && r.Some? ==> forall m: nat :: CommonMultiple(path, nodes, starts, m) ==> Divides(r.value, m)
  {
    var counts := AllCounts(path, nodes, starts);
    if counts.None? {
      return None;
    }
    var ns := counts.value;
    if |ns| == 0 {
      return None;
    }
    if |path| == 0 {
      LcmAllZeros(ns);
      return LcmAll(ns);
    }
    // every count is at least 1, so the fold never meets a zero
    LcmAllLeast(ns, 0);
    r := LcmAll(ns);
    LcmAllMultipleOfEach(ns);
    forall i | 0 <= i < |starts| ensures exists n :: IsCount(path, nodes, starts[i], EndsWithZ, n) && Divides(n, r.value) {
      assert IsCount(path, nodes, starts[i], EndsWithZ, ns[i]) && Divides(ns[i], r.value);
    }
    forall m: nat | CommonMultiple(path, nodes, starts, m) ensures Divides(r.value, m) {
      forall i | 0 <= i < |ns| ensures Divides(ns[i], m) {
        var n :| IsCount(path, nodes, starts[i], EndsWithZ, n) && Divides(n, m);
        CountUnique(path, nodes, starts[i], EndsWithZ, ns[i], n);
      }
      LcmAllLeast(ns, m);
    }
  }
}
