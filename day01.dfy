/** Calibration values (src/day01.rs). Each pattern is a (text, value) pair;
    the first digit of a line is the value of the pattern found at the smallest
    index, the last digit the value of the pattern found (by `rfind`) at the
    largest index, and the calibration value is 10*first + last. */
module Day01 {
  import opened RustStd

  datatype Pattern = Pattern(text: string, value: int)

  /** The digit patterns "1".."9", "0" used for the first part. */
  const DigitPatterns: seq<Pattern> :=
    [Pattern("1", 1), Pattern("2", 2), Pattern("3", 3), Pattern("4", 4), Pattern("5", 5),
     Pattern("6", 6), Pattern("7", 7), Pattern("8", 8), Pattern("9", 9), Pattern("0", 0)]

  /** The spelled-out digits followed by the digit patterns, for the second part. */
  const WordPatterns: seq<Pattern> :=
    [Pattern("one", 1), Pattern("two", 2), Pattern("three", 3), Pattern("four", 4),
     Pattern("five", 5), Pattern("six", 6), Pattern("seven", 7), Pattern("eight", 8),
     Pattern("nine", 9)] + DigitPatterns

  /** The index `find` reports, or `usize::MAX` for an absent pattern. */
  function FirstKey(line: string, p: Pattern): int
  {
    match Find(line, p.text)
    case Some(i) => i
    case None => USIZE_MAX
  }

  /** The index `rfind` reports, or -1 for an absent pattern. */
  function LastKey(line: string, p: Pattern): int
  {
    match RFind(line, p.text)
    case Some(i) => i
    case None => -1
  }

  /** The `reduce` keeping the (index, value) pair with the smaller index;
      a later pattern replaces the kept one only when strictly smaller. */
  function ReduceFirst(line: string, ps: seq<Pattern>): (int, int)
    requires |ps| > 0
  {
    if |ps| == 1 then (FirstKey(line, ps[0]), ps[0].value)
    else
      var (m, d) := ReduceFirst(line, ps[..|ps| - 1]);
      var k := FirstKey(line, ps[|ps| - 1]);
      if k < m then (k, ps[|ps| - 1].value) else (m, d)
  }

  /** The `reduce` keeping the pair with the larger `rfind` index, replacing
      only when strictly larger. */
  function ReduceLast(line: string, ps: seq<Pattern>): (int, int)
    requires |ps| > 0
  {
    if |ps| == 1 then (LastKey(line, ps[0]), ps[0].value)
    else
      var (m, d) := ReduceLast(line, ps[..|ps| - 1]);
      var k := LastKey(line, ps[|ps| - 1]);
      if k > m then (k, ps[|ps| - 1].value) else (m, d)
  }

  function First(line: string, ps: seq<Pattern>): int
    requires |ps| > 0
  {
    ReduceFirst(line, ps).1
  }

  function Last(line: string, ps: seq<Pattern>): int
    requires |ps| > 0
  {
    ReduceLast(line, ps).1
  }

  /** `get_calibration_value`; the source's `expect` panics on an empty
      pattern list, which its callers never pass. */
  function CalibrationValue(line: string, ps: seq<Pattern>): (r: int)
    requires |ps| > 0
    ensures exists k1, k2 :: 0 <= k1 < |ps| && 0 <= k2 < |ps| && r == 10 * ps[k1].value + ps[k2].value
  {
    FirstValueIsListed(line, ps);
    LastValueIsListed(line, ps);
    First(line, ps) * 10 + Last(line, ps)
  }

  /** `solve`: the sum of the lines' calibration values. With pattern values
      that are single digits, each line contributes a number in 0..99. */
  function Solve(lines: seq<string>, ps: seq<Pattern>): (r: int)
    requires |ps| > 0
    requires forall i :: 0 <= i < |ps| ==> 0 <= ps[i].value <= 9
    ensures 0 <= r <= 99 * |lines|
  {
    if |lines| == 0 then 0
    else
      FirstValueIsListed(lines[|lines| - 1], ps);
      LastValueIsListed(lines[|lines| - 1], ps);
      Solve(lines[..|lines| - 1], ps) + CalibrationValue(lines[|lines| - 1], ps)
  }

  lemma {:induction false} FirstValueIsListed(line: string, ps: seq<Pattern>)
    requires |ps| > 0
    ensures exists k :: 0 <= k < |ps| && First(line, ps) == ps[k].value
  {
    var k := FirstSpec(line, ps);
  }

  lemma {:induction false} LastValueIsListed(line: string, ps: seq<Pattern>)
    requires |ps| > 0
    ensures exists k :: 0 <= k < |ps| && Last(line, ps) == ps[k].value
  {
    var k := LastSpec(line, ps);
  }

  /** The first digit comes from the pattern with the smallest `find` index;
      among patterns with that index the earliest listed one wins. */
  lemma {:induction false} FirstSpec(line: string, ps: seq<Pattern>) returns (k: nat)
    requires |ps| > 0
    ensures k < |ps| && ReduceFirst(line, ps) == (FirstKey(line, ps[k]), ps[k].value)
    ensures forall j :: 0 <= j < k ==> FirstKey(line, ps[j]) > FirstKey(line, ps[k])
    ensures forall j :: k < j < |ps| ==> FirstKey(line, ps[j]) >= FirstKey(line, ps[k])
    decreases |ps|
  {
    if |ps| == 1 {
      k := 0;
    } else {
      var n := |ps| - 1;
      var init := ps[..n];
      var k0 := FirstSpec(line, init);
      assert forall j :: 0 <= j < n ==> init[j] == ps[j];
      var best := FirstKey(line, ps[k0]);
      assert forall j :: 0 <= j < n ==> FirstKey(line, ps[j]) >= best by {
        forall j | 0 <= j < n ensures FirstKey(line, ps[j]) >= best {
          assert init[j] == ps[j];
        }
      }
      if FirstKey(line, ps[n]) < best {
        k := n;
      } else {
        k := k0;
      }
    }
  }

  /** The last digit comes from the pattern with the largest `rfind` index;
      among patterns with that index the earliest listed one wins. */
  lemma {:induction false} LastSpec(line: string, ps: seq<Pattern>) returns (k: nat)
    requires |ps| > 0
    ensures k < |ps| && ReduceLast(line, ps) == (LastKey(line, ps[k]), ps[k].value)
    ensures forall j :: 0 <= j < k ==> LastKey(line, ps[j]) < LastKey(line, ps[k])
    ensures forall j :: k < j < |ps| ==> LastKey(line, ps[j]) <= LastKey(line, ps[k])
    decreases |ps|
  {
    if |ps| == 1 {
      k := 0;
    } else {
      var n := |ps| - 1;
      var init := ps[..n];
      var k0 := LastSpec(line, init);
      assert forall j :: 0 <= j < n ==> init[j] == ps[j];
      var best := LastKey(line, ps[k0]);
      assert forall j :: 0 <= j < n ==> LastKey(line, ps[j]) <= best by {
        forall j | 0 <= j < n ensures LastKey(line, ps[j]) <= best {
          assert init[j] == ps[j];
        }
      }
      if LastKey(line, ps[n]) > best {
        k := n;
      } else {
        k := k0;
      }
    }
  }

  /** An absent pattern never beats a present one: when some pattern occurs
      in the line, the chosen first and last patterns both occur in it. */
  lemma PresentBeatsAbsent(line: string, ps: seq<Pattern>, j: nat)
    requires j < |ps| && Find(line, ps[j].text).Some?
    requires |line| < USIZE_MAX
    ensures exists k :: 0 <= k < |ps| && First(line, ps) == ps[k].value && Find(line, ps[k].text).Some?
    ensures exists k :: 0 <= k < |ps| && Last(line, ps) == ps[k].value && RFind(line, ps[k].text).Some?
  {
    var k := FirstSpec(line, ps);
    var k' := LastSpec(line, ps);
    assert RFind(line, ps[j].text).Some?;
  }

  /** A line holding exactly one decimal digit d has calibration value 11*d
      under the digit patterns. */
  lemma SingleDigit(line: string, p: nat)
    requires p < |line| && IsDigit(line[p])
    requires forall i :: 0 <= i < |line| && i != p ==> !IsDigit(line[i])
    requires |line| < USIZE_MAX
    ensures CalibrationValue(line, DigitPatterns) == 11 * DigitValue(line[p])
  {
    var ps := DigitPatterns;
    // the digit's own pattern occurs at p
    var j := if line[p] == '0' then 9 else DigitValue(line[p]) - 1;
    assert ps[j].text == [line[p]];
    assert OccursAt(line, ps[j].text, p) by { assert line[p..p + 1] == [line[p]]; }
    PatternAtDigit(line, p, ps);
    PresentBeatsAbsent(line, ps, j);
    var k :| 0 <= k < |ps| && First(line, ps) == ps[k].value && Find(line, ps[k].text).Some?;
    var k' :| 0 <= k' < |ps| && Last(line, ps) == ps[k'].value && RFind(line, ps[k'].text).Some?;
    assert OccursAt(line, ps[k].text, Find(line, ps[k].text).value);
    assert OccursAt(line, ps[k'].text, RFind(line, ps[k'].text).value);
  }

  /** Any digit pattern that occurs in such a line is the line's digit, and
      its value is that digit's value. */
  lemma PatternAtDigit(line: string, p: nat, ps: seq<Pattern>)
    requires ps == DigitPatterns
    requires p < |line| && IsDigit(line[p])
    requires forall i :: 0 <= i < |line| && i != p ==> !IsDigit(line[i])
    ensures forall k, i :: 0 <= k < |ps| && OccursAt(line, ps[k].text, i) ==> ps[k].value == DigitValue(line[p])
  {
    forall k, i | 0 <= k < |ps| && OccursAt(line, ps[k].text, i)
      ensures ps[k].value == DigitValue(line[p])
    {
      assert |ps[k].text| == 1 && IsDigit(ps[k].text[0]);
      assert line[i..i + 1][0] == line[i] == ps[k].text[0];
      assert i == p;
    }
  }
}
