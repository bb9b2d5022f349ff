/** The parts of Rust's standard library that the puzzle solvers lean on,
    stated as functions over `string` (= seq<char>): `Option`, `str::find`,
    `str::rfind`, `str::split`, `str::parse` for integers, `str::trim` and
    iterator `sum`/`max`/`min`. A Rust `unwrap()` on `None` is a panic; the day
    modules model such a panic as a `None` result of their own. It also holds
    `Open`, the key the day modules use to keep large facts folded. */
module RustStd {

  datatype Option<T> = None | Some(value: T)

  // ---------------------------------------------------------------------
  // Searching

  /** `pat` occurs in `s` starting at index `i`. */
  predicate OccursAt(s: string, pat: string, i: int)
  {
    0 <= i && i + |pat| <= |s| && s[i..i + |pat|] == pat
  }

  function FindFrom(s: string, pat: string, k: nat): (r: Option<nat>)
    requires k <= |s| + 1
    decreases |s| + 1 - k
    ensures r.Some? ==> k <= r.value && OccursAt(s, pat, r.value)
    ensures r.Some? ==> forall j :: k <= j < r.value ==> !OccursAt(s, pat, j)
    ensures r.None? ==> forall j :: k <= j ==> !OccursAt(s, pat, j)
  {
    if k + |pat| > |s| then None
    else if s[k..k + |pat|] == pat then Some(k)
    else FindFrom(s, pat, k + 1)
  }

  /** `str::find`: the leftmost index where `pat` occurs. */
  function Find(s: string, pat: string): (r: Option<nat>)
    ensures r.Some? ==> OccursAt(s, pat, r.value)
    ensures r.Some? ==> forall j :: 0 <= j < r.value ==> !OccursAt(s, pat, j)
    ensures r.None? <==> forall j :: !OccursAt(s, pat, j)
  {
    FindFrom(s, pat, 0)
  }

  function RFindBelow(s: string, pat: string, k: nat): (r: Option<nat>)
    ensures r.Some? ==> r.value < k && OccursAt(s, pat, r.value)
    ensures r.Some? ==> forall j :: r.value < j < k ==> !OccursAt(s, pat, j)
    ensures r.None? ==> forall j :: j < k ==> !OccursAt(s, pat, j)
  {
    if k == 0 then None
    else if OccursAt(s, pat, k - 1) then Some(k - 1)
    else RFindBelow(s, pat, k - 1)
  }

  /** `str::rfind`: the rightmost index where `pat` occurs. */
  function RFind(s: string, pat: string): (r: Option<nat>)
    ensures r.Some? ==> OccursAt(s, pat, r.value)
    ensures r.Some? ==> forall j :: r.value < j ==> !OccursAt(s, pat, j)
    ensures r.None? <==> forall j :: !OccursAt(s, pat, j)
  {
    RFindBelow(s, pat, |s| + 1)
  }

  predicate StartsWith(s: string, prefix: string)
  {
    |prefix| <= |s| && s[..|prefix|] == prefix
  }

  predicate EndsWith(s: string, suffix: string)
  {
    |suffix| <= |s| && s[|s| - |suffix|..] == suffix
  }

  /** `str::contains` for a one-character pattern. */
  predicate Contains(s: string, c: char)
  {
    c in s
  }

  // ---------------------------------------------------------------------
  // Splitting

  /** `str::split` with a non-empty separator: the pieces between the
      non-overlapping occurrences of `sep`, found left to right. */
  function Split(s: string, sep: string): (r: seq<string>)
    requires |sep| > 0
    decreases |s|
    ensures |r| >= 1
  {
    match Find(s, sep)
    case None => [s]
    case Some(i) => [s[..i]] + Split(s[i + |sep|..], sep)
  }

  function Join(pieces: seq<string>, sep: string): string
  {
    if |pieces| == 0 then ""
    else if |pieces| == 1 then pieces[0]
    else pieces[0] + sep + Join(pieces[1..], sep)
  }

  /** `filter(|s| !s.is_empty())` over the pieces of a split. */
  function NonEmpty(words: seq<string>): (r: seq<string>)
    ensures forall w :: w in r <==> w in words && |w| > 0
    decreases |words|
  {
    if |words| == 0 then []
    else (if |words[0]| > 0 then [words[0]] else []) + NonEmpty(words[1..])
  }

  /** Joining the pieces of a split with the separator gives the string back. */
  lemma {:induction false} JoinSplit(s: string, sep: string)
    requires |sep| > 0
    ensures Join(Split(s, sep), sep) == s
    decreases |s|
  {
    match Find(s, sep)
    case None =>
      assert Split(s, sep) == [s];
    case Some(i) =>
      var rest := s[i + |sep|..];
      var tail := Split(rest, sep);
      assert Split(s, sep) == [s[..i]] + tail;
      assert ([s[..i]] + tail)[1..] == tail;
      JoinSplit(rest, sep);
      assert Join(Split(s, sep), sep) == s[..i] + sep + Join(tail, sep);
      assert s[i..i + |sep|] == sep;
      assert s == s[..i] + sep + rest;
  }

  /** No piece of a split contains the separator. */
  lemma {:induction false} SplitPiecesAvoidSep(s: string, sep: string)
    requires |sep| > 0
    ensures forall k, j :: 0 <= k < |Split(s, sep)| ==> !OccursAt(Split(s, sep)[k], sep, j)
    decreases |s|
  {
    match Find(s, sep)
    case None =>
    case Some(i) =>
      var rest := s[i + |sep|..];
      SplitPiecesAvoidSep(rest, sep);
      forall j | OccursAt(s[..i], sep, j)
        ensures false
      {
        assert s[..i][j..j + |sep|] == s[j..j + |sep|];
        assert OccursAt(s, sep, j);
      }
  }

  /** A string that lacks one of the separator's characters is never cut by it. */
  lemma NoSepCharAt(a: string, sep: string, k: nat)
    requires k < |sep| && sep[k] !in a
    ensures forall j :: !OccursAt(a, sep, j)
    ensures Split(a, sep) == [a]
  {
    forall j | 0 <= j < |a| ensures !OccursAt(a, sep, j) {
      assert j + |sep| <= |a| ==> a[j..j + |sep|][k] == a[j + k];
    }
  }

  /** `str::strip_prefix` for one character. */
  function StripPrefix(s: string, c: char): (r: Option<string>)
    ensures r.Some? <==> |s| > 0 && s[0] == c
    ensures r.Some? ==> s == [c] + r.value
  {
    if |s| > 0 && s[0] == c then Some(s[1..]) else None
  }

  /** `str::strip_suffix` for one character. */
  function StripSuffix(s: string, c: char): (r: Option<string>)
    ensures r.Some? <==> |s| > 0 && s[|s| - 1] == c
    ensures r.Some? ==> s == r.value + [c]
  {
    if |s| > 0 && s[|s| - 1] == c then Some(s[..|s| - 1]) else None
  }

  /** A string that does not contain the separator's first character is
      never cut by it. */
  lemma NoSepChar(a: string, sep: string)
    requires |sep| > 0 && sep[0] !in a
    ensures forall j :: !OccursAt(a, sep, j)
  {
    forall j | 0 <= j < |a| ensures !OccursAt(a, sep, j) {
      assert j + |sep| <= |a| ==> a[j..j + |sep|][0] == a[j];
    }
  }

  lemma SplitSingle(a: string, sep: string)
    requires |sep| > 0 && sep[0] !in a
    ensures Split(a, sep) == [a]
  {
    NoSepChar(a, sep);
  }

  /** A string holding the separator character splits into at least two pieces. */
  lemma SplitAtChar(s: string, c: char)
    requires c in s
    ensures |Split(s, [c])| >= 2
  {
    var sep := [c];
    var i :| 0 <= i < |s| && s[i] == c;
    assert OccursAt(s, sep, i) by {
      assert s[i..i + 1] == sep;
    }
    var f := Find(s, sep);
    assert f.Some?;
    var j := f.value;
    assert |sep| == 1;
    var rest := Split(s[j + 1..], sep);
    assert Split(s, sep) == [s[..j]] + rest;
  }

  /** Splitting `a + sep + b`, where `a` cannot hold the start of a separator,
      yields `a` and then the pieces of `b`. */
  lemma SplitCons(a: string, sep: string, b: string)
    requires |sep| > 0 && sep[0] !in a
    ensures Split(a + sep + b, sep) == [a] + Split(b, sep)
  {
    var s := a + sep + b;
    assert OccursAt(s, sep, |a|) by {
      assert s[|a|..|a| + |sep|] == sep;
    }
    forall j | 0 <= j < |a| ensures !OccursAt(s, sep, j) {
      assert s[j] == a[j];
      assert j + |sep| <= |s| ==> s[j..j + |sep|][0] == s[j];
    }
    assert Find(s, sep) == Some(|a|);
    assert s[..|a|] == a;
    assert s[|a| + |sep|..] == b;
  }

  /** Splitting pieces joined by `sep`, none of which holds the
      separator's first character, gives the pieces back. */
  lemma {:induction false} SplitJoin(pieces: seq<string>, sep: string)
    requires |sep| > 0 && |pieces| > 0
    requires forall i :: 0 <= i < |pieces| ==> sep[0] !in pieces[i]
    ensures Split(Join(pieces, sep), sep) == pieces
    decreases |pieces|
  {
    if |pieces| == 1 {
      SplitSingle(pieces[0], sep);
    } else {
      SplitCons(pieces[0], sep, Join(pieces[1..], sep));
      SplitJoin(pieces[1..], sep);
      assert [pieces[0]] + pieces[1..] == pieces;
    }
  }

  /** A character in neither the pieces nor the separator is not in their
      join. */
  lemma {:induction false} JoinAvoids(pieces: seq<string>, sep: string, c: char)
    requires c !in sep && forall i :: 0 <= i < |pieces| ==> c !in pieces[i]
    ensures c !in Join(pieces, sep)
    decreases |pieces|
  {
    if |pieces| > 1 {
      JoinAvoids(pieces[1..], sep, c);
    }
  }

  /** `Iterator::last` of a split, which always exists. */
  function Last<T>(s: seq<T>): T
    requires |s| > 0
  {
    s[|s| - 1]
  }

  // ---------------------------------------------------------------------
  // Characters and trimming

  predicate IsDigit(c: char)
  {
    '0' <= c <= '9'
  }

  function DigitValue(c: char): (d: nat)
    requires IsDigit(c)
    ensures d < 10
  {
    (c as int) - ('0' as int)
  }

  /** `char::is_whitespace` (Unicode White_Space). */
  predicate IsWhitespace(c: char)
  {
    ('\t' <= c <= '\r') || c == ' ' || c == '\U{0085}' || c == '\U{00A0}'
    || c == '\U{1680}' || ('\U{2000}' <= c <= '\U{200A}') || c == '\U{2028}'
    || c == '\U{2029}' || c == '\U{202F}' || c == '\U{205F}' || c == '\U{3000}'
  }

  function TrimStart(s: string): (r: string)
    ensures |r| <= |s| && r == s[|s| - |r|..]
    ensures |r| > 0 ==> !IsWhitespace(r[0])
  {
    if |s| > 0 && IsWhitespace(s[0]) then TrimStart(s[1..]) else s
  }

  function TrimEnd(s: string): (r: string)
    ensures |r| <= |s| && r == s[..|r|]
    ensures |r| > 0 ==> !IsWhitespace(r[|r| - 1])
  {
    if |s| > 0 && IsWhitespace(s[|s| - 1]) then TrimEnd(s[..|s| - 1]) else s
  }

  /** `str::trim`: both ends without whitespace. */
  function Trim(s: string): (r: string)
    ensures |r| <= |s|
    ensures |r| > 0 ==> !IsWhitespace(r[0]) && !IsWhitespace(r[|r| - 1])
  {
    TrimEnd(TrimStart(s))
  }

  /** `str::trim_end_matches(c)`. */
  function TrimEndMatches(s: string, c: char): (r: string)
    ensures |r| <= |s| && r == s[..|r|]
    ensures |r| > 0 ==> r[|r| - 1] != c
    ensures forall i :: |r| <= i < |s| ==> s[i] == c
  {
    if |s| > 0 && s[|s| - 1] == c then TrimEndMatches(s[..|s| - 1], c) else s
  }

  // ---------------------------------------------------------------------
  // Parsing integers

  predicate AllDigits(s: string)
  {
    forall i :: 0 <= i < |s| ==> IsDigit(s[i])
  }

  /** The value of a string of decimal digits, most significant first. */
  function DigitsValue(s: string): (v: nat)
    requires AllDigits(s)
  {
    if |s| == 0 then 0 else 10 * DigitsValue(s[..|s| - 1]) + DigitValue(s[|s| - 1])
  }

  /** `str::parse` into an unsigned integer whose largest value is `max`:
      an optional '+', then at least one digit and nothing else; a value
      above `max` is an error. */
  function ParseUnsigned(s: string, max: nat): (r: Option<nat>)
    ensures r.Some? ==> r.value <= max
  {
    var digits := if |s| > 0 && s[0] == '+' then s[1..] else s;
    if |digits| == 0 || !AllDigits(digits) then None
    else if DigitsValue(digits) > max then None
    else Some(DigitsValue(digits))
  }

  /** `str::parse` into a signed integer in [min, max]: an optional sign,
      then at least one digit and nothing else. */
  function ParseSigned(s: string, min: int, max: int): (r: Option<int>)
    ensures r.Some? ==> min <= r.value <= max
  {
    var neg := |s| > 0 && s[0] == '-';
    var digits := if |s| > 0 && (s[0] == '+' || s[0] == '-') then s[1..] else s;
    if |digits| == 0 || !AllDigits(digits) then None
    else
      var v: int := if neg then 0 - (DigitsValue(digits) as int) else DigitsValue(digits);
      if v < min || v > max then None else Some(v)
  }

  predicate IsHexDigit(c: char)
  {
    '0' <= c <= '9' || 'a' <= c <= 'f' || 'A' <= c <= 'F'
  }

  function HexDigitValue(c: char): (d: nat)
    requires IsHexDigit(c)
    ensures d < 16
  {
    if '0' <= c <= '9' then (c as int) - ('0' as int)
    else if 'a' <= c <= 'f' then (c as int) - ('a' as int) + 10
    else (c as int) - ('A' as int) + 10
  }

  predicate AllHexDigits(s: string)
  {
    forall i :: 0 <= i < |s| ==> IsHexDigit(s[i])
  }

  /** The value of a string of hexadecimal digits, most significant first. */
  function HexValue(s: string): (v: nat)
    requires AllHexDigits(s)
  {
    if |s| == 0 then 0 else 16 * HexValue(s[..|s| - 1]) + HexDigitValue(s[|s| - 1])
  }

  /** `from_str_radix(s, 16)` into a signed integer in [min, max]: an
      optional sign, then at least one hexadecimal digit and nothing else. */
  function ParseHexSigned(s: string, min: int, max: int): (r: Option<int>)
    ensures r.Some? ==> min <= r.value <= max
  {
    var neg := |s| > 0 && s[0] == '-';
    var digits := if |s| > 0 && (s[0] == '+' || s[0] == '-') then s[1..] else s;
    if |digits| == 0 || !AllHexDigits(digits) then None
    else
      var v: int := if neg then 0 - (HexValue(digits) as int) else HexValue(digits);
      if v < min || v > max then None else Some(v)
  }

  /** The last `k` lower-case hexadecimal digits of `v`, with leading zeros. */
  function HexDigits(v: nat, k: nat): (s: string)
    ensures |s| == k && AllHexDigits(s)
  {
    if k == 0 then ""
    else
      var d := v % 16;
      var c := if d < 10 then (('0' as int) + d) as char else (('a' as int) + d - 10) as char;
      HexDigits(v / 16, k - 1) + [c]
  }

  /** Reading back `k` hexadecimal digits of a value below 16^k gives the
      value. */
  lemma {:induction false} HexDigitsValue(v: nat, k: nat)
    requires v < Pow(16, k)
    ensures HexValue(HexDigits(v, k)) == v
    decreases k
  {
    if k > 0 {
      var s := HexDigits(v, k);
      assert s[..|s| - 1] == HexDigits(v / 16, k - 1);
      HexDigitsValue(v / 16, k - 1);
    }
  }

  /** `map(|x| x.parse().unwrap()).collect()`: every word parsed, or a panic. */
  function ParseAllUnsigned(words: seq<string>, max: nat): (r: Option<seq<nat>>)
    ensures r.Some? <==> forall i :: 0 <= i < |words| ==> ParseUnsigned(words[i], max).Some?
    ensures r.Some? ==> |r.value| == |words|
    ensures r.Some? ==> forall i :: 0 <= i < |words| ==> ParseUnsigned(words[i], max) == Some(r.value[i])
  {
    if exists i :: 0 <= i < |words| && ParseUnsigned(words[i], max).None? then None
    else Some(seq(|words|, i requires 0 <= i < |words| => ParseUnsigned(words[i], max).value))
  }

  const U32_MAX: nat := 0xFFFF_FFFF
  const U64_MAX: nat := 0xFFFF_FFFF_FFFF_FFFF
  const USIZE_MAX: nat := U64_MAX
  const I32_MIN: int := -0x8000_0000
  const I32_MAX: int := 0x7FFF_FFFF
  const I64_MIN: int := -0x8000_0000_0000_0000
  const I64_MAX: int := 0x7FFF_FFFF_FFFF_FFFF

  /** The decimal text of a natural number, without leading zeros. */
  function NatToString(n: nat): (s: string)
    ensures |s| > 0 && AllDigits(s)
    decreases n
  {
    if n < 10 then [(('0' as int) + n) as char]
    else NatToString(n / 10) + [(('0' as int) + n % 10) as char]
  }

  lemma {:induction false} NatToStringValue(n: nat)
    ensures DigitsValue(NatToString(n)) == n
    decreases n
  {
    var s := NatToString(n);
    if n >= 10 {
      NatToStringValue(n / 10);
      assert s[..|s| - 1] == NatToString(n / 10);
    }
  }

  /** Parsing the decimal text of a value in range gives the value back. */
  lemma ParseNatToString(n: nat, max: nat)
    requires n <= max
    ensures ParseUnsigned(NatToString(n), max) == Some(n)
  {
    NatToStringValue(n);
    var s := NatToString(n);
    assert s[0] != '+' by { assert IsDigit(s[0]); }
  }

  /** The same for a signed parse: the text has no sign character. */
  lemma ParseSignedNatToString(n: nat, min: int, max: int)
    requires min <= n <= max
    ensures ParseSigned(NatToString(n), min, max) == Some(n)
  {
    NatToStringValue(n);
    var s := NatToString(n);
    assert s[0] != '+' && s[0] != '-' by { assert IsDigit(s[0]); }
  }

  // ---------------------------------------------------------------------
  // Integer division as Rust does it (truncation toward zero)

  function Abs(a: int): nat
  {
    if a < 0 then -a else a
  }

  /** Rust's `/` on integers: the quotient rounded toward zero. */
  function TruncDiv(a: int, b: int): (q: int)
    requires b != 0
  {
    var q := Abs(a) / Abs(b);
    if (a < 0) != (b < 0) then -q else q
  }

  /** Rust's `%` on integers: the remainder takes the sign of `a`. */
  function TruncRem(a: int, b: int): (r: int)
    requires b != 0
  {
    a - b * TruncDiv(a, b)
  }

  lemma MulAtLeast(b: int, x: int)
    requires b > 0
    ensures x >= 1 ==> b * x >= b
    ensures x <= -1 ==> b * x <= -b
  {
  }

  /** Dafny's `/` and `%` (Euclidean) are determined by the division equation. */
  lemma DivModUnique(a: int, b: int, d: int, r: int)
    requires b > 0 && a == b * d + r && 0 <= r < b
    ensures a / b == d && a % b == r
  {
    var d', r' := a / b, a % b;
    assert b * (d - d') == r' - r;
    MulAtLeast(b, d - d');
  }

  /** For a positive divisor, Rust's remainder is Dafny's Euclidean one,
      shifted down by `b` when `a` is negative and not a multiple of `b`. */
  lemma TruncRemPositive(a: int, b: int)
    requires b > 0
    ensures TruncRem(a, b) == if a >= 0 || a % b == 0 then a % b else a % b - b
  {
    if a < 0 {
      var A: int := -a;
      var q, m := A / b, A % b;
      assert TruncDiv(a, b) == -q;
      assert TruncRem(a, b) == -m;
      if m == 0 {
        DivModUnique(a, b, -q, 0);
      } else {
        DivModUnique(a, b, -q - 1, b - m);
      }
    }
  }

  lemma TruncDivMul(a: int, k: int)
    requires k != 0
    ensures TruncDiv(a * k, k) == a
  {
    var A, K := Abs(a), Abs(k);
    assert Abs(a * k) == A * K by {
      if a < 0 && k < 0 { assert a * k == (-a) * (-k); }
      else if a < 0 { assert -(a * k) == (-a) * k; }
      else if k < 0 { assert -(a * k) == a * (-k); }
    }
    DivModUnique(A * K, K, A, 0);
    if a != 0 {
      assert (a * k < 0) == ((a < 0) != (k < 0)) by {
        if a > 0 && k > 0 { assert a * k > 0; }
        else if a < 0 && k < 0 { assert a * k == (-a) * (-k) > 0; }
        else if a > 0 { assert a * (-k) > 0; }
        else { assert (-a) * k > 0; }
      }
    }
  }

  // ---------------------------------------------------------------------
  // Iterator folds

  /** `Ord::max` and `Ord::min` on naturals. */
  function MaxNat(x: nat, y: nat): nat { if x >= y then x else y }
  function MinNat(x: nat, y: nat): nat { if x >= y then y else x }

  /** `Iterator::sum`. */
  function Sum(s: seq<int>): int
  {
    if |s| == 0 then 0 else Sum(s[..|s| - 1]) + s[|s| - 1]
  }

  lemma {:induction false} SumAppend(a: seq<int>, b: seq<int>)
    ensures Sum(a + b) == Sum(a) + Sum(b)
    decreases |b|
  {
    if |b| == 0 {
      assert a + b == a;
    } else {
      SumAppend(a, b[..|b| - 1]);
      assert (a + b)[..|a + b| - 1] == a + b[..|b| - 1];
    }
  }

  lemma {:induction false} SumNonNegative(s: seq<int>)
    requires forall i :: 0 <= i < |s| ==> s[i] >= 0
    ensures Sum(s) >= 0
    decreases |s|
  {
    if |s| > 0 {
      SumNonNegative(s[..|s| - 1]);
    }
  }

  /** A sum of non-negative numbers is at least each of them. */
  lemma {:induction false} SumBoundsEach(s: seq<int>)
    requires forall i :: 0 <= i < |s| ==> s[i] >= 0
    ensures forall i :: 0 <= i < |s| ==> s[i] <= Sum(s)
    decreases |s|
  {
    if |s| > 0 {
      SumBoundsEach(s[..|s| - 1]);
      SumNonNegative(s[..|s| - 1]);
    }
  }

  /** A sum of positive numbers is at least their number. */
  lemma {:induction false} SumAtLeastLength(s: seq<int>)
    requires forall i :: 0 <= i < |s| ==> s[i] >= 1
    ensures Sum(s) >= |s|
    decreases |s|
  {
    if |s| > 0 {
      SumAtLeastLength(s[..|s| - 1]);
    }
  }

  /** Raising one element raises the sum by as much. */
  lemma {:induction false} SumUpdate(s: seq<int>, i: nat, d: int, t: seq<int>)
    requires i < |s| && t == s[i := s[i] + d]
    ensures Sum(t) == Sum(s) + d
    decreases |s|
  {
    if i == |s| - 1 {
      assert t[..|s| - 1] == s[..|s| - 1];
    } else {
      assert t[..|s| - 1] == s[..|s| - 1][i := s[i] + d];
      SumUpdate(s[..|s| - 1], i, d, t[..|s| - 1]);
    }
  }

  /** An element of a sequence of naturals is at most its sum. */
  lemma {:induction false} ElemAtMostSum(s: seq<int>, i: nat)
    requires i < |s| && forall j :: 0 <= j < |s| ==> s[j] >= 0
    ensures s[i] <= Sum(s)
    decreases |s|
  {
    SumNonNegative(s[..|s| - 1]);
    if i < |s| - 1 {
      ElemAtMostSum(s[..|s| - 1], i);
    }
  }

  /** A subset is no larger than its superset. */
  lemma {:induction false} SubsetCard<T>(a: set<T>, b: set<T>)
    requires a <= b
    ensures |a| <= |b|
    decreases |a|
  {
    if a != {} {
      var x :| x in a;
      SubsetCard(a - {x}, b - {x});
    }
  }

  /** A sum of values each at most `m` is at most `m` times their number. */
  lemma {:induction false} SumAtMost(s: seq<int>, m: int)
    requires forall i :: 0 <= i < |s| ==> s[i] <= m
    ensures Sum(s) <= m * |s|
    decreases |s|
  {
    if |s| > 0 {
      SumAtMost(s[..|s| - 1], m);
    }
  }

  /** `Iterator::max` (`None` on an empty iterator). */
  function Max(s: seq<int>): (r: Option<int>)
    ensures r.None? <==> |s| == 0
    ensures r.Some? ==> r.value in s && forall i :: 0 <= i < |s| ==> s[i] <= r.value
  {
    if |s| == 0 then None
    else
      match Max(s[..|s| - 1])
      case None => Some(s[|s| - 1])
      case Some(m) =>
        assert forall i :: 0 <= i < |s| - 1 ==> s[..|s| - 1][i] == s[i];
        Some(if s[|s| - 1] >= m then s[|s| - 1] else m)
  }

  /** `Iterator::min` (`None` on an empty iterator). */
  function Min(s: seq<int>): (r: Option<int>)
    ensures r.None? <==> |s| == 0
    ensures r.Some? ==> r.value in s && forall i :: 0 <= i < |s| ==> r.value <= s[i]
  {
    if |s| == 0 then None
    else
      match Min(s[..|s| - 1])
      case None => Some(s[|s| - 1])
      case Some(m) =>
        assert forall i :: 0 <= i < |s| - 1 ==> s[..|s| - 1][i] == s[i];
        Some(if s[|s| - 1] < m then s[|s| - 1] else m)
  }

  /** The number of elements of `s` equal to `x` (`filter(..).count()`). */
  function Count<T(==)>(s: seq<T>, x: T): (n: nat)
    ensures n <= |s|
    ensures n > 0 <==> x in s
  {
    if |s| == 0 then 0 else Count(s[..|s| - 1], x) + (if s[|s| - 1] == x then 1 else 0)
  }

  lemma {:induction false} CountAppend<T>(a: seq<T>, b: seq<T>, x: T)
    ensures Count(a + b, x) == Count(a, x) + Count(b, x)
    decreases |b|
  {
    if |b| == 0 {
      assert a + b == a;
    } else {
      CountAppend(a, b[..|b| - 1], x);
      assert (a + b)[..|a + b| - 1] == a + b[..|b| - 1];
    }
  }

  /** Overwriting one element changes the count by what left and what came. */
  lemma CountUpdate<T>(s: seq<T>, k: nat, v: T, x: T)
    requires k < |s|
    ensures Count(s[k := v], x) + (if s[k] == x then 1 else 0) == Count(s, x) + (if v == x then 1 else 0)
  {
    assert s == s[..k] + [s[k]] + s[k + 1..];
    assert s[k := v] == s[..k] + [v] + s[k + 1..];
    CountAppend(s[..k] + [s[k]], s[k + 1..], x);
    CountAppend(s[..k], [s[k]], x);
    CountAppend(s[..k] + [v], s[k + 1..], x);
    CountAppend(s[..k], [v], x);
    assert [s[k]][..0] == [] && [v][..0] == [];
  }

  /** `iter().position(|y| y == x)`: the first index holding `x`. */
  function Position<T(==)>(s: seq<T>, x: T): (r: Option<nat>)
    ensures r.Some? <==> x in s
    ensures r.Some? ==> r.value < |s| && s[r.value] == x && forall j :: 0 <= j < r.value ==> s[j] != x
  {
    if |s| == 0 then None
    else if s[0] == x then Some(0)
    else
      match Position(s[1..], x)
      case None => None
      case Some(i) => Some(i + 1)
  }

  /** `std::cmp::Ordering`. */
  datatype Ordering = Less | Equal | Greater

  /** `Ord::cmp` on integers. */
  function Cmp(a: int, b: int): (r: Ordering)
    ensures r == Less <==> a < b
    ensures r == Greater <==> a > b
  {
    if a < b then Less else if a > b then Greater else Equal
  }

  function Pow(b: nat, e: nat): (r: nat)
    ensures b > 0 ==> r > 0
  {
    if e == 0 then 1 else b * Pow(b, e - 1)
  }

  /** Mapping every element with a step that may panic and collecting the
      results (`map(..).collect()` with an `unwrap` inside the closure). */
  function CollectAll<A, B>(xs: seq<A>, f: A -> Option<B>): (r: Option<seq<B>>)
    ensures r.Some? <==> forall i :: 0 <= i < |xs| ==> f(xs[i]).Some?
    ensures r.Some? ==> |r.value| == |xs|
    ensures r.Some? ==> forall i :: 0 <= i < |xs| ==> f(xs[i]) == Some(r.value[i])
  {
    if exists i :: 0 <= i < |xs| && f(xs[i]).None? then None
    else Some(seq(|xs|, i requires 0 <= i < |xs| => f(xs[i]).value))
  }

  /** Collecting one more element: its result is pushed, or its panic is
      the panic of the whole. */
  lemma CollectAllSnoc<A, B>(xs: seq<A>, x: A, f: A -> Option<B>)
    requires CollectAll(xs, f).Some?
    ensures f(x).None? ==> CollectAll(xs + [x], f).None?
    ensures f(x).Some? ==> CollectAll(xs + [x], f) == Some(CollectAll(xs, f).value + [f(x).value])
  {
    var ys := xs + [x];
    assert ys[|xs|] == x;
    assert forall i :: 0 <= i < |xs| ==> ys[i] == xs[i];
    assert forall i :: 0 <= i < |xs| ==> f(ys[i]).Some?;
    if f(x).Some? {
      assert forall i :: 0 <= i < |ys| ==> f(ys[i]).Some?;
      var l, r := CollectAll(ys, f).value, CollectAll(xs, f).value + [f(x).value];
      assert |l| == |r|;
      forall i | 0 <= i < |l| ensures l[i] == r[i] {
        assert f(ys[i]) == Some(l[i]);
        if i < |xs| {
          assert f(xs[i]) == Some(CollectAll(xs, f).value[i]);
        }
      }
      assert l == r;
    }
  }

  // ---------------------------------------------------------------------
  // Stable sorting (`sort_by` / `sort_by_key`)

  predicate SortedByKey<T>(s: seq<T>, key: T -> int)
  {
    forall i, j :: 0 <= i < j < |s| ==> key(s[i]) <= key(s[j])
  }

  /** Inserts `x` into `s` after every leading element whose key is not
      larger, so that equal keys keep their order. */
  function InsertByKey<T>(s: seq<T>, x: T, key: T -> int): (r: seq<T>)
    ensures |r| == |s| + 1
    ensures multiset(r) == multiset(s) + multiset{x}
    decreases |s|
  {
    if |s| == 0 || key(x) < key(s[0]) then [x] + s
    else
      assert s == [s[0]] + s[1..];
      [s[0]] + InsertByKey(s[1..], x, key)
  }

  lemma {:induction false} InsertByKeySorted<T>(s: seq<T>, x: T, key: T -> int)
    requires SortedByKey(s, key)
    ensures SortedByKey(InsertByKey(s, x, key), key)
    decreases |s|
  {
    if |s| > 0 && key(x) >= key(s[0]) {
      var rest := InsertByKey(s[1..], x, key);
      InsertByKeySorted(s[1..], x, key);
      forall i | 0 <= i < |rest| ensures key(s[0]) <= key(rest[i]) {
        assert rest[i] in multiset(rest);
        assert rest[i] == x || rest[i] in multiset(s[1..]);
      }
    }
  }

  /** A stable sort by key: insertion of each element in turn. */
  function SortByKey<T>(s: seq<T>, key: T -> int): (r: seq<T>)
    ensures |r| == |s|
    ensures multiset(r) == multiset(s)
    ensures SortedByKey(r, key)
    decreases |s|
  {
    if |s| == 0 then []
    else
      assert s == s[..|s| - 1] + [s[|s| - 1]];
      InsertByKeySorted(SortByKey(s[..|s| - 1], key), s[|s| - 1], key);
      InsertByKey(SortByKey(s[..|s| - 1], key), s[|s| - 1], key)
  }

  /** A key for keeping a fact out of a proof's way: a predicate stated as
      `forall k: nat :: Open(k) ==> P` is unfolded only where a term
      `Open(k)` occurs, so a method can pass `P` from one step to the next
      without the solver expanding it, and a lemma that needs `P` opens it
      with `assert Open(0)`. */
  predicate Open(k: nat) { true }
}
