/** Scratchcards (src/day04.rs). A line "Card 3: 1 21 53 | 59 44 21 1" holds a
    card number, its winning numbers and the numbers it has; the card's `n` is
    how many of its numbers are winning ones. */
module Day04 {
  import opened RustStd

  /** A card: its index (the card number minus one) and its match count. */
  datatype Card = Card(id: nat, n: nat)

  /** The set of `i32` values of the words; any word that does not parse
      panics on `unwrap`. */
  function ParseSet(words: seq<string>): (r: Option<set<int>>)
    ensures r.Some? <==> forall i :: 0 <= i < |words| ==> ParseSigned(words[i], I32_MIN, I32_MAX).Some?
    ensures r.Some? ==> forall x :: x in r.value <==> exists i :: 0 <= i < |words| && ParseSigned(words[i], I32_MIN, I32_MAX) == Some(x)
    decreases |words|
  {
    if |words| == 0 then Some({})
    else
      match (ParseSigned(words[0], I32_MIN, I32_MAX), ParseSet(words[1..]))
      case (Some(x), Some(rest)) =>
        assert forall i :: 1 <= i < |words| ==> words[i] == words[1..][i - 1];
        Some({x} + rest)
      case (None, _) => None
      case (_, None) =>
        assert forall i :: 0 <= i < |words[1..]| ==> words[1..][i] == words[i + 1];
        None
  }

  function NumberSet(s: string): Option<set<int>>
  {
    ParseSet(NonEmpty(Split(Trim(s), " ")))
  }

  /** The card number: the last ' '-separated word before the ':', as a `u32`. */
  function CardNumber(line: string): (r: Option<nat>)
    ensures r.Some? ==> |Split(line, ":")| >= 2
  {
    var parts := Split(line, ":");
    if |parts| < 2 then None else ParseUnsigned(Last(Split(parts[0], " ")), U32_MAX)
  }

  /** Every '|'-separated piece is a set of numbers: `get_cards` collects a
      set for each piece, so an unparsable word in any of them panics. */
  predicate AllPiecesParse(v: seq<string>)
  {
    forall i :: 0 <= i < |v| ==> NumberSet(v[i]).Some?
  }

  /** The size of the intersection of the winning numbers (before the '|')
      and the card's own numbers (after it). Pieces after the second are
      parsed and then ignored; fewer than two pieces panic on `v[1]`. */
  function MatchCount(numbers: string): (r: Option<nat>)
    ensures var v := Split(numbers, "|");
      r.Some? <==> |v| >= 2 && AllPiecesParse(v)
    ensures var v := Split(numbers, "|");
      r.Some? ==> r.value == |NumberSet(v[0]).value * NumberSet(v[1]).value|
  {
    var v := Split(numbers, "|");
    if |v| < 2 || !AllPiecesParse(v) then None
    else
      assert NumberSet(v[0]).Some? && NumberSet(v[1]).Some?;
      Some(|NumberSet(v[0]).value * NumberSet(v[1]).value|)
  }

  /** The numbers part "a|b" with one digit on each side is a card, but
      "a|b|x" panics: the third piece is parsed like the first two although
      it is never compared. */
  lemma ThirdPieceParsed(a: string, b: string, x: string)
    requires |a| == 1 && |b| == 1 && IsDigit(a[0]) && IsDigit(b[0]) && x == "x"
    ensures MatchCount(a + "|" + b).Some?
    ensures MatchCount(a + "|" + b + "|" + x).None?
  {
    PiecesOf(a, b, x);
    TwoParse(a, b);
    ThirdFails(a, b, x);
  }

  lemma TwoParse(a: string, b: string)
    requires |a| == 1 && |b| == 1 && IsDigit(a[0]) && IsDigit(b[0])
    ensures AllPiecesParse([a, b])
  {
    DigitWord(a);
    DigitWord(b);
    PairParses(a, b);
  }

  lemma PairParses(a: string, b: string)
    requires NumberSet(a).Some? && NumberSet(b).Some?
    ensures AllPiecesParse([a, b])
  {
    var v := [a, b];
    forall i | 0 <= i < |v| ensures NumberSet(v[i]).Some? {
      if i == 0 {
        assert v[i] == a;
      } else {
        assert v[i] == b;
      }
    }
  }

  lemma ThirdFails(a: string, b: string, x: string)
    requires x == "x"
    ensures !AllPiecesParse([a, b, x])
  {
    LetterWord(x);
    assert [a, b, x][2] == x;
  }

  lemma DigitWord(w: string)
    requires |w| == 1 && IsDigit(w[0])
    ensures NumberSet(w).Some?
  {
    OneWord(w);
    assert AllDigits(w);
    assert w[..0] == [];
    assert DigitsValue(w) == DigitValue(w[0]);
    assert ParseSigned(w, I32_MIN, I32_MAX).Some?;
  }

  lemma LetterWord(w: string)
    requires w == "x"
    ensures NumberSet(w).None?
  {
    OneWord(w);
    assert ParseSigned(w, I32_MIN, I32_MAX).None?;
  }

  lemma OneWord(w: string)
    requires |w| == 1 && w[0] != ' ' && !IsWhitespace(w[0])
    ensures NumberSet(w) == ParseSet([w])
  {
    assert TrimStart(w) == w;
    assert TrimEnd(w) == w;
    SplitSingle(w, " ");
    assert NonEmpty([w]) == [w];
  }

  lemma PiecesOf(a: string, b: string, c: string)
    requires |a| == 1 && |b| == 1 && |c| == 1 && a[0] != '|' && b[0] != '|' && c[0] != '|'
    ensures Split(a + "|" + b, "|") == [a, b]
    ensures Split(a + "|" + b + "|" + c, "|") == [a, b, c]
  {
    TwoPieces(a, b);
    TwoPieces(b, c);
    var bc := b + "|" + c;
    assert a + "|" + b + "|" + c == a + "|" + bc;
    assert '|' !in a;
    SplitCons(a, "|", bc);
  }

  lemma TwoPieces(a: string, b: string)
    requires |a| == 1 && |b| == 1 && a[0] != '|' && b[0] != '|'
    ensures Split(a + "|" + b, "|") == [a, b]
  {
    assert '|' !in a && '|' !in b;
    SplitSingle(b, "|");
    SplitCons(a, "|", b);
  }

  /** One card of `get_cards`: the card number minus one and the match
      count. A missing ':' or '|', an unparsable number or card number 0
      (the `u32` subtraction underflows) panics. */
  function GetCard(line: string): (r: Option<Card>)
    ensures r.Some? <==> CardNumber(line).Some? && CardNumber(line).value > 0 && MatchCount(Split(line, ":")[1]).Some?
    ensures r.Some? ==> r.value.id + 1 == CardNumber(line).value && r.value.n == MatchCount(Split(line, ":")[1]).value
  {
    match CardNumber(line)
    case None => None
    case Some(num) =>
      if num == 0 then None
      else
        match MatchCount(Split(line, ":")[1])
        case None => None
        case Some(n) => Some(Card(num - 1, n))
  }

  lemma SubsetCard<T>(a: set<T>, b: set<T>)
    requires a <= b
    ensures |a| <= |b|
  {
    if a != {} {
      var x :| x in a;
      SubsetCard(a - {x}, b - {x});
    }
  }

  /** A card's index is its card number minus one. */
  lemma CardIdIsNumberMinusOne(line: string)
    requires GetCard(line).Some?
    ensures CardNumber(line) == Some(GetCard(line).value.id + 1)
  {
    var c := CardNumber(line);
    assert c.Some? && c.value != 0 && GetCard(line).value.id == c.value - 1;
  }

  /** The match count is at most the size of either number set. */
  lemma MatchesBounded(numbers: string)
    requires MatchCount(numbers).Some?
    ensures var v := Split(numbers, "|");
      MatchCount(numbers).value <= |NumberSet(v[0]).value| && MatchCount(numbers).value <= |NumberSet(v[1]).value|
  {
    var v := Split(numbers, "|");
    var winning, own := NumberSet(v[0]).value, NumberSet(v[1]).value;
    SubsetCard(winning * own, winning);
    SubsetCard(winning * own, own);
  }

  /** A line "Card <k+1>:..." has card number k+1, so its index is k. */
  lemma CardIndex(k: nat, rest: string)
    requires k + 1 <= U32_MAX
    ensures CardNumber("Card " + NatToString(k + 1) + ":" + rest) == Some(k + 1)
  {
    var num := NatToString(k + 1);
    var head := "Card " + num;
    var line := head + ":" + rest;
    NoSeparator(num);
    assert head == "Card" + " " + num;
    assert ':' !in head by {
      forall i | 0 <= i < |head| ensures head[i] != ':' {
        if i >= 5 { assert head[i] == num[i - 5]; }
      }
    }
    SplitCons(head, ":", rest);
    assert Split(line, ":")[0] == head;
    SplitCons("Card", " ", num);
    SplitSingle(num, " ");
    assert Last(Split(head, " ")) == num;
    ParseNatToString(k + 1, U32_MAX);
  }

  lemma NoSeparator(num: string)
    requires AllDigits(num)
    ensures ':' !in num && ' ' !in num
  {
    forall i | 0 <= i < |num| ensures num[i] != ':' && num[i] != ' ' { assert IsDigit(num[i]); }
  }

  /** `get_cards`: one card per line; any malformed line panics. */
  function GetCards(lines: seq<string>): (r: Option<seq<Card>>)
    ensures r.Some? <==> forall i :: 0 <= i < |lines| ==> GetCard(lines[i]).Some?
    ensures r.Some? ==> |r.value| == |lines|
    ensures r.Some? ==> forall i :: 0 <= i < |lines| ==> GetCard(lines[i]) == Some(r.value[i])
  {
    CollectAll(lines, GetCard)
  }

  function Pow2(k: nat): (r: nat)
    ensures r >= 1
  {
    if k == 0 then 1 else 2 * Pow2(k - 1)
  }

  /** A card's points: 0 without matches, else 2^(n-1). */
  function Score(n: nat): (r: nat)
    ensures r == 0 <==> n == 0
    ensures n >= 2 ==> r == 2 * Score(n - 1)
  {
    if n == 0 then 0 else Pow2(n - 1)
  }

  /** The first match is worth one point and every further match doubles. */
  lemma ScoreDoubles(n: nat)
    ensures Score(n) == 0 <==> n == 0
    ensures Score(1) == 1
    ensures n >= 1 ==> Score(n + 1) == 2 * Score(n)
  {
  }

  function Scores(cards: seq<Card>): (r: seq<int>)
    ensures |r| == |cards| && forall i :: 0 <= i < |cards| ==> r[i] == Score(cards[i].n)
  {
    seq(|cards|, i requires 0 <= i < |cards| => Score(cards[i].n) as int)
  }

  /** `solve1`: the sum of the cards' points. */
  function Solve1(cards: seq<Card>): (r: int)
    ensures r >= 0
    ensures r == Sum(Scores(cards))
  {
    SumNonNegative(Scores(cards));
    Sum(Scores(cards))
  }

  /** Processing one card: each of the next `n` cards gains as many copies as
      the card has; nothing else changes. */
  function AddCopies(counts: seq<int>, id: nat, n: nat): (r: seq<int>)
    requires id < |counts|
    ensures |r| == |counts|
  {
    seq(|counts|, i requires 0 <= i < |counts| => if id < i <= id + n then counts[i] + counts[id] else counts[i])
  }

  /** The counts after the first `k` cards, starting from one of each. */
  function CountsAfter(cards: seq<Card>, k: nat): (r: seq<int>)
    requires k <= |cards|
    requires forall i :: 0 <= i < |cards| ==> cards[i].id < |cards|
    ensures |r| == |cards|
  {
    if k == 0 then seq(|cards|, i => 1)
    else AddCopies(CountsAfter(cards, k - 1), cards[k - 1].id, cards[k - 1].n)
  }

  predicate InRange(cards: seq<Card>)
  {
    forall i :: 0 <= i < |cards| ==> cards[i].id + cards[i].n < |cards|
  }

  /** `solve2`: a count per card, updated in place card by card; the result
      is the total number of cards. Every index the source touches must lie
      inside the vector, i.e. id + n < len. */
  method Solve2(cards: seq<Card>) returns (r: int)
    requires InRange(cards)
    ensures r == Sum(CountsAfter(cards, |cards|))
    ensures r >= |cards|
  {
    var counts := new int[|cards|](i => 1);
    assert counts[..] == CountsAfter(cards, 0);
    var k := 0;
    while k < |cards|
      invariant 0 <= k <= |cards|
      invariant counts[..] == CountsAfter(cards, k)
    {
      var c := cards[k];
      ghost var before := counts[..];
      var i := c.id + 1;
      while i <= c.id + c.n
        invariant c.id + 1 <= i <= c.id + c.n + 1
        invariant counts[c.id] == before[c.id]
        invariant forall j :: 0 <= j < counts.Length ==>
          counts[j] == (if c.id < j < i then before[j] + before[c.id] else before[j])
      {
        counts[i] := counts[i] + counts[c.id];
        i := i + 1;
      }
      assert counts[..] == AddCopies(before, c.id, c.n);
      k := k + 1;
    }
    r := Sum(counts[..]);
    CountsAtLeastOne(cards, |cards|);
    SumAtLeastLength(counts[..]);
  }

  /** Counts start at one and never decrease, so every card has at least
      one copy. */
  lemma {:induction false} CountsAtLeastOne(cards: seq<Card>, k: nat)
    requires k <= |cards| && InRange(cards)
    ensures forall i :: 0 <= i < |cards| ==> CountsAfter(cards, k)[i] >= 1
  {
    if k > 0 {
      CountsAtLeastOne(cards, k - 1);
    }
  }

  /** One more card never lowers a count. */
  lemma CountsGrow(cards: seq<Card>, k: nat)
    requires k < |cards| && InRange(cards)
    ensures forall i :: 0 <= i < |cards| ==> CountsAfter(cards, k)[i] <= CountsAfter(cards, k + 1)[i]
  {
    CountsAtLeastOne(cards, k);
  }
}
