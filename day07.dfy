/** Camel cards (src/day07.rs). A line "32T3K 765" is a hand of cards and a
    bid. A hand's type comes from how often each card occurs (`counts`), or,
    for the second part, from the counts with the jokers 'J' added to a
    largest count (`counts_j`); hands are ordered by type, then card by card,
    and each bid is multiplied by its hand's position in that order. */
module Day07 {
  import opened RustStd

  datatype Hand = Hand(cards: string, counts: seq<nat>, countsJ: seq<nat>, bid: nat)

  // Hand::new

  /** The distinct cards of `s` in order of first occurrence. They stand for
      the keys of the count map, whose iteration order the source leaves to
      the hash map; every use of the counts below is order-independent. */
  function Distinct(s: string): (r: string)
    ensures forall c :: c in r <==> c in s
    ensures NoDupChars(r)
  {
    if |s| == 0 then []
    else
      assert s == s[..|s| - 1] + [s[|s| - 1]];
      var d := Distinct(s[..|s| - 1]);
      if s[|s| - 1] in d then d else d + [s[|s| - 1]]
  }

  predicate NoDupChars(s: string)
  {
    forall i, j :: 0 <= i < j < |s| ==> s[i] != s[j]
  }

  /** The cards of `keys` other than the joker, in order. */
  function WithoutJoker(keys: string): (r: string)
    ensures forall c :: c in r <==> c in keys && c != 'J'
    ensures NoDupChars(keys) ==> NoDupChars(r)
  {
    if |keys| == 0 then []
    else
      var init := keys[..|keys| - 1];
      var last := keys[|keys| - 1];
      assert keys == init + [last];
      var w := WithoutJoker(init);
      if last == 'J' then w
      else
        assert NoDupChars(keys) ==> last !in w && NoDupChars(w + [last]) by {
          if NoDupChars(keys) {
            forall i | 0 <= i < |init| ensures init[i] != last {
              assert init[i] == keys[i];
            }
            assert last !in init;
          }
        }
        w + [last]
  }

  lemma DistinctSnoc(s: string, x: char)
    ensures Distinct(s + [x]) == if x in Distinct(s) then Distinct(s) else Distinct(s) + [x]
  {
    assert (s + [x])[..|s|] == s;
  }

  lemma WithoutJokerSnoc(keys: string, x: char)
    ensures WithoutJoker(keys + [x]) == if x == 'J' then WithoutJoker(keys) else WithoutJoker(keys) + [x]
  {
    assert (keys + [x])[..|keys|] == keys;
  }

  lemma CountSnoc(s: string, x: char)
    ensures forall c :: Count(s + [x], c) == Count(s, c) + (if x == c then 1 else 0)
  {
    assert (s + [x])[..|s|] == s;
  }

  /** The occurrence count of each key in `s`: the values of a count map. */
  function CountsOf(s: string, keys: string): (r: seq<nat>)
    ensures |r| == |keys| && forall i :: 0 <= i < |keys| ==> r[i] == Count(s, keys[i])
  {
    seq(|keys|, i requires 0 <= i < |keys| => Count(s, keys[i]))
  }

  /** `counts`: how often each distinct card occurs. */
  function Counts(s: string): seq<nat>
  {
    CountsOf(s, Distinct(s))
  }

  /** The first index of a largest count (`max` then `position`). */
  function MaxPos(c: seq<nat>): (p: nat)
    requires |c| > 0
    ensures p < |c| && forall j :: 0 <= j < |c| ==> c[j] <= c[p]
    ensures forall j :: 0 <= j < p ==> c[j] < c[p]
  {
    var m := Max(c).value;
    var p := Position(c, m as nat).value;
    p
  }

  /** The jokers join a largest count of the other cards; with no other card
      the hand is five of a kind. */
  function AddJokers(cj: seq<nat>, nj: nat): seq<nat>
  {
    if |cj| == 0 then [5]
    else
      var p := MaxPos(cj);
      cj[p := cj[p] + nj]
  }

  /** `counts_j`: without a joker, the plain counts; otherwise the counts of
      the other cards with the jokers added. */
  function JokerCounts(s: string): seq<nat>
  {
    var nj := Count(s, 'J');
    if nj == 0 then Counts(s)
    else AddJokers(CountsOf(s, WithoutJoker(Distinct(s))), nj)
  }

  /** The spec of `Hand::new`: the first ' '-separated word is the hand, the
      second its bid as a `u64`; a missing or unparsable bid panics. */
  function HandOf(line: string): Option<Hand>
  {
    var p := Split(line, " ");
    if |p| < 2 then None
    else
      match ParseUnsigned(p[1], U64_MAX)
      case None => None
      case Some(bid) => Some(Hand(p[0], Counts(p[0]), JokerCounts(p[0]), bid))
  }

  /** The accumulators of the loop in `Hand::new`: the count map and the
      joker-free count map, each with its keys in order of insertion, and
      the number of jokers. */
  datatype Tally = Tally(counts: map<char, nat>, keys: string, countsJ: map<char, nat>, keysJ: string, nj: nat)

  /** One card into a count map: its count goes up by one, a new card
      becomes a key with count 1. */
  function Bump(m: map<char, nat>, keys: string, c: char): (map<char, nat>, string)
  {
    if c in m then (m[c := m[c] + 1], keys) else (m[c := 1], keys + [c])
  }

  /** One iteration: the card is counted in the first map; a joker goes to
      `nj`, any other card to the second map. */
  function AddCard(t: Tally, c: char): Tally
  {
    var (m, k) := Bump(t.counts, t.keys, c);
    if c == 'J' then Tally(m, k, t.countsJ, t.keysJ, t.nj + 1)
    else
      var (mJ, kJ) := Bump(t.countsJ, t.keysJ, c);
      Tally(m, k, mJ, kJ, t.nj)
  }

  function TallyOf(s: string): Tally
  {
    if |s| == 0 then Tally(map[], [], map[], [], 0)
    else AddCard(TallyOf(s[..|s| - 1]), s[|s| - 1])
  }

  lemma TallySnoc(s: string, c: char)
    ensures TallyOf(s + [c]) == AddCard(TallyOf(s), c)
  {
    assert (s + [c])[..|s|] == s;
  }

  /** The keys of the loop's maps: the distinct cards, and those without the
      joker; each map's domain is its keys. */
  lemma {:induction false} TallyKeys(s: string)
    ensures var t := TallyOf(s);
      t.keys == Distinct(s) && t.keysJ == WithoutJoker(t.keys)
      && (forall c :: c in t.counts <==> c in t.keys)
      && (forall c :: c in t.countsJ <==> c in t.keysJ)
    decreases |s|
  {
    if |s| > 0 {
      var init, c := s[..|s| - 1], s[|s| - 1];
      assert s == init + [c];
      TallyKeys(init);
      TallySnoc(init, c);
      DistinctSnoc(init, c);
      WithoutJokerSnoc(TallyOf(init).keys, c);
    }
  }

  /** What the loop counts: each map holds the number of occurrences of each
      of its keys, and `nj` the number of jokers. */
  lemma {:induction false} TallyCounts(s: string)
    ensures var t := TallyOf(s);
      t.nj == Count(s, 'J')
      && (forall c :: c in t.counts ==> t.counts[c] == Count(s, c))
      && (forall c :: c in t.countsJ ==> t.countsJ[c] == Count(s, c))
    decreases |s|
  {
    if |s| > 0 {
      var init, c := s[..|s| - 1], s[|s| - 1];
      assert s == init + [c];
      TallyCounts(init);
      TallyKeys(init);
      TallySnoc(init, c);
      CountSnoc(init, c);
    }
  }

  /** The values of a count map, read in the order of its keys. */
  function Values(m: map<char, nat>, keys: string): (r: seq<nat>)
    requires forall c :: c in keys ==> c in m
    ensures |r| == |keys| && forall k :: 0 <= k < |keys| ==> r[k] == m[keys[k]]
  {
    seq(|keys|, k requires 0 <= k < |keys| => m[keys[k]])
  }

  /** Read in key order, the loop's maps give the counts and the joker-free
      counts. */
  lemma TallyValues(cards: string)
    ensures var t := TallyOf(cards);
      (forall c :: c in t.keys ==> c in t.counts) && (forall c :: c in t.keysJ ==> c in t.countsJ)
      && Values(t.counts, t.keys) == Counts(cards)
      && Values(t.countsJ, t.keysJ) == CountsOf(cards, WithoutJoker(Distinct(cards)))
  {
    TallyKeys(cards);
    TallyCounts(cards);
  }

  /** The count maps of `Hand::new` and their values, read in key order. */
  method CountVectors(cards: string) returns (counts: seq<nat>, countsJ: seq<nat>, nj: nat)
    ensures counts == Counts(cards)
    ensures countsJ == CountsOf(cards, WithoutJoker(Distinct(cards)))
    ensures nj == Count(cards, 'J')
  {
    var t := CountCards(cards);
    TallyValues(cards);
    TallyCounts(cards);
    counts := Values(t.counts, t.keys);
    countsJ := Values(t.countsJ, t.keysJ);
    nj := t.nj;
  }

  lemma JokerCountsOf(cards: string, counts: seq<nat>, cj: seq<nat>, nj: nat)
    requires counts == Counts(cards)
    requires cj == CountsOf(cards, WithoutJoker(Distinct(cards)))
    requires nj == Count(cards, 'J')
    ensures JokerCounts(cards) == if nj == 0 then counts else AddJokers(cj, nj)
  {
  }

  /** The joker step of `Hand::new`: the jokers join the first largest of
      the other counts. */
  method AddJokersTo(counts: seq<nat>, countsJ: seq<nat>, nj: nat) returns (r: seq<nat>)
    ensures nj == 0 ==> r == counts
    ensures nj > 0 ==> r == AddJokers(countsJ, nj)
  {
    if nj > 0 {
      if |countsJ| == 0 {
        r := [5];
      } else {
        var pos := MaxPos(countsJ);
        r := countsJ[pos := countsJ[pos] + nj];
      }
    } else {
      r := counts;
    }
  }

  /** `Hand::new`: the count maps are filled by `CountCards`; the joker
      count goes to a largest other count. */
  method NewHand(line: string) returns (r: Option<Hand>)
    ensures r == HandOf(line)
  {
    var p := Split(line, " ");
    if |p| < 2 {
      return None;
    }
    var cards := p[0];
    var counts, countsJ, nj := CountVectors(cards);
    JokerCountsOf(cards, counts, countsJ, nj);
    countsJ := AddJokersTo(counts, countsJ, nj);
    var bid := ParseUnsigned(p[1], U64_MAX);
    if bid.None? {
      return None;
    }
    r := Some(Hand(cards, counts, countsJ, bid.value));
  }

  /** The loop of `Hand::new`: one pass over the cards filling the two count
      maps. */
  method CountCards(cards: string) returns (t: Tally)
    ensures t == TallyOf(cards)
  {
    var countsMap: map<char, nat> := map[];
    var keys: string := [];
    var countsJMap: map<char, nat> := map[];
    var keysJ: string := [];
    var nj: nat := 0;
    var i := 0;
    while i < |cards|
      invariant 0 <= i <= |cards|
      invariant Tally(countsMap, keys, countsJMap, keysJ, nj) == TallyOf(cards[..i])
    {
      var c := cards[i];
      assert cards[..i + 1][..i] == cards[..i];
      if c in countsMap {
        countsMap := countsMap[c := countsMap[c] + 1];
      } else {
        countsMap := countsMap[c := 1];
        keys := keys + [c];
      }
      if c == 'J' {
        nj := nj + 1;
      } else if c in countsJMap {
        countsJMap := countsJMap[c := countsJMap[c] + 1];
      } else {
        countsJMap := countsJMap[c := 1];
        keysJ := keysJ + [c];
      }
      i := i + 1;
    }
    assert cards[..i] == cards;
    t := Tally(countsMap, keys, countsJMap, keysJ, nj);
  }

  // What the counts add up to

  /** How many cards of `s` are among `keys`. */
  function CountIn(s: string, keys: string): (n: nat)
    ensures n <= |s|
  {
    if |s| == 0 then 0 else CountIn(s[..|s| - 1], keys) + (if s[|s| - 1] in keys then 1 else 0)
  }

  lemma {:induction false} CountInNone(s: string)
    ensures CountIn(s, []) == 0
    decreases |s|
  {
    if |s| > 0 {
      CountInNone(s[..|s| - 1]);
    }
  }

  lemma {:induction false} CountInSnocKey(s: string, keys: string, k: char)
    requires k !in keys
    ensures CountIn(s, keys + [k]) == CountIn(s, keys) + Count(s, k)
    decreases |s|
  {
    if |s| > 0 {
      CountInSnocKey(s[..|s| - 1], keys, k);
    }
  }

  /** The counts of distinct keys add up to the number of cards among them. */
  lemma {:induction false} SumCountsOf(s: string, keys: string)
    requires NoDupChars(keys)
    ensures Sum(CountsOf(s, keys)) == CountIn(s, keys)
    decreases |keys|
  {
    if |keys| == 0 {
      CountInNone(s);
    } else {
      var init, k := keys[..|keys| - 1], keys[|keys| - 1];
      assert keys == init + [k];
      assert k !in init by {
        forall i | 0 <= i < |init| ensures init[i] != k {
          assert init[i] == keys[i];
        }
      }
      SumCountsOf(s, init);
      assert CountsOf(s, keys)[..|keys| - 1] == CountsOf(s, init);
      CountInSnocKey(s, init, k);
    }
  }

  /** Every card is among keys that hold all the cards but the joker, except
      the jokers. */
  lemma {:induction false} CountInOthers(s: string, keys: string)
    requires forall i :: 0 <= i < |s| && s[i] != 'J' ==> s[i] in keys
    requires 'J' !in keys
    ensures CountIn(s, keys) + Count(s, 'J') == |s|
    decreases |s|
  {
    if |s| > 0 {
      CountInOthers(s[..|s| - 1], keys);
    }
  }

  lemma {:induction false} CountInAll(s: string, keys: string)
    requires forall i :: 0 <= i < |s| ==> s[i] in keys
    ensures CountIn(s, keys) == |s|
    decreases |s|
  {
    if |s| > 0 {
      CountInAll(s[..|s| - 1], keys);
    }
  }

  /** Every count is positive. */
  lemma CountsOfPositive(s: string, keys: string)
    requires forall c :: c in keys ==> c in s
    ensures forall i :: 0 <= i < |keys| ==> CountsOf(s, keys)[i] >= 1
  {
  }

  /** `counts` adds up to the number of cards, each count positive. */
  lemma CountsSum(s: string)
    ensures Sum(Counts(s)) == |s|
    ensures forall i :: 0 <= i < |Counts(s)| ==> Counts(s)[i] >= 1
  {
    SumCountsOf(s, Distinct(s));
    CountInAll(s, Distinct(s));
  }

  lemma AddJokersAt(cj: seq<nat>, nj: nat)
    requires |cj| > 0
    ensures AddJokers(cj, nj) == cj[MaxPos(cj) := cj[MaxPos(cj)] + nj]
  {
  }

  /** The jokers add their number to the sum of the counts. */
  lemma AddJokersSum(cj: seq<nat>, nj: nat)
    requires |cj| > 0
    ensures Sum(AddJokers(cj, nj)) == Sum(cj) + nj
  {
    var p := MaxPos(cj);
    SumBump(cj, p, nj);
    assert AddJokers(cj, nj) == cj[p := cj[p] + nj];
  }

  lemma SumBump(c: seq<nat>, p: nat, n: nat)
    requires p < |c|
    ensures Sum(c[p := c[p] + n]) == Sum(c) + n
  {
    SumUpdate(c, p, n, c[p := c[p] + n]);
  }

  /** The jokers all join one largest count. */
  lemma AddJokersMax(cj: seq<nat>, nj: nat)
    requires |cj| > 0
    ensures JoinsMax(cj, nj, AddJokers(cj, nj))
  {
    var p := MaxPos(cj);
    AddJokersAt(cj, nj);
    assert IsMaxAt(cj, p);
  }

  /** `r` is `c` with `n` added to a largest entry. */
  predicate JoinsMax(c: seq<nat>, n: nat, r: seq<nat>)
  {
    exists p :: 0 <= p < |c| && IsMaxAt(c, p) && r == c[p := c[p] + n]
  }

  predicate IsMaxAt(c: seq<nat>, p: int)
  {
    0 <= p < |c| && forall j :: 0 <= j < |c| ==> c[j] <= c[p]
  }

  /** The counts of the cards other than the joker, and their facts. */
  lemma OtherCounts(s: string)
    ensures var cj := CountsOf(s, WithoutJoker(Distinct(s)));
      Sum(cj) + Count(s, 'J') == |s| && (|cj| == 0 <==> Count(s, 'J') == |s|)
      && forall i :: 0 <= i < |cj| ==> cj[i] >= 1
  {
    var keys := WithoutJoker(Distinct(s));
    var cj := CountsOf(s, keys);
    SumCountsOf(s, keys);
    CountInOthers(s, keys);
    CountsOfPositive(s, keys);
    if |cj| == 0 {
      CountInNone(s);
    } else {
      SumAtLeastLength(cj);
    }
  }

  /** Without a joker `counts_j` is `counts`. */
  lemma NoJokerSameCounts(s: string)
    requires Count(s, 'J') == 0
    ensures JokerCounts(s) == Counts(s)
  {
  }

  /** A hand of jokers only is five of a kind. */
  lemma AllJokersFive(s: string)
    requires 0 < |s| == Count(s, 'J')
    ensures JokerCounts(s) == [5]
  {
    var nj, cj := Count(s, 'J'), CountsOf(s, WithoutJoker(Distinct(s)));
    JokerCountsOf(s, Counts(s), cj, nj);
    OtherCounts(s);
  }

  /** Otherwise the jokers keep the total: `counts_j` adds up to the number
      of cards. */
  lemma JokerCountsSum(s: string)
    requires Count(s, 'J') < |s|
    ensures Sum(JokerCounts(s)) == |s|
  {
    var nj, cj := Count(s, 'J'), CountsOf(s, WithoutJoker(Distinct(s)));
    JokerCountsOf(s, Counts(s), cj, nj);
    if nj == 0 {
      CountsSum(s);
    } else {
      OtherCounts(s);
      AddJokersSum(cj, nj);
    }
  }

  /** Every entry of `counts_j` is positive. */
  lemma JokerCountsPositive(s: string)
    ensures forall i :: 0 <= i < |JokerCounts(s)| ==> JokerCounts(s)[i] >= 1
  {
    var nj, cj := Count(s, 'J'), CountsOf(s, WithoutJoker(Distinct(s)));
    if nj == 0 {
      CountsSum(s);
    } else {
      OtherCounts(s);
      AddJokersPositive(cj, nj);
    }
  }

  /** Adding jokers to positive counts keeps them positive. */
  lemma AddJokersPositive(cj: seq<nat>, nj: nat)
    requires forall i :: 0 <= i < |cj| ==> cj[i] >= 1
    ensures forall i :: 0 <= i < |AddJokers(cj, nj)| ==> AddJokers(cj, nj)[i] >= 1
  {
    if |cj| > 0 {
      AddJokersAt(cj, nj);
    }
  }

  /** With jokers and other cards, a largest count of the other cards has
      gained every joker. */
  lemma JokerCountsMax(s: string)
    requires 0 < Count(s, 'J') < |s|
    ensures JoinsMax(CountsOf(s, WithoutJoker(Distinct(s))), Count(s, 'J'), JokerCounts(s))
  {
    OthersNonEmpty(s);
    JokerMaxAt(s, CountsOf(s, WithoutJoker(Distinct(s))), Count(s, 'J'));
  }

  lemma OthersNonEmpty(s: string)
    requires Count(s, 'J') < |s|
    ensures |CountsOf(s, WithoutJoker(Distinct(s)))| > 0
  {
    OtherCounts(s);
  }

  lemma JokerMaxAt(s: string, cj: seq<nat>, nj: nat)
    requires cj == CountsOf(s, WithoutJoker(Distinct(s))) && nj == Count(s, 'J')
    requires 0 < nj && |cj| > 0
    ensures JoinsMax(cj, nj, JokerCounts(s))
  {
    JokerCountsOf(s, Counts(s), cj, nj);
    AddJokersMax(cj, nj);
  }

  // The hand types

  function IsFive(c: seq<nat>): nat { if 5 in c then 7 else 0 }
  function IsFour(c: seq<nat>): nat { if 4 in c then 6 else 0 }
  function IsFull(c: seq<nat>): nat { if 3 in c && 2 in c then 5 else 0 }
  function IsThree(c: seq<nat>): nat { if Count(c, 1) == 2 && Count(c, 3) == 1 then 4 else 0 }
  function IsTwoPairs(c: seq<nat>): nat { if Count(c, 2) == 2 then 3 else 0 }
  function IsOnePair(c: seq<nat>): nat { if Count(c, 2) == 1 then 2 else 0 }
  function IsHigh(c: seq<nat>): nat { if Count(c, 1) == 5 then 1 else 0 }

  /** The classifiers of `get_rank`, strongest first: entry `i` is either 0
      or `7 - i`. */
  function Classify(c: seq<nat>): (r: seq<nat>)
    ensures |r| == 7 && forall i :: 0 <= i < 7 ==> r[i] == 0 || r[i] == 7 - i
  {
    [IsFive(c), IsFour(c), IsFull(c), IsThree(c), IsTwoPairs(c), IsOnePair(c), IsHigh(c)]
  }

  /** `filter(x > 0).first()`: the first nonzero entry. */
  function FirstNonZero(s: seq<nat>): (r: Option<nat>)
    ensures r.None? <==> forall i :: 0 <= i < |s| ==> s[i] == 0
    ensures r.Some? ==> exists i :: 0 <= i < |s| && s[i] == r.value && r.value != 0 && forall j :: 0 <= j < i ==> s[j] == 0
    decreases |s|
  {
    if |s| == 0 then None
    else if s[0] != 0 then Some(s[0])
    else
      match FirstNonZero(s[1..])
      case None => None
      case Some(v) =>
        assert forall j :: 1 <= j < |s| ==> s[j] == s[1..][j - 1];
        Some(v)
  }

  /** `get_rank`: the value of the strongest type that applies, 7 for five of
      a kind down to 1 for a high card; counts of no type panic. */
  function GetRank(c: seq<nat>): (r: Option<nat>)
    ensures r.None? <==> forall i :: 0 <= i < 7 ==> Classify(c)[i] == 0
    ensures r.Some? ==> 1 <= r.value <= 7 && Classify(c)[7 - r.value] == r.value
    ensures r.Some? ==> forall j :: 0 <= j < 7 - r.value ==> Classify(c)[j] == 0
  {
    FirstNonZero(Classify(c))
  }

  /** Positive counts adding up to five always have a type. */
  lemma RankTotal(c: seq<nat>)
    requires forall i :: 0 <= i < |c| ==> c[i] >= 1
    requires Sum(c) == 5
    ensures GetRank(c).Some?
  {
    forall i | 0 <= i < |c| ensures c[i] <= 5 {
      ElemAtMostSum(c, i);
    }
    SumByCounts(c);
    var n1, n2, n3, n4, n5 := Count(c, 1), Count(c, 2), Count(c, 3), Count(c, 4), Count(c, 5);
    var k := Classify(c);
    if n5 > 0 {
      assert k[0] != 0;
    } else if n4 > 0 {
      assert k[1] != 0;
    } else if n3 > 0 && n2 > 0 {
      assert k[2] != 0;
    } else if n3 > 0 {
      assert n3 == 1 && n1 == 2;
      assert k[3] != 0;
    } else if n2 == 2 {
      assert k[4] != 0;
    } else if n2 == 1 {
      assert k[5] != 0;
    } else {
      assert n1 == 5;
      assert k[6] != 0;
    }
  }

  /** A sum of counts from 1 to 5 by value. */
  lemma {:induction false} SumByCounts(c: seq<nat>)
    requires forall i :: 0 <= i < |c| ==> 1 <= c[i] <= 5
    ensures Sum(c) == Count(c, 1) + 2 * Count(c, 2) + 3 * Count(c, 3) + 4 * Count(c, 4) + 5 * Count(c, 5)
    decreases |c|
  {
    if |c| > 0 {
      SumByCounts(c[..|c| - 1]);
    }
  }

  /** A hand of five cards has a type in both parts. */
  lemma FiveCardsRanked(line: string)
    requires HandOf(line).Some? && |HandOf(line).value.cards| == 5
    ensures GetRank(HandOf(line).value.counts).Some?
    ensures GetRank(HandOf(line).value.countsJ).Some?
  {
    var cards := HandOf(line).value.cards;
    CountsSum(cards);
    RankTotal(Counts(cards));
    JokerCountsPositive(cards);
    if Count(cards, 'J') < 5 {
      JokerCountsSum(cards);
      RankTotal(JokerCounts(cards));
    } else {
      AllJokersFive(cards);
      assert Classify(JokerCounts(cards))[0] == 7;
    }
  }

  // Comparing cards

  /** The card lists of the two parts, strongest first; in the second the
      joker is the weakest card. */
  const Part1Cards: string := "AKQJT98765432"
  const Part2Cards: string := "AKQT98765432J"

  /** `compare`: 1 when `c1` comes first in the card list (is the stronger
      card), -1 when `c2` does, 0 for the same card; a card missing from
      the list panics on `unwrap`. */
  function Compare(c1: char, c2: char, cards: string): (r: Option<int>)
    ensures r.Some? <==> c1 in cards && c2 in cards
    ensures r.Some? ==> (r.value == 0 <==> c1 == c2)
    ensures r.Some? ==> r.value == 1 || r.value == 0 || r.value == -1
  {
    match (Position(cards, c1), Position(cards, c2))
    case (Some(i1), Some(i2)) => Some(if i1 < i2 then 1 else if i1 > i2 then -1 else 0)
    case _ => None
  }

  /** How strong a card is: the number of list cards after it. */
  function Strength(c: char, cards: string): (r: nat)
    ensures c in cards ==> r < |cards|
  {
    match Position(cards, c)
    case Some(i) => |cards| - 1 - i
    case None => 0
  }

  /** `compare` orders cards by strength. */
  lemma CompareByStrength(c1: char, c2: char, cards: string)
    requires c1 in cards && c2 in cards
    ensures Compare(c1, c2, cards) == Some(1) <==> Strength(c1, cards) > Strength(c2, cards)
    ensures Compare(c1, c2, cards) == Some(-1) <==> Strength(c1, cards) < Strength(c2, cards)
  {
  }

  /** Swapping the cards negates `compare`. */
  lemma CompareAntisymmetric(c1: char, c2: char, cards: string)
    requires Compare(c1, c2, cards).Some?
    ensures Compare(c2, c1, cards) == Some(-Compare(c1, c2, cards).value)
  {
  }

  /** The comparison `order` reaches: that of the first pair of different
      cards. Comparing stops at the first nonzero result, so only the cards
      up to there must be in the list; running out of pairs panics. */
  function FirstDiff(s1: string, s2: string, cards: string): (r: Option<int>)
    ensures r.Some? ==> r.value == 1 || r.value == -1
    decreases |s1|
  {
    if |s1| == 0 || |s2| == 0 then None
    else
      match Compare(s1[0], s2[0], cards)
      case None => None
      case Some(v) => if v != 0 then Some(v) else FirstDiff(s1[1..], s2[1..], cards)
  }

  /** Position `i` is the first at which the strings differ, and every card up
      to it is in the list. */
  predicate DiffAt(s1: string, s2: string, cards: string, i: int)
  {
    0 <= i < |s1| && i < |s2| && s1[i] != s2[i] && s1[i] in cards && s2[i] in cards
    && forall j :: 0 <= j < i ==> s1[j] == s2[j] && s1[j] in cards
  }

  /** `order` is decided by the first differing card: the comparison found is
      `v` exactly when the strings first differ at a position whose cards
      compare as `v`. */
  lemma {:induction false} FirstDiffSpec(s1: string, s2: string, cards: string, v: int)
    ensures FirstDiff(s1, s2, cards) == Some(v) <==>
      exists i :: DiffAt(s1, s2, cards, i) && Compare(s1[i], s2[i], cards) == Some(v)
    decreases |s1|
  {
    if |s1| > 0 && |s2| > 0 {
      DiffAtHead(s1, s2, cards);
      var t1, t2 := s1[1..], s2[1..];
      if s1[0] == s2[0] && s1[0] in cards {
        FirstDiffSpec(t1, t2, cards, v);
        DiffAtShift(s1, s2, cards);
        if FirstDiff(s1, s2, cards) == Some(v) {
          var i :| DiffAt(t1, t2, cards, i) && Compare(t1[i], t2[i], cards) == Some(v);
          assert DiffAt(s1, s2, cards, i + 1);
        }
        if exists i :: DiffAt(s1, s2, cards, i) && Compare(s1[i], s2[i], cards) == Some(v) {
          var i :| DiffAt(s1, s2, cards, i) && Compare(s1[i], s2[i], cards) == Some(v);
          assert DiffAt(t1, t2, cards, i - 1);
        }
      } else if s1[0] in cards && s2[0] in cards {
        assert DiffAt(s1, s2, cards, 0);
      }
    }
  }

  /** Where the strings first differ: a difference at 0 needs different
      first cards, a later one equal first cards, and both need them listed. */
  lemma DiffAtHead(s1: string, s2: string, cards: string)
    requires |s1| > 0 && |s2| > 0
    ensures forall i :: DiffAt(s1, s2, cards, i) ==> s1[0] in cards && s2[0] in cards
    ensures forall i :: DiffAt(s1, s2, cards, i) ==> (i == 0 <==> s1[0] != s2[0])
  {
  }

  /** Past an equal listed first card, the first difference moves one place. */
  lemma DiffAtShift(s1: string, s2: string, cards: string)
    requires |s1| > 0 && |s2| > 0 && s1[0] == s2[0] && s1[0] in cards
    ensures forall i :: DiffAt(s1[1..], s2[1..], cards, i) <==> DiffAt(s1, s2, cards, i + 1)
    ensures forall i :: 0 <= i < |s1| - 1 ==> s1[1..][i] == s1[i + 1]
    ensures forall i :: 0 <= i < |s2| - 1 ==> s2[1..][i] == s2[i + 1]
  {
    var t1, t2 := s1[1..], s2[1..];
    forall i ensures DiffAt(t1, t2, cards, i) <==> DiffAt(s1, s2, cards, i + 1) {
      if DiffAt(t1, t2, cards, i) {
        assert forall j :: 1 <= j < i + 1 ==> s1[j] == t1[j - 1] && s2[j] == t2[j - 1];
      }
      if DiffAt(s1, s2, cards, i + 1) {
        assert forall j :: 0 <= j < i ==> t1[j] == s1[j + 1] && t2[j] == s2[j + 1];
      }
    }
  }

  /** `order` panics on two equal hands. */
  lemma {:induction false} FirstDiffSame(s: string, cards: string)
    ensures FirstDiff(s, s, cards) == None
    decreases |s|
  {
    if |s| > 0 {
      FirstDiffSame(s[1..], cards);
    }
  }

  /** Two different hands of the same length from the list always reach a
      nonzero comparison. */
  lemma {:induction false} FirstDiffDefined(s1: string, s2: string, cards: string)
    requires |s1| == |s2| && s1 != s2
    requires forall i :: 0 <= i < |s1| ==> s1[i] in cards && s2[i] in cards
    ensures FirstDiff(s1, s2, cards).Some?
    decreases |s1|
  {
    if s1[0] == s2[0] {
      assert s1 == [s1[0]] + s1[1..] && s2 == [s2[0]] + s2[1..];
      FirstDiffDefined(s1[1..], s2[1..], cards);
    }
  }

  /** Swapping the hands negates the comparison `order` finds. */
  lemma {:induction false} FirstDiffSwap(s1: string, s2: string, cards: string)
    ensures FirstDiff(s2, s1, cards) == match FirstDiff(s1, s2, cards) case None => None case Some(v) => Some(-v)
    decreases |s1|
  {
    if |s1| > 0 && |s2| > 0 {
      if Compare(s1[0], s2[0], cards).Some? {
        CompareAntisymmetric(s1[0], s2[0], cards);
      }
      FirstDiffSwap(s1[1..], s2[1..], cards);
    }
  }

  /** `order` as written: the first nonzero comparison, 1 or -1, compared
      with 1. A stronger first hand (1) gives `Equal`, a weaker one (-1)
      gives `Less`, and `Greater` never occurs. */
  function OrderAsWritten(s1: string, s2: string, cards: string): (r: Option<Ordering>)
    ensures r != Some(Greater)
  {
    match FirstDiff(s1, s2, cards)
    case None => None
    case Some(v) => Some(Cmp(v, 1))
  }

  /** `order` as evidently intended: the sign of the first nonzero
      comparison, so that a stronger first hand is `Greater`. */
  function Order(s1: string, s2: string, cards: string): (r: Option<Ordering>)
    ensures r != Some(Equal)
  {
    match FirstDiff(s1, s2, cards)
    case None => None
    case Some(v) => Some(Cmp(v, 0))
  }

  /** The corrected `order` is antisymmetric. */
  lemma OrderAntisymmetric(s1: string, s2: string, cards: string)
    ensures Order(s1, s2, cards) == Some(Less) <==> Order(s2, s1, cards) == Some(Greater)
  {
    FirstDiffSwap(s1, s2, cards);
  }

  /** The `order` as written tells a stronger hand from an equal one only by
      `Equal`: it agrees with the corrected `order` on `Less`, which is all a
      sort asks of a comparator, and answers `Equal` where that answers
      `Greater`. */
  lemma OrderAsWrittenAgrees(s1: string, s2: string, cards: string)
    ensures OrderAsWritten(s1, s2, cards) == Some(Less) <==> Order(s1, s2, cards) == Some(Less)
    ensures OrderAsWritten(s1, s2, cards) == Some(Equal) <==> Order(s1, s2, cards) == Some(Greater)
  {
  }

  /** Under the `order` as written "A" against "K" is `Equal` although "K"
      against "A" is `Less`, so `Equal` does not mean equal; both card lists
      start with 'A', 'K'. */
  lemma OrderAsWrittenNotAntisymmetric(a: string, k: string, cards: string)
    requires a == "A" && k == "K" && |cards| >= 2 && cards[0] == 'A' && cards[1] == 'K'
    ensures OrderAsWritten(a, k, cards) == Some(Equal)
    ensures OrderAsWritten(k, a, cards) == Some(Less)
  {
    AceOverKing(cards);
    assert FirstDiff(a, k, cards) == Some(1);
    assert FirstDiff(k, a, cards) == Some(-1);
  }

  lemma AceOverKing(cards: string)
    requires |cards| >= 2 && cards[0] == 'A' && cards[1] == 'K'
    ensures Compare('A', 'K', cards) == Some(1) && Compare('K', 'A', cards) == Some(-1)
  {
    assert Position(cards, 'A') == Some(0);
    assert cards[1..][0] == 'K';
    assert Position(cards, 'K') == Some(1);
  }

  // Sorting the hands

  /** How a part ranks hands: its card list and which counts it reads. */
  datatype Scorer = Scorer(cards: string, joker: bool)

  const Part1: Scorer := Scorer(Part1Cards, false)
  const Part2: Scorer := Scorer(Part2Cards, true)

  function CountsFor(h: Hand, sc: Scorer): seq<nat>
  {
    if sc.joker then h.countsJ else h.counts
  }

  /** The comparator of `solve`: by rank, then by `order`; two hands at equal
      rank that `order` cannot tell apart, or a hand without a rank, panic. */
  function HandCmpAsWritten(h1: Hand, h2: Hand, sc: Scorer): Option<Ordering>
  {
    match (GetRank(CountsFor(h1, sc)), GetRank(CountsFor(h2, sc)))
    case (Some(r1), Some(r2)) => if r1 != r2 then Some(Cmp(r1, r2)) else OrderAsWritten(h1.cards, h2.cards, sc.cards)
    case _ => None
  }

  /** The same comparator with the corrected `order`. */
  function HandCmp(h1: Hand, h2: Hand, sc: Scorer): Option<Ordering>
  {
    match (GetRank(CountsFor(h1, sc)), GetRank(CountsFor(h2, sc)))
    case (Some(r1), Some(r2)) => if r1 != r2 then Some(Cmp(r1, r2)) else Order(h1.cards, h2.cards, sc.cards)
    case _ => None
  }

  /** Both comparators call the same hands less. */
  lemma HandCmpLessAgrees(h1: Hand, h2: Hand, sc: Scorer)
    ensures HandCmpAsWritten(h1, h2, sc) == Some(Less) <==> HandCmp(h1, h2, sc) == Some(Less)
  {
    OrderAsWrittenAgrees(h1.cards, h2.cards, sc.cards);
  }

  /** The cards of a hand as a number in base `|cards|`, the first card the
      most significant digit. */
  function CardsKey(s: string, cards: string): nat
  {
    if |s| == 0 then 0 else Strength(s[0], cards) * Pow(|cards|, |s| - 1) + CardsKey(s[1..], cards)
  }

  predicate AllListed(s: string, cards: string)
  {
    forall i :: 0 <= i < |s| ==> s[i] in cards
  }

  lemma AllListedTail(s: string, cards: string)
    requires |s| > 0 && AllListed(s, cards)
    ensures AllListed(s[1..], cards)
  {
    forall i | 0 <= i < |s| - 1 ensures s[1..][i] in cards {
      assert s[1..][i] == s[i + 1];
    }
  }

  /** A digit below the base, with anything below the digit's weight
      after it, stays below the next weight. */
  lemma DigitBelow(d: int, b: int, p: int, rest: int)
    requires 0 <= d < b && 0 <= rest < p
    ensures d * p + rest < b * p
  {
    assert (d + 1) * p <= b * p;
  }

  /** A smaller leading digit decides, whatever follows. */
  lemma DigitDecides(d1: int, d2: int, p: int, r1: int, r2: int)
    requires 0 <= d1 < d2 && 0 <= r1 < p && 0 <= r2
    ensures d1 * p + r1 < d2 * p + r2
  {
    assert (d1 + 1) * p <= d2 * p;
  }

  lemma {:induction false} CardsKeyBound(s: string, cards: string)
    requires AllListed(s, cards)
    ensures CardsKey(s, cards) < Pow(|cards|, |s|)
    decreases |s|
  {
    if |s| > 0 {
      AllListedTail(s, cards);
      CardsKeyBound(s[1..], cards);
      var b, d, p, rest := |cards|, Strength(s[0], cards), Pow(|cards|, |s| - 1), CardsKey(s[1..], cards);
      assert CardsKey(s, cards) == d * p + rest;
      assert Pow(b, |s|) == b * p;
      DigitBelow(d, b, p, rest);
    }
  }

  /** The key of the cards orders hands of one length as `order` does. */
  lemma {:induction false} CardsKeyOrder(s1: string, s2: string, cards: string)
    requires |s1| == |s2| && AllListed(s1, cards) && AllListed(s2, cards)
    requires FirstDiff(s1, s2, cards).Some?
    ensures FirstDiff(s1, s2, cards) == Some(-1) ==> CardsKey(s1, cards) < CardsKey(s2, cards)
    ensures FirstDiff(s1, s2, cards) == Some(1) ==> CardsKey(s1, cards) > CardsKey(s2, cards)
    decreases |s1|
  {
    var t1, t2 := s1[1..], s2[1..];
    AllListedTail(s1, cards);
    AllListedTail(s2, cards);
    CompareByStrength(s1[0], s2[0], cards);
    if s1[0] == s2[0] {
      CardsKeyOrder(t1, t2, cards);
    } else {
      CardsKeyBound(t1, cards);
      CardsKeyBound(t2, cards);
      LeadingCardDecides(s1, s2, cards);
    }
  }

  /** Different first cards decide the key, the rest being below its weight. */
  lemma LeadingCardDecides(s1: string, s2: string, cards: string)
    requires |s1| == |s2| > 0 && s1[0] != s2[0]
    requires CardsKey(s1[1..], cards) < Pow(|cards|, |s1| - 1) && CardsKey(s2[1..], cards) < Pow(|cards|, |s1| - 1)
    ensures Strength(s1[0], cards) < Strength(s2[0], cards) ==> CardsKey(s1, cards) < CardsKey(s2, cards)
    ensures Strength(s1[0], cards) > Strength(s2[0], cards) ==> CardsKey(s1, cards) > CardsKey(s2, cards)
  {
    var p := Pow(|cards|, |s1| - 1);
    var d1, d2, k1, k2 := Strength(s1[0], cards), Strength(s2[0], cards), CardsKey(s1[1..], cards), CardsKey(s2[1..], cards);
    KeyCompare(d1, d2, p, k1, k2, CardsKey(s1, cards), CardsKey(s2, cards));
  }

  lemma KeyCompare(d1: int, d2: int, p: int, k1: int, k2: int, key1: int, key2: int)
    requires d1 >= 0 && d2 >= 0 && 0 <= k1 < p && 0 <= k2 < p
    requires key1 == d1 * p + k1 && key2 == d2 * p + k2
    ensures d1 < d2 ==> key1 < key2
    ensures d1 > d2 ==> key1 > key2
  {
    if d1 < d2 {
      DigitDecides(d1, d2, p, k1, k2);
    } else if d1 > d2 {
      DigitDecides(d2, d1, p, k2, k1);
    }
  }

  /** A hand `solve` can rank: five listed cards and a type. */
  predicate ValidHand(h: Hand, sc: Scorer)
  {
    |h.cards| == 5 && AllListed(h.cards, sc.cards) && GetRank(CountsFor(h, sc)).Some?
  }

  /** The sort key: the rank, then the cards. */
  function HandKey(h: Hand, sc: Scorer): int
  {
    var rank := match GetRank(CountsFor(h, sc)) case Some(r) => r case None => 0;
    rank * Pow(|sc.cards|, 5) + CardsKey(h.cards, sc.cards)
  }

  function KeyOf(sc: Scorer): Hand -> int
  {
    h => HandKey(h, sc)
  }

  /** What the comparator calls less has the smaller key; for hands with
      different cards the converse holds too, and the keys differ. */
  lemma HandKeyOrder(h1: Hand, h2: Hand, sc: Scorer)
    requires ValidHand(h1, sc) && ValidHand(h2, sc)
    ensures HandCmp(h1, h2, sc) == Some(Less) ==> HandKey(h1, sc) < HandKey(h2, sc)
    ensures h1.cards != h2.cards ==> (HandCmp(h1, h2, sc) == Some(Less) <==> HandKey(h1, sc) < HandKey(h2, sc))
    ensures h1.cards != h2.cards ==> HandKey(h1, sc) != HandKey(h2, sc)
  {
    var r1, r2 := GetRank(CountsFor(h1, sc)).value, GetRank(CountsFor(h2, sc)).value;
    var p := Pow(|sc.cards|, 5);
    var k1, k2 := CardsKey(h1.cards, sc.cards), CardsKey(h2.cards, sc.cards);
    HandKeyIs(h1, sc, r1, p, k1);
    HandKeyIs(h2, sc, r2, p, k2);
    HandCmpIs(h1, h2, sc, r1, r2);
    if r1 != r2 {
      RankDecides(r1, r2, p, k1, k2);
    } else if h1.cards != h2.cards {
      FirstDiffDefined(h1.cards, h2.cards, sc.cards);
      CardsKeyOrder(h1.cards, h2.cards, sc.cards);
    } else {
      FirstDiffSame(h1.cards, sc.cards);
    }
  }

  lemma HandKeyIs(h: Hand, sc: Scorer, r: nat, p: nat, k: nat)
    requires ValidHand(h, sc) && r == GetRank(CountsFor(h, sc)).value
    requires p == Pow(|sc.cards|, 5) && k == CardsKey(h.cards, sc.cards)
    ensures HandKey(h, sc) == r * p + k && k < p
  {
    CardsKeyBound(h.cards, sc.cards);
  }

  lemma HandCmpIs(h1: Hand, h2: Hand, sc: Scorer, r1: nat, r2: nat)
    requires GetRank(CountsFor(h1, sc)) == Some(r1) && GetRank(CountsFor(h2, sc)) == Some(r2)
    ensures HandCmp(h1, h2, sc) == if r1 != r2 then Some(Cmp(r1, r2)) else Order(h1.cards, h2.cards, sc.cards)
  {
  }

  /** Different ranks decide the key whatever the cards. */
  lemma RankDecides(r1: int, r2: int, p: int, k1: int, k2: int)
    requires r1 >= 0 && r2 >= 0 && r1 != r2 && 0 <= k1 < p && 0 <= k2 < p
    ensures r1 < r2 <==> r1 * p + k1 < r2 * p + k2
    ensures r1 * p + k1 != r2 * p + k2
  {
    if r1 < r2 {
      DigitDecides(r1, r2, p, k1, k2);
    } else {
      DigitDecides(r2, r1, p, k2, k1);
    }
  }

  /** `solve`'s sum after the sort: each bid times the hand's place. */
  function Winnings(s: seq<Hand>): int
  {
    if |s| == 0 then 0 else Winnings(s[..|s| - 1]) + s[|s| - 1].bid * |s|
  }

  /** `solve`: the hands sorted by the comparator, then the bids weighted by
      position. The comparator panics when it meets a hand it cannot rank or
      two hands with the same cards, so every hand must be rankable and the
      cards of the hands different. */
  method Solve(hands: seq<Hand>, sc: Scorer) returns (r: int)
    requires forall i :: 0 <= i < |hands| ==> ValidHand(hands[i], sc)
    requires forall i, j :: 0 <= i < j < |hands| ==> hands[i].cards != hands[j].cards
    ensures r == Winnings(SortByKey(hands, KeyOf(sc)))
  {
    var sorted := SortByKey(hands, KeyOf(sc));
    r := SumWinnings(sorted);
  }

  /** The `enumerate().map(..).sum()` of `solve`. */
  method SumWinnings(sorted: seq<Hand>) returns (r: int)
    ensures r == Winnings(sorted)
  {
    r := 0;
    var i := 0;
    while i < |sorted|
      invariant 0 <= i <= |sorted|
      invariant r == Winnings(sorted[..i])
    {
      assert sorted[..i + 1][..i] == sorted[..i];
      r := r + sorted[i].bid * (i + 1);
      i := i + 1;
    }
    assert sorted[..i] == sorted;
  }

  /** The order `Solve` sums over: a rearrangement of the hands in which no
      hand is less, by the comparator as written, than one before it. */
  lemma SolveOrder(hands: seq<Hand>, sc: Scorer)
    requires forall i :: 0 <= i < |hands| ==> ValidHand(hands[i], sc)
    ensures var sorted := SortByKey(hands, KeyOf(sc));
      multiset(sorted) == multiset(hands)
      && forall i, j :: 0 <= i < j < |sorted| ==> HandCmpAsWritten(sorted[j], sorted[i], sc) != Some(Less)
  {
    var sorted := SortByKey(hands, KeyOf(sc));
    forall i, j | 0 <= i < j < |sorted| ensures HandCmpAsWritten(sorted[j], sorted[i], sc) != Some(Less) {
      assert sorted[i] in multiset(hands) && sorted[j] in multiset(hands);
      var a :| 0 <= a < |hands| && hands[a] == sorted[i];
      var b :| 0 <= b < |hands| && hands[b] == sorted[j];
      HandKeyOrder(sorted[j], sorted[i], sc);
      HandCmpLessAgrees(sorted[j], sorted[i], sc);
    }
  }
}
